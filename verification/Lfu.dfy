/** The least-frequently-used cache of the key-value server (KVS/greeter_async_server.cc): one
    doubly linked list with two dummy nodes per use count, newest first, a map from keys to nodes
    and the least use count. It refines an abstract cache in which every key carries its value, its
    use count and the time it was last touched. Nodes live in a memory of records, so that two
    lists may share one unless it is proved that they do not. */
module Lfu {

  // ---------------------------------------------------------------- linked lists in memory

  /** std::string, compared as a whole. */
  datatype Str = Str(chars: string)

  type Ref = nat

  datatype Node = Node(key: Str, value: Str, cnt: nat, next: Ref, prev: Ref)

  datatype List = List(size: int, head: Ref, tail: Ref)

  type Mem = map<Ref, Node>

  ghost predicate Link(mem: Mem, c: seq<Ref>, i: nat) {
    i + 1 < |c| ==> c[i] in mem && c[i + 1] in mem && mem[c[i]].next == c[i + 1] && mem[c[i + 1]].prev == c[i]
  }

  ghost predicate Distinct(c: seq<Ref>) {
    forall i: nat, j: nat :: i < j < |c| ==> c[i] != c[j]
  }

  /** The list runs through exactly the nodes of c, dummies first and last, both ways. */
  ghost predicate Chained(mem: Mem, l: List, c: seq<Ref>) {
    && |c| == l.size + 2 >= 2
    && l.head == c[0] && l.tail == c[l.size + 1]
    && Distinct(c)
    && forall i: nat :: Link(mem, c, i)
  }

  /** Only links differ. */
  ghost predicate SamePayload(mem: Mem, mem': Mem) {
    && mem'.Keys == mem.Keys
    && forall r :: r in mem ==> mem'[r].key == mem[r].key && mem'[r].value == mem[r].value && mem'[r].cnt == mem[r].cnt
  }

  ghost predicate SameOutside(mem: Mem, mem': Mem, c: set<Ref>) {
    forall r :: r in mem && r !in c ==> r in mem' && mem'[r] == mem[r]
  }

  lemma ChainedElsewhere(mem: Mem, mem': Mem, touched: set<Ref>, l: List, c: seq<Ref>)
    requires Chained(mem, l, c) && SameOutside(mem, mem', touched) && forall i :: 0 <= i < |c| ==> c[i] !in touched
    ensures Chained(mem', l, c)
  {
    forall i: nat ensures Link(mem', c, i) {
      assert Link(mem, c, i);
    }
  }

  /** The memory after addtoFront. */
  function Pushed(mem: Mem, head: Ref, first: Ref, node: Ref): Mem
    requires head in mem && first in mem && node in mem
  {
    var m1 := mem[node := mem[node].(next := first, prev := head)];
    var m2 := m1[head := m1[head].(next := node)];
    m2[first := m2[first].(prev := node)]
  }

  /** The memory after removeNode. */
  function Dropped(mem: Mem, before: Ref, after: Ref): Mem
    requires before in mem && after in mem
  {
    var m1 := mem[before := mem[before].(next := after)];
    m1[after := m1[after].(prev := before)]
  }

  lemma PushedChain(mem: Mem, l: List, c: seq<Ref>, node: Ref)
    requires Chained(mem, l, c) && node in mem && node !in c
    ensures Link(mem, c, 0) && mem[l.head].next == c[1]
    ensures var mem' := Pushed(mem, c[0], c[1], node);
            && Chained(mem', l.(size := l.size + 1), [c[0], node] + c[1..])
            && SamePayload(mem, mem') && SameOutside(mem, mem', {c[0], c[1], node})
  {
    assert Link(mem, c, 0);
    var mem', c' := Pushed(mem, c[0], c[1], node), [c[0], node] + c[1..];
    forall i: nat ensures Link(mem', c', i) {
      if 2 <= i < |c'| - 1 {
        assert Link(mem, c, i - 1);
        assert c'[i] == c[i - 1] && c'[i + 1] == c[i];
      }
    }
  }

  lemma DroppedChain(mem: Mem, l: List, c: seq<Ref>, k: nat)
    requires Chained(mem, l, c) && 0 < k < |c| - 1
    ensures Link(mem, c, k - 1) && Link(mem, c, k)
    ensures var mem' := Dropped(mem, c[k - 1], c[k + 1]);
            && Chained(mem', l.(size := l.size - 1), c[..k] + c[k + 1..])
            && SamePayload(mem, mem') && SameOutside(mem, mem', {c[k - 1], c[k + 1]})
  {
    assert Link(mem, c, k - 1) && Link(mem, c, k);
    var mem', c' := Dropped(mem, c[k - 1], c[k + 1]), c[..k] + c[k + 1..];
    forall i: nat ensures Link(mem', c', i) {
      if i < |c'| - 1 {
        assert Link(mem, c, i) && Link(mem, c, i + 1);
      }
    }
  }

  // ---------------------------------------------------------------- the abstract cache

  datatype Item = Item(value: Str, count: nat, touched: nat)

  datatype Cache = Cache(items: map<Str, Item>, now: nat)

  /** a goes before b does: used less often, or as often and touched earlier. */
  ghost predicate Before(a: Item, b: Item) {
    a.count < b.count || (a.count == b.count && a.touched < b.touched)
  }

  ghost predicate IsLeast(m: map<Str, Item>, k: Str) {
    k in m && forall j :: j in m && j != k ==> Before(m[k], m[j])
  }

  /** Every key was touched at its own time in the past. */
  ghost predicate Stamped(m: map<Str, Item>, now: nat) {
    && (forall k :: k in m ==> m[k].touched < now)
    && (forall j, k :: j in m && k in m && j != k ==> m[j].touched != m[k].touched)
  }

  lemma {:induction false} LeastExists(m: map<Str, Item>, now: nat)
    requires Stamped(m, now) && |m| > 0
    ensures exists k :: IsLeast(m, k)
  {
    var k :| k in m;
    var rest := m - {k};
    if |rest| == 0 {
      assert forall j :: j in m && j != k ==> j in rest;
      assert IsLeast(m, k);
    } else {
      LeastExists(rest, now);
      var l :| IsLeast(rest, l);
      LeastOfTwo(m, k, l);
    }
  }

  lemma LeastOfTwo(m: map<Str, Item>, k: Str, l: Str)
    requires k in m && IsLeast(m - {k}, l) && m[k].touched != m[l].touched
    ensures IsLeast(m, if Before(m[k], m[l]) then k else l)
  {
    forall j | j in m && j != k && j != l ensures Before(m[l], m[j]) {
      assert j in m - {k};
    }
  }

  /** The key to evict. */
  ghost function Least(m: map<Str, Item>): (k: Str)
    requires exists j :: IsLeast(m, j)
    ensures IsLeast(m, k)
  {
    var k :| IsLeast(m, k);
    k
  }

  lemma LeastUnique(m: map<Str, Item>, k: Str)
    requires IsLeast(m, k)
    ensures Least(m) == k
  {
    assert Least(m) != k ==> Before(m[k], m[Least(m)]);
  }

  ghost predicate Sound(cap: int, c: Cache) {
    Stamped(c.items, c.now) && (cap >= 0 ==> |c.items| <= cap)
  }

  ghost function Touch(c: Cache, k: Str, v: Str): Cache
    requires k in c.items
  {
    Cache(c.items[k := Item(v, c.items[k].count + 1, c.now)], c.now + 1)
  }

  ghost function Fresh(c: Cache, k: Str, v: Str): Cache {
    Cache(c.items[k := Item(v, 1, c.now)], c.now + 1)
  }

  ghost function Read(c: Cache, k: Str): (Cache, Str) {
    if k in c.items then (Touch(c, k, c.items[k].value), c.items[k].value) else (c, Str("-1"))
  }

  ghost function Write(cap: int, c: Cache, k: Str, v: Str): Cache
    requires Sound(cap, c)
  {
    if cap == 0 then c
    else if k in c.items then Touch(c, k, v)
    else if |c.items| == cap then
      LeastExists(c.items, c.now);
      Fresh(c.(items := c.items - {Least(c.items)}), k, v)
    else Fresh(c, k, v)
  }

  lemma TouchSound(cap: int, c: Cache, k: Str, v: Str)
    requires Sound(cap, c) && k in c.items
    ensures Sound(cap, Touch(c, k, v)) && |Touch(c, k, v).items| == |c.items|
  {
    assert Touch(c, k, v).items.Keys == c.items.Keys;
    SameSize(Touch(c, k, v).items, c.items);
  }

  lemma ReadSound(cap: int, c: Cache, k: Str)
    requires Sound(cap, c)
    ensures Sound(cap, Read(c, k).0)
  {
    if k in c.items {
      TouchSound(cap, c, k, c.items[k].value);
    }
  }

  lemma SameSize<K, V>(a: map<K, V>, b: map<K, V>)
    requires a.Keys == b.Keys
    ensures |a| == |b|
  {
    assert |a.Keys| == |a| && |b.Keys| == |b|;
  }

  lemma OneLess<K, V>(m: map<K, V>, k: K)
    requires k in m
    ensures |m - {k}| == |m| - 1
  {
    assert (m - {k}).Keys == m.Keys - {k};
    assert |m.Keys - {k}| == |m.Keys| - 1;
  }

  lemma OneMore<K, V>(m: map<K, V>, k: K, v: V)
    requires k !in m
    ensures |m[k := v]| == |m| + 1
  {
    assert m[k := v].Keys == m.Keys + {k};
    assert |m.Keys + {k}| == |m.Keys| + 1;
  }

  lemma WriteSound(cap: int, c: Cache, k: Str, v: Str)
    requires Sound(cap, c)
    ensures Sound(cap, Write(cap, c, k, v))
  {
    var c' := Write(cap, c, k, v);
    if cap == 0 {
    } else if k in c.items {
      TouchSound(cap, c, k, v);
    } else if |c.items| == cap {
      LeastExists(c.items, c.now);
      var m := c.items - {Least(c.items)};
      OneLess(c.items, Least(c.items));
      OneMore(m, k, Item(v, 1, c.now));
    } else {
      OneMore(c.items, k, Item(v, 1, c.now));
    }
  }

  /** What was put is what a get returns, unless the cache has no room at all. */
  lemma ReadAfterWrite(cap: int, c: Cache, k: Str, v: Str)
    requires Sound(cap, c)
    ensures Read(Write(cap, c, k, v), k).1 == if cap == 0 then Str("-1") else v
  {
    if cap == 0 {
      assert |c.items| == 0;
      assert c.items == map[];
    }
  }

  // ---------------------------------------------------------------- keys filed by use count

  /** Keys of each use count, newest first. */
  type Files = map<int, seq<Str>>

  ghost predicate Sorted(l: seq<Str>, f: int, items: map<Str, Item>) {
    && (forall i: nat :: i < |l| ==> l[i] in items && items[l[i]].count == f)
    && (forall i: nat, j: nat :: i < j < |l| ==> items[l[i]].touched > items[l[j]].touched)
  }

  /** Every key is in the file of its use count, and files run from the newest to the oldest. */
  ghost predicate Filed(files: Files, items: map<Str, Item>) {
    && (forall f :: f in files ==> f >= 1 && Sorted(files[f], f, items))
    && (forall k :: k in items ==> items[k].count in files && k in files[items[k].count])
  }

  /** minFreq names a non-empty file, the first of them. */
  ghost predicate MinOk(files: Files, items: map<Str, Item>, minFreq: int) {
    |items| > 0 ==> minFreq in files && files[minFreq] != [] && forall k :: k in items ==> minFreq <= items[k].count
  }

  ghost function Without(files: Files, f: int, i: nat): Files
    requires f in files && i < |files[f]|
  {
    files[f := files[f][..i] + files[f][i + 1..]]
  }

  ghost function With(files: Files, f: int, k: Str): Files
    requires f in files
  {
    files[f := [k] + files[f]]
  }

  /** A key stands in one place. */
  lemma OnePlace(files: Files, items: map<Str, Item>, f: int, i: nat, g: int, j: nat)
    requires Filed(files, items) && f in files && g in files && i < |files[f]| && j < |files[g]|
    ensures files[f][i] == files[g][j] ==> f == g && i == j
  {
    assert Sorted(files[f], f, items) && Sorted(files[g], g, items);
  }

  /** Key k goes in front of file f, a new one if need be. */
  ghost function Hooked(files: Files, f: int, k: Str): Files {
    With(if f in files then files else files[f := []], f, k)
  }

  lemma WithoutSorted(files: Files, items: map<Str, Item>, f: int, i: nat, g: int)
    requires Filed(files, items) && f in files && i < |files[f]| && g in files
    ensures Sorted(Without(files, f, i)[g], g, items - {files[f][i]})
  {
    var l, l' := files[g], Without(files, f, i)[g];
    assert Sorted(l, g, items);
    hide Filed;
    forall j: nat | j < |l'| ensures l'[j] in items && l'[j] != files[f][i] && items[l'[j]].count == g {
      OnePlace(files, items, f, i, g, if g == f && j >= i then j + 1 else j);
    }
  }

  lemma WithoutHas(files: Files, items: map<Str, Item>, f: int, i: nat, k: Str)
    requires Filed(files, items) && f in files && i < |files[f]| && k in items && k != files[f][i]
    ensures k in Without(files, f, i)[items[k].count]
  {
    var g := items[k].count;
    var j: nat :| j < |files[g]| && files[g][j] == k;
    if g == f {
      assert Without(files, f, i)[g][if j < i then j else j - 1] == k;
    }
  }

  lemma WithoutFiled(files: Files, items: map<Str, Item>, f: int, i: nat)
    requires Filed(files, items) && f in files && i < |files[f]|
    ensures Filed(Without(files, f, i), items - {files[f][i]})
  {
    var files', items' := Without(files, f, i), items - {files[f][i]};
    forall g | g in files' ensures g >= 1 && Sorted(files'[g], g, items') {
      WithoutSorted(files, items, f, i, g);
    }
    forall k | k in items' ensures items'[k].count in files' && k in files'[items'[k].count] {
      WithoutHas(files, items, f, i, k);
    }
  }

  /** Nothing was touched at this time or later. */
  ghost predicate Newest(items: map<Str, Item>, now: nat) {
    forall j :: j in items ==> items[j].touched < now
  }

  lemma WithSorted(files: Files, items: map<Str, Item>, f: int, k: Str, item: Item, g: int)
    requires g in files && Sorted(files[g], g, items) && f in files && k !in items && item.count == f
    requires Newest(items, item.touched)
    ensures Sorted(With(files, f, k)[g], g, items[k := item])
  {
  }

  lemma WithHas(files: Files, f: int, k: Str, g: int, j: Str)
    requires f in files && g in files && j in files[g]
    ensures j in With(files, f, k)[g]
  {
    var p: nat :| p < |files[g]| && files[g][p] == j;
    assert With(files, f, k)[g][if g == f then p + 1 else p] == j;
  }

  lemma WithFiled(files: Files, items: map<Str, Item>, f: int, k: Str, item: Item)
    requires Filed(files, items) && f in files && k !in items && item.count == f
    requires Newest(items, item.touched)
    ensures Filed(With(files, f, k), items[k := item])
  {
    hide Sorted, Newest;
    var files', items' := With(files, f, k), items[k := item];
    forall g | g in files' ensures Sorted(files'[g], g, items') {
      WithSorted(files, items, f, k, item, g);
    }
    forall j | j in items' ensures items'[j].count in files' && j in files'[items'[j].count] {
      if j == k {
        assert files'[f][0] == k;
      } else {
        WithHas(files, f, k, items[j].count, j);
      }
    }
  }

  lemma EmptyFiled(files: Files, items: map<Str, Item>, f: int)
    requires Filed(files, items) && f !in files && f >= 1
    ensures Filed(files[f := []], items)
  {
  }

  /** The last key of file minFreq is the least one. */
  lemma OldestIsLeast(files: Files, items: map<Str, Item>, minFreq: int)
    requires Filed(files, items) && MinOk(files, items, minFreq) && |items| > 0
    ensures IsLeast(items, files[minFreq][|files[minFreq]| - 1])
  {
    var l := files[minFreq];
    var v := l[|l| - 1];
    assert Sorted(l, minFreq, items);
    hide Filed;
    forall j | j in items && j != v ensures Before(items[v], items[j]) {
      if items[j].count == minFreq {
        InItsFile(files, items, j);
        var p: nat :| p < |l| && l[p] == j;
      }
    }
  }

  lemma InItsFile(files: Files, items: map<Str, Item>, k: Str)
    requires Filed(files, items) && k in items
    ensures items[k].count in files && k in files[items[k].count]
  {
  }

  /** minFreq after a key moves from file f to file f + 1: one more when that empties file minFreq. */
  lemma MinAfterTouch(files: Files, items: map<Str, Item>, minFreq: int, f: int, i: nat, files': Files, item: Item)
    requires Filed(files, items) && MinOk(files, items, minFreq) && f in files && i < |files[f]| && item.count == f + 1
    requires files' == Hooked(Without(files, f, i), f + 1, files[f][i])
    ensures var key := files[f][i]; var emptied := f == minFreq && |Without(files, f, i)[f]| == 0;
            MinOk(files', items[key := item], if emptied then minFreq + 1 else minFreq)
  {
    var key := files[f][i];
    var items' := items[key := item];
    assert Sorted(files[f], f, items);
    assert |items| > 0;
    var min' := if f == minFreq && |Without(files, f, i)[f]| == 0 then minFreq + 1 else minFreq;
    forall k | k in items' ensures min' <= items'[k].count {
      assert k != key ==> k in files[items[k].count];
    }
  }

  lemma MinAfterFresh(files: Files, items: map<Str, Item>, k: Str, item: Item)
    requires Filed(files, items) && item.count == 1
    ensures MinOk(Hooked(files, 1, k), items[k := item], 1)
  {
  }

  // ---------------------------------------------------------------- the linked structure

  /** The maps of the cache with the nodes of each list, the list of each node, and what the two
      maps stand for. */
  datatype View = View(mem: Mem, knMap: map<Str, Ref>, flMap: map<int, List>,
                       chains: map<int, seq<Ref>>, home: map<Ref, int>, files: Files, items: map<Str, Item>)

  ghost predicate Holds(knMap: map<Str, Ref>, c: seq<Ref>, l: seq<Str>) {
    |c| == |l| + 2 && forall i: nat :: i < |l| ==> l[i] in knMap && c[i + 1] == knMap[l[i]]
  }

  ghost predicate AtHome(home: map<Ref, int>, c: seq<Ref>, f: int) {
    forall i: nat :: i < |c| ==> c[i] in home && home[c[i]] == f
  }

  lemma HoldsWithout(knMap: map<Str, Ref>, c: seq<Ref>, l: seq<Str>, i: nat)
    requires Holds(knMap, c, l) && i < |l| && forall p: nat :: p < |l| && p != i ==> l[p] != l[i]
    ensures Holds(knMap - {l[i]}, c[..i + 1] + c[i + 2..], l[..i] + l[i + 1..])
  {
    var c', l' := c[..i + 1] + c[i + 2..], l[..i] + l[i + 1..];
    forall j: nat | j < |l'| ensures l'[j] in knMap - {l[i]} && c'[j + 1] == knMap[l'[j]] {
      var p := if j < i then j else j + 1;
      assert l'[j] == l[p] && c'[j + 1] == c[p + 1];
    }
  }

  lemma HoldsWith(knMap: map<Str, Ref>, c: seq<Ref>, l: seq<Str>, k: Str, n: Ref)
    requires Holds(knMap, c, l) && k !in knMap
    ensures Holds(knMap[k := n], [c[0], n] + c[1..], [k] + l)
  {
    var c', l' := [c[0], n] + c[1..], [k] + l;
    forall j: nat | j < |l'| ensures l'[j] in knMap[k := n] && c'[j + 1] == knMap[k := n][l'[j]] {
      if j > 0 {
        assert l'[j] == l[j - 1] && c'[j + 1] == c[j];
      }
    }
  }

  lemma AtHomeWithout(home: map<Ref, int>, c: seq<Ref>, f: int, k: nat)
    requires AtHome(home, c, f) && Distinct(c) && k < |c|
    ensures AtHome(home - {c[k]}, c[..k] + c[k + 1..], f)
  {
    var c' := c[..k] + c[k + 1..];
    forall j: nat | j < |c'| ensures c'[j] in home - {c[k]} && home[c'[j]] == f {
      assert c'[j] == c[if j < k then j else j + 1];
    }
  }

  ghost predicate ListOk(v: View, f: int) {
    && f in v.flMap && f in v.chains && f in v.files
    && Chained(v.mem, v.flMap[f], v.chains[f])
    && AtHome(v.home, v.chains[f], f)
    && Holds(v.knMap, v.chains[f], v.files[f])
  }

  ghost predicate KeyOk(v: View, k: Str) {
    && k in v.knMap && k in v.items && v.knMap[k] in v.mem
    && var n, item := v.mem[v.knMap[k]], v.items[k]; n.key == k && n.value == item.value && n.cnt == item.count
  }

  ghost predicate DomainsOk(v: View) {
    && v.chains.Keys == v.flMap.Keys && v.files.Keys == v.flMap.Keys && v.items.Keys == v.knMap.Keys
    && forall r :: r in v.home ==> r in v.mem
  }

  ghost predicate ListsOk(v: View) {
    forall f :: f in v.flMap ==> ListOk(v, f)
  }

  ghost predicate KeysOk(v: View) {
    forall k :: k in v.knMap ==> KeyOk(v, k)
  }

  ghost predicate Linked(v: View) {
    DomainsOk(v) && ListsOk(v) && KeysOk(v)
  }

  lemma KeyKept(v: View, v': View, k: Str)
    requires KeyOk(v, k) && SamePayload(v.mem, v'.mem) && k in v'.knMap && k in v'.items
    requires v'.knMap[k] == v.knMap[k] && v'.items[k] == v.items[k]
    ensures KeyOk(v', k)
  {
  }

  /** Key i of file f is erased and its node unlinked. */
  ghost function CutView(v: View, f: int, i: nat): View
    requires Linked(v) && f in v.files && i < |v.files[f]|
  {
    assert ListOk(v, f);
    var c, l, key := v.chains[f], v.flMap[f], v.files[f][i];
    assert Link(v.mem, c, i) && Link(v.mem, c, i + 1);
    View(Dropped(v.mem, c[i], c[i + 2]), v.knMap - {key}, v.flMap[f := l.(size := l.size - 1)],
         v.chains[f := c[..i + 1] + c[i + 2..]], v.home - {c[i + 1]}, Without(v.files, f, i), v.items - {key})
  }

  ghost predicate MayCut(v: View, f: int, i: nat) {
    Linked(v) && Filed(v.files, v.items) && f in v.files && i < |v.files[f]|
  }

  lemma CutTarget(v: View, f: int, i: nat)
    requires MayCut(v, f, i)
    ensures ListOk(CutView(v, f, i), f)
  {
    var c, l, v' := v.chains[f], v.files[f], CutView(v, f, i);
    assert ListOk(v, f);
    assert Chained(v'.mem, v'.flMap[f], v'.chains[f]) by {
      DroppedChain(v.mem, v.flMap[f], c, i + 1);
    }
    assert AtHome(v'.home, v'.chains[f], f) by {
      AtHomeWithout(v.home, c, f, i + 1);
    }
    assert Holds(v'.knMap, v'.chains[f], v'.files[f]) by {
      forall p: nat | p < |l| && p != i ensures l[p] != l[i] {
        OnePlace(v.files, v.items, f, i, f, p);
      }
      HoldsWithout(v.knMap, c, l, i);
    }
  }

  /** No list shares a node with another. */
  lemma ListsApart(v: View, f: int, g: int, i: nat, j: nat)
    requires ListOk(v, f) && ListOk(v, g) && f != g && i < |v.chains[f]| && j < |v.chains[g]|
    ensures v.chains[f][i] != v.chains[g][j]
  {
    assert v.home[v.chains[f][i]] == f;
  }

  lemma CutChain(v: View, f: int, i: nat, g: int)
    requires MayCut(v, f, i) && g in v.flMap && g != f
    ensures Chained(CutView(v, f, i).mem, v.flMap[g], v.chains[g])
  {
    var c, d, v' := v.chains[f], v.chains[g], CutView(v, f, i);
    assert ListOk(v, f) && ListOk(v, g);
    assert SameOutside(v.mem, v'.mem, {c[i], c[i + 2]}) by {
      DroppedChain(v.mem, v.flMap[f], c, i + 1);
    }
    hide Linked, Filed, Link, Distinct, Dropped, SamePayload, SameOutside, CutView, Chained;
    forall j | 0 <= j < |d| ensures d[j] !in {c[i], c[i + 2]} {
      ListsApart(v, f, g, i, j);
      ListsApart(v, f, g, i + 2, j);
    }
    ChainedElsewhere(v.mem, v'.mem, {c[i], c[i + 2]}, v.flMap[g], d);
  }

  lemma CutHome(v: View, f: int, i: nat, g: int)
    requires MayCut(v, f, i) && g in v.flMap && g != f
    ensures AtHome(CutView(v, f, i).home, v.chains[g], g)
  {
    assert ListOk(v, f) && ListOk(v, g);
    var d := v.chains[g];
    hide Linked, Filed, Chained, Dropped;
    forall j: nat | j < |d| ensures d[j] in CutView(v, f, i).home && v.home[d[j]] == g {
      ListsApart(v, f, g, i + 1, j);
    }
  }

  lemma CutHolds(v: View, f: int, i: nat, g: int)
    requires MayCut(v, f, i) && g in v.flMap && g != f
    ensures Holds(CutView(v, f, i).knMap, v.chains[g], v.files[g])
  {
    assert ListOk(v, f) && ListOk(v, g);
    hide Linked, Filed, Chained, Dropped, AtHome;
    forall j: nat | j < |v.files[g]| ensures v.files[g][j] in CutView(v, f, i).knMap {
      OnePlace(v.files, v.items, f, i, g, j);
    }
  }

  lemma CutOther(v: View, f: int, i: nat, g: int)
    requires MayCut(v, f, i) && g in v.flMap && g != f
    ensures ListOk(CutView(v, f, i), g)
  {
    assert ListOk(v, f) && ListOk(v, g);
    CutChain(v, f, i, g);
    CutHome(v, f, i, g);
    CutHolds(v, f, i, g);
    hide Filed, Chained, Dropped, AtHome, Holds;
  }

  lemma CutMem(v: View, f: int, i: nat)
    requires MayCut(v, f, i)
    ensures SamePayload(v.mem, CutView(v, f, i).mem)
  {
    assert ListOk(v, f);
    DroppedChain(v.mem, v.flMap[f], v.chains[f], i + 1);
    hide Filed, Chained, Dropped, SamePayload, SameOutside;
  }

  lemma CutDomains(v: View, f: int, i: nat)
    requires MayCut(v, f, i)
    ensures DomainsOk(CutView(v, f, i))
  {
    CutMem(v, f, i);
    hide Filed, ListsOk, ListOk, Dropped, KeysOk;
    assert CutView(v, f, i).mem.Keys == v.mem.Keys;
    hide SamePayload;
  }

  lemma CutKeys(v: View, f: int, i: nat)
    requires MayCut(v, f, i)
    ensures KeysOk(CutView(v, f, i))
  {
    CutMem(v, f, i);
    var v' := CutView(v, f, i);
    hide Filed, ListsOk, ListOk, Dropped, SamePayload, KeyOk;
    forall k | k in v'.knMap ensures KeyOk(v', k) {
      KeyKept(v, v', k);
    }
  }

  lemma CutLists(v: View, f: int, i: nat)
    requires MayCut(v, f, i)
    ensures ListsOk(CutView(v, f, i))
  {
    var v' := CutView(v, f, i);
    hide Filed, ListOk, KeysOk, Dropped;
    CutTarget(v, f, i);
    forall g | g in v'.flMap && g != f ensures ListOk(v', g) {
      CutOther(v, f, i, g);
    }
  }

  lemma CutLinked(v: View, f: int, i: nat)
    requires MayCut(v, f, i)
    ensures Linked(CutView(v, f, i))
  {
    CutDomains(v, f, i);
    CutKeys(v, f, i);
    CutLists(v, f, i);
    hide DomainsOk, ListsOk, KeysOk;
  }

  /** Node n, holding the key, its value and use count f, goes to the front of list f. */
  ghost function PushView(v: View, f: int, n: Ref, item: Item): View
    requires Linked(v) && f in v.flMap && n in v.mem
  {
    assert ListOk(v, f);
    var c, l, key := v.chains[f], v.flMap[f], v.mem[n].key;
    assert Link(v.mem, c, 0);
    View(Pushed(v.mem, c[0], c[1], n), v.knMap[key := n], v.flMap[f := l.(size := l.size + 1)],
         v.chains[f := [c[0], n] + c[1..]], v.home[n := f], With(v.files, f, key), v.items[key := item])
  }

  ghost predicate MayPush(v: View, f: int, n: Ref) {
    Linked(v) && f in v.flMap && n in v.mem && n !in v.home && v.mem[n].key !in v.knMap
  }

  lemma PushTarget(v: View, f: int, n: Ref, item: Item)
    requires MayPush(v, f, n)
    ensures n !in v.chains[f] && ListOk(PushView(v, f, n, item), f)
    ensures SamePayload(v.mem, PushView(v, f, n, item).mem)
  {
    var v', c := PushView(v, f, n, item), v.chains[f];
    assert ListOk(v, f);
    assert n !in c by {
      assert forall j: nat :: j < |c| ==> c[j] != n;
    }
    assert Chained(v'.mem, v'.flMap[f], v'.chains[f]) && SamePayload(v.mem, v'.mem) by {
      PushedChain(v.mem, v.flMap[f], c, n);
    }
    assert AtHome(v'.home, v'.chains[f], f);
    assert Holds(v'.knMap, v'.chains[f], v'.files[f]) by {
      HoldsWith(v.knMap, c, v.files[f], v.mem[n].key, n);
    }
  }

  /** Where linking a node in changes memory. */
  lemma PushMem(v: View, f: int, n: Ref, item: Item)
    requires MayPush(v, f, n)
    ensures |v.chains[f]| >= 2 && SameOutside(v.mem, PushView(v, f, n, item).mem, {v.chains[f][0], v.chains[f][1], n})
  {
    PushTarget(v, f, n, item);
    assert ListOk(v, f);
    PushedChain(v.mem, v.flMap[f], v.chains[f], n);
  }

  lemma PushApart(v: View, f: int, n: Ref, g: int, j: nat)
    requires MayPush(v, f, n) && g in v.flMap && g != f && j < |v.chains[g]| && |v.chains[f]| >= 2
    ensures v.chains[g][j] !in {v.chains[f][0], v.chains[f][1], n}
  {
    assert ListOk(v, f) && ListOk(v, g);
    hide Linked, Chained, Holds;
    ListsApart(v, f, g, 0, j);
    ListsApart(v, f, g, 1, j);
  }

  lemma PushOther(v: View, f: int, n: Ref, item: Item, g: int)
    requires MayPush(v, f, n) && g in v.flMap && g != f
    ensures ListOk(PushView(v, f, n, item), g)
  {
    var v', c, d := PushView(v, f, n, item), v.chains[f], v.chains[g];
    assert ListOk(v, g);
    PushMem(v, f, n, item);
    hide Chained, Link, Pushed, SameOutside, Linked;
    forall j: nat | j < |d| ensures d[j] !in {c[0], c[1], n} {
      PushApart(v, f, n, g, j);
    }
    ChainedElsewhere(v.mem, v'.mem, {c[0], c[1], n}, v.flMap[g], d);
  }

  lemma PushLinked(v: View, f: int, n: Ref, item: Item)
    requires MayPush(v, f, n) && v.mem[n].value == item.value && v.mem[n].cnt == item.count
    ensures Linked(PushView(v, f, n, item))
  {
    var v' := PushView(v, f, n, item);
    PushTarget(v, f, n, item);
    hide Chained, Link, Pushed, ListOk;
    forall g | g in v'.flMap ensures ListOk(v', g) {
      if g != f {
        PushOther(v, f, n, item, g);
      }
    }
    forall k | k in v'.knMap ensures KeyOk(v', k) {
      assert k != v.mem[n].key ==> KeyOk(v, k);
    }
  }

  /** Memory that no list uses may change. */
  lemma MemoryKept(v: View, mem': Mem, n: Ref)
    requires Linked(v) && SameOutside(v.mem, mem', {n}) && n !in v.home
    requires (n in v.mem ==> n in mem' && v.mem[n].key !in v.knMap)
    ensures Linked(v.(mem := mem'))
  {
    var v' := v.(mem := mem');
    forall g | g in v.flMap ensures ListOk(v', g) {
      assert ListOk(v, g);
      ChainedElsewhere(v.mem, mem', {n}, v.flMap[g], v.chains[g]);
    }
    forall k | k in v.knMap ensures KeyOk(v', k) {
      assert KeyOk(v, k);
    }
  }

  /** A new empty list for use count f. */
  ghost function NewListView(v: View, f: int, l: List): View {
    v.(flMap := v.flMap[f := l], chains := v.chains[f := [l.head, l.tail]],
       home := v.home[l.head := f][l.tail := f], files := v.files[f := []])
  }

  lemma NewListLinked(v: View, f: int, l: List)
    requires Linked(v) && f !in v.flMap && l.head !in v.home && l.tail !in v.home && Chained(v.mem, l, [l.head, l.tail])
    ensures Linked(NewListView(v, f, l))
  {
    var v' := NewListView(v, f, l);
    assert Link(v.mem, [l.head, l.tail], 0);
    forall g | g in v'.flMap ensures ListOk(v', g) {
      assert g != f ==> ListOk(v, g);
    }
    forall k | k in v'.knMap ensures KeyOk(v', k) {
      assert KeyOk(v, k);
    }
  }

  /** A new value for a key that is there. */
  lemma ValueLinked(v: View, k: Str, value: Str)
    requires Linked(v) && k in v.knMap
    ensures KeyOk(v, k)
    ensures var n := v.knMap[k];
            Linked(v.(mem := v.mem[n := v.mem[n].(value := value)], items := v.items[k := v.items[k].(value := value)]))
  {
    assert KeyOk(v, k);
    var n := v.knMap[k];
    var v' := v.(mem := v.mem[n := v.mem[n].(value := value)], items := v.items[k := v.items[k].(value := value)]);
    forall g | g in v.flMap ensures ListOk(v', g) {
      assert ListOk(v, g);
      SameLinks(v.mem, v'.mem, v.flMap[g], v.chains[g]);
    }
    forall j | j in v.knMap ensures KeyOk(v', j) {
      assert KeyOk(v, j);
    }
  }

  lemma SameLinks(mem: Mem, mem': Mem, l: List, c: seq<Ref>)
    requires Chained(mem, l, c) && mem'.Keys == mem.Keys
    requires forall r :: r in mem ==> mem'[r].next == mem[r].next && mem'[r].prev == mem[r].prev
    ensures Chained(mem', l, c)
  {
    forall i: nat ensures Link(mem', c, i) {
      assert Link(mem, c, i);
    }
  }

  lemma ValueFiled(files: Files, items: map<Str, Item>, k: Str, value: Str)
    requires Filed(files, items) && k in items
    ensures Filed(files, items[k := items[k].(value := value)])
  {
    var items' := items[k := items[k].(value := value)];
    forall f | f in files ensures Sorted(files[f], f, items') {
      assert Sorted(files[f], f, items);
    }
  }

  // ---------------------------------------------------------------- the cache of the server

  class LFUCache {
    var mem: Mem
    /** Addresses from here on are free. */
    var brk: Ref
    var knMap: map<Str, Ref>
    var flMap: map<int, List>
    const mxsize: int
    var minFreq: int
    var currentSize: int

    /** What the fields stand for. */
    ghost var view: View
    ghost var now: nat

    ghost function Abs(): Cache
      reads this
    {
      Cache(view.items, now)
    }

    ghost predicate Shaped()
      reads this
    {
      && view.mem == mem && view.knMap == knMap && view.flMap == flMap
      && Linked(view) && Filed(view.files, view.items)
      && forall r :: r in mem ==> r < brk
    }

    ghost predicate Valid()
      reads this
    {
      && Shaped()
      && Sound(mxsize, Abs()) && currentSize == |view.items|
      && MinOk(view.files, view.items, minFreq)
    }

    constructor (capacity: int)
      ensures Valid() && mxsize == capacity && Abs() == Cache(map[], 0)
    {
      mxsize, minFreq, currentSize := capacity, 0, 0;
      mem, brk, knMap, flMap := map[], 0, map[], map[];
      view, now := View(map[], map[], map[], map[], map[], map[], map[]), 0;
    }

    method NewNode(key: Str, value: Str) returns (n: Ref)
      requires forall r :: r in mem ==> r < brk
      modifies this`mem, this`brk
      ensures n !in old(mem) && n in mem && mem == old(mem)[n := mem[n]] && forall r :: r in mem ==> r < brk
      ensures mem[n].key == key && mem[n].value == value && mem[n].cnt == 1
    {
      n := brk;
      mem, brk := mem[n := Node(key, value, 1, 0, 0)], brk + 1;
    }

    method NewList() returns (l: List)
      requires forall r :: r in mem ==> r < brk
      modifies this`mem, this`brk
      ensures forall r :: r in mem ==> r < brk
      ensures l.head !in old(mem) && l.tail !in old(mem) && Chained(mem, l, [l.head, l.tail])
      ensures mem.Keys == old(mem).Keys + {l.head, l.tail} && SameOutside(old(mem), mem, {})
    {
      var head := NewNode(Str("0"), Str("0"));
      var tail := NewNode(Str("0"), Str("0"));
      mem := mem[head := mem[head].(next := tail)];
      mem := mem[tail := mem[tail].(prev := head)];
      l := List(0, head, tail);
    }

    method AddToFront(list: List, node: Ref, ghost c: seq<Ref>) returns (l: List)
      requires Chained(mem, list, c) && node in mem && node !in c
      modifies this`mem
      ensures Link(old(mem), c, 0)
      ensures mem == Pushed(old(mem), c[0], c[1], node) && l == list.(size := list.size + 1)
    {
      PushedChain(mem, list, c, node);
      var temp := mem[list.head].next;
      mem := mem[node := mem[node].(next := temp)];
      mem := mem[node := mem[node].(prev := list.head)];
      mem := mem[list.head := mem[list.head].(next := node)];
      mem := mem[temp := mem[temp].(prev := node)];
      l := list.(size := list.size + 1);
    }

    method RemoveNode(list: List, delnode: Ref, ghost c: seq<Ref>, ghost k: nat) returns (l: List)
      requires Chained(mem, list, c) && 0 < k < |c| - 1 && delnode == c[k]
      modifies this`mem
      ensures Link(old(mem), c, k - 1) && Link(old(mem), c, k)
      ensures mem == Dropped(old(mem), c[k - 1], c[k + 1]) && l == list.(size := list.size - 1)
    {
      DroppedChain(mem, list, c, k);
      var delprev, delnext := mem[delnode].prev, mem[delnode].next;
      mem := mem[delprev := mem[delprev].(next := delnext)];
      mem := mem[delnext := mem[delnext].(prev := delprev)];
      l := list.(size := list.size - 1);
    }

    /** knMap.erase, then removeNode of node k of the list for its use count. */
    method EraseAndRemove(node: Ref, ghost c: seq<Ref>, ghost k: nat)
      requires node in mem && mem[node].cnt in flMap && Chained(mem, flMap[mem[node].cnt], c) && 0 < k < |c| - 1
      requires node == c[k]
      requires c[k - 1] in mem && c[k + 1] in mem
      modifies this`mem, this`knMap, this`flMap
      ensures mem == Dropped(old(mem), c[k - 1], c[k + 1])
      ensures knMap == old(knMap) - {old(mem)[node].key}
      ensures var f := old(mem)[node].cnt; flMap == old(flMap)[f := old(flMap)[f].(size := old(flMap)[f].size - 1)]
    {
      hide Chained, Dropped;
      knMap := knMap - {mem[node].key};
      var cnt := mem[node].cnt;
      var l := RemoveNode(flMap[cnt], node, c, k);
      flMap := flMap[cnt := l];
    }

    /** The same, as the removal of key i of file f. */
    method Unhook(node: Ref, ghost f: int, ghost i: nat)
      requires Shaped() && f in view.files && i < |view.files[f]| && view.files[f][i] in knMap
      requires node == knMap[view.files[f][i]]
      modifies this`mem, this`knMap, this`flMap, this`view
      ensures Shaped() && view == CutView(old(view), f, i)
    {
      hide Linked, Filed, Chained, Dropped, CutView, Without;
      ghost var v := view;
      CutCode(v, f, i);
      CutFields(v, f, i);
      EraseAndRemove(node, v.chains[f], i + 1);
      view := CutView(v, f, i);
    }

    /** A new list, dropped again if there is one for use count f: v2 is the view with that list. */
    method PickList(f: int, ghost node: Ref) returns (list: List, ghost v2: View)
      requires Shaped() && f >= 1 && node in mem && node !in view.home && mem[node].key !in knMap
      modifies this`mem, this`brk
      ensures SameOutside(old(mem), mem, {}) && node in mem && mem[node] == old(mem)[node]
      ensures forall r :: r in mem ==> r < brk
      ensures v2.mem == mem && v2.knMap == knMap && v2.flMap == flMap[f := list] && v2.items == view.items
      ensures v2.files == (if f in view.files then view.files else view.files[f := []])
      ensures Linked(v2) && Filed(v2.files, v2.items) && node !in v2.home
    {
      hide Linked, Filed, Chained, Link;
      ghost var v := view;
      list := NewList();
      MemoryKept(v, mem, node);
      v2 := v.(mem := mem);
      HomeInMem(v, v2);
      if f in flMap {
        list := flMap[f];
        assert flMap[f := list] == flMap;
      } else {
        NewListLinked(v2, f, list);
        EmptyFiled(v2.files, v2.items, f);
        v2 := NewListView(v2, f, list);
      }
    }

    /** addtoFront of the list for use count f, then both maps. */
    method Hook(node: Ref, f: int, ghost item: Item)
      requires Shaped() && f >= 1 && node in mem && node !in view.home && mem[node].key !in knMap
      requires mem[node].value == item.value && mem[node].cnt == item.count == f
      requires Newest(view.items, item.touched)
      modifies this`mem, this`brk, this`knMap, this`flMap, this`view
      ensures Shaped() && view.items == old(view).items[old(mem)[node].key := item]
      ensures view.files == Hooked(old(view).files, f, old(mem)[node].key)
    {
      hide Linked, Filed, Chained, Link, PushView, Pushed, SamePayload, SameOutside, With, Newest;
      var list: List;
      ghost var v2;
      list, v2 := PickList(f, node);
      PushDone(v2, f, node, item);
      AddAndStore(list, node, v2.chains[f], f);
      assert flMap == v2.flMap[f := v2.flMap[f].(size := v2.flMap[f].size + 1)];
      view := PushView(v2, f, node, item);
    }

    method AddAndStore(list: List, node: Ref, ghost c: seq<Ref>, f: int)
      requires node in mem && Chained(mem, list, c) && node !in c && |c| >= 2 && c[0] in mem && c[1] in mem
      modifies this`mem, this`knMap, this`flMap
      ensures mem == Pushed(old(mem), c[0], c[1], node) && mem.Keys == old(mem).Keys
      ensures knMap == old(knMap)[old(mem)[node].key := node]
      ensures flMap == old(flMap)[f := list.(size := list.size + 1)]
    {
      var l := AddToFront(list, node, c);
      flMap := flMap[f := l];
      knMap := knMap[mem[node].key := node];
    }

    /** The node's use count goes up. */
    method Bump(node: Ref)
      requires Shaped() && node in mem && node !in view.home && mem[node].key !in knMap
      modifies this`mem, this`view
      ensures Shaped() && view == old(view).(mem := mem)
      ensures mem == old(mem)[node := old(mem)[node].(cnt := old(mem)[node].cnt + 1)]
    {
      hide Linked, Filed;
      ghost var v := view;
      mem := mem[node := mem[node].(cnt := mem[node].cnt + 1)];
      MemoryKept(v, mem, node);
      view := v.(mem := mem);
    }

    /** The first half of updateflMap: key i of file f leaves its list and its count goes up. */
    method Detach(node: Ref, ghost f: int, ghost i: nat)
      requires Shaped() && f in view.files && i < |view.files[f]| && view.files[f][i] in knMap
      requires node == knMap[view.files[f][i]]
      modifies this`mem, this`knMap, this`flMap, this`minFreq, this`view
      ensures Shaped() && view.files == Without(old(view).files, f, i)
      ensures view.items == old(view).items - {old(view).files[f][i]}
      ensures node in mem && node !in view.home && mem[node].key == old(view).files[f][i] && mem[node].key !in knMap
      ensures old(view).files[f][i] in old(view).items
      ensures mem[node].value == old(view).items[old(view).files[f][i]].value
      ensures mem[node].cnt == f + 1
      ensures minFreq == if f == old(minFreq) && |view.files[f]| == 0 then old(minFreq) + 1 else old(minFreq)
    {
      hide Linked, Filed, CutView, Without;
      CutCode(view, f, i);
      CutOutcome(view, f, i);
      Unhook(node, f, i);
      var cnt := mem[node].cnt;
      if cnt == minFreq && flMap[cnt].size == 0 {
        minFreq := minFreq + 1;
      }
      Bump(node);
    }

    /** updateflMap: the key is touched. */
    method UpdateFlMap(node: Ref, ghost k: Str)
      requires Valid() && k in knMap && node == knMap[k]
      modifies this`mem, this`brk, this`knMap, this`flMap, this`minFreq, this`view, this`now
      ensures Valid() && k in old(view).items && Abs() == Touch(old(Abs()), k, old(view).items[k].value)
    {
      hide Linked, Filed, MinOk, Sound, Without, Hooked, Newest, PlaceOf, Touch;
      ghost var v, c := view, Abs();
      ghost var f, i := PlaceOf(v, k).0, PlaceOf(v, k).1;
      Detach(node, f, i);
      ghost var item := Item(v.items[k].value, f + 1, now);
      Past(mxsize, c, k);
      Hook(node, mem[node].cnt, item);
      now := now + 1;
      TouchDone(mxsize, c, v.files, old(minFreq), f, i, view.files, view.items);
    }

    method Get(key: Str) returns (val: Str)
      requires Valid()
      modifies this`mem, this`brk, this`knMap, this`flMap, this`minFreq, this`view, this`now
      ensures Valid() && (Abs(), val) == Read(old(Abs()), key)
    {
      ValueThere(view, key);
      hide Linked, Filed, MinOk, Sound;
      if key in knMap {
        var node := knMap[key];
        val := mem[node].value;
        UpdateFlMap(node, key);
        return;
      }
      return Str("-1");
    }

    /** node->value = value for a key that is there. */
    method SetValue(key: Str, value: Str)
      requires Valid() && key in knMap
      modifies this`mem, this`view
      ensures Valid() && key in old(view).items && key in knMap
      ensures Abs() == old(Abs()).(items := old(view).items[key := old(view).items[key].(value := value)])
    {
      hide Linked, Filed, MinOk, Sound;
      ghost var v, c := view, Abs();
      ValueLinked(v, key, value);
      ValueFiled(v.files, v.items, key, value);
      ValueSound(mxsize, c, v.files, minFreq, key, value);
      var node := knMap[key];
      mem := mem[node := mem[node].(value := value)];
      view := v.(mem := mem, items := v.items[key := v.items[key].(value := value)]);
    }

    /** The eviction: the last node of the list for minFreq goes. */
    method Evict() returns (ghost victim: Str)
      requires Valid() && 0 < |view.items|
      modifies this`mem, this`knMap, this`flMap, this`currentSize, this`view
      ensures Shaped() && IsLeast(old(view).items, victim)
      ensures view.items == old(view).items - {victim} && currentSize == |view.items| == |old(view).items| - 1
      ensures knMap.Keys == view.items.Keys
    {
      hide Linked, Filed, Sound, CutView, IsLeast, Without;
      ghost var v, f := view, minFreq;
      OldestIsLeast(v.files, v.items, f);
      ghost var i: nat := |v.files[f]| - 1;
      victim := v.files[f][i];
      LastNode(v, f);
      CutOutcome(v, f, i);
      var list := flMap[minFreq];
      var last := mem[list.tail].prev;
      Unhook(last, f, i);
      currentSize := currentSize - 1;
      OneLess(v.items, v.files[f][i]);
      HomeInMem(view, view);
    }

    method FreshNode(key: Str, value: Str) returns (node: Ref)
      requires Shaped() && key !in knMap
      modifies this`mem, this`brk, this`view
      ensures Shaped() && view.files == old(view).files && view.items == old(view).items
      ensures node in mem && node !in view.home && mem[node].key == key && mem[node].value == value
      ensures mem[node].cnt == 1
    {
      hide Linked, Filed;
      ghost var v := view;
      HomeInMem(v, v);
      node := NewNode(key, value);
      MemoryKept(v, mem, node);
      view := v.(mem := mem);
    }

    /** A key that is not there yet, with room for it. */
    method Insert(key: Str, value: Str)
      requires Shaped() && key !in knMap && currentSize == |view.items| && (mxsize >= 0 ==> currentSize < mxsize)
      requires Stamped(view.items, now)
      modifies this`mem, this`brk, this`knMap, this`flMap, this`minFreq, this`currentSize, this`view, this`now
      ensures Valid() && Abs() == Fresh(old(Abs()), key, value)
    {
      hide Linked, Filed, MinOk, Hooked, Sound, Stamped, Newest, Fresh;
      ghost var v, c := view, Abs();
      currentSize := currentSize + 1;
      minFreq := 1;
      StampedNewest(v.items, now);
      HomeInMem(v, v);
      var node := FreshNode(key, value);
      ghost var item := Item(value, 1, now);
      Hook(node, 1, item);
      now := now + 1;
      FreshDone(mxsize, c, v.files, key, item);
    }

    method Put(key: Str, value: Str)
      requires Valid()
      modifies this`mem, this`brk, this`knMap, this`flMap, this`minFreq, this`currentSize, this`view, this`now
      ensures Valid() && Abs() == Write(mxsize, old(Abs()), key, value)
    {
      hide Linked, Filed, MinOk, Stamped;
      HomeInMem(view, view);
      ghost var c := Abs();
      if mxsize == 0 {
        return;
      }
      if key in knMap {
        SetValue(key, value);
        var node := knMap[key];
        UpdateFlMap(node, key);
        assert Abs().items == Touch(c, key, value).items;
      } else {
        if currentSize == mxsize {
          ghost var victim := Evict();
          LeastUnique(c.items, victim);
          StampedRest(c.items, c.now, victim);
        }
        Insert(key, value);
      }
    }

    /** del takes the key out of its list and of knMap but lowers neither currentSize nor minFreq:
        the cache is still in order exactly when the key was not there. */
    method Del(key: Str)
      requires Valid()
      modifies this`mem, this`knMap, this`flMap, this`view
      ensures Shaped() && view.items == old(view).items - {key} && currentSize == old(currentSize)
      ensures view.files.Keys == old(view).files.Keys
      ensures Valid() <==> key !in old(view).items
      ensures key in old(view).items ==> currentSize == |view.items| + 1
    {
      hide Linked, Filed, Sound, CutView, Without, MinOk;
      ghost var v := view;
      HomeInMem(v, v);
      if key in knMap {
        ghost var place := PlaceOf(v, key);
        CutOutcome(v, place.0, place.1);
        OneLess(v.items, key);
        var node := knMap[key];
        Unhook(node, place.0, place.1);
      } else {
        assert v.items - {key} == v.items;
      }
    }
  }

  lemma ValueThere(v: View, k: Str)
    requires Linked(v)
    ensures k in v.knMap <==> k in v.items
    ensures k in v.knMap ==> v.knMap[k] in v.mem && v.mem[v.knMap[k]].value == v.items[k].value
  {
    assert k in v.knMap ==> KeyOk(v, k);
  }

  lemma ValueSound(cap: int, c: Cache, files: Files, minFreq: int, k: Str, value: Str)
    requires Sound(cap, c) && MinOk(files, c.items, minFreq) && k in c.items
    ensures var items := c.items[k := c.items[k].(value := value)];
            Sound(cap, Cache(items, c.now)) && |items| == |c.items| && MinOk(files, items, minFreq)
  {
    var items := c.items[k := c.items[k].(value := value)];
    assert items.Keys == c.items.Keys;
    SameSize(items, c.items);
  }

  lemma LastNode(v: View, f: int)
    requires Linked(v) && f in v.files && v.files[f] != []
    ensures f in v.flMap && v.flMap[f].tail in v.mem && v.files[f][|v.files[f]| - 1] in v.knMap
    ensures v.mem[v.flMap[f].tail].prev == v.knMap[v.files[f][|v.files[f]| - 1]]
  {
    assert ListOk(v, f) && Link(v.mem, v.chains[f], |v.chains[f]| - 2);
  }

  lemma StampedRest(m: map<Str, Item>, now: nat, k: Str)
    requires Stamped(m, now)
    ensures Stamped(m - {k}, now)
  {
  }

  lemma FreshDone(cap: int, c: Cache, files: Files, k: Str, item: Item)
    requires Stamped(c.items, c.now) && (cap >= 0 ==> |c.items| < cap) && k !in c.items && Filed(files, c.items)
    requires item == Item(item.value, 1, c.now)
    ensures var items' := c.items[k := item];
            && Cache(items', c.now + 1) == Fresh(c, k, item.value) && Sound(cap, Cache(items', c.now + 1))
            && |items'| == |c.items| + 1 && MinOk(Hooked(files, 1, k), items', 1)
  {
    hide Filed, MinOk, Hooked;
    OneMore(c.items, k, item);
    MinAfterFresh(files, c.items, k, item);
  }

  /** updateflMap on values: file f loses key i, file f + 1 gains it. */
  lemma TouchDone(cap: int, c: Cache, files: Files, minFreq: int, f: int, i: nat, files': Files, items': map<Str, Item>)
    requires Sound(cap, c) && Filed(files, c.items) && MinOk(files, c.items, minFreq) && f in files && i < |files[f]|
    requires files[f][i] in c.items && c.items[files[f][i]].count == f
    requires files' == Hooked(Without(files, f, i), f + 1, files[f][i])
    requires items' == (c.items - {files[f][i]})[files[f][i] := Item(c.items[files[f][i]].value, f + 1, c.now)]
    ensures var k := files[f][i]; var emptied := f == minFreq && |Without(files, f, i)[f]| == 0;
            && Cache(items', c.now + 1) == Touch(c, k, c.items[k].value) && Sound(cap, Cache(items', c.now + 1))
            && |items'| == |c.items| && MinOk(files', items', if emptied then minFreq + 1 else minFreq)
  {
    hide Filed, MinOk, Sound, Without, Hooked;
    var k := files[f][i];
    var item := Item(c.items[k].value, f + 1, c.now);
    assert items' == c.items[k := item];
    MinAfterTouch(files, c.items, minFreq, f, i, files', item);
    TouchSound(cap, c, k, c.items[k].value);
  }

  lemma Past(cap: int, c: Cache, k: Str)
    requires Sound(cap, c)
    ensures Newest(c.items - {k}, c.now)
  {
  }

  lemma StampedNewest(items: map<Str, Item>, now: nat)
    requires Stamped(items, now)
    ensures Newest(items, now)
  {
  }

  /** Where a key is. */
  ghost function PlaceOf(v: View, k: Str): (r: (int, nat))
    requires Linked(v) && Filed(v.files, v.items) && k in v.knMap
    ensures r.0 in v.files && r.1 < |v.files[r.0]| && v.files[r.0][r.1] == k && r.0 == v.items[k].count
  {
    var f := v.items[k].count;
    var i: nat :| i < |v.files[f]| && v.files[f][i] == k;
    (f, i)
  }

  lemma HomeInMem(v: View, v': View)
    requires Linked(v) && v'.home == v.home && Linked(v')
    ensures (forall r :: r in v.home ==> r in v.mem) && v.files.Keys == v.flMap.Keys && v.items.Keys == v.knMap.Keys
  {
  }

  lemma CutOutcome(v: View, f: int, i: nat)
    requires MayCut(v, f, i)
    ensures v.files[f][i] in v.items && v.files[f][i] in v.knMap && v.knMap[v.files[f][i]] in v.mem
    ensures v.mem[v.knMap[v.files[f][i]]].value == v.items[v.files[f][i]].value
    ensures var v' := CutView(v, f, i);
            && v'.files == Without(v.files, f, i) && v'.files.Keys == v.files.Keys
            && v'.items == v.items - {v.files[f][i]} && v'.knMap == v.knMap - {v.files[f][i]}
            && f in v'.flMap && v'.flMap[f].size == |v'.files[f]|
  {
    CutTarget(v, f, i);
    assert ListOk(v, f) && KeyOk(v, v.files[f][i]);
    hide Chained, Filed, AtHome;
    assert ListOk(CutView(v, f, i), f);
  }

  lemma PushFields(v: View, f: int, n: Ref, item: Item)
    requires MayPush(v, f, n)
    ensures f in v.chains && f in v.files && |v.chains[f]| >= 2 && n !in v.chains[f]
    ensures Chained(v.mem, v.flMap[f], v.chains[f])
    ensures v.chains[f][0] in v.mem && v.chains[f][1] in v.mem
    ensures PushView(v, f, n, item).mem == Pushed(v.mem, v.chains[f][0], v.chains[f][1], n)
    ensures PushView(v, f, n, item).knMap == v.knMap[v.mem[n].key := n]
    ensures PushView(v, f, n, item).flMap == v.flMap[f := v.flMap[f].(size := v.flMap[f].size + 1)]
    ensures PushView(v, f, n, item).files == With(v.files, f, v.mem[n].key)
    ensures PushView(v, f, n, item).items == v.items[v.mem[n].key := item]
    ensures SamePayload(v.mem, PushView(v, f, n, item).mem)
  {
    PushTarget(v, f, n, item);
    assert ListOk(v, f) && Link(v.mem, v.chains[f], 0);
    hide Chained, Link, AtHome, Holds, SamePayload;
  }

  /** What Hook finds and leaves behind. */
  lemma PushDone(v: View, f: int, n: Ref, item: Item)
    requires MayPush(v, f, n) && Filed(v.files, v.items) && Newest(v.items, item.touched)
    requires v.mem[n].value == item.value && v.mem[n].cnt == item.count == f
    ensures f in v.chains && f in v.files && f in v.flMap && Chained(v.mem, v.flMap[f], v.chains[f])
    ensures var c, v' := v.chains[f], PushView(v, f, n, item);
            && |c| >= 2 && n !in c && c[0] in v.mem && c[1] in v.mem
            && v'.mem == Pushed(v.mem, c[0], c[1], n) && v'.knMap == v.knMap[v.mem[n].key := n]
            && v'.flMap == v.flMap[f := v.flMap[f].(size := v.flMap[f].size + 1)]
            && v'.files == With(v.files, f, v.mem[n].key) && v'.items == v.items[v.mem[n].key := item]
            && Linked(v') && Filed(v'.files, v'.items)
  {
    hide Linked, Filed, Chained, PushView, Pushed, SamePayload, With, Newest;
    HomeInMem(v, v);
    PushFields(v, f, n, item);
    WithFiled(v.files, v.items, f, v.mem[n].key, item);
    PushLinked(v, f, n, item);
  }

  lemma CutFields(v: View, f: int, i: nat)
    requires MayCut(v, f, i)
    ensures f in v.chains && f in v.flMap && i + 2 < |v.chains[f]| && v.chains[f][i] in v.mem
    ensures v.chains[f][i + 2] in v.mem
    ensures CutView(v, f, i).mem == Dropped(v.mem, v.chains[f][i], v.chains[f][i + 2])
    ensures CutView(v, f, i).knMap == v.knMap - {v.files[f][i]}
    ensures CutView(v, f, i).flMap == v.flMap[f := v.flMap[f].(size := v.flMap[f].size - 1)]
  {
    assert ListOk(v, f) && Link(v.mem, v.chains[f], i) && Link(v.mem, v.chains[f], i + 1);
  }

  /** What Unhook finds at its node and leaves behind. */
  lemma CutCode(v: View, f: int, i: nat)
    requires MayCut(v, f, i)
    ensures f in v.chains && f in v.flMap && i + 2 < |v.chains[f]| && Chained(v.mem, v.flMap[f], v.chains[f])
    ensures v.files[f][i] in v.knMap && v.knMap[v.files[f][i]] == v.chains[f][i + 1]
    ensures var c, v' := v.chains[f], CutView(v, f, i); var n := c[i + 1];
            && c[i] in v.mem && c[i + 2] in v.mem && n in v.mem
            && v.mem[n].key == v.files[f][i] && v.mem[n].cnt == f
            && Linked(v') && Filed(v'.files, v'.items)
            && v'.mem.Keys == v.mem.Keys && n !in v'.home
            && v'.mem[n].key == v.mem[n].key && v'.mem[n].value == v.mem[n].value && v'.mem[n].cnt == f
  {
    CutLinked(v, f, i);
    WithoutFiled(v.files, v.items, f, i);
    CutMem(v, f, i);
    assert ListOk(v, f) && Sorted(v.files[f], f, v.items) && KeyOk(v, v.files[f][i]);
    hide Chained, Linked, Filed, Sorted;
  }

  lemma NoNodes(v: View, f: int)
    requires Linked(v) && f in v.files && v.files[f] == []
    ensures f in v.flMap && v.flMap[f].size == 0 && v.flMap[f].tail in v.mem
    ensures v.mem[v.flMap[f].tail].prev == v.flMap[f].head
  {
    assert ListOk(v, f) && Link(v.mem, v.chains[f], 0);
  }

  lemma MinThere(files: Files, items: map<Str, Item>, minFreq: int)
    requires MinOk(files, items, minFreq) && |items| > 0
    ensures minFreq in files
  {
  }

  lemma SortedKeys(l: seq<Str>, f: int, items: map<Str, Item>)
    requires Sorted(l, f, items) && l != []
    ensures items != map[]
  {
    assert l[0] in items;
  }

  lemma NoKeysNoFiles(files: Files, f: int)
    requires Filed(files, map[]) && f in files
    ensures files[f] == []
  {
    if files[f] != [] {
      SortedKeys(files[f], f, map[]);
    }
  }

  /** Why del spoils the cache: at capacity 1, after a put and a del of one key, the next put of
      another finds the cache full and evicts from an empty list. The node it takes for the last one
      is the list's own dummy head. */
  method DelThenFull(key: Str, value: Str) returns (cache: LFUCache)
    ensures fresh(cache) && cache.mxsize == 1 && cache.currentSize == 1 && cache.knMap == map[]
    ensures cache.minFreq in cache.flMap
    ensures var list := cache.flMap[cache.minFreq];
            list.size == 0 && list.tail in cache.mem && cache.mem[list.tail].prev == list.head
  {
    hide Linked, Filed, Sound, MinOk;
    cache := new LFUCache(1);
    cache.Put(key, value);
    ghost var items, f := cache.view.items, cache.minFreq;
    assert items == map[key := Item(value, 1, 0)];
    MinThere(cache.view.files, items, f);
    cache.Del(key);
    assert cache.view.items == map[];
    HomeInMem(cache.view, cache.view);
    NoKeysNoFiles(cache.view.files, f);
    NoNodes(cache.view, f);
  }

  // ---------------------------------------------------------------- whole runs

  datatype Op = GetOp(key: Str) | PutOp(key: Str, value: Str)

  /** The abstract cache after a run and the answers of its gets. */
  ghost function Replay(cap: int, ops: seq<Op>): (r: (Cache, seq<Str>))
    ensures Sound(cap, r.0)
  {
    if ops == [] then (Cache(map[], 0), [])
    else
      var (c, answers) := Replay(cap, ops[..|ops| - 1]);
      match ops[|ops| - 1]
      case GetOp(k) => ReadSound(cap, c, k); (Read(c, k).0, answers + [Read(c, k).1])
      case PutOp(k, v) => WriteSound(cap, c, k, v); (Write(cap, c, k, v), answers)
  }

  /** The value of the last put of a key in a run. */
  function LastPut(ops: seq<Op>, k: Str): (r: seq<Str>)
    ensures |r| <= 1
  {
    if ops == [] then []
    else
      var op := ops[|ops| - 1];
      if op.PutOp? && op.key == k then [op.value] else LastPut(ops[..|ops| - 1], k)
  }

  lemma WriteValue(cap: int, c: Cache, k: Str, v: Str, j: Str)
    requires Sound(cap, c)
    ensures var items := Write(cap, c, k, v).items;
            && (j == k && j in items && cap != 0 ==> items[j].value == v)
            && (j != k && j in items ==> j in c.items && items[j].value == c.items[j].value)
            && (cap == 0 ==> items == map[])
  {
    hide Stamped;
  }

  /** Whatever was evicted on the way, a key in the cache has the value of its last put. */
  lemma {:induction false} HitIsLastPut(cap: int, ops: seq<Op>, k: Str)
    ensures k in Replay(cap, ops).0.items ==> LastPut(ops, k) == [Replay(cap, ops).0.items[k].value]
  {
    if ops == [] {
      assert Replay(cap, ops).0.items == map[];
    } else {
      var op, c := ops[|ops| - 1], Replay(cap, ops[..|ops| - 1]).0;
      HitIsLastPut(cap, ops[..|ops| - 1], k);
      if op.PutOp? {
        WriteValue(cap, c, op.key, op.value, k);
      }
      hide Sound, Write;
    }
  }

  // ---------------------------------------------------------------- the cache by its history

  /** How often a key is named from operation j on. */
  function Count(ops: seq<Op>, k: Str, j: nat): nat {
    if |ops| <= j then 0
    else Count(ops[..|ops| - 1], k, j) + if ops[|ops| - 1].key == k then 1 else 0
  }

  /** The last operation that names it. */
  function LastUse(ops: seq<Op>, k: Str): nat {
    if ops == [] then 0 else if ops[|ops| - 1].key == k then |ops| - 1 else LastUse(ops[..|ops| - 1], k)
  }

  /** The operation since which it has been in the cache. */
  ghost function Since(cap: int, ops: seq<Op>, k: Str): nat
    decreases |ops|, 0
  {
    if ops == [] then 0
    else if k !in Kept(cap, ops[..|ops| - 1]) then |ops| - 1
    else Since(cap, ops[..|ops| - 1], k)
  }

  /** The gets and puts of it since then. */
  ghost function Uses(cap: int, ops: seq<Op>, k: Str): nat
    decreases |ops|, 1
  {
    Count(ops, k, Since(cap, ops, k))
  }

  /** Of these keys x is used least, or as little as others and for the longest time not. */
  ghost predicate LeastUsed(cap: int, ops: seq<Op>, keys: set<Str>, x: Str)
    decreases |ops|, 2
  {
    && x in keys
    && forall y :: y in keys && y != x ==>
         || Uses(cap, ops, x) < Uses(cap, ops, y)
         || (Uses(cap, ops, x) == Uses(cap, ops, y) && LastUse(ops, x) < LastUse(ops, y))
  }

  /** The keys in the cache, by what was asked of it: a put brings its key in, and a full cache gives up
      the key that is used least. */
  ghost function Kept(cap: int, ops: seq<Op>): set<Str>
    decreases |ops|, 3
  {
    if ops == [] then {}
    else
      var before, keys, k := ops[..|ops| - 1], Kept(cap, ops[..|ops| - 1]), ops[|ops| - 1].key;
      if ops[|ops| - 1].GetOp? || cap == 0 || k in keys then keys
      else if |keys| == cap then keys - (set x | x in keys && LeastUsed(cap, before, keys, x)) + {k}
      else keys + {k}
  }

  /** What the gets return: the last value put for a key that is in the cache, else "-1". */
  ghost function Expected(cap: int, ops: seq<Op>): seq<Str> {
    if ops == [] then []
    else
      var before, op := ops[..|ops| - 1], ops[|ops| - 1];
      Expected(cap, before) +
      if op.PutOp? then [] else if op.key in Kept(cap, before) then LastPut(before, op.key) else [Str("-1")]
  }

  /** The abstract cache is what the history says. */
  ghost predicate Told(cap: int, ops: seq<Op>, c: Cache) {
    && c.items.Keys == Kept(cap, ops)
    && (forall k :: k in c.items ==> c.items[k].count == Uses(cap, ops, k))
    && (forall k :: k in c.items ==> LastUse(ops, k) < |ops|)
    && (forall j, k :: j in c.items && k in c.items ==>
          (c.items[j].touched < c.items[k].touched <==> LastUse(ops, j) < LastUse(ops, k)))
  }

  /** A key that stays while another is named keeps its history. */
  lemma UsesKept(cap: int, ops: seq<Op>, op: Op, k: Str)
    requires k in Kept(cap, ops)
    ensures Since(cap, ops + [op], k) == Since(cap, ops, k)
    ensures Uses(cap, ops + [op], k) == Uses(cap, ops, k) + if op.key == k then 1 else 0
    ensures LastUse(ops + [op], k) == if op.key == k then |ops| else LastUse(ops, k)
  {
    assert (ops + [op])[..|ops|] == ops;
    SinceBound(cap, ops, k);
  }

  lemma {:induction false} SinceBound(cap: int, ops: seq<Op>, k: Str)
    ensures Since(cap, ops, k) <= |ops|
  {
    if ops != [] {
      SinceBound(cap, ops[..|ops| - 1], k);
    }
  }

  lemma UsesFresh(cap: int, ops: seq<Op>, op: Op)
    requires op.key !in Kept(cap, ops)
    ensures Uses(cap, ops + [op], op.key) == 1 && LastUse(ops + [op], op.key) == |ops|
  {
    assert (ops + [op])[..|ops|] == ops;
    assert Since(cap, ops + [op], op.key) == |ops|;
    assert Count(ops, op.key, |ops|) == 0;
  }

  /** A hit: the key is used once more, now. */
  lemma ToldTouch(cap: int, ops: seq<Op>, op: Op, c: Cache, v: Str)
    requires Told(cap, ops, c) && Stamped(c.items, c.now) && op.key in c.items
    requires Kept(cap, ops + [op]) == Kept(cap, ops)
    ensures Told(cap, ops + [op], Touch(c, op.key, v))
  {
    hide Kept, Uses, LastUse, Since, Count;
    forall k | k in c.items
      ensures Uses(cap, ops + [op], k) == Uses(cap, ops, k) + if op.key == k then 1 else 0
      ensures LastUse(ops + [op], k) == if op.key == k then |ops| else LastUse(ops, k)
    {
      UsesKept(cap, ops, op, k);
    }
    var items' := Touch(c, op.key, v).items;
    assert items'.Keys == c.items.Keys;
    forall j, k | j in items' && k in items'
      ensures items'[j].touched < items'[k].touched <==> LastUse(ops + [op], j) < LastUse(ops + [op], k)
    {
      if j == op.key {
        assert items'[k].touched <= c.now && LastUse(ops + [op], k) <= |ops|;
      } else if k != op.key {
        assert items'[j] == c.items[j] && items'[k] == c.items[k];
      }
    }
  }

  /** A miss of a get changes nothing. */
  lemma ToldMiss(cap: int, ops: seq<Op>, op: Op, c: Cache)
    requires Told(cap, ops, c) && (op.key !in c.items || c.items == map[]) && Kept(cap, ops + [op]) == Kept(cap, ops)
    ensures Told(cap, ops + [op], c)
  {
    hide Kept, Uses, LastUse, Since, Count;
    forall k | k in c.items
      ensures Uses(cap, ops + [op], k) == Uses(cap, ops, k) && LastUse(ops + [op], k) == LastUse(ops, k)
    {
      UsesKept(cap, ops, op, k);
    }
  }

  /** A new key, next to some of the others. */
  lemma ToldFresh(cap: int, ops: seq<Op>, op: Op, c: Cache, c1: Cache, v: Str)
    requires Told(cap, ops, c) && Stamped(c.items, c.now) && op.key !in c.items
    requires c1.now == c.now && forall k :: k in c1.items ==> k in c.items && c1.items[k] == c.items[k]
    requires Kept(cap, ops + [op]) == c1.items.Keys + {op.key}
    ensures Told(cap, ops + [op], Fresh(c1, op.key, v))
  {
    hide Kept, Uses, LastUse, Since, Count;
    UsesFresh(cap, ops, op);
    forall k | k in c1.items
      ensures Uses(cap, ops + [op], k) == Uses(cap, ops, k) && LastUse(ops + [op], k) == LastUse(ops, k)
    {
      UsesKept(cap, ops, op, k);
    }
  }

  /** The key evicted is the one used least. */
  lemma ToldLeast(cap: int, ops: seq<Op>, c: Cache, x: Str)
    requires Told(cap, ops, c) && Stamped(c.items, c.now) && x in c.items
    ensures IsLeast(c.items, x) <==> LeastUsed(cap, ops, Kept(cap, ops), x)
  {
    hide Kept, Uses, LastUse;
    assert forall y :: y in c.items && y != x ==>
             (Before(c.items[x], c.items[y]) <==>
              || Uses(cap, ops, x) < Uses(cap, ops, y)
              || (Uses(cap, ops, x) == Uses(cap, ops, y) && LastUse(ops, x) < LastUse(ops, y)));
  }

  lemma ToldEvict(cap: int, ops: seq<Op>, op: Op, c: Cache)
    requires Told(cap, ops, c) && Sound(cap, c) && op.PutOp? && op.key !in c.items && cap != 0 && |c.items| == cap
    requires exists j :: IsLeast(c.items, j)
    ensures Kept(cap, ops + [op]) == c.items.Keys - {Least(c.items)} + {op.key}
  {
    assert (ops + [op])[..|ops|] == ops;
    assert |c.items.Keys| == |c.items|;
    var keys, l := Kept(cap, ops), Least(c.items);
    forall x | x in keys ensures LeastUsed(cap, ops, keys, x) <==> x == l {
      ToldLeast(cap, ops, c, x);
      if IsLeast(c.items, x) {
        LeastUnique(c.items, x);
      }
    }
    hide LeastUsed, Uses, LastUse;
    assert (set x | x in keys && LeastUsed(cap, ops, keys, x)) == {l};
  }

  /** One more operation, on the cache and in the history. */
  lemma ToldStep(cap: int, ops: seq<Op>, op: Op, c: Cache)
    requires Told(cap, ops, c) && Sound(cap, c)
    ensures Told(cap, ops + [op], if op.GetOp? then Read(c, op.key).0 else Write(cap, c, op.key, op.value))
  {
    hide Uses, LastUse, Since, Count, LeastUsed, Touch, Fresh, IsLeast;
    assert (ops + [op])[..|ops|] == ops;
    assert |c.items.Keys| == |c.items|;
    if op.key in c.items && (op.GetOp? || cap != 0) {
      ToldTouch(cap, ops, op, c, if op.GetOp? then c.items[op.key].value else op.value);
    } else if op.GetOp? || cap == 0 {
      assert cap == 0 ==> c.items == map[];
      ToldMiss(cap, ops, op, c);
    } else if |c.items| == cap {
      LeastExists(c.items, c.now);
      ToldEvict(cap, ops, op, c);
      ToldFresh(cap, ops, op, c, c.(items := c.items - {Least(c.items)}), op.value);
    } else {
      ToldFresh(cap, ops, op, c, c, op.value);
    }
  }

  /** For every run: what is in the cache, how often and how lately it was used, and every answer, are
      what the operations say. */
  lemma {:induction false} HistoryTold(cap: int, ops: seq<Op>)
    ensures Told(cap, ops, Replay(cap, ops).0) && Replay(cap, ops).1 == Expected(cap, ops)
  {
    hide Told, Sound, Read, Write, Kept;
    if ops == [] {
      ToldNothing(cap);
    } else {
      var before, op := ops[..|ops| - 1], ops[|ops| - 1];
      var c := Replay(cap, before).0;
      HistoryTold(cap, before);
      assert before + [op] == ops;
      ToldStep(cap, before, op, c);
      if op.GetOp? {
        HitIsLastPut(cap, before, op.key);
        ToldAnswer(cap, before, c, op.key);
      }
    }
  }

  lemma ToldNothing(cap: int)
    ensures Told(cap, [], Cache(map[], 0))
  {
  }

  lemma ToldAnswer(cap: int, ops: seq<Op>, c: Cache, k: Str)
    requires Told(cap, ops, c) && (k in c.items ==> LastPut(ops, k) == [c.items[k].value])
    ensures [Read(c, k).1] == if k in Kept(cap, ops) then LastPut(ops, k) else [Str("-1")]
  {
  }

  /** Every run of gets and puts on the linked cache gives the answers that its history tells. */
  method Run(cap: int, ops: seq<Op>) returns (answers: seq<Str>)
    ensures answers == Expected(cap, ops)
  {
    HistoryTold(cap, ops);
    hide Read, Write;
    var cache := new LFUCache(cap);
    answers := [];
    var i := 0;
    while i < |ops|
      invariant 0 <= i <= |ops| && cache.Valid() && cache.mxsize == cap
      invariant (cache.Abs(), answers) == Replay(cap, ops[..i])
    {
      assert ops[..i + 1][..i] == ops[..i];
      match ops[i] {
        case GetOp(k) =>
          var a := cache.Get(k);
          answers := answers + [a];
        case PutOp(k, v) =>
          cache.Put(k, v);
      }
      i := i + 1;
    }
    assert ops[..i] == ops;
  }
}
