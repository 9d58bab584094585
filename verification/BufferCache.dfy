/** The buffer cache: `struct buf` records, the most-recently-used ring that links them, and the
    steps that bget, bread, bwrite and brelse take on them (xv6-public/bio.c), over the disk step
    of xv6-public/memide.c.

    `Cache` is the abstract cache: the ring is the sequence `order`, most recently released first.
    `holders`, `released` and `clock` are history: who holds or waits for each buffer, and when
    each buffer was last released. Class `Bcache` is the code, with explicit prev/next links. */
module BufferCache {
  import opened Blocks
  import opened Options
  import opened Params

  const HEAD := NBUF   // the ring index that stands for bcache.head

  type Pid = nat

  datatype Buf = Buf(dev: nat, blockno: nat, valid: bool, dirty: bool, refcnt: nat,
                     owner: Option<Pid>, data: Block)
  {
    predicate Holds(n: nat) { dev == ROOTDEV && blockno == n }
    predicate Recyclable() { refcnt == 0 && !dirty }
  }

  datatype Cache = Cache(bufs: seq<Buf>, order: seq<nat>,
                         holders: seq<multiset<Pid>>, released: seq<nat>, clock: nat)

  // ---------------------------------------------------------------- the abstract cache

  /** Every buffer is in the ring exactly once. */
  ghost predicate IsRing(order: seq<nat>) {
    && |order| == NBUF
    && (forall i :: 0 <= i < NBUF ==> order[i] < NBUF)
    && (forall i, j :: 0 <= i < j < NBUF ==> order[i] != order[j])
  }

  ghost predicate UniqueBlocks(bufs: seq<Buf>) {
    forall i, j :: 0 <= i < j < |bufs| && bufs[i].dev == ROOTDEV && bufs[j].dev == ROOTDEV
                   ==> bufs[i].blockno != bufs[j].blockno
  }

  ghost predicate CountsHolders(c: Cache)
    requires |c.holders| == |c.bufs|
  {
    forall b :: 0 <= b < |c.bufs| ==>
      && c.bufs[b].refcnt == |c.holders[b]|
      && (c.bufs[b].owner.Some? ==> c.bufs[b].owner.value in c.holders[b])
  }

  ghost predicate OrderedByRelease(c: Cache)
    requires IsRing(c.order) && |c.released| == NBUF
  {
    && (forall i, j :: 0 <= i < j < NBUF ==> c.released[c.order[i]] > c.released[c.order[j]])
    && (forall b :: 0 <= b < NBUF ==> c.released[b] < c.clock)
  }

  ghost predicate WellFormed(c: Cache) {
    && |c.bufs| == |c.holders| == |c.released| == NBUF
    && IsRing(c.order)
    && UniqueBlocks(c.bufs)
    && CountsHolders(c)
    && OrderedByRelease(c)
  }

  /** First buffer along `order` that holds block n. */
  function Lookup(bufs: seq<Buf>, order: seq<nat>, n: nat): (r: Option<nat>)
    requires |bufs| == NBUF && forall i :: 0 <= i < |order| ==> order[i] < NBUF
    ensures r.Some? ==> r.value in order && r.value < NBUF && bufs[r.value].Holds(n)
    ensures r.None? ==> forall b :: b in order ==> !bufs[b].Holds(n)
  {
    if order == [] then None
    else if bufs[order[0]].Holds(n) then Some(order[0])
    else
      var r := Lookup(bufs, order[1..], n);
      assert forall b :: b in order ==> b == order[0] || b in order[1..];
      r
  }

  /** Last buffer along `order` that is unreferenced and clean. */
  function Victim(bufs: seq<Buf>, order: seq<nat>): (r: Option<nat>)
    requires |bufs| == NBUF && forall i :: 0 <= i < |order| ==> order[i] < NBUF
    ensures r.Some? ==> r.value < NBUF && bufs[r.value].Recyclable()
    ensures r.Some? ==> exists k :: 0 <= k < |order| && order[k] == r.value
                                    && forall j :: k < j < |order| ==> !bufs[order[j]].Recyclable()
    ensures r.None? ==> forall b :: b in order ==> !bufs[b].Recyclable()
  {
    if order == [] then None
    else
      var last := |order| - 1;
      if bufs[order[last]].Recyclable() then Some(order[last])
      else
        var r := Victim(bufs, order[..last]);
        assert forall b :: b in order ==> b == order[last] || b in order[..last];
        r
  }

  /** What bget does under bcache.lock for process p; None is its panic. */
  function Get(c: Cache, n: nat, p: Pid): Option<(Cache, nat)>
    requires |c.bufs| == |c.holders| == NBUF && forall i :: 0 <= i < |c.order| ==> c.order[i] < NBUF
  {
    match Lookup(c.bufs, c.order, n)
    case Some(b) => Some((Share(c, b, p), b))
    case None =>
      match Victim(c.bufs, c.order)
      case Some(b) => Some((Recycle(c, b, n, p), b))
      case None => None
  }

  function Share(c: Cache, b: nat, p: Pid): Cache
    requires |c.bufs| == |c.holders| == NBUF && b < NBUF
  {
    c.(bufs := c.bufs[b := c.bufs[b].(refcnt := c.bufs[b].refcnt + 1)],
       holders := c.holders[b := c.holders[b] + multiset{p}])
  }

  function Recycle(c: Cache, b: nat, n: nat, p: Pid): Cache
    requires |c.bufs| == |c.holders| == NBUF && b < NBUF
  {
    c.(bufs := c.bufs[b := c.bufs[b].(dev := ROOTDEV, blockno := n, valid := false, dirty := false, refcnt := 1)],
       holders := c.holders[b := c.holders[b] + multiset{p}])
  }

  function IndexOf(order: seq<nat>, b: nat): (k: nat)
    requires b in order
    ensures k < |order| && order[k] == b
  {
    if order[0] == b then 0 else 1 + IndexOf(order[1..], b)
  }

  function ToFront(order: seq<nat>, b: nat): seq<nat>
    requires b in order
  {
    var k := IndexOf(order, b);
    [b] + order[..k] + order[k + 1..]
  }

  /** What brelse does under bcache.lock for a buffer p has already unlocked. */
  function Put(c: Cache, b: nat, p: Pid): Cache
    requires |c.bufs| == |c.holders| == |c.released| == NBUF && b < NBUF
    requires c.bufs[b].refcnt > 0 && b in c.order
  {
    var dropped := c.(bufs := c.bufs[b := c.bufs[b].(refcnt := c.bufs[b].refcnt - 1)],
                      holders := c.holders[b := c.holders[b] - multiset{p}]);
    if c.bufs[b].refcnt == 1 then
      dropped.(order := ToFront(c.order, b), released := c.released[b := c.clock], clock := c.clock + 1)
    else dropped
  }

  // ---------------------------------------------------------------- lemmas

  /** A ring mentions every index below NBUF. */
  lemma RingCovers(order: seq<nat>, b: nat)
    requires IsRing(order) && b < NBUF
    ensures b in order
  {
    if b !in order {
      var members := set i | 0 <= i < NBUF :: order[i];
      InjectiveImage(order, NBUF);
      BelowSize(NBUF);
      assert members <= Below(NBUF) - {b};
      SubsetSize(members, Below(NBUF) - {b});
    }
  }

  function Below(n: nat): set<nat> {
    if n == 0 then {} else Below(n - 1) + {n - 1}
  }

  lemma BelowSize(n: nat)
    ensures |Below(n)| == n
    ensures forall i: nat :: i in Below(n) <==> i < n
  {
  }

  lemma SubsetSize(a: set<nat>, b: set<nat>)
    requires a <= b
    ensures |a| <= |b|
  {
    assert b == a + (b - a);
  }

  lemma InjectiveImage(s: seq<nat>, n: nat)
    requires n <= |s| && forall i, j :: 0 <= i < j < n ==> s[i] != s[j]
    ensures |set i | 0 <= i < n :: s[i]| == n
  {
    if n > 0 {
      InjectiveImage(s, n - 1);
      assert (set i | 0 <= i < n :: s[i]) == (set i | 0 <= i < n - 1 :: s[i]) + {s[n - 1]};
    }
  }

  lemma ShareKeeps(c: Cache, b: nat, p: Pid)
    requires WellFormed(c) && b < NBUF
    ensures WellFormed(Share(c, b, p))
  {
    var c' := Share(c, b, p);
    assert forall i :: 0 <= i < NBUF ==> c'.bufs[i].dev == c.bufs[i].dev && c'.bufs[i].blockno == c.bufs[i].blockno;
  }

  lemma RecycleKeeps(c: Cache, b: nat, n: nat, p: Pid)
    requires WellFormed(c) && b < NBUF && c.bufs[b].Recyclable()
    requires forall i :: 0 <= i < NBUF ==> !c.bufs[i].Holds(n)
    ensures c.holders[b] == multiset{} && c.bufs[b].owner.None?
    ensures WellFormed(Recycle(c, b, n, p))
  {
    assert c.holders[b] == multiset{};
    var c' := Recycle(c, b, n, p);
    assert c'.holders[b] == multiset{p};
    assert forall i :: 0 <= i < NBUF && i != b ==> c'.bufs[i] == c.bufs[i] && c'.holders[i] == c.holders[i];
  }

  /** bget keeps the cache well formed and returns the one buffer labelled with the block; a
      buffer that it relabels was unreferenced, clean, and released before every other such
      buffer; it panics only when every buffer is referenced or dirty. */
  lemma GetKeeps(c: Cache, n: nat, p: Pid)
    requires WellFormed(c)
    ensures match Get(c, n, p)
            case None => forall b :: 0 <= b < NBUF ==> !c.bufs[b].Recyclable() && !c.bufs[b].Holds(n)
            case Some((c', b)) =>
              && WellFormed(c')
              && b < NBUF && c'.bufs[b].Holds(n)
              && c'.holders[b] == c.holders[b] + multiset{p}
              && (if c.bufs[b].Holds(n) then c' == Share(c, b, p)
                  else
                    && c' == Recycle(c, b, n, p)
                    && c.bufs[b].Recyclable() && c.bufs[b].owner.None?
                    && (forall i :: 0 <= i < NBUF ==> !c.bufs[i].Holds(n))
                    && (forall i :: 0 <= i < NBUF && i != b && c.bufs[i].Recyclable()
                          ==> c.released[b] < c.released[i]))
  {
    forall i | 0 <= i < NBUF
      ensures i in c.order
    {
      RingCovers(c.order, i);
    }
    match Lookup(c.bufs, c.order, n)
    case Some(b) => ShareKeeps(c, b, p);
    case None =>
      match Victim(c.bufs, c.order)
      case Some(b) =>
        VictimOldest(c);
        RecycleKeeps(c, b, n, p);
      case None =>
  }

  /** Flags and contents of a buffer play no part in the shape of the cache. */
  lemma RelabelKeeps(c: Cache, b: nat, x: Buf)
    requires WellFormed(c) && b < NBUF
    requires x.dev == c.bufs[b].dev && x.blockno == c.bufs[b].blockno
    requires x.refcnt == c.bufs[b].refcnt && x.owner == c.bufs[b].owner
    ensures WellFormed(c.(bufs := c.bufs[b := x]))
  {
  }

  lemma OwnerKeeps(c: Cache, b: nat, o: Option<Pid>)
    requires WellFormed(c) && b < NBUF && (o.Some? ==> o.value in c.holders[b])
    ensures WellFormed(c.(bufs := c.bufs[b := c.bufs[b].(owner := o)]))
  {
  }

  /** A process that has locked a buffer holds a reference to it. */
  lemma OwnerHolds(c: Cache, b: nat, p: Pid)
    requires WellFormed(c) && b < NBUF && c.bufs[b].owner == Some(p)
    ensures p in c.holders[b]
  {
  }

  lemma RingOf(c: Cache)
    requires WellFormed(c)
    ensures IsRing(c.order)
  {
  }

  lemma OneBufferPerBlock(c: Cache)
    requires WellFormed(c)
    ensures UniqueBlocks(c.bufs)
  {
  }

  lemma VictimOldest(c: Cache)
    requires WellFormed(c)
    ensures var v := Victim(c.bufs, c.order);
            v.Some? ==> forall i :: 0 <= i < NBUF && i != v.value && c.bufs[i].Recyclable()
                                    ==> c.released[v.value] < c.released[i]
  {
    var v := Victim(c.bufs, c.order);
    if v.Some? {
      var k :| 0 <= k < NBUF && c.order[k] == v.value && forall j :: k < j < NBUF ==> !c.bufs[c.order[j]].Recyclable();
      forall i | 0 <= i < NBUF && i != v.value && c.bufs[i].Recyclable()
        ensures c.released[v.value] < c.released[i]
      {
        RingCovers(c.order, i);
        var m := IndexOf(c.order, i);
        assert m < k;
      }
    }
  }

  lemma ToFrontRing(order: seq<nat>, b: nat)
    requires IsRing(order) && b in order
    ensures IsRing(ToFront(order, b))
    ensures var k := IndexOf(order, b);
            var t := ToFront(order, b);
            && t[0] == b
            && (forall i :: 1 <= i <= k ==> t[i] == order[i - 1])
            && (forall i :: k < i < NBUF ==> t[i] == order[i])
  {
  }

  /** brelse keeps the cache well formed, changes no other buffer and no contents, and keeps the
      ring in order of last release. */
  lemma PutKeeps(c: Cache, b: nat, p: Pid)
    requires WellFormed(c) && b < NBUF && p in c.holders[b]
    requires c.bufs[b].owner != Some(p)
    ensures b in c.order && c.bufs[b].refcnt > 0
    ensures var c' := Put(c, b, p);
            && WellFormed(c')
            && c'.bufs == c.bufs[b := c.bufs[b].(refcnt := c.bufs[b].refcnt - 1)]
            && c'.holders == c.holders[b := c.holders[b] - multiset{p}]
            && (c'.bufs[b].refcnt == 0 ==> c'.order[0] == b)
  {
    RingCovers(c.order, b);
    assert c.holders[b] == c.holders[b] - multiset{p} + multiset{p};
    ToFrontRing(c.order, b);
    var c' := Put(c, b, p);
    assert UniqueBlocks(c'.bufs) && CountsHolders(c') by {
      hide ToFront, IsRing, OrderedByRelease;
      assert c.bufs[b].refcnt == 1 ==> c.holders[b] - multiset{p} == multiset{};
    }
    if c.bufs[b].refcnt == 1 {
      ToFrontOrdered(c, b);
    }
  }

  /** Releasing b now makes it the most recently released. */
  lemma ToFrontOrdered(c: Cache, b: nat)
    requires IsRing(c.order) && |c.released| == NBUF && OrderedByRelease(c) && b < NBUF && b in c.order
    ensures IsRing(ToFront(c.order, b))
    ensures OrderedByRelease(c.(order := ToFront(c.order, b), released := c.released[b := c.clock],
                                clock := c.clock + 1))
  {
    ToFrontRing(c.order, b);
  }

  // ---------------------------------------------------------------- the code

  datatype Write = Write(blockno: nat, data: Block)

  /** `head, order[0], ..., order[n-1], head`: the ring as it is walked. */
  ghost function Walk(order: seq<nat>): seq<nat> {
    [HEAD] + order + [HEAD]
  }

  ghost predicate Adjacent(next: seq<nat>, prev: seq<nat>, a: nat, b: nat)
    requires |next| == |prev| == NBUF + 1
  {
    a <= NBUF && b <= NBUF && next[a] == b && prev[b] == a
  }

  ghost predicate Linked(next: seq<nat>, prev: seq<nat>, order: seq<nat>) {
    var w := Walk(order);
    && |next| == |prev| == NBUF + 1
    && forall i, j :: 0 <= i < j < |w| && j == i + 1 ==> Adjacent(next, prev, w[i], w[j])
  }

  /** Linking b in at the head of the ring (bio.c lines 50-54 and 134-137). */
  lemma PushLinks(next: seq<nat>, prev: seq<nat>, order: seq<nat>, b: nat)
    requires Linked(next, prev, order) && b < NBUF && b !in order
    requires forall i :: 0 <= i < |order| ==> order[i] < NBUF
    requires forall i, j :: 0 <= i < j < |order| ==> order[i] != order[j]
    ensures next[HEAD] <= NBUF
    ensures Linked(next[b := next[HEAD]][HEAD := b], prev[b := HEAD][next[HEAD] := b], [b] + order)
  {
    var w, v := Walk(order), Walk([b] + order);
    assert Adjacent(next, prev, w[0], w[1]);
    var nx, pv := next[b := next[HEAD]][HEAD := b], prev[b := HEAD][next[HEAD] := b];
    forall i, j | 0 <= i < j < |v| && j == i + 1
      ensures Adjacent(nx, pv, v[i], v[j])
    {
      if i >= 2 {
        assert v[i] == w[i - 1] && v[j] == w[i] && Adjacent(next, prev, w[i - 1], w[i]);
      }
    }
  }

  /** Unlinking the k-th buffer of the ring (bio.c lines 132-133). */
  lemma UnlinkLinks(next: seq<nat>, prev: seq<nat>, order: seq<nat>, k: nat)
    requires Linked(next, prev, order) && k < |order|
    requires forall i :: 0 <= i < |order| ==> order[i] < NBUF
    requires forall i, j :: 0 <= i < j < |order| ==> order[i] != order[j]
    ensures next[order[k]] <= NBUF && prev[order[k]] <= NBUF
    ensures Linked(next[prev[order[k]] := next[order[k]]], prev[next[order[k]] := prev[order[k]]],
                   order[..k] + order[k + 1..])
  {
    var w, v := Walk(order), Walk(order[..k] + order[k + 1..]);
    var b := order[k];
    assert w[k + 1] == b;
    assert Adjacent(next, prev, w[k], w[k + 1]) && Adjacent(next, prev, w[k + 1], w[k + 2]);
    var nx, pv := next[prev[b] := next[b]], prev[next[b] := prev[b]];
    forall i, j | 0 <= i < j < |v| && j == i + 1
      ensures Adjacent(nx, pv, v[i], v[j])
    {
      if i < k {
        assert v[i] == w[i] && v[j] == w[j] && Adjacent(next, prev, w[i], w[j]);
      } else if i > k {
        assert v[i] == w[i + 1] && v[j] == w[j + 1] && Adjacent(next, prev, w[i + 1], w[j + 1]);
      }
    }
  }

  ghost function Cut(order: seq<nat>, k: nat): seq<nat>
    requires k < |order|
  {
    order[..k] + order[k + 1..]
  }

  /** Unlinking a buffer of the whole ring leaves its own links and a ring to push it on. */
  lemma UnlinkOther(next: seq<nat>, prev: seq<nat>, order: seq<nat>, k: nat)
    requires IsRing(order) && Linked(next, prev, order) && k < NBUF && k == IndexOf(order, order[k])
    ensures |next| == |prev| == NBUF + 1
    ensures var b := order[k];
            && b < NBUF && next[b] <= NBUF && prev[b] <= NBUF && b !in Cut(order, k)
            && var pv := prev[next[b] := prev[b]];
            && pv[b] == prev[b]
            && Linked(next[prev[b] := next[b]], pv, Cut(order, k))
            && |Cut(order, k)| == NBUF - 1 && ToFront(order, b) == [b] + Cut(order, k)
            && (forall i :: 0 <= i < NBUF - 1 ==> Cut(order, k)[i] < NBUF)
            && (forall i, j :: 0 <= i < j < NBUF - 1 ==> Cut(order, k)[i] != Cut(order, k)[j])
  {
    var w := Walk(order);
    assert Adjacent(next, prev, w[k + 1], w[k + 2]);
    UnlinkLinks(next, prev, order, k);
  }

  /** `view` is what readers of this cache must see: every valid buffer shows it, and so does the
      disk for every block that no buffer holds dirty. */
  ghost predicate Agrees(bufs: seq<Buf>, disk: seq<Block>, view: seq<Block>) {
    && |view| == |disk|
    && (forall b :: 0 <= b < |bufs| ==> ShowsView(bufs[b], view))
    && (forall n :: 0 <= n < |disk| && view[n] != disk[n] ==> HeldDirty(bufs, n))
  }

  ghost predicate ShowsView(x: Buf, view: seq<Block>) {
    && (x.dev == ROOTDEV && x.valid ==> x.blockno < |view| && x.data == view[x.blockno])
    && (x.dirty ==> x.dev == ROOTDEV && x.valid)
  }

  ghost predicate HeldDirty(bufs: seq<Buf>, n: nat) {
    exists b :: 0 <= b < |bufs| && bufs[b].Holds(n) && bufs[b].dirty
  }

  /** Replacing one buffer keeps the view when the new one shows it and stays as dirty. */
  lemma AgreesUpdate(bufs: seq<Buf>, disk: seq<Block>, view: seq<Block>, b: nat, x: Buf)
    requires Agrees(bufs, disk, view) && b < |bufs| && ShowsView(x, view)
    requires bufs[b].dirty ==> x.dirty && x.dev == bufs[b].dev && x.blockno == bufs[b].blockno
    ensures Agrees(bufs[b := x], disk, view)
  {
    forall n | 0 <= n < |disk| && view[n] != disk[n]
      ensures HeldDirty(bufs[b := x], n)
    {
      assert HeldDirty(bufs, n);
      var i :| 0 <= i < |bufs| && bufs[i].Holds(n) && bufs[i].dirty;
      assert bufs[b := x][i].Holds(n) && bufs[b := x][i].dirty;
    }
  }

  /** Filling an invalid buffer from the disk shows the view. */
  lemma AgreesFill(bufs: seq<Buf>, disk: seq<Block>, view: seq<Block>, b: nat)
    requires Agrees(bufs, disk, view) && UniqueBlocks(bufs) && b < |bufs| && bufs[b].dev == ROOTDEV && !bufs[b].valid
    requires bufs[b].blockno < |disk|
    ensures |view| == |disk| && view[bufs[b].blockno] == disk[bufs[b].blockno]
  {
    assert ShowsView(bufs[b], view);
  }

  /** Writing a buffer through moves the view and the disk together. */
  lemma AgreesWrite(bufs: seq<Buf>, disk: seq<Block>, view: seq<Block>, b: nat, data: Block)
    requires Agrees(bufs, disk, view) && UniqueBlocks(bufs) && b < |bufs| && bufs[b].dev == ROOTDEV
    requires bufs[b].blockno < |disk|
    ensures var n := bufs[b].blockno;
            && |view| == |disk|
            && Agrees(bufs[b := bufs[b].(data := data, dirty := false, valid := true)], disk[n := data],
                      view[n := data])
  {
    var n := bufs[b].blockno;
    var bufs' := bufs[b := bufs[b].(data := data, dirty := false, valid := true)];
    forall i | 0 <= i < |bufs|
      ensures ShowsView(bufs'[i], view[n := data])
    {
      assert ShowsView(bufs[i], view);
    }
    forall m | 0 <= m < |disk| && view[n := data][m] != disk[n := data][m]
      ensures HeldDirty(bufs', m)
    {
      assert HeldDirty(bufs, m);
      var i :| 0 <= i < |bufs| && bufs[i].Holds(m) && bufs[i].dirty;
      assert bufs'[i].Holds(m) && bufs'[i].dirty;
    }
  }

  /** How a bread ends: in the panic of bget, asleep on the sleep lock, with the buffer locked, or in
      the panic of iderw on a block behind the end of the disk. */
  datatype Taken = NoBuffer | Asleep(b: nat) | Locked(b: nat) | OutOfRange(b: nat)

  /** Process p has locked buffer b, which now holds block n. */
  ghost predicate GotLock(bufs: seq<Buf>, bufs': seq<Buf>, n: nat, p: Pid, b: nat)
    requires |bufs| == |bufs'| == NBUF
  {
    && b < NBUF && bufs'[b].Holds(n) && bufs'[b].owner == Some(p) && bufs[b].owner.None?
    && bufs'[b].dirty == bufs[b].dirty && (bufs[b].dirty ==> bufs[b].Holds(n))
    && bufs'[b].refcnt == bufs[b].refcnt + 1 && bufs' == bufs[b := bufs'[b]]
  }

  /** What taking block n has done to the buffers. */
  ghost predicate TakenOk(bufs: seq<Buf>, bufs': seq<Buf>, n: nat, p: Pid, r: Taken) {
    && |bufs| == |bufs'| == NBUF
    && match r
       case NoBuffer => bufs' == bufs && forall b :: 0 <= b < NBUF ==> !bufs[b].Recyclable() && !bufs[b].Holds(n)
       case Asleep(b) =>
         b < NBUF && bufs[b].Holds(n) && bufs[b].owner.Some?
         && bufs' == bufs[b := bufs[b].(refcnt := bufs[b].refcnt + 1)]
       case Locked(b) => GotLock(bufs, bufs', n, p, b)
       case OutOfRange(b) => GotLock(bufs, bufs', n, p, b)
  }

  /** bget and the sleep lock show nobody anything new. */
  lemma TakeKeeps(c: Cache, disk: seq<Block>, view: seq<Block>, n: nat, p: Pid)
    requires WellFormed(c) && Agrees(c.bufs, disk, view)
    ensures match Get(c, n, p)
            case None => TakenOk(c.bufs, c.bufs, n, p, NoBuffer)
            case Some((c', b)) =>
              && b < NBUF && |c'.holders| == NBUF && p in c'.holders[b]
              && |c'.bufs| == NBUF
              && if c'.bufs[b].owner.Some? then TakenOk(c.bufs, c'.bufs, n, p, Asleep(b)) && Agrees(c'.bufs, disk, view)
                 else var bufs' := c'.bufs[b := c'.bufs[b].(owner := Some(p))];
                      TakenOk(c.bufs, bufs', n, p, Locked(b)) && Agrees(bufs', disk, view)
  {
    GetKeeps(c, n, p);
    hide WellFormed, Get;
    match Get(c, n, p)
    case None =>
    case Some((c', b)) =>
      assert ShowsView(c.bufs[b], view);
      hide Agrees;
      var x := if c'.bufs[b].owner.Some? then c'.bufs[b] else c'.bufs[b].(owner := Some(p));
      AgreesUpdate(c.bufs, disk, view, b, x);
      assert c'.bufs[b := x] == c.bufs[b := x];
  }

  /** bget of block n by p and its sleep lock, from the first state of the cache to the second. */
  ghost predicate LockCache(c: Cache, n: nat, p: Pid, r: Taken, c': Cache)
    requires WellFormed(c)
  {
    match Get(c, n, p)
    case None => r.NoBuffer? && c' == c
    case Some((c1, b)) =>
      match r
      case NoBuffer => false
      case Asleep(b') => b' == b && c' == c1
      case OutOfRange(b') => false
      case Locked(b') =>
        && b' == b && b < |c1.bufs| && c1.bufs[b].owner.None?
        && c' == c1.(bufs := c1.bufs[b := c1.bufs[b].(owner := Some(p))])
  }

  /** bread of block n by p, as far as it gets. */
  ghost predicate BreadCache(c: Cache, disk: seq<Block>, n: nat, p: Pid, r: Taken, c': Cache)
    requires WellFormed(c)
  {
    if r.Locked? then
      exists c1 ::
        && LockCache(c, n, p, r, c1) && r.b < |c1.bufs|
        && var x := c1.bufs[r.b];
           if x.valid then c' == c1
           else !x.dirty && n < |disk| && c' == c1.(bufs := c1.bufs[r.b := x.(data := disk[n], valid := true)])
    else r.OutOfRange? || LockCache(c, n, p, r, c')
  }

  lemma HeldOnRing(c: Cache, b: nat, p: Pid)
    requires WellFormed(c) && b < NBUF && c.bufs[b].owner == Some(p)
    ensures b in c.order && c.bufs[b].refcnt > 0 && p in c.holders[b]
  {
    OwnerHolds(c, b, p);
    RingCovers(c.order, b);
  }

  /** brelse of buffer b by p, who has it locked. */
  ghost function Released(c: Cache, b: nat, p: Pid): Cache
    requires WellFormed(c) && b < NBUF && c.bufs[b].owner == Some(p)
  {
    HeldOnRing(c, b, p);
    Put(c.(bufs := c.bufs[b := c.bufs[b].(owner := None)]), b, p)
  }

  class Bcache {
    var bufs: seq<Buf>
    var next: seq<nat>
    var prev: seq<nat>
    var disk: seq<Block>
    ghost var order: seq<nat>
    ghost var holders: seq<multiset<Pid>>
    ghost var released: seq<nat>
    ghost var clock: nat
    ghost var writes: seq<Write>   // every block written to the disk, in order

    ghost function Abs(): Cache
      reads this
    {
      Cache(bufs, order, holders, released, clock)
    }

    ghost predicate Valid()
      reads this
    {
      && |bufs| == NBUF
      && WellFormed(Abs())
      && Linked(next, prev, order)
    }

    /** binit: the loop pushes each buffer at the head of the ring. */
    constructor Binit(disk: seq<Block>)
      ensures Valid()
      ensures this.disk == disk && writes == []
      ensures forall b :: 0 <= b < NBUF ==> bufs[b] == Buf(0, 0, false, false, 0, None, ZERO_BLOCK)
      ensures forall i :: 0 <= i < NBUF ==> order[i] == NBUF - 1 - i
    {
      this.disk := disk;
      writes := [];
      bufs := seq(NBUF, _ => Buf(0, 0, false, false, 0, None, ZERO_BLOCK));
      holders := seq(NBUF, _ => multiset{});
      released := seq(NBUF, i => i);
      clock := NBUF;
      var nx: seq<nat> := seq(NBUF + 1, _ => HEAD);
      var pv: seq<nat> := seq(NBUF + 1, _ => HEAD);
      ghost var ring: seq<nat> := [];
      var b := 0;
      while b < NBUF
        invariant 0 <= b <= NBUF
        invariant |ring| == b && forall i :: 0 <= i < b ==> ring[i] == b - 1 - i
        invariant Linked(nx, pv, ring)
      {
        PushLinks(nx, pv, ring, b);
        nx := nx[b := nx[HEAD]];
        pv := pv[b := HEAD];
        pv := pv[nx[HEAD] := b];
        nx := nx[HEAD := b];
        ring := [b] + ring;
        b := b + 1;
      }
      next, prev, order := nx, pv, ring;
    }

    /** bget's walk forward along the ring for the block. */
    method ScanForBlock(blockno: nat) returns (r: Option<nat>)
      requires Valid()
      ensures r == Lookup(bufs, order, blockno)
    {
      assert IsRing(order);
      hide WellFormed;
      ghost var w := Walk(order);
      assert Adjacent(next, prev, w[0], w[1]);
      var b := next[HEAD];
      ghost var i := 0;
      while b != HEAD
        invariant 0 <= i <= NBUF && b == w[i + 1]
        invariant Lookup(bufs, order, blockno) == Lookup(bufs, order[i..], blockno)
        decreases NBUF - i
      {
        if bufs[b].dev == ROOTDEV && bufs[b].blockno == blockno {
          return Some(b);
        }
        assert order[i..][1..] == order[i + 1..];
        assert Adjacent(next, prev, w[i + 1], w[i + 2]);
        b := next[b];
        i := i + 1;
      }
      return None;
    }

    /** bget's walk backward along the ring for a buffer to recycle. */
    method ScanForVictim() returns (r: Option<nat>)
      requires Valid()
      ensures r == Victim(bufs, order)
    {
      assert IsRing(order);
      hide WellFormed;
      ghost var w := Walk(order);
      assert order[..NBUF] == order && Adjacent(next, prev, w[NBUF], w[NBUF + 1]);
      var b := prev[HEAD];
      ghost var i := NBUF;
      while b != HEAD
        invariant 0 <= i <= NBUF && b == w[i]
        invariant Victim(bufs, order) == Victim(bufs, order[..i])
        decreases i
      {
        if bufs[b].refcnt == 0 && !bufs[b].dirty {
          return Some(b);
        }
        assert order[..i][..i - 1] == order[..i - 1];
        assert Adjacent(next, prev, w[i - 1], w[i]);
        b := prev[b];
        i := i - 1;
      }
      return None;
    }

    method ShareBuf(b: nat, ghost p: Pid)
      requires |bufs| == |holders| == NBUF && b < NBUF
      modifies this`bufs, this`holders
      ensures Abs() == Share(old(Abs()), b, p)
    {
      bufs := bufs[b := bufs[b].(refcnt := bufs[b].refcnt + 1)];
      holders := holders[b := holders[b] + multiset{p}];
    }

    method RecycleBuf(b: nat, blockno: nat, ghost p: Pid)
      requires |bufs| == |holders| == NBUF && b < NBUF
      modifies this`bufs, this`holders
      ensures Abs() == Recycle(old(Abs()), b, blockno, p)
    {
      bufs := bufs[b := bufs[b].(dev := ROOTDEV, blockno := blockno, valid := false, dirty := false, refcnt := 1)];
      holders := holders[b := holders[b] + multiset{p}];
    }

    /** bget, up to releasing bcache.lock. None is the panic "bget: no buffers". */
    method Bget(blockno: nat, ghost p: Pid) returns (r: Option<nat>)
      requires Valid()
      modifies this`bufs, this`holders
      ensures Valid()
      ensures match Get(old(Abs()), blockno, p)
              case None => r.None? && Abs() == old(Abs())
              case Some((c, b)) => r == Some(b) && Abs() == c
    {
      assert |holders| == NBUF;
      GetKeeps(Abs(), blockno, p);
      hide WellFormed, Linked, Lookup, Victim;
      r := ScanForBlock(blockno);
      if r.Some? {
        ShareBuf(r.value, p);
      } else {
        r := ScanForVictim();
        if r.Some? {
          RecycleBuf(r.value, blockno, p);
        }
      }
    }

    /** One pass of acquiresleep: takes the sleep lock, or goes to sleep because it is taken. */
    method AcquireSleep(b: nat, p: Pid) returns (taken: bool)
      requires Valid() && b < NBUF && p in holders[b]
      modifies this`bufs
      ensures Valid() && taken == old(bufs)[b].owner.None?
      ensures bufs == if taken then old(bufs)[b := old(bufs)[b].(owner := Some(p))] else old(bufs)
    {
      hide WellFormed, Linked;
      taken := bufs[b].owner.None?;
      if taken {
        OwnerKeeps(Abs(), b, Some(p));
        bufs := bufs[b := bufs[b].(owner := Some(p))];
      }
    }

    /** iderw: write the buffer out if dirty, else fill it; false is one of its panics. */
    method Iderw(b: nat, p: Pid) returns (ok: bool)
      requires Valid() && b < NBUF
      modifies this`bufs, this`disk, this`writes
      ensures Valid()
      ensures ok == (old(bufs)[b].owner == Some(p) && (!old(bufs)[b].valid || old(bufs)[b].dirty)
                     && old(bufs)[b].dev == ROOTDEV && old(bufs)[b].blockno < |old(disk)|)
      ensures !ok ==> bufs == old(bufs) && disk == old(disk) && writes == old(writes)
      ensures ok && old(bufs)[b].dirty ==>
                && bufs == old(bufs)[b := old(bufs)[b].(valid := true, dirty := false)]
                && disk == old(disk)[old(bufs)[b].blockno := old(bufs)[b].data]
                && writes == old(writes) + [Write(old(bufs)[b].blockno, old(bufs)[b].data)]
      ensures ok && !old(bufs)[b].dirty ==>
                && bufs == old(bufs)[b := old(bufs)[b].(valid := true, data := old(disk)[old(bufs)[b].blockno])]
                && disk == old(disk) && writes == old(writes)
    {
      hide WellFormed, Linked;
      if bufs[b].owner != Some(p) { return false; }
      if bufs[b].valid && !bufs[b].dirty { return false; }
      if bufs[b].dev != ROOTDEV { return false; }
      if bufs[b].blockno >= |disk| { return false; }
      var n := bufs[b].blockno;
      ghost var c := Abs();
      if bufs[b].dirty {
        bufs := bufs[b := bufs[b].(dirty := false)];
        disk := disk[n := bufs[b].data];
        writes := writes + [Write(n, bufs[b].data)];
      } else {
        bufs := bufs[b := bufs[b].(data := disk[n])];
      }
      bufs := bufs[b := bufs[b].(valid := true)];
      RelabelKeeps(c, b, bufs[b]);
      assert Abs() == c.(bufs := c.bufs[b := bufs[b]]);
      return true;
    }

    /** brelse; false is its panic on a buffer that p has not locked. */
    method Brelse(b: nat, p: Pid) returns (ok: bool)
      requires Valid() && b < NBUF
      modifies this`bufs, this`next, this`prev, this`order, this`holders, this`released, this`clock
      ensures Valid() && ok == (old(bufs)[b].owner == Some(p))
      ensures var c := old(Abs());
              if ok then
                && b in c.order && c.bufs[b].refcnt > 0
                && Abs() == Put(c.(bufs := c.bufs[b := c.bufs[b].(owner := None)]), b, p)
              else Abs() == c
    {
      hide WellFormed, Linked, ToFront;
      if bufs[b].owner != Some(p) { return false; }
      OwnerHolds(Abs(), b, p);
      OwnerKeeps(Abs(), b, None);
      bufs := bufs[b := bufs[b].(owner := None)];
      PutKeeps(Abs(), b, p);
      RingOf(Abs());
      bufs := bufs[b := bufs[b].(refcnt := bufs[b].refcnt - 1)];
      holders := holders[b := holders[b] - multiset{p}];
      if bufs[b].refcnt == 0 {
        MoveToFront(b);
        released, clock := released[b := clock], clock + 1;
      }
      return true;
    }

    /** The pointer surgery of brelse (bio.c lines 132-137). */
    method MoveToFront(b: nat)
      requires IsRing(order) && Linked(next, prev, order) && b in order
      modifies this`next, this`prev, this`order
      ensures order == ToFront(old(order), b) && Linked(next, prev, order)
    {
      ghost var k := IndexOf(order, b);
      UnlinkOther(next, prev, order, k);
      ghost var rest := Cut(order, k);
      hide IsRing, Linked, Cut;
      prev := prev[next[b] := prev[b]];
      next := next[prev[b] := next[b]];
      PushLinks(next, prev, rest, b);
      next := next[b := next[HEAD]];
      prev := prev[b := HEAD];
      prev := prev[next[HEAD] := b];
      next := next[HEAD := b];
      order := ToFront(order, b);
    }

    /** log_write's `b->flags |= B_DIRTY`: the buffer can no longer be recycled. */
    method SetDirty(b: nat)
      requires Valid() && b < NBUF
      modifies this`bufs
      ensures Valid() && bufs == old(bufs)[b := old(bufs)[b].(dirty := true)]
    {
      bufs := bufs[b := bufs[b].(dirty := true)];
    }

    /** The first half of bread: bget and the sleep lock. */
    method GetLocked(n: nat, p: Pid, ghost view: seq<Block>) returns (r: Taken)
      requires Valid() && Agrees(bufs, disk, view)
      modifies this`bufs, this`holders
      ensures Valid() && Agrees(bufs, disk, view) && TakenOk(old(bufs), bufs, n, p, r) && !r.OutOfRange?
      ensures LockCache(old(Abs()), n, p, r, Abs())
    {
      TakeKeeps(Abs(), disk, view, n, p);
      hide WellFormed, Linked, Agrees, Get;
      var g := Bget(n, p);
      if g.None? {
        return NoBuffer;
      }
      var b := g.value;
      var taken := AcquireSleep(b, p);
      if !taken {
        return Asleep(b);
      }
      return Locked(b);
    }

    /** bread by process p: locked with the contents the view gives the block, or a panic, or asleep
        because the buffer is locked. */
    method Bread(n: nat, p: Pid, ghost view: seq<Block>) returns (r: Taken)
      requires Valid() && Agrees(bufs, disk, view)
      modifies this`bufs, this`holders, this`disk, this`writes
      ensures Valid() && disk == old(disk) && writes == old(writes) && Agrees(bufs, disk, view)
      ensures TakenOk(old(bufs), bufs, n, p, r) && BreadCache(old(Abs()), disk, n, p, r, Abs())
      ensures r.OutOfRange? ==> n >= |disk|
      ensures r.Locked? ==>
                && n < |disk| == |view|
                && bufs[r.b] == Buf(ROOTDEV, n, true, old(bufs)[r.b].dirty, bufs[r.b].refcnt, Some(p), view[n])
    {
      hide WellFormed, Linked;
      r := GetLocked(n, p, view);
      if r.Locked? {
        var b := r.b;
        assert ShowsView(bufs[b], view);
        hide Agrees;
        if !bufs[b].valid {
          ghost var empty := bufs;
          OneBufferPerBlock(Abs());
          if n < |disk| {
            AgreesFill(bufs, disk, view, b);
          }
          var ok := Iderw(b, p);
          if !ok {
            return OutOfRange(b);
          }
          AgreesUpdate(empty, disk, view, b, bufs[b]);
        }
      }
    }

    /** memmove into a buffer and bwrite of it; false is the panic of bwrite on a buffer that p has not
        locked, or of iderw on one of another disk or of a block behind the end of this one. */
    method WriteThrough(b: nat, p: Pid, data: Block, ghost view: seq<Block>) returns (ok: bool)
      requires Valid() && Agrees(bufs, disk, view) && b < NBUF
      modifies this`bufs, this`disk, this`writes
      ensures Valid()
      ensures ok == (old(bufs)[b].owner == Some(p) && old(bufs)[b].dev == ROOTDEV && old(bufs)[b].blockno < |old(disk)|)
      ensures !ok ==> disk == old(disk) && writes == old(writes)
      ensures ok ==>
                var n := old(bufs)[b].blockno;
                && bufs == old(bufs)[b := old(bufs)[b].(data := data, dirty := false, valid := true)]
                && n < |view| == |old(disk)|
                && disk == old(disk)[n := data] && writes == old(writes) + [Write(n, data)]
                && Agrees(bufs, disk, view[n := data])
    {
      OneBufferPerBlock(Abs());
      if bufs[b].dev == ROOTDEV && bufs[b].blockno < |disk| {
        AgreesWrite(bufs, disk, view, b, data);
      }
      hide WellFormed, Linked, Agrees;
      ghost var c := Abs();
      bufs := bufs[b := bufs[b].(data := data)];
      RelabelKeeps(c, b, bufs[b]);
      assert Abs() == c.(bufs := c.bufs[b := bufs[b]]);
      if bufs[b].owner != Some(p) {
        return false;
      }
      bufs := bufs[b := bufs[b].(dirty := true)];
      RelabelKeeps(c, b, bufs[b]);
      assert Abs() == c.(bufs := c.bufs[b := bufs[b]]);
      ok := Iderw(b, p);
      assert ok ==> bufs == old(bufs)[b := old(bufs)[b].(data := data, dirty := false, valid := true)];
    }

    /** Releasing a buffer shows nobody anything new. */
    method Release(b: nat, p: Pid, ghost view: seq<Block>) returns (ok: bool)
      requires Valid() && Agrees(bufs, disk, view) && b < NBUF
      modifies this`bufs, this`next, this`prev, this`order, this`holders, this`released, this`clock
      ensures Valid() && Agrees(bufs, disk, view) && ok == (old(bufs)[b].owner == Some(p))
      ensures !ok ==> bufs == old(bufs)
      ensures ok ==>
                && old(bufs)[b].refcnt > 0 && Abs() == Released(old(Abs()), b, p)
                && bufs == old(bufs)[b := old(bufs)[b].(owner := None, refcnt := old(bufs)[b].refcnt - 1)]
    {
      assert ShowsView(bufs[b], view);
      hide WellFormed, Linked, Agrees, ToFront;
      ok := Brelse(b, p);
      if ok {
        AgreesUpdate(old(bufs), disk, view, b, bufs[b]);
        assert bufs == old(bufs)[b := bufs[b]];
      }
    }
  }
}
