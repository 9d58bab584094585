/** The storage allocator of section 8.7 of The C Programming Language, 2nd ed., as in
    xv6-public/umalloc.c. Addresses count Header-sized units. `fl` is the circular free list in
    address order, starting at the static `base`; class `Allocator` keeps the links and sizes in
    headers in memory, as the code does, and is proved against it. */
module Heap {
  import opened Options
  import opened Params

  const BASE := 1          // address of the static header `base`, below the heap; 0 is the null pointer
  const MIN_UNITS := 4096
  const HEADER_BYTES := 8

  datatype Blk = Blk(addr: int, size: int)
  {
    function End(): int { addr + size }
    predicate Has(x: int) { addr <= x < addr + size }
  }

  // ---------------------------------------------------------------- the free list as a sequence

  /** Address order, with a gap between any two blocks: no two free blocks touch. */
  ghost predicate Ordered(fl: seq<Blk>) {
    && |fl| >= 1 && fl[0] == Blk(BASE, 0)
    && (forall i :: 1 <= i < |fl| ==> fl[i].size >= 1)
    && (forall i, j :: 0 <= i < j < |fl| ==> fl[i].End() < fl[j].addr)
  }

  ghost predicate InFree(fl: seq<Blk>, x: int) {
    exists i :: 1 <= i < |fl| && fl[i].Has(x)
  }

  ghost predicate InLive(live: map<int, int>, x: int) {
    exists a :: a in live && Blk(a, live[a]).Has(x)
  }

  ghost predicate Apart(b: Blk, c: Blk) {
    b.End() <= c.addr || c.End() <= b.addr
  }

  /** Free and live blocks are pairwise disjoint and together are exactly the arena. */
  ghost predicate Tiles(fl: seq<Blk>, live: map<int, int>, arena: set<int>) {
    && (forall a :: a in live ==> live[a] >= 1 && a > BASE)
    && (forall a, b :: a in live && b in live && a != b ==> Apart(Blk(a, live[a]), Blk(b, live[b])))
    && (forall i, a :: 1 <= i < |fl| && a in live ==> Apart(fl[i], Blk(a, live[a])))
    && (forall x :: x in arena <==> InFree(fl, x) || InLive(live, x))
  }

  /** Index of the last free block below address `a`. */
  function Place(fl: seq<Blk>, a: int): (k: nat)
    requires |fl| >= 1
    ensures k < |fl| && (k == 0 || fl[k].addr < a) && (k + 1 < |fl| ==> a <= fl[k + 1].addr)
  {
    if |fl| == 1 || fl[|fl| - 1].addr < a then |fl| - 1
    else Place(fl[..|fl| - 1], a)
  }

  predicate JoinsBelow(fl: seq<Blk>, b: Blk)
    requires |fl| >= 1
  {
    fl[Place(fl, b.addr)].End() == b.addr
  }

  predicate JoinsAbove(fl: seq<Blk>, b: Blk)
    requires |fl| >= 1
  {
    var k := Place(fl, b.addr);
    k + 1 < |fl| && b.End() == fl[k + 1].addr
  }

  /** Block b grown by the free neighbours it touches. */
  function Joined(fl: seq<Blk>, b: Blk): Blk
    requires |fl| >= 1
  {
    var k := Place(fl, b.addr);
    var up := if JoinsAbove(fl, b) then Blk(b.addr, b.size + fl[k + 1].size) else b;
    if JoinsBelow(fl, b) then Blk(fl[k].addr, fl[k].size + up.size) else up
  }

  /** The free list with block b put in its place and joined to the neighbours it touches. */
  function Insert(fl: seq<Blk>, b: Blk): seq<Blk>
    requires |fl| >= 1
  {
    var k := Place(fl, b.addr);
    var at := if JoinsBelow(fl, b) then k else k + 1;
    var rest := if JoinsAbove(fl, b) then k + 2 else k + 1;
    fl[..at] + [Joined(fl, b)] + fl[rest..]
  }

  /** The free list after n units are cut from the tail of its j-th block. */
  function Take(fl: seq<Blk>, j: nat, n: int): seq<Blk>
    requires j < |fl|
  {
    if fl[j].size == n then fl[..j] + fl[j + 1..]
    else fl[j := Blk(fl[j].addr, fl[j].size - n)]
  }

  function Next(fl: seq<Blk>, i: nat): nat
    requires i < |fl|
  {
    if i + 1 < |fl| then i + 1 else 0
  }

  /** The block malloc's loop takes: the first of at least n units, walking the circle from j to r. */
  function FirstFit(fl: seq<Blk>, j: nat, r: nat, n: int): (f: Option<nat>)
    requires j < |fl| && r < |fl|
    ensures f.Some? ==> f.value < |fl| && fl[f.value].size >= n
    decreases if j <= r then r - j else r - j + |fl|
  {
    if fl[j].size >= n then Some(j)
    else if j == r then None
    else FirstFit(fl, Next(fl, j), r, n)
  }

  /** Starting just after r the walk visits every block: it fails only when none is big enough. */
  lemma FirstFitComplete(fl: seq<Blk>, j: nat, r: nat, n: int)
    requires j < |fl| && r < |fl| && FirstFit(fl, j, r, n).None?
    ensures if j <= r then forall i :: j <= i <= r ==> fl[i].size < n
            else (forall i :: j <= i < |fl| ==> fl[i].size < n) && forall i :: 0 <= i <= r ==> fl[i].size < n
    decreases if j <= r then r - j else r - j + |fl|
  {
    if j != r {
      FirstFitComplete(fl, Next(fl, j), r, n);
    }
  }

  // ---------------------------------------------------------------- what insertion and cutting keep

  ghost predicate CanInsert(fl: seq<Blk>, b: Blk) {
    && Ordered(fl) && b.addr > BASE && b.size >= 1
    && (forall i :: 1 <= i < |fl| ==> Apart(fl[i], b))
  }

  lemma PlaceBelow(fl: seq<Blk>, b: Blk)
    requires CanInsert(fl, b)
    ensures var k := Place(fl, b.addr);
            fl[k].addr < b.addr && fl[k].End() <= b.addr && (k + 1 < |fl| ==> b.End() <= fl[k + 1].addr)
            && (k == 0 ==> !JoinsBelow(fl, b)) && b.addr < b.End()
  {
    hide Place;
    var k := Place(fl, b.addr);
    assert k == 0 || Apart(fl[k], b);
    assert k + 1 < |fl| ==> Apart(fl[k + 1], b);
  }

  lemma EndsGrow(fl: seq<Blk>, i: nat, j: nat)
    requires Ordered(fl) && i <= j < |fl|
    ensures fl[i].End() <= fl[j].End() && fl[i].addr <= fl[j].addr && (i < j ==> fl[i].End() < fl[j].addr)
  {
  }

  /** The units of a block grown by its neighbours. */
  lemma JoinedUnits(fl: seq<Blk>, b: Blk, x: int)
    requires |fl| >= 1 && b.size >= 1 && forall i :: 0 <= i < |fl| ==> fl[i].size >= 0
    ensures var k := Place(fl, b.addr);
            Joined(fl, b).Has(x) <==>
                b.Has(x) || (JoinsBelow(fl, b) && fl[k].Has(x)) || (JoinsAbove(fl, b) && fl[k + 1].Has(x))
  {
    hide Place;
  }

  /** Where b lands, and that what it becomes fits between its new neighbours. */
  lemma InsertFits(fl: seq<Blk>, b: Blk) returns (at: nat, rest: nat, mid: Blk)
    requires CanInsert(fl, b)
    ensures 1 <= at <= rest <= |fl| && at + 2 >= rest && Insert(fl, b) == fl[..at] + [mid] + fl[rest..]
    ensures mid.size >= 1 && fl[at - 1].End() < mid.addr && (rest < |fl| ==> mid.End() < fl[rest].addr)
    ensures forall x :: mid.Has(x) <==> b.Has(x) || (exists i :: at <= i < rest && fl[i].Has(x))
    ensures mid.addr <= b.addr && b.End() <= mid.End()
  {
    hide Place, Ordered, CanInsert, JoinsBelow, JoinsAbove, Joined;
    InsertBounds(fl, b);
    var k := Place(fl, b.addr);
    at := if JoinsBelow(fl, b) then k else k + 1;
    rest := if JoinsAbove(fl, b) then k + 2 else k + 1;
    mid := Joined(fl, b);
    forall x
      ensures mid.Has(x) <==> b.Has(x) || (exists i :: at <= i < rest && fl[i].Has(x))
    {
      JoinedUnits(fl, b, x);
      JoinedAt(fl, b, k, at, rest, x);
    }
  }

  lemma JoinedAt(fl: seq<Blk>, b: Blk, k: nat, at: nat, rest: nat, x: int)
    requires |fl| >= 1 && k == Place(fl, b.addr) && rest <= |fl|
    requires at == (if JoinsBelow(fl, b) then k else k + 1) && rest == (if JoinsAbove(fl, b) then k + 2 else k + 1)
    ensures (exists i :: at <= i < rest && fl[i].Has(x)) <==>
        (JoinsBelow(fl, b) && fl[k].Has(x)) || (JoinsAbove(fl, b) && fl[k + 1].Has(x))
  {
    hide Place;
    if JoinsBelow(fl, b) && fl[k].Has(x) {
      assert at <= k < rest;
    }
    if JoinsAbove(fl, b) && fl[k + 1].Has(x) {
      assert at <= k + 1 < rest;
    }
  }

  lemma InsertBounds(fl: seq<Blk>, b: Blk)
    requires CanInsert(fl, b)
    ensures |fl| >= 1 && b.size >= 1 && forall i :: 0 <= i < |fl| ==> fl[i].size >= 0
    ensures var k := Place(fl, b.addr);
            var at := if JoinsBelow(fl, b) then k else k + 1;
            var rest := if JoinsAbove(fl, b) then k + 2 else k + 1;
            var mid := Joined(fl, b);
            && 1 <= at <= rest <= |fl|
            && mid.size >= 1 && fl[at - 1].End() < mid.addr && (rest < |fl| ==> mid.End() < fl[rest].addr)
            && mid.addr <= b.addr && b.End() <= mid.End()
  {
    hide Place, Ordered, CanInsert;
    Sizes(fl, b);
    PlaceBelow(fl, b);
    var k := Place(fl, b.addr);
    if 0 < k {
      EndsBetween(fl, b, k - 1, k);
    }
    if k + 2 < |fl| {
      EndsBetween(fl, b, k + 1, k + 2);
    }
    if k + 1 < |fl| {
      EndsBetween(fl, b, k, k + 1);
    }
  }

  lemma Sizes(fl: seq<Blk>, b: Blk)
    requires CanInsert(fl, b)
    ensures |fl| >= 1 && b.size >= 1 && forall i :: 0 <= i < |fl| ==> fl[i].size >= 0
  {
  }

  lemma EndsBetween(fl: seq<Blk>, b: Blk, i: nat, j: nat)
    requires CanInsert(fl, b) && i < j < |fl|
    ensures fl[i].End() < fl[j].addr
  {
    EndsGrow(fl, i, j);
  }

  /** A list with the blocks from `at` up to `rest` replaced by one. */
  function Replaced(fl: seq<Blk>, at: nat, rest: nat, mid: Blk): seq<Blk>
    requires at <= rest <= |fl|
  {
    fl[..at] + [mid] + fl[rest..]
  }

  lemma ReplacedAt(fl: seq<Blk>, at: nat, rest: nat, mid: Blk, i: nat)
    requires at <= rest <= |fl| && i < |Replaced(fl, at, rest, mid)|
    ensures |Replaced(fl, at, rest, mid)| == at + 1 + |fl| - rest
    ensures i < at ==> Replaced(fl, at, rest, mid)[i] == fl[i]
    ensures i == at ==> Replaced(fl, at, rest, mid)[i] == mid
    ensures i > at ==> Replaced(fl, at, rest, mid)[i] == fl[i - at - 1 + rest]
  {
  }

  lemma ReplacedPair(fl: seq<Blk>, at: nat, rest: nat, mid: Blk, i: nat, j: nat)
    requires Ordered(fl) && 1 <= at <= rest <= |fl| && mid.size >= 1
    requires fl[at - 1].End() < mid.addr && (rest < |fl| ==> mid.End() < fl[rest].addr)
    requires i < j < |Replaced(fl, at, rest, mid)|
    ensures Replaced(fl, at, rest, mid)[i].End() < Replaced(fl, at, rest, mid)[j].addr
  {
    ReplacedAt(fl, at, rest, mid, i);
    ReplacedAt(fl, at, rest, mid, j);
    hide Ordered, Replaced;
    if i < at {
      EndsGrow(fl, i, at - 1);
      if j < at {
        EndsGrow(fl, i, j);
      } else if j > at {
        EndsGrow(fl, i, j - at - 1 + rest);
      }
    } else if i == at {
      EndsGrow(fl, rest, j - at - 1 + rest);
    } else {
      EndsGrow(fl, i - at - 1 + rest, j - at - 1 + rest);
    }
  }

  /** Insertion, seen as a list: in address order, nothing touching. */
  lemma InsertOrdered(fl: seq<Blk>, b: Blk)
    requires CanInsert(fl, b)
    ensures Ordered(Insert(fl, b))
  {
    var at, rest, mid := InsertFits(fl, b);
    assert Insert(fl, b) == Replaced(fl, at, rest, mid);
    ReplacedOrdered(fl, at, rest, mid);
    hide *;
  }

  lemma ReplacedOrdered(fl: seq<Blk>, at: nat, rest: nat, mid: Blk)
    requires Ordered(fl) && 1 <= at <= rest <= |fl| && mid.size >= 1
    requires fl[at - 1].End() < mid.addr && (rest < |fl| ==> mid.End() < fl[rest].addr)
    ensures Ordered(Replaced(fl, at, rest, mid))
  {
    var fl' := Replaced(fl, at, rest, mid);
    hide Replaced;
    forall i: nat, j: nat | i < j < |fl'| ensures fl'[i].End() < fl'[j].addr {
      ReplacedPair(fl, at, rest, mid, i, j);
    }
    ReplacedAt(fl, at, rest, mid, 0);
    forall i: nat | 1 <= i < |fl'| ensures fl'[i].size >= 1 {
      ReplacedAt(fl, at, rest, mid, i);
    }
  }

  /** Replacing the blocks from `at` up to `rest` by one with the units of those and of b. */
  lemma SpliceUnits(fl: seq<Blk>, at: nat, rest: nat, mid: Blk, b: Blk, x: int)
    requires 1 <= at <= rest <= |fl|
    requires mid.Has(x) <==> b.Has(x) || (exists i :: at <= i < rest && fl[i].Has(x))
    ensures InFree(fl[..at] + [mid] + fl[rest..], x) <==> InFree(fl, x) || b.Has(x)
  {
    var fl' := fl[..at] + [mid] + fl[rest..];
    if InFree(fl, x) {
      var i :| 1 <= i < |fl| && fl[i].Has(x);
      if i < at {
        assert fl'[i] == fl[i];
      } else if i < rest {
        assert fl'[at] == mid && mid.Has(x);
      } else {
        assert fl'[i - rest + at + 1] == fl[i];
      }
    } else if b.Has(x) {
      assert fl'[at] == mid && mid.Has(x);
    }
    if InFree(fl', x) {
      var i :| 1 <= i < |fl'| && fl'[i].Has(x);
      if i < at {
        assert fl'[i] == fl[i];
      } else if i > at {
        assert fl'[i] == fl[i - at - 1 + rest];
      }
    }
  }

  /** Insertion, seen as a set of units: exactly those of b are added. */
  lemma InsertUnits(fl: seq<Blk>, b: Blk, x: int)
    requires CanInsert(fl, b)
    ensures InFree(Insert(fl, b), x) <==> InFree(fl, x) || b.Has(x)
  {
    var at, rest, mid := InsertFits(fl, b);
    hide *;
    SpliceUnits(fl, at, rest, mid, b, x);
  }

  lemma TakeOrdered(fl: seq<Blk>, j: nat, n: int)
    requires Ordered(fl) && 1 <= j < |fl| && 1 <= n <= fl[j].size
    ensures Ordered(Take(fl, j, n))
  {
  }

  /** Cutting, seen as a set of units: exactly the last n of the block are gone. */
  lemma TakeUnits(fl: seq<Blk>, j: nat, n: int, x: int)
    requires Ordered(fl) && 1 <= j < |fl| && 1 <= n <= fl[j].size
    ensures InFree(Take(fl, j, n), x) <==> InFree(fl, x) && !Blk(fl[j].End() - n, n).Has(x)
    ensures Blk(fl[j].End() - n, n).Has(x) ==> InFree(fl, x)
  {
    var fl' := Take(fl, j, n);
    var cut := Blk(fl[j].End() - n, n);
    if cut.Has(x) {
      CutGone(fl, j, n, x);
    }
    hide Ordered, InFree;
    if fl[j].size == n {
      assert cut == fl[j] && fl == fl'[..j] + [fl[j]] + fl'[j..];
      SpliceUnits(fl', j, j, fl[j], cut, x);
    } else {
      assert fl == fl'[..j] + [fl[j]] + fl'[j + 1..];
      assert fl[j].Has(x) <==> cut.Has(x) || fl'[j].Has(x);
      SpliceUnits(fl', j, j + 1, fl[j], cut, x);
    }
  }

  lemma CutGone(fl: seq<Blk>, j: nat, n: int, x: int)
    requires Ordered(fl) && 1 <= j < |fl| && 1 <= n <= fl[j].size && Blk(fl[j].End() - n, n).Has(x)
    ensures !InFree(Take(fl, j, n), x)
  {
    var fl' := Take(fl, j, n);
    forall i | 1 <= i < |fl'|
      ensures !fl'[i].Has(x)
    {
      var i' := if fl[j].size == n && i >= j then i + 1 else i;
      if i' < j {
        assert fl[i'].End() < fl[j].addr;
      } else if i' > j {
        assert fl[j].End() < fl[i'].addr;
      }
    }
  }

  /** Two blocks overlap exactly when they share a unit. */
  lemma ShareUnit(b: Blk, c: Blk)
    requires b.size >= 1 && c.size >= 1
    ensures Apart(b, c) <==> forall x :: !(b.Has(x) && c.Has(x))
  {
    var x := if b.addr < c.addr then c.addr else b.addr;
    if !Apart(b, c) {
      assert b.Has(x) && c.Has(x);
    }
  }

  lemma MidApart(fl: seq<Blk>, at: nat, rest: nat, mid: Blk, b: Blk, c: Blk)
    requires at <= rest <= |fl| && mid.size >= 1 && c.size >= 1 && b.size >= 1 && Apart(b, c)
    requires forall i :: at <= i < rest ==> Apart(fl[i], c)
    requires forall x :: mid.Has(x) <==> b.Has(x) || (exists i :: at <= i < rest && fl[i].Has(x))
    ensures Apart(mid, c)
  {
    ShareUnit(b, c);
    forall x
      ensures !(mid.Has(x) && c.Has(x))
    {
      if mid.Has(x) && !b.Has(x) {
        var i :| at <= i < rest && fl[i].Has(x);
        assert Apart(fl[i], c);
      }
    }
    ShareUnit(mid, c);
  }

  lemma InsertApart(fl: seq<Blk>, b: Blk, c: Blk)
    requires CanInsert(fl, b) && c.size >= 1 && Apart(b, c)
    requires forall i :: 1 <= i < |fl| ==> Apart(fl[i], c)
    ensures forall i :: 1 <= i < |Insert(fl, b)| ==> Apart(Insert(fl, b)[i], c)
  {
    hide Insert, Ordered, Apart, Replaced;
    var at, rest, mid := InsertFits(fl, b);
    ReplacedIs(fl, at, rest, mid);
    MidApart(fl, at, rest, mid, b, c);
    var fl' := Replaced(fl, at, rest, mid);
    forall i: nat | 1 <= i < |fl'|
      ensures Apart(fl'[i], c)
    {
      ReplacedAt(fl, at, rest, mid, i);
    }
  }

  lemma ReplacedIs(fl: seq<Blk>, at: nat, rest: nat, mid: Blk)
    requires at <= rest <= |fl|
    ensures Replaced(fl, at, rest, mid) == fl[..at] + [mid] + fl[rest..]
  {
  }

  /** Freeing a live block keeps the tiling. */
  lemma FreeTiles(fl: seq<Blk>, live: map<int, int>, arena: set<int>, a: int)
    requires Ordered(fl) && Tiles(fl, live, arena) && a in live
    ensures CanInsert(fl, Blk(a, live[a]))
    ensures Ordered(Insert(fl, Blk(a, live[a]))) && Tiles(Insert(fl, Blk(a, live[a])), live - {a}, arena)
  {
    var b, live' := Blk(a, live[a]), live - {a};
    InsertOrdered(fl, b);
    var fl' := Insert(fl, b);
    forall i, c | 1 <= i < |fl'| && c in live'
      ensures Apart(fl'[i], Blk(c, live'[c]))
    {
      InsertApart(fl, b, Blk(c, live[c]));
    }
    hide Insert, Ordered;
    forall x
      ensures x in arena <==> InFree(fl', x) || InLive(live', x)
    {
      InsertUnits(fl, b, x);
      hide InFree;
      if InLive(live, x) {
        var c :| c in live && Blk(c, live[c]).Has(x);
        assert c == a || (c in live' && Blk(c, live'[c]).Has(x));
      }
      if InLive(live', x) {
        var c :| c in live' && Blk(c, live'[c]).Has(x);
        assert c in live && Blk(c, live[c]).Has(x);
      }
      if b.Has(x) {
        assert InLive(live, x);
      }
    }
  }

  lemma TakeApart(fl: seq<Blk>, j: nat, n: int, c: Blk)
    requires Ordered(fl) && 1 <= j < |fl| && 1 <= n <= fl[j].size
    requires forall i :: 1 <= i < |fl| ==> Apart(fl[i], c)
    ensures Apart(Blk(fl[j].End() - n, n), c)
    ensures forall i :: 1 <= i < |Take(fl, j, n)| ==> Apart(Take(fl, j, n)[i], c)
  {
  }

  lemma TakeCut(fl: seq<Blk>, j: nat, n: int)
    requires Ordered(fl) && 1 <= j < |fl| && 1 <= n <= fl[j].size
    ensures forall i :: 1 <= i < |Take(fl, j, n)| ==> Apart(Take(fl, j, n)[i], Blk(fl[j].End() - n, n))
  {
    var fl' := Take(fl, j, n);
    forall i | 1 <= i < |fl'|
      ensures Apart(fl'[i], Blk(fl[j].End() - n, n))
    {
      var i' := if fl[j].size == n && i >= j then i + 1 else i;
      if i' < j {
        assert fl[i'].End() < fl[j].addr;
      } else if i' > j {
        assert fl[j].End() < fl[i'].addr;
      }
    }
  }

  /** Handing out the tail of a free block keeps the tiling. */
  lemma TakeTiles(fl: seq<Blk>, live: map<int, int>, arena: set<int>, j: nat, n: int)
    requires Ordered(fl) && Tiles(fl, live, arena) && 1 <= j < |fl| && 1 <= n <= fl[j].size
    ensures var a := fl[j].End() - n;
            && a !in live && a > BASE
            && Ordered(Take(fl, j, n)) && Tiles(Take(fl, j, n), live[a := n], arena)
  {
    var a := fl[j].End() - n;
    var cut, fl', live' := Blk(a, n), Take(fl, j, n), live[a := n];
    TakeOrdered(fl, j, n);
    TakeCut(fl, j, n);
    assert fl[0].End() < fl[j].addr;
    forall c | c in live
      ensures Apart(cut, Blk(c, live[c])) && forall i :: 1 <= i < |fl'| ==> Apart(fl'[i], Blk(c, live[c]))
    {
      TakeApart(fl, j, n, Blk(c, live[c]));
    }
    hide Take, Ordered;
    forall x
      ensures x in arena <==> InFree(fl', x) || InLive(live', x)
    {
      TakeUnits(fl, j, n, x);
      hide InFree;
      NewLive(live, a, n, x);
      hide InLive;
    }
  }

  function Units(a: int, n: int): (r: set<int>)
    ensures forall x :: x in r <==> a <= x < a + n
    decreases n
  {
    if n <= 0 then {} else Units(a, n - 1) + {a + n - 1}
  }

  lemma ArenaBounds(fl: seq<Blk>, live: map<int, int>, arena: set<int>, a: int)
    requires Ordered(fl) && Tiles(fl, live, arena) && forall x :: x in arena ==> x < a
    ensures forall i :: 1 <= i < |fl| ==> fl[i].End() <= a
    ensures forall c :: c in live ==> c + live[c] <= a
  {
    forall i | 1 <= i < |fl|
      ensures fl[i].End() <= a
    {
      assert fl[i].Has(fl[i].End() - 1);
      assert InFree(fl, fl[i].End() - 1);
    }
    forall c | c in live
      ensures c + live[c] <= a
    {
      assert Blk(c, live[c]).Has(c + live[c] - 1);
      assert InLive(live, c + live[c] - 1);
    }
  }

  lemma NewLive(live: map<int, int>, a: int, n: int, x: int)
    requires a !in live
    ensures InLive(live[a := n], x) <==> InLive(live, x) || Blk(a, n).Has(x)
  {
    var live' := live[a := n];
    if InLive(live, x) {
      var c :| c in live && Blk(c, live[c]).Has(x);
      assert c in live' && Blk(c, live'[c]).Has(x);
    }
    if InLive(live', x) {
      var c :| c in live' && Blk(c, live'[c]).Has(x);
      assert c == a || (c in live && Blk(c, live[c]).Has(x));
    }
    if Blk(a, n).Has(x) {
      assert a in live' && Blk(a, live'[a]).Has(x);
    }
  }

  /** Fresh memory from sbrk, above all the rest, first counts as one live block. */
  lemma GrowTiles(fl: seq<Blk>, live: map<int, int>, arena: set<int>, a: int, n: int)
    requires Ordered(fl) && Tiles(fl, live, arena) && a > BASE && n >= 1 && forall x :: x in arena ==> x < a
    ensures a !in live && Tiles(fl, live[a := n], arena + Units(a, n))
  {
    ArenaBounds(fl, live, arena, a);
    forall x
      ensures x in arena + Units(a, n) <==> InFree(fl, x) || InLive(live[a := n], x)
    {
      NewLive(live, a, n, x);
      hide InFree, InLive;
    }
    hide Ordered, InFree, InLive;
  }

  // ---------------------------------------------------------------- headers in memory

  datatype Header = Header(ptr: int, size: int)

  /** The headers in memory form the circular list fl. */
  ghost predicate Linked(mem: map<int, Header>, fl: seq<Blk>) {
    forall i :: 0 <= i < |fl| ==> HeaderIs(mem, fl, i)
  }

  ghost predicate HeaderIs(mem: map<int, Header>, fl: seq<Blk>, i: int)
    requires 0 <= i < |fl|
  {
    fl[i].addr in mem && mem[fl[i].addr] == Header(fl[Next(fl, i)].addr, fl[i].size)
  }

  /** What lines 33-42 of umalloc.c do to memory, bp being the freed header and p its predecessor. */
  function Splice(mem: map<int, Header>, bp: int, p: int): map<int, Header>
    requires bp in mem && p in mem && mem[p].ptr in mem && bp != p
  {
    var q := mem[p].ptr;
    var m1 := if bp + mem[bp].size == q then mem[bp := Header(mem[q].ptr, mem[bp].size + mem[q].size)]
              else mem[bp := Header(q, mem[bp].size)];
    if p + m1[p].size == bp then m1[p := Header(m1[bp].ptr, m1[p].size + m1[bp].size)]
    else m1[p := Header(bp, m1[p].size)]
  }

  /** The pointer surgery turns the list fl into Insert(fl, b). */
  lemma SpliceLinks(mem: map<int, Header>, fl: seq<Blk>, b: Blk)
    requires CanInsert(fl, b) && Linked(mem, fl) && b.addr in mem && mem[b.addr].size == b.size
    ensures var k := Place(fl, b.addr);
            && fl[k].addr in mem && mem[fl[k].addr].ptr in mem && fl[k].addr != b.addr
            && k < |Insert(fl, b)| && Insert(fl, b)[k].addr == fl[k].addr
            && Linked(Splice(mem, b.addr, fl[k].addr), Insert(fl, b))
  {
    PlaceBelow(fl, b);
    hide Place;
    var k := Place(fl, b.addr);
    assert HeaderIs(mem, fl, k) && HeaderIs(mem, fl, Next(fl, k));
    var fl', mem' := Insert(fl, b), Splice(mem, b.addr, fl[k].addr);
    forall i | 0 <= i < |fl'|
      ensures HeaderIs(mem', fl', i)
    {
      SpliceLinkAt(mem, fl, b, i);
    }
  }

  /** The two headers that the surgery rewrites, in terms of the list. */
  lemma SpliceValues(mem: map<int, Header>, fl: seq<Blk>, b: Blk)
    requires CanInsert(fl, b) && Linked(mem, fl) && b.addr in mem && mem[b.addr].size == b.size
    requires var k := Place(fl, b.addr); fl[k].addr in mem && mem[fl[k].addr].ptr in mem && fl[k].addr < b.addr
    ensures var k := Place(fl, b.addr);
            var above := JoinsAbove(fl, b);
            var after := if above then Next(fl, k + 1) else Next(fl, k);
            var up := if above then b.size + fl[k + 1].size else b.size;
            var mem' := Splice(mem, b.addr, fl[k].addr);
            && (forall x :: x in mem && x != b.addr && x != fl[k].addr ==> x in mem' && mem'[x] == mem[x])
            && b.addr in mem' && fl[k].addr in mem'
            && (JoinsBelow(fl, b) ==> mem'[fl[k].addr] == Header(fl[after].addr, fl[k].size + up))
            && (!JoinsBelow(fl, b) ==>
                  mem'[fl[k].addr] == Header(b.addr, fl[k].size) && mem'[b.addr] == Header(fl[after].addr, up))
  {
    hide Place, Splice, Ordered, CanInsert;
    PlaceBelow(fl, b);
    var k := Place(fl, b.addr);
    assert HeaderIs(mem, fl, k) && HeaderIs(mem, fl, Next(fl, k));
    BaseBelow(fl, b);
    SpliceMem(mem, b.addr, fl[k].addr);
  }

  lemma BaseBelow(fl: seq<Blk>, b: Blk)
    requires CanInsert(fl, b)
    ensures |fl| >= 1 && b.End() != fl[0].addr
  {
  }

  /** The same in terms of memory alone. */
  lemma SpliceMem(mem: map<int, Header>, bp: int, p: int)
    requires bp in mem && p in mem && mem[p].ptr in mem && bp != p
    ensures var q := mem[p].ptr;
            var above := bp + mem[bp].size == q;
            var after := if above then mem[q].ptr else q;
            var up := if above then mem[bp].size + mem[q].size else mem[bp].size;
            var mem' := Splice(mem, bp, p);
            && (forall x :: x in mem && x != bp && x != p ==> x in mem' && mem'[x] == mem[x])
            && bp in mem' && p in mem'
            && (p + mem[p].size == bp ==> mem'[p] == Header(after, mem[p].size + up))
            && (p + mem[p].size != bp ==> mem'[p] == Header(bp, mem[p].size) && mem'[bp] == Header(after, up))
  {
  }

  lemma LinkAt(mem: map<int, Header>, fl: seq<Blk>, i: nat)
    requires Linked(mem, fl) && i < |fl|
    ensures HeaderIs(mem, fl, i)
  {
  }

  lemma OrderAt(fl: seq<Blk>, i: nat, j: nat)
    requires Ordered(fl) && i < j < |fl|
    ensures fl[i].End() < fl[j].addr && fl[i].addr < fl[j].addr
  {
  }

  lemma AboveBase(fl: seq<Blk>, k: nat)
    requires Ordered(fl) && k < |fl|
    ensures fl[k].addr >= BASE
  {
    assert k > 0 ==> fl[0].End() < fl[k].addr;
  }

  /** Headers before the place keep their contents, and their successors their addresses. */
  lemma KeptBefore(mem: map<int, Header>, mem': map<int, Header>, fl: seq<Blk>, k: nat, fl': seq<Blk>, i: nat)
    requires Ordered(fl) && Linked(mem, fl) && i < k < |fl| && k < |fl'|
    requires fl'[..k] == fl[..k] && fl'[k].addr == fl[k].addr
    requires forall x :: x in mem && x < fl[k].addr ==> x in mem' && mem'[x] == mem[x]
    ensures HeaderIs(mem', fl', i)
  {
    LinkAt(mem, fl, i);
    OrderAt(fl, i, k);
    hide Ordered, Linked;
    assert fl'[i] == fl'[..k][i] == fl[..k][i] == fl[i];
    assert i + 1 < k ==> fl'[i + 1] == fl'[..k][i + 1] == fl[..k][i + 1] == fl[i + 1];
  }

  /** So do headers after it: fl' ends as fl does from `rest` on. */
  lemma KeptAfter(mem: map<int, Header>, mem': map<int, Header>, fl: seq<Blk>, top: int, fl': seq<Blk>, at: nat,
                  rest: nat, i: nat)
    requires Ordered(fl) && Linked(mem, fl) && at < i < |fl'| && rest <= |fl| && |fl'| - at - 1 == |fl| - rest
    requires fl'[at + 1..] == fl[rest..] && fl'[0].addr == fl[0].addr
    requires rest < |fl| ==> top < fl[rest].addr
    requires forall x :: x in mem && x > top ==> x in mem' && mem'[x] == mem[x]
    ensures HeaderIs(mem', fl', i)
  {
    var j := i - at - 1 + rest;
    LinkAt(mem, fl, j);
    if rest < j {
      OrderAt(fl, rest, j);
    }
    hide Ordered, Linked;
    assert fl'[i] == fl'[at + 1..][i - at - 1] == fl[rest..][i - at - 1] == fl[j];
    if i + 1 < |fl'| {
      assert fl'[i + 1] == fl'[at + 1..][i - at] == fl[rest..][i - at] == fl[j + 1];
    }
  }

  lemma SpliceLow(mem: map<int, Header>, fl: seq<Blk>, b: Blk, i: nat)
    requires CanInsert(fl, b) && Linked(mem, fl) && b.addr in mem && mem[b.addr].size == b.size
    requires var k := Place(fl, b.addr); fl[k].addr in mem && mem[fl[k].addr].ptr in mem && fl[k].addr < b.addr
    requires i < Place(fl, b.addr)
    ensures i < |Insert(fl, b)| && HeaderIs(Splice(mem, b.addr, fl[Place(fl, b.addr)].addr), Insert(fl, b), i)
  {
    hide Place, Splice, Linked, CanInsert, Ordered, Insert, JoinsBelow, JoinsAbove;
    InsertSlices(fl, b);
    SpliceValues(mem, fl, b);
    var k := Place(fl, b.addr);
    KeptBefore(mem, Splice(mem, b.addr, fl[k].addr), fl, k, Insert(fl, b), i);
  }

  lemma SpliceHigh(mem: map<int, Header>, fl: seq<Blk>, b: Blk, i: nat)
    requires CanInsert(fl, b) && Linked(mem, fl) && b.addr in mem && mem[b.addr].size == b.size
    requires var k := Place(fl, b.addr); fl[k].addr in mem && mem[fl[k].addr].ptr in mem && fl[k].addr < b.addr
    requires (if JoinsBelow(fl, b) then Place(fl, b.addr) else Place(fl, b.addr) + 1) < i < |Insert(fl, b)|
    ensures HeaderIs(Splice(mem, b.addr, fl[Place(fl, b.addr)].addr), Insert(fl, b), i)
  {
    hide Place, Splice, Linked, CanInsert, Ordered, Insert, JoinsBelow, JoinsAbove;
    InsertSlices(fl, b);
    SpliceValues(mem, fl, b);
    PlaceBelow(fl, b);
    var k := Place(fl, b.addr);
    var at := if JoinsBelow(fl, b) then k else k + 1;
    var rest := if JoinsAbove(fl, b) then k + 2 else k + 1;
    if k + 1 < rest < |fl| {
      OrderAt(fl, k + 1, rest);
    }
    KeptAfter(mem, Splice(mem, b.addr, fl[k].addr), fl, b.addr, Insert(fl, b), at, rest, i);
  }

  lemma SpliceLinkAt(mem: map<int, Header>, fl: seq<Blk>, b: Blk, i: nat)
    requires CanInsert(fl, b) && Linked(mem, fl) && b.addr in mem && mem[b.addr].size == b.size
    requires var k := Place(fl, b.addr); fl[k].addr in mem && mem[fl[k].addr].ptr in mem && fl[k].addr < b.addr
    requires i < |Insert(fl, b)|
    ensures HeaderIs(Splice(mem, b.addr, fl[Place(fl, b.addr)].addr), Insert(fl, b), i)
  {
    hide *;
    var k := Place(fl, b.addr);
    if i < k {
      SpliceLow(mem, fl, b, i);
    } else if i > (if JoinsBelow(fl, b) then k else k + 1) {
      SpliceHigh(mem, fl, b, i);
    } else {
      SpliceValues(mem, fl, b);
      PlaceBelow(fl, b);
      SpliceMiddle(Splice(mem, b.addr, fl[k].addr), fl, b, i);
    }
  }

  /** The predecessor and the freed block themselves. */
  lemma SpliceMiddle(mem: map<int, Header>, fl: seq<Blk>, b: Blk, i: nat)
    requires |fl| >= 1
    requires var k := Place(fl, b.addr);
             k <= i <= (if JoinsBelow(fl, b) then k else k + 1) && (k == 0 ==> !JoinsBelow(fl, b))
    requires var k := Place(fl, b.addr);
             var above := JoinsAbove(fl, b);
             var after := if above then Next(fl, k + 1) else Next(fl, k);
             var up := if above then b.size + fl[k + 1].size else b.size;
             && b.addr in mem && fl[k].addr in mem
             && (JoinsBelow(fl, b) ==> mem[fl[k].addr] == Header(fl[after].addr, fl[k].size + up))
             && (!JoinsBelow(fl, b) ==>
                   mem[fl[k].addr] == Header(b.addr, fl[k].size) && mem[b.addr] == Header(fl[after].addr, up))
    ensures i < |Insert(fl, b)| && HeaderIs(mem, Insert(fl, b), i)
  {
    hide Place;
    var k := Place(fl, b.addr);
    var at := if JoinsBelow(fl, b) then k else k + 1;
    var rest := if JoinsAbove(fl, b) then k + 2 else k + 1;
    var fl' := Insert(fl, b);
    assert fl'[0].addr == fl[0].addr && fl'[at] == Joined(fl, b);
    if rest < |fl| {
      assert fl'[at + 1] == fl[rest];
    } else {
      assert |fl'| == at + 1;
    }
  }

  lemma InsertSlices(fl: seq<Blk>, b: Blk)
    requires CanInsert(fl, b)
    ensures Ordered(fl)
    ensures var k := Place(fl, b.addr);
            var at := if JoinsBelow(fl, b) then k else k + 1;
            var rest := if JoinsAbove(fl, b) then k + 2 else k + 1;
            var fl' := Insert(fl, b);
            && at <= |fl| && rest <= |fl| && |fl'| == at + 1 + |fl| - rest
            && fl'[at + 1..] == fl[rest..] && k < |fl'| && fl'[..k] == fl[..k]
            && fl'[k].addr == fl[k].addr && fl'[0].addr == fl[0].addr
  {
    hide Place, Ordered;
  }

  function PtrAt(mem: map<int, Header>, a: int): int {
    if a in mem then mem[a].ptr else 0
  }

  /** What lines 76-82 of umalloc.c do to memory when n units are cut from the block at p. The cut
      block's link field keeps whatever it held. */
  function CutMem(mem: map<int, Header>, prevp: int, p: int, n: int): map<int, Header>
    requires prevp in mem && p in mem
  {
    if mem[p].size == n then mem[prevp := Header(mem[p].ptr, mem[prevp].size)]
    else
      var rest := mem[p].size - n;
      mem[p := Header(mem[p].ptr, rest)][p + rest := Header(PtrAt(mem, p + rest), n)]
  }

  /** Cutting in memory is Take on the list. */
  lemma CutLinks(mem: map<int, Header>, fl: seq<Blk>, j: nat, n: int)
    requires Ordered(fl) && Linked(mem, fl) && 1 <= j < |fl| && 1 <= n <= fl[j].size
    ensures fl[j].addr in mem && fl[j - 1].addr in mem
    ensures Linked(CutMem(mem, fl[j - 1].addr, fl[j].addr, n), Take(fl, j, n))
  {
    assert HeaderIs(mem, fl, j) && HeaderIs(mem, fl, j - 1);
    var fl', mem' := Take(fl, j, n), CutMem(mem, fl[j - 1].addr, fl[j].addr, n);
    forall i | 0 <= i < |fl'|
      ensures HeaderIs(mem', fl', i)
    {
      CutLinkAt(mem, fl, j, n, i);
    }
  }

  lemma CutLinkAt(mem: map<int, Header>, fl: seq<Blk>, j: nat, n: int, i: nat)
    requires Ordered(fl) && Linked(mem, fl) && 1 <= j < |fl| && 1 <= n <= fl[j].size && i < |Take(fl, j, n)|
    requires fl[j].addr in mem && fl[j - 1].addr in mem
    ensures HeaderIs(CutMem(mem, fl[j - 1].addr, fl[j].addr, n), Take(fl, j, n), i)
  {
    hide Ordered, Linked;
    var fl' := Take(fl, j, n);
    LinkAt(mem, fl, j);
    LinkAt(mem, fl, j - 1);
    OrderAt(fl, j - 1, j);
    var i' := if fl[j].size == n && i >= j then i + 1 else i;
    LinkAt(mem, fl, i');
    if i' < j {
      OrderAt(fl, i', j);
    } else if i' > j {
      OrderAt(fl, j, i');
    }
    if i' < j - 1 {
      OrderAt(fl, i', j - 1);
    } else if i' > j - 1 {
      OrderAt(fl, j - 1, i');
    }
    assert fl'[0].addr == fl[0].addr;
    assert fl'[i].addr == fl[i'].addr;
    if i + 1 < |fl'| {
      assert fl'[i + 1].addr == fl[if fl[j].size == n && i + 1 >= j then i + 2 else i + 1].addr;
    }
  }

  // ---------------------------------------------------------------- the code

  lemma PlaceIs(fl: seq<Blk>, b: Blk, i: nat)
    requires CanInsert(fl, b) && i < |fl| && fl[i].addr < b.addr && (i + 1 < |fl| ==> b.addr < fl[i + 1].addr)
    ensures i == Place(fl, b.addr)
  {
    hide Place, Ordered, CanInsert;
    Sizes(fl, b);
    PlaceBelow(fl, b);
    var k := Place(fl, b.addr);
    if i < k {
      EndsBetween(fl, b, i, k);
      if i + 1 < k {
        EndsBetween(fl, b, i + 1, k);
      }
    } else if k < i {
      EndsBetween(fl, b, k, i);
      if k + 1 < i {
        EndsBetween(fl, b, k + 1, i);
      }
    }
  }

  /** Once memory for n units has been inserted, the walk from the new rover finds a block. */
  lemma InsertedFits(fl: seq<Blk>, b: Blk, n: int, r: nat)
    requires CanInsert(fl, b) && b.size >= n && r < |Insert(fl, b)|
    ensures FirstFit(Insert(fl, b), Next(Insert(fl, b), r), r, n).Some?
  {
    var at, rest, mid := InsertFits(fl, b);
    hide Insert, Ordered, Place;
    var g := Insert(fl, b);
    assert g[at] == mid;
    if FirstFit(g, Next(g, r), r, n).None? {
      FirstFitComplete(g, Next(g, r), r, n);
    }
  }

  /** nunits of malloc, in 32-bit unsigned arithmetic. */
  function NeededUnits(nbytes: nat): int {
    (nbytes + HEADER_BYTES - 1) % UINT_LIMIT / HEADER_BYTES + 1
  }

  /** One unit for the header and as few more as hold the bytes asked for, if the sum does not wrap around;
      otherwise the header alone. */
  predicate UnitsHold(nbytes: nat, n: int) {
    if nbytes + HEADER_BYTES - 1 < UINT_LIMIT then (n - 2) * HEADER_BYTES < nbytes <= (n - 1) * HEADER_BYTES
    else n == 1
  }

  /** The units hold the bytes asked for exactly when the sum does not wrap around. */
  lemma NeededExact(nbytes: nat)
    requires nbytes < UINT_LIMIT
    ensures NeededUnits(nbytes) >= 1 && UnitsHold(nbytes, NeededUnits(nbytes))
    ensures (NeededUnits(nbytes) - 1) * HEADER_BYTES >= nbytes <==> nbytes + HEADER_BYTES - 1 < UINT_LIMIT
  {
    if nbytes + HEADER_BYTES - 1 >= UINT_LIMIT {
      assert (nbytes + HEADER_BYTES - 1) % UINT_LIMIT == nbytes + HEADER_BYTES - 1 - UINT_LIMIT;
    }
  }

  /** The int that sbrk gets for this many units: the product wraps as unsigned and is read as signed. */
  function SbrkArgument(units: nat): int {
    var bytes := units * HEADER_BYTES % UINT_LIMIT;
    if bytes < UINT_LIMIT / 2 then bytes else bytes - UINT_LIMIT
  }

  /** It is the number of bytes meant exactly when that is below 2^31; 2^31 bytes become a negative
      number and 2^32 bytes none. */
  lemma SbrkExact(units: nat)
    ensures SbrkArgument(units) == units * HEADER_BYTES <==> units * HEADER_BYTES < UINT_LIMIT / 2
    ensures SbrkArgument(0x1000_0000) < 0 && SbrkArgument(0x2000_0000) == 0
  {
  }

  /** Room for n units, at least MIN_UNITS at a time. */
  function CoreUnits(n: int): (r: int)
    ensures n <= r && MIN_UNITS <= r && (r == n || r == MIN_UNITS)
  {
    if n < MIN_UNITS then MIN_UNITS else n
  }

  /** fl' is g with n units at ap cut off the first block that fits, walking the circle from just
      after block r; the next walk starts from the block before it. */
  ghost predicate CutFirstFit(g: seq<Blk>, r: nat, n: int, fl': seq<Blk>, r': nat, ap: int) {
    && r < |g|
    && match FirstFit(g, Next(g, r), r, n)
       case None => false
       case Some(j) => 1 <= j && n >= 1 && fl' == Take(g, j, n) && r' == j - 1 && ap - 1 == g[j].End() - n
  }

  class Allocator {
    var mem: map<int, Header>
    var freep: int
    var brk: int           // where the next sbrk region starts, in units
    const limit: int       // sbrk fails beyond this
    ghost var fl: seq<Blk>
    ghost var rover: nat   // freep is the address of fl[rover]
    ghost var live: map<int, int>
    ghost var arena: set<int>   // every unit ever obtained for the heap

    ghost predicate Valid()
      reads this
    {
      && Ordered(fl) && Tiles(fl, live, arena)
      && brk > BASE && (forall x :: x in arena ==> x < brk)
      && (forall a :: a in live ==> a in mem && mem[a].size == live[a])
      && rover < |fl|
      && (freep == 0 ==> fl == [Blk(BASE, 0)] && live == map[] && arena == {})
      && (freep != 0 ==> freep == fl[rover].addr && Linked(mem, fl))
    }

    constructor (brk: int, limit: int)
      requires brk > BASE
      ensures Valid() && live == map[] && arena == {} && fl == [Blk(BASE, 0)] && this.brk == brk && this.limit == limit
    {
      mem, freep, this.brk, this.limit := map[], 0, brk, limit;
      fl, rover, live, arena := [Blk(BASE, 0)], 0, map[], {};
    }

    /** The walk of free: from freep around the circle to the block after which bp belongs. */
    method FindPlace(bp: int) returns (p: int)
      requires Valid() && bp in live
      ensures p == fl[Place(fl, bp)].addr
    {
      hide Place, Tiles, Insert;
      FreeTiles(fl, live, arena, bp);
      ghost var b := Blk(bp, live[bp]);
      ghost var k := Place(fl, bp);
      PlaceBelow(fl, b);
      p := freep;
      ghost var i := rover;
      LinkAt(mem, fl, i);
      while !(bp > p && bp < mem[p].ptr)
        invariant 0 <= i < |fl| && p == fl[i].addr && HeaderIs(mem, fl, i)
        decreases if i <= k then k - i else k - i + |fl|
      {
        if p >= mem[p].ptr && (bp > p || bp < mem[p].ptr) {
          break;
        }
        assert i != k;
        p := mem[p].ptr;
        i := Next(fl, i);
        LinkAt(mem, fl, i);
      }
      assert fl[0].addr <= fl[i].addr;
      PlaceIs(fl, b, i);
    }

    /** free: a live block goes back to its place in address order, joined to free neighbours. */
    method Free(ap: int)
      requires Valid() && ap - 1 in live
      modifies this`mem, this`freep, this`fl, this`rover, this`live
      ensures Valid() && freep != 0
      ensures fl == Insert(old(fl), Blk(ap - 1, old(live)[ap - 1]))
      ensures live == old(live) - {ap - 1}
      ensures rover == Place(old(fl), ap - 1)
    {
      hide Place, Insert, Tiles, Ordered, Linked, Splice, CanInsert;
      var bp := ap - 1;
      var p := FindPlace(bp);
      ghost var b := Blk(bp, live[bp]);
      FreeTiles(fl, live, arena, bp);
      SpliceLinks(mem, fl, b);
      PlaceBelow(fl, b);
      SpliceKeepsLive(mem, fl, live, arena, bp);
      AboveBase(fl, Place(fl, bp));
      LinkNeighbours(bp, p);
      freep := p;
      rover, fl, live := Place(fl, bp), Insert(fl, b), live - {bp};
    }

    /** The pointer surgery of free (umalloc.c lines 33-42). */
    method LinkNeighbours(bp: int, p: int)
      requires bp in mem && p in mem && mem[p].ptr in mem && bp != p
      modifies this`mem
      ensures mem == Splice(old(mem), bp, p)
    {
      if bp + mem[bp].size == mem[p].ptr {
        var q := mem[p].ptr;
        mem := mem[bp := Header(mem[bp].ptr, mem[bp].size + mem[q].size)];
        mem := mem[bp := Header(mem[q].ptr, mem[bp].size)];
      } else {
        mem := mem[bp := Header(mem[p].ptr, mem[bp].size)];
      }
      if p + mem[p].size == bp {
        mem := mem[p := Header(mem[p].ptr, mem[p].size + mem[bp].size)];
        mem := mem[p := Header(mem[bp].ptr, mem[p].size)];
      } else {
        mem := mem[p := Header(bp, mem[p].size)];
      }
    }

    /** Some other part of the program calls sbrk. */
    method OtherSbrk(n: nat)
      requires Valid()
      modifies this`brk
      ensures Valid() && brk == old(brk) + n
    {
      brk := brk + n;
    }

    /** morecore: at least MIN_UNITS fresh units join the free list; 0 when sbrk fails. */
    method Morecore(nu: int) returns (p: int)
      requires Valid() && freep != 0 && nu >= 1
      modifies this
      ensures Valid() && live == old(live)
      ensures p == 0 <==> old(brk) + CoreUnits(nu) > limit
      ensures p == 0 ==>
          fl == old(fl) && rover == old(rover) && arena == old(arena) && brk == old(brk) && freep == old(freep)
      ensures p != 0 ==>
                var b := Blk(old(brk), CoreUnits(nu));
                && p == freep && CanInsert(old(fl), b) && fl == Insert(old(fl), b)
                && arena == old(arena) + Units(b.addr, b.size) && brk == b.End() && rover == Place(old(fl), b.addr)
    {
      var units := if nu < MIN_UNITS then MIN_UNITS else nu;
      hide Tiles, Insert, Place, Units, CanInsert, Ordered, Linked;
      if brk + units > limit { return 0; }
      FreeFresh(units);
      return freep;
    }

    method FreeFresh(units: int)
      requires Valid() && freep != 0 && units >= 1
      modifies this
      ensures Valid() && freep != 0 && live == old(live)
      ensures var b := Blk(old(brk), units);
              && CanInsert(old(fl), b) && fl == Insert(old(fl), b)
              && arena == old(arena) + Units(b.addr, b.size) && brk == old(brk) + units
              && rover == Place(old(fl), b.addr)
    {
      hide Tiles, Ordered, Linked, Insert, Place, Units, CanInsert;
      var hp := brk;
      Sbrk(units);
      FreeTiles(fl, live, arena, hp);
      AddRemove(old(live), hp, units);
      Free(hp + 1);
    }

    /** A successful sbrk, and the size stored in the new region's header: one more live block. */
    method Sbrk(units: int)
      requires Valid() && freep != 0 && units >= 1
      modifies this`brk, this`mem, this`arena, this`live
      ensures Valid() && old(brk) !in old(live)
      ensures live == old(live)[old(brk) := units] && arena == old(arena) + Units(old(brk), units)
      ensures brk == old(brk) + units
    {
      hide Tiles, Ordered, Linked, Units;
      GrowTiles(fl, live, arena, brk, units);
      GrowLinks(mem, fl, live, arena, brk, units);
      UnitsBelow(arena, brk, units);
      mem := mem[brk := Header(PtrAt(mem, brk), units)];
      arena, live, brk := arena + Units(brk, units), live[brk := units], brk + units;
    }

    /** malloc's two ways of taking n units from block fl[j] (umalloc.c lines 75-84). */
    method Cut(prevp: int, p: int, n: int, ghost j: nat) returns (ap: int)
      requires Valid() && freep != 0 && 1 <= j < |fl| && p == fl[j].addr && prevp == fl[j - 1].addr
      requires 1 <= n <= fl[j].size
      modifies this`mem, this`freep, this`fl, this`rover, this`live
      ensures Valid() && freep != 0
      ensures fl == Take(old(fl), j, n) && rover == j - 1
      ensures ap - 1 == old(fl)[j].End() - n && ap - 1 !in old(live) && live == old(live)[ap - 1 := n] && ap > BASE
    {
      hide Take, Tiles, Ordered, Linked, CutMem;
      TakeTiles(fl, live, arena, j, n);
      CutLinks(mem, fl, j, n);
      CutKeepsLive(mem, fl, live, arena, j, n);
      CutPlace(mem, fl, j, n);
      var q := CutHeaders(prevp, p, n);
      freep := prevp;
      fl, rover, live := Take(fl, j, n), j - 1, live[q := n];
      return q + 1;
    }

    method CutHeaders(prevp: int, p: int, n: int) returns (q: int)
      requires p in mem && prevp in mem
      modifies this`mem
      ensures mem == CutMem(old(mem), prevp, p, n) && q == p + old(mem)[p].size - n
    {
      q := p;
      if mem[p].size == n {
        mem := mem[prevp := Header(mem[p].ptr, mem[prevp].size)];
      } else {
        mem := mem[p := Header(mem[p].ptr, mem[p].size - n)];
        q := p + mem[p].size;
        mem := mem[q := Header(PtrAt(mem, q), n)];
      }
    }

    /** One trip of malloc's loop around the circle, from just after freep back to freep. */
    method Walk(n: int) returns (found: bool, prevp: int, p: int, ghost j: nat)
      requires Valid() && freep != 0 && n >= 1
      ensures FirstFit(fl, Next(fl, rover), rover, n) == if found then Some(j) else None
      ensures found ==> 1 <= j < |fl| && prevp == fl[j - 1].addr && p == fl[j].addr && fl[j].size >= n
    {
      hide Tiles;
      prevp := freep;
      ghost var i := rover;
      LinkAt(mem, fl, rover);
      p, j := mem[prevp].ptr, Next(fl, rover);
      while true
        invariant 0 <= i < |fl| && j == Next(fl, i) && prevp == fl[i].addr && p == fl[j].addr
        invariant FirstFit(fl, j, rover, n) == FirstFit(fl, Next(fl, rover), rover, n)
        decreases if j <= rover then rover - j else rover - j + |fl|
      {
        LinkAt(mem, fl, j);
        if mem[p].size >= n {
          return true, prevp, p, j;
        }
        if p == freep {
          assert j == rover by { hide Linked; }
          return false, prevp, p, j;
        }
        i := j;
        prevp, p, j := p, mem[p].ptr, Next(fl, j);
      }
    }

    method UnitsFor(nbytes: nat) returns (nunits: int)
      requires nbytes < UINT_LIMIT
      ensures nunits == NeededUnits(nbytes) >= 1
      ensures UnitsHold(nbytes, NeededUnits(nbytes))
    {
      nunits := (nbytes + HEADER_BYTES - 1) % UINT_LIMIT / HEADER_BYTES + 1;
      NeededExact(nbytes);
    }

    /** malloc: next fit from just after freep; if the circle holds no block of the needed size,
        more core is added and the circle is walked again from there, and the first block that fits
        is cut. 0 exactly when neither helps. The second walk always succeeds, so the code's loop
        ends. */
    method Malloc(nbytes: nat) returns (ap: int)
      requires Valid() && nbytes < UINT_LIMIT
      modifies this
      ensures Valid()
      ensures UnitsHold(nbytes, NeededUnits(nbytes))
      ensures var n := NeededUnits(nbytes);
              match FirstFit(old(fl), Next(old(fl), old(rover)), old(rover), n)
              case Some(_) =>
                && ap != 0 && CutFirstFit(old(fl), old(rover), n, fl, rover, ap)
                && live == old(live)[ap - 1 := n] && ap - 1 !in old(live)
                && arena == old(arena) && brk == old(brk)
              case None =>
                if old(brk) + CoreUnits(n) > limit then
                  && ap == 0 && fl == old(fl) && rover == old(rover) && live == old(live)
                  && arena == old(arena) && brk == old(brk)
                else
                  var b := Blk(old(brk), CoreUnits(n));
                  var g := Insert(old(fl), b);
                  && ap != 0 && CutFirstFit(g, Place(old(fl), b.addr), n, fl, rover, ap)
                  && live == old(live)[ap - 1 := n] && ap - 1 !in old(live)
                  && arena == old(arena) + Units(b.addr, b.size) && brk == old(brk) + b.size
    {
      hide Tiles, Insert, Place, Units, CanInsert, Take, FirstFit, NeededUnits;
      var n := UnitsFor(nbytes);
      if freep == 0 {
        InitBase();
      }
      hide Ordered, Linked;
      var found, prevp, p;
      ghost var j;
      found, prevp, p, j := Walk(n);
      if found {
        ap := Cut(prevp, p, n, j);
      } else {
        ap := GrowAndCut(n);
      }
    }

    /** malloc's path through morecore. */
    method GrowAndCut(n: int) returns (ap: int)
      requires Valid() && freep != 0 && n >= 1
      modifies this
      ensures Valid()
      ensures if old(brk) + CoreUnits(n) > limit then
                && ap == 0 && fl == old(fl) && rover == old(rover) && live == old(live)
                && arena == old(arena) && brk == old(brk)
              else
                var b := Blk(old(brk), CoreUnits(n));
                var g := Insert(old(fl), b);
                && ap != 0 && CutFirstFit(g, Place(old(fl), b.addr), n, fl, rover, ap)
                && live == old(live)[ap - 1 := n] && ap - 1 !in old(live)
                && arena == old(arena) + Units(b.addr, b.size) && brk == old(brk) + b.size
    {
      hide Tiles, Insert, Place, Units, CanInsert, Take, FirstFit, Ordered, Linked;
      var p := Morecore(n);
      if p == 0 { return 0; }
      InsertedFits(old(fl), Blk(old(brk), CoreUnits(n)), n, rover);
      var found, prevp;
      ghost var j;
      found, prevp, p, j := Walk(n);
      ap := Cut(prevp, p, n, j);
    }

    method InitBase()
      requires Valid() && freep == 0
      modifies this`mem, this`freep
      ensures Valid() && freep == BASE
    {
      mem := mem[BASE := Header(BASE, 0)];
      freep := BASE;
      assert HeaderIs(mem, fl, 0);
    }
  }

  lemma CutPlace(mem: map<int, Header>, fl: seq<Blk>, j: nat, n: int)
    requires Ordered(fl) && Linked(mem, fl) && 1 <= j < |fl| && 1 <= n <= fl[j].size
    ensures var fl' := Take(fl, j, n); j - 1 < |fl'| && fl'[j - 1].addr == fl[j - 1].addr
    ensures fl[j - 1].addr >= BASE && fl[j].addr in mem && mem[fl[j].addr].size == fl[j].size
  {
    LinkAt(mem, fl, j);
    assert j - 1 == 0 || fl[0].End() < fl[j - 1].addr;
  }

  /** The cut block's header is live, and no other live header changes. */
  lemma CutKeepsLive(mem: map<int, Header>, fl: seq<Blk>, live: map<int, int>, arena: set<int>, j: nat, n: int)
    requires Ordered(fl) && Tiles(fl, live, arena) && Linked(mem, fl) && 1 <= j < |fl| && 1 <= n <= fl[j].size
    requires forall a :: a in live ==> a in mem && mem[a].size == live[a]
    requires fl[j].addr in mem && fl[j - 1].addr in mem
    ensures var mem' := CutMem(mem, fl[j - 1].addr, fl[j].addr, n);
            var live' := live[fl[j].End() - n := n];
            forall a :: a in live' ==> a in mem' && mem'[a].size == live'[a]
  {
    LinkAt(mem, fl, j);
    OrderAt(fl, j - 1, j);
    hide Linked;
    forall a | a in live
      ensures a != fl[j].addr && a != fl[j - 1].addr
    {
      assert Apart(fl[j], Blk(a, live[a]));
      if j > 1 {
        assert Apart(fl[j - 1], Blk(a, live[a]));
      }
    }
  }

  lemma AddRemove(live: map<int, int>, a: int, n: int)
    requires a !in live
    ensures live[a := n] - {a} == live
  {
  }

  lemma UnitsBelow(arena: set<int>, a: int, n: int)
    requires n >= 0 && forall x :: x in arena ==> x < a
    ensures forall x :: x in arena + Units(a, n) ==> x < a + n
  {
  }

  /** A header written above the arena disturbs nothing. */
  lemma GrowLinks(mem: map<int, Header>, fl: seq<Blk>, live: map<int, int>, arena: set<int>, a: int, n: int)
    requires Ordered(fl) && Tiles(fl, live, arena) && Linked(mem, fl) && a > BASE
    requires forall x :: x in arena ==> x < a
    requires forall c :: c in live ==> c in mem && mem[c].size == live[c]
    ensures var mem' := mem[a := Header(PtrAt(mem, a), n)];
            Linked(mem', fl) && forall c :: c in live[a := n] ==> c in mem' && mem'[c].size == live[a := n][c]
  {
    ArenaBounds(fl, live, arena, a);
    var mem' := mem[a := Header(PtrAt(mem, a), n)];
    forall i | 0 <= i < |fl|
      ensures HeaderIs(mem', fl, i)
    {
      assert HeaderIs(mem, fl, i);
      assert i == 0 || fl[i].End() <= a;
    }
  }

  /** Headers of the other live blocks are not touched by the surgery. */
  lemma SpliceKeepsLive(mem: map<int, Header>, fl: seq<Blk>, live: map<int, int>, arena: set<int>, bp: int)
    requires Ordered(fl) && Tiles(fl, live, arena) && bp in live && bp in mem
    requires forall a :: a in live ==> a in mem && mem[a].size == live[a]
    requires var k := Place(fl, bp); fl[k].addr in mem && mem[fl[k].addr].ptr in mem && fl[k].addr < bp
    ensures var mem' := Splice(mem, bp, fl[Place(fl, bp)].addr);
            forall a :: a in live - {bp} ==> a in mem' && mem'[a].size == live[a]
  {
    hide Place;
    var k := Place(fl, bp);
    forall a | a in live
      ensures a != fl[k].addr
    {
      if k >= 1 {
        assert Apart(fl[k], Blk(a, live[a]));
      }
    }
  }
}
