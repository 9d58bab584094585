/** The code of xv6-public/kalloc.c and xv6-public/vm.c over the state of Paging: the free list and
    the page tables are changed in place, loop by loop. */
module VmCode {
  import opened FrameCount
  import opened Paging
  import opened Options
  import opened Params

  const PGSIZE := 4096
  const KERNBASE := 0x8000_0000

  /** The number of pages that hold sz bytes. */
  function RoundUp(sz: nat): (r: nat)
    ensures (r - 1) * PGSIZE < sz <= r * PGSIZE
  {
    (sz + PGSIZE - 1) / PGSIZE
  }

  /** Page f lies wholly between two byte addresses. */
  ghost predicate InRange(vstart: nat, vend: nat, f: nat) {
    vstart <= f * PGSIZE && f * PGSIZE + PGSIZE <= vend
  }

  /** One more free frame. */
  lemma FreshFree(b: Bounds, s: Vm, f: nat)
    requires Inv(b, s) && f !in s.free && f !in s.owner && b.lo <= f < b.hi
    ensures Inv(b, s.(free := [f] + s.free))
  {
    var s' := s.(free := [f] + s.free);
    assert forall e: nat, w: nat :: Entry(s', e, w) == Entry(s, e, w);
    hide Entry;
    assert OwnersOk(s') by {
      forall g | g in s'.owner ensures OwnerOk(s', g) {
        assert OwnerOk(s, g);
      }
    }
    assert TablesOk(s') by {
      forall e: nat, i: nat | IsDir(s', e) ensures TableOk(s', e, i) {
        assert TableOk(s, e, i);
      }
    }
    assert PagesOk(s') by {
      forall e: nat, v: nat | IsDir(s', e) ensures PageOk(s', e, v) {
        assert PageOk(s, e, v);
      }
    }
    assert HandsOk(s') by {
      forall g | g in s'.owner && s'.owner[g].Loose? ensures HandOk(s', s'.owner[g].d) {
        assert HandOk(s, s.owner[g].d);
      }
    }
  }

  /** Frame i of the list is linked to the next one. */
  ghost predicate LinkAt(next: map<nat, Option<nat>>, l: seq<nat>, i: nat)
    requires i < |l|
  {
    l[i] in next && next[l[i]] == if i + 1 < |l| then Some(l[i + 1]) else None
  }

  /** The free pages, linked through themselves, are exactly these frames. */
  ghost predicate Chain(head: Option<nat>, next: map<nat, Option<nat>>, l: seq<nat>) {
    && head == (if l == [] then None else Some(l[0]))
    && forall i: nat :: i < |l| ==> LinkAt(next, l, i)
  }

  lemma ChainPush(head: Option<nat>, next: map<nat, Option<nat>>, l: seq<nat>, f: nat)
    requires Chain(head, next, l) && f !in l
    ensures Chain(Some(f), next[f := head], [f] + l)
  {
    var next', l' := next[f := head], [f] + l;
    forall i: nat | i < |l'| ensures LinkAt(next', l', i) {
      if i > 0 {
        assert LinkAt(next, l, i - 1);
      }
    }
  }

  lemma ChainPop(head: Option<nat>, next: map<nat, Option<nat>>, l: seq<nat>)
    requires Chain(head, next, l) && l != []
    ensures head == Some(l[0]) && l[0] in next && Chain(next[l[0]], next, l[1..])
  {
    assert LinkAt(next, l, 0);
    forall i: nat | i < |l[1..]| ensures LinkAt(next, l[1..], i) {
      assert LinkAt(next, l, i + 1);
    }
  }

  /** The table that walkpgdir makes for entry i of directory d. */
  lemma TableAdded(b: Bounds, s: Vm, d: nat, i: nat, f: nat)
    requires Inv(b, s) && IsDir(s, d) && i < NENTRIES && IsTable(s, d) && !s.tables[d][i].present
    requires s.free != [] && f == s.free[0]
    ensures d in s.tables && i < |s.tables[d]| && IsTable(Take(s, d), d)
    ensures var s' := NewTable(Take(s, d), d, i, f);
            && Inv(b, s') && IsDir(s', d) && Only(s, s', d) && InHand(s', d) == InHand(s, d)
            && IsTable(s', d) && IsTable(s', f) && s'.tables[d][i] == Pte(true, f, PTE_W + PTE_U)
            && s'.pages == s.pages && (forall w: nat :: Entry(s', d, w) == Entry(s, d, w))
            && Tabled(s', d) == Tabled(s, d) + {i} && i !in Tabled(s, d) && |s'.free| == |s.free| - 1
  {
    var s1 := Take(s, d);
    assert f !in s.owner;
    TakeKeeps(b, s, d);
    TakeHands(s, d);
    TakeRest(s, d);
    NewTableKeeps(b, s1, d, i, f);
    NewTableRest(s1, d, i, f);
    PlacedHands(s1, d, f, Table(d, i));
    hide Core, HandsOk, Rest, Entry;
  }

  /** The directory that setupkvm makes. */
  lemma DirectoryAdded(b: Bounds, s: Vm, d: nat)
    requires Inv(b, s) && s.free != [] && d == s.free[0]
    ensures var s' := NewDir(Take(s, d), d);
            && d !in s.owner && Inv(b, s') && IsDir(s', d) && Only(s, s', d) && InHand(s', d) == {}
            && s'.pages == s.pages && (forall v: nat :: Entry(s', d, v) == ABSENT)
            && Tabled(s', d) == {} && |s'.free| == |s.free| - 1
  {
    var s1 := Take(s, d);
    assert d !in s.owner;
    NothingYet(b, s, d);
    TakeKeeps(b, s, d);
    TakeHands(s, d);
    TakeRest(s, d);
    NewDirKeeps(b, s1, d);
    NewDirRest(s1, d);
    NewDirHands(s1, d);
    hide Core, HandsOk, Rest, Frames, Entry;
  }

  /** The frames from pa on that the user pages from `first` up to `end` are mapped to. */
  ghost function UserFrames(first: nat, end: nat, pa: nat): set<nat> {
    Span(pa, if end <= first || KERN <= first then 0 else if end < KERN then end - first else KERN - first)
  }

  lemma UserNext(first: nat, a: nat, pa: nat)
    requires first <= a
    ensures UserFrames(first, a + 1, pa) == UserFrames(first, a, pa) + if a < KERN then {pa + a - first} else {}
    ensures pa + a - first !in UserFrames(first, a, pa)
  {
  }

  lemma NoUserFrames(first: nat, pa: nat)
    ensures UserFrames(first, first, pa) == {}
  {
  }

  lemma UserIn(first: nat, a: nat, end: nat, pa: nat)
    requires first <= a < end
    ensures a < KERN ==> pa + a - first in UserFrames(first, end, pa)
  {
  }

  class Memory {
    const b: Bounds
    var head: Option<nat>              // kmem.freelist
    var next: map<nat, Option<nat>>    // what the first word of a free page holds
    ghost var freelist: seq<nat>
    var tables: map<nat, seq<Pte>>
    var pages: map<nat, Content>
    ghost var owner: map<nat, Owner>

    ghost function Abs(): Vm
      reads this
    {
      Vm(freelist, tables, pages, owner)
    }

    ghost predicate Valid()
      reads this
    {
      Inv(b, Abs()) && Chain(head, next, freelist)
    }

    /** Memory before kinit: nothing is free and nothing is in use. */
    constructor (b: Bounds)
      ensures Valid() && this.b == b && freelist == [] && owner == map[]
    {
      this.b := b;
      head, next := None, map[];
      freelist, tables, pages, owner := [], map[], map[], map[];
    }

    /** freerange: the whole pages between the two byte addresses, no more, become free. */
    method Freerange(vstart: nat, vend: nat)
      requires Valid() && forall f: nat :: InRange(vstart, vend, f) ==> b.lo <= f < b.hi && f !in Frames(Abs())
      modifies this`head, this`next, this`freelist, this`tables, this`pages, this`owner
      ensures Valid() && owner == old(owner) && tables == old(tables) && pages == old(pages)
      ensures forall f: nat :: f in freelist <==> f in old(freelist) || InRange(vstart, vend, f)
    {
      hide Inv;
      ghost var s := Abs();
      var p := RoundUp(vstart);
      while p * PGSIZE + PGSIZE <= vend
        invariant RoundUp(vstart) <= p
        invariant Valid() && owner == s.owner && tables == s.tables && pages == s.pages
        invariant forall f: nat :: f in freelist <==> f in s.free || (InRange(vstart, vend, f) && f < p)
        decreases vend - p * PGSIZE
      {
        assert InRange(vstart, vend, p);
        FreeFresh(p);
        p := p + 1;
      }
    }

    /** kfree of a frame that is not in use yet. */
    method FreeFresh(f: nat)
      requires Valid() && f !in freelist && f !in owner && b.lo <= f < b.hi
      modifies this`head, this`next, this`freelist, this`tables, this`pages, this`owner
      ensures Valid() && owner == old(owner) && tables == old(tables) && pages == old(pages)
      ensures freelist == [f] + old(freelist)
    {
      ghost var s := Abs();
      FreshFree(b, s, f);
      assert f !in s.tables && f !in s.pages;
      hide Inv, Chain;
      var ok := Kfree(f);
      assert Abs() == s.(free := [f] + s.free);
    }

    /** kalloc, on behalf of directory d. */
    method Kalloc(ghost d: nat) returns (r: Option<nat>)
      requires Valid() && (IsDir(Abs(), d) || freelist == [] || d == freelist[0])
      modifies this`head, this`next, this`freelist, this`owner
      ensures Valid()
      ensures r.None? ==> old(freelist) == [] && Abs() == old(Abs())
      ensures r.Some? ==> old(freelist) != [] && r.value == old(freelist)[0] && Abs() == Take(old(Abs()), d)
    {
      if head.None? {
        return None;
      }
      TakeKeeps(b, Abs(), d);
      TakeHands(Abs(), d);
      ChainPop(head, next, freelist);
      hide Chain;
      var f := head.value;
      head := next[f];
      freelist := freelist[1..];
      owner := owner[f := Loose(d)];
      return Some(f);
    }

    /** kfree: false where it panics. The page's contents are lost to the link. Freeing a free page
        would break the chain. */
    method Kfree(f: nat) returns (ok: bool)
      modifies this`head, this`next, this`freelist, this`tables, this`pages, this`owner
      ensures ok <==> b.lo <= f < b.hi
      ensures Abs() == if ok then Give(old(Abs()), f) else old(Abs())
      ensures old(Chain(head, next, freelist)) && f !in old(freelist) ==> Chain(head, next, freelist)
    {
      if f < b.lo || f >= b.hi {
        return false;
      }
      tables, pages, owner := tables - {f}, pages - {f}, owner - {f};
      if f !in freelist && Chain(head, next, freelist) {
        ChainPush(head, next, freelist, f);
      }
      next := next[f := head];
      head := Some(f);
      freelist := [f] + freelist;
      return true;
    }

    /** The directory, the frames in hand and the user translations stay, with what others own. */
    ghost predicate Kept(s: Vm, d: nat)
      reads this
    {
      && Valid() && IsDir(Abs(), d) && Only(s, Abs(), d)
      && InHand(Abs(), d) == InHand(s, d) && Abs().pages == s.pages
    }

    /** walkpgdir: the table that translates page v, or None without one. */
    method Walkpgdir(d: nat, v: nat, alloc: bool) returns (r: Option<nat>)
      requires Valid() && IsDir(Abs(), d) && v < VEND
      modifies this`head, this`next, this`freelist, this`tables, this`owner
      ensures Kept(old(Abs()), d) && forall w: nat :: Entry(Abs(), d, w) == Entry(old(Abs()), d, w)
      ensures r.Some? ==> HasTable(Abs(), d, v) && r.value == tables[d][v / NENTRIES].frame
      ensures r.None? ==> Abs() == old(Abs()) && (!alloc || freelist == [])
      ensures !alloc || HasTable(old(Abs()), d, v) ==> Abs() == old(Abs())
      ensures r.None? ==> !HasTable(old(Abs()), d, v) && v / NENTRIES !in Tabled(Abs(), d)
      ensures r.Some? ==> Paid(old(Abs()), Abs(), d, v, v + 1, 0)
    {
      ghost var s := Abs();
      RowsOne(v);
      assert TableOk(s, d, v / NENTRIES);
      if tables[d][v / NENTRIES].present {
        assert OwnerOk(s, tables[d][v / NENTRIES].frame);
        assert Tabled(s, d) + {v / NENTRIES} == Tabled(s, d);
        return Some(tables[d][v / NENTRIES].frame);
      }
      if !alloc {
        return None;
      }
      var t := AddTable(d, v / NENTRIES);
      return t;
    }

    /** The part of walkpgdir that makes a table. */
    method AddTable(d: nat, i: nat) returns (t: Option<nat>)
      requires Valid() && IsDir(Abs(), d) && i < NENTRIES && IsTable(Abs(), d) && !tables[d][i].present
      modifies this`head, this`next, this`freelist, this`tables, this`owner
      ensures Kept(old(Abs()), d) && forall w: nat :: Entry(Abs(), d, w) == Entry(old(Abs()), d, w)
      ensures t.None? ==> Abs() == old(Abs()) && freelist == []
      ensures t.Some? ==>
          IsTable(Abs(), d) && IsTable(Abs(), t.value) && tables[d][i] == Pte(true, t.value, PTE_W + PTE_U)
      ensures t.Some? ==>
                && Tabled(Abs(), d) == Tabled(old(Abs()), d) + {i} && i !in Tabled(old(Abs()), d)
                && |freelist| == |old(freelist)| - 1
    {
      hide Chain, Tabled;
      ghost var s := Abs();
      t := Kalloc(d);
      if t.None? {
        return;
      }
      ghost var s1 := Abs();
      TableAdded(b, s, d, i, t.value);
      hide Inv, Rest, Frames;
      tables := tables[t.value := seq(NENTRIES, _ => ABSENT)];
      tables := tables[d := tables[d][i := Pte(true, t.value, PTE_W + PTE_U)]];
      owner := owner[t.value := Table(d, i)];
      assert Abs() == NewTable(s1, d, i, t.value);
    }

    /** One turn of mappages: None where it panics, Some(-1) without memory. */
    method MapOne(d: nat, a: nat, pa: nat, perm: nat) returns (r: Option<int>)
      requires Valid() && IsDir(Abs(), d) && a < VEND && (a < KERN ==> pa in InHand(Abs(), d) && pa in pages)
      modifies this`head, this`next, this`freelist, this`tables, this`owner
      ensures Valid() && IsDir(Abs(), d) && Only(old(Abs()), Abs(), d) && pages == old(pages)
      ensures r in {None, Some(-1), Some(0)}
      ensures r == None <==> Entry(old(Abs()), d, a).present
      ensures r != Some(0) ==> Abs() == old(Abs())
      ensures r == Some(0) ==>
                && MappedRange(old(Abs()), Abs(), d, a, a + 1, pa, perm)
                && InHand(Abs(), d) == InHand(old(Abs()), d) - (if a < KERN then {pa} else {})
                && Paid(old(Abs()), Abs(), d, a, a + 1, 0)
      ensures r == Some(-1) ==> freelist == [] && a / NENTRIES !in Tabled(Abs(), d)
      ensures r == None ==> a / NENTRIES in Tabled(Abs(), d)
    {
      hide Inv, Rest, Entry, Frames, Tabled, RowsOf;
      PresentHasTable(b, Abs(), d, a);
      var t := Walkpgdir(d, a, true);
      if t.None? {
        return Some(-1);
      }
      EntryIs(Abs(), d, a);
      TabledHas(Abs(), d, a);
      if tables[t.value][a % NENTRIES].present {
        return None;
      }
      StoreEntry(d, a, t.value, pa, perm);
      return Some(0);
    }

    /** Writes the entry of page a; a user page now owns its frame. */
    method StoreEntry(d: nat, a: nat, t: nat, pa: nat, perm: nat)
      requires Valid() && IsDir(Abs(), d) && HasTable(Abs(), d, a) && t == tables[d][a / NENTRIES].frame
      requires !Entry(Abs(), d, a).present
      requires a < KERN ==> pa in InHand(Abs(), d) && pa in pages
      modifies this`tables, this`owner
      ensures Valid() && IsDir(Abs(), d) && Only(old(Abs()), Abs(), d)
      ensures MappedRange(old(Abs()), Abs(), d, a, a + 1, pa, perm)
      ensures InHand(Abs(), d) == InHand(old(Abs()), d) - if a < KERN then {pa} else {}
      ensures Tabled(Abs(), d) == Tabled(old(Abs()), d)
    {
      hide Inv, Rest, Entry, Frames, InHand, MappedRange, Tabled;
      ghost var s := Abs();
      WriteTabled(b, s, d, a, Pte(true, pa, perm));
      tables := tables[t := tables[t][a % NENTRIES := Pte(true, pa, perm)]];
      if a < KERN {
        MapUserFacts(b, s, d, a, pa, perm);
        owner := owner[pa := Page(d, a)];
        assert Abs() == MapUser(s, d, a, pa, perm);
      } else {
        MapKernelFacts(b, s, d, a, pa, perm);
        assert Abs() == WriteEntry(s, d, a, Pte(true, pa, perm));
      }
    }

    /** mappages from byte address va: pages first..done are mapped. None where it panics, on the
        first page that is mapped already; Some(-1) without memory. */
    method Mappages(d: nat, va: nat, size: nat, pa: nat, perm: nat) returns (r: Option<int>, ghost done: nat)
      requires Valid() && IsDir(Abs(), d) && 0 < size && va + size <= UINT_LIMIT
      requires forall w: nat :: w in UserFrames(va / PGSIZE, (va + size - 1) / PGSIZE + 1, pa) ==>
                 w in InHand(Abs(), d) && w in pages
      modifies this`head, this`next, this`freelist, this`tables, this`owner
      ensures Valid() && IsDir(Abs(), d) && Only(old(Abs()), Abs(), d) && pages == old(pages)
      ensures va / PGSIZE <= done <= (va + size - 1) / PGSIZE + 1
      ensures MappedRange(old(Abs()), Abs(), d, va / PGSIZE, done, pa, perm)
      ensures r in {None, Some(-1), Some(0)}
      ensures r == Some(0) <==> done == (va + size - 1) / PGSIZE + 1
      ensures r != Some(0) ==> (r == None <==> Entry(old(Abs()), d, done).present)
      ensures forall w: nat :: va / PGSIZE <= w < done ==> !Entry(old(Abs()), d, w).present
      ensures InHand(Abs(), d) == InHand(old(Abs()), d) - UserFrames(va / PGSIZE, done, pa)
      ensures Paid(old(Abs()), Abs(), d, va / PGSIZE, done, 0)
      ensures r == Some(-1) ==> freelist == [] && done / NENTRIES !in Tabled(Abs(), d)
      ensures r == Some(-1) ==>
                |old(freelist)| < |RowsOf(va / PGSIZE, (va + size - 1) / PGSIZE + 1) - Tabled(old(Abs()), d)|
      ensures r == None ==> done / NENTRIES in Tabled(Abs(), d)
    {
      hide Inv, Rest, Entry, Frames, MappedRange, InHand, UserFrames, Chain, Paid, Tabled, RowsOf;
      ghost var s := Abs();
      PaidNothing(s, d, va / PGSIZE);
      NoUserFrames(va / PGSIZE, pa);
      var a, last, p := va / PGSIZE, (va + size - 1) % UINT_LIMIT / PGSIZE, pa;
      ghost var first := a;
      assert last < VEND && first <= last;
      RangeStart(s, d, a, pa, perm);
      while true
        invariant first <= a <= last && p == pa + a - first
        invariant Valid() && IsDir(Abs(), d) && Only(s, Abs(), d) && pages == old(pages)
        invariant InHand(Abs(), d) == InHand(s, d) - UserFrames(first, a, pa)
        invariant MappedRange(s, Abs(), d, first, a, pa, perm)
        invariant forall w: nat :: first <= w < a ==> !Entry(s, d, w).present
        invariant Paid(s, Abs(), d, first, a, 0)
        decreases last - a
      {
        ghost var s1 := Abs();
        UserIn(first, a, last + 1, pa);
        UserNext(first, a, pa);
        r := MapOne(d, a, p, perm);
        RangeNext(s, s1, d, first, a, pa, perm);
        done := a;
        if r != Some(0) {
          if r == Some(-1) {
            TablesShort(s, Abs(), d, first, a, last + 1);
          }
          return;
        }
        RangeStep(s, s1, Abs(), d, first, a, pa, perm);
        PaidTrans(s, s1, Abs(), d, first, a, a + 1, 0, 0);
        done := a + 1;
        if a == last {
          return;
        }
        a, p := a + 1, p + 1;
      }
    }

    /** kfree of the frame of user page a, then its entry is cleared. */
    method UnmapOne(d: nat, a: nat, t: nat)
      requires Valid() && IsDir(Abs(), d) && a < KERN && HasTable(Abs(), d, a) && t == tables[d][a / NENTRIES].frame
      requires Entry(Abs(), d, a).present
      modifies this`head, this`next, this`freelist, this`tables, this`pages, this`owner
      ensures Valid() && IsDir(Abs(), d) && Only(old(Abs()), Abs(), d) && InHand(Abs(), d) == InHand(old(Abs()), d)
      ensures ClearedRange(old(Abs()), Abs(), d, a, a + 1) && SubPages(old(Abs()), Abs())
    {
      hide Inv, Rest, Entry, Frames, InHand, ClearedRange, SubPages, Chain;
      ghost var s := Abs();
      UnmapFacts(b, s, d, a);
      var pa := tables[t][a % NENTRIES].frame;
      var ok := Kfree(pa);
      tables := tables[t := tables[t][a % NENTRIES := ABSENT]];
      assert Abs() == Unmap(s, d, a);
    }

    /** deallocuvm: no page from newsz up to oldsz is mapped any more; a directory entry without a
        table is skipped whole. */
    method Deallocuvm(d: nat, oldsz: nat, newsz: nat) returns (r: nat)
      requires Valid() && IsDir(Abs(), d) && oldsz <= KERNBASE
      modifies this`head, this`next, this`freelist, this`tables, this`pages, this`owner
      ensures Valid() && IsDir(Abs(), d) && Only(old(Abs()), Abs(), d) && InHand(Abs(), d) == InHand(old(Abs()), d)
      ensures r == if newsz >= oldsz then oldsz else newsz
      ensures newsz >= oldsz ==> Abs() == old(Abs())
      ensures newsz < oldsz ==>
          ClearedRange(old(Abs()), Abs(), d, RoundUp(newsz), RoundUp(oldsz)) && SubPages(old(Abs()), Abs())
    {
      hide Inv, Rest, Entry, Frames, InHand, ClearedRange, SubPages;
      if newsz >= oldsz {
        return oldsz;
      }
      ghost var s, lo, hi := Abs(), RoundUp(newsz), RoundUp(oldsz);
      var a := RoundUp(newsz);
      ClearedStart(s, d, lo);
      while a * PGSIZE < oldsz
        invariant lo <= a && (a * PGSIZE < oldsz ==> a < hi <= KERN)
        invariant Valid() && IsDir(Abs(), d) && Only(s, Abs(), d) && InHand(Abs(), d) == InHand(s, d)
        invariant ClearedRange(s, Abs(), d, lo, if a < hi then a else hi) && SubPages(s, Abs())
        decreases hi - a
      {
        ghost var s1 := Abs();
        var t := Walkpgdir(d, a, false);
        if t.None? {
          NoTableNoPages(b, s1, d, a);
          ClearedSkip(s, s1, d, lo, a, hi);
          a := (a / NENTRIES + 1) * NENTRIES;
        } else {
          EntryIs(s1, d, a);
          if tables[t.value][a % NENTRIES].present {
            UnmapOne(d, a, t.value);
            ClearedStep(s, s1, Abs(), d, lo, a);
          } else {
            ClearedAbsent(s, s1, d, lo, a);
          }
          a := a + 1;
        }
      }
      return newsz;
    }

    /** The loop of freevm: the tables of d go, one by one. */
    method FreeTables(d: nat, ghost s1: Vm)
      requires Valid() && Abs() == Orphan(s1, d) && Inv(b, s1) && IsDir(s1, d)
      requires InHand(Abs(), d) == {d} + TablesFrom(s1, d, 0)
      modifies this`head, this`next, this`freelist, this`tables, this`pages, this`owner
      ensures Valid() && Only(s1, Abs(), d) && InHand(Abs(), d) == {d} && AllLoose(Abs(), d)
    {
      hide Inv, Rest, Frames, InHand, TablesFrom;
      OrphanOnly(s1, d);
      TableThere(b, s1, d, 0);
      var i := 0;
      while i < NENTRIES
        invariant 0 <= i <= NENTRIES && d in tables && tables[d] == s1.tables[d]
        invariant Valid() && Only(s1, Abs(), d) && AllLoose(Abs(), d)
        invariant InHand(Abs(), d) == {d} + TablesFrom(s1, d, i)
      {
        TablesNext(b, s1, d, i);
        if tables[d][i].present {
          var t := tables[d][i].frame;
          FreeOne(d, t);
        }
        i := i + 1;
      }
      TablesNone(s1, d);
    }

    /** kfree of a frame in hand. */
    method FreeOne(d: nat, f: nat)
      requires Valid() && f in InHand(Abs(), d) && (f == d ==> InHand(Abs(), d) == {d})
      modifies this`head, this`next, this`freelist, this`tables, this`pages, this`owner
      ensures Valid() && Only(old(Abs()), Abs(), d) && InHand(Abs(), d) == InHand(old(Abs()), d) - {f}
      ensures AllLoose(old(Abs()), d) ==> AllLoose(Abs(), d)
      ensures tables == old(tables) - {f} && SubPages(old(Abs()), Abs())
      ensures (IsDir(old(Abs()), d) && d != f ==> IsDir(Abs(), d))
      ensures IsDir(old(Abs()), d) ==> forall v: nat :: Entry(Abs(), d, v) == Entry(old(Abs()), d, v)
    {
      hide Inv, Rest, Frames, Entry, InHand, AllLoose, SubPages, Chain;
      FreeFacts(b, Abs(), d, f);
      var ok := Kfree(f);
    }

    /** freevm: everything of directory d is free, and nothing else changes. */
    method Freevm(d: nat)
      requires Valid() && IsDir(Abs(), d) && InHand(Abs(), d) == {}
      modifies this`head, this`next, this`freelist, this`tables, this`pages, this`owner
      ensures Valid() && Frames(Abs()) == Frames(old(Abs()))
      ensures Abs().(free := []) == Rest(old(Abs()), d)
    {
      hide Inv, Rest, Frames, InHand, ClearedRange, TablesFrom;
      ghost var s := Abs();
      var r := Deallocuvm(d, KERNBASE, 0);
      ghost var s1 := Abs();
      NoPages(b, s, s1, d);
      OrphanKeeps(b, s1, d);
      owner := Orphan(s1, d).owner;
      FreeTables(d, s1);
      FreeOne(d, d);
      NothingLeft(b, Abs(), d);
    }

    /** A zeroed directory, or None without memory. */
    method NewDirectory() returns (d: Option<nat>)
      requires Valid()
      modifies this`head, this`next, this`freelist, this`tables, this`owner
      ensures Valid() && (d.None? ==> Abs() == old(Abs()) && freelist == [])
      ensures d.Some? ==> Tabled(Abs(), d.value) == {} && |freelist| == |old(freelist)| - 1
      ensures d.Some? ==>
                && d.value !in old(owner) && IsDir(Abs(), d.value) && Only(old(Abs()), Abs(), d.value)
                && InHand(Abs(), d.value) == {} && pages == old(pages)
                && forall v: nat :: Entry(Abs(), d.value, v) == ABSENT
    {
      hide Chain;
      ghost var s := Abs();
      ghost var d0 := if freelist == [] then 0 else freelist[0];
      d := Kalloc(d0);
      if d.None? {
        return;
      }
      ghost var s1 := Abs();
      DirectoryAdded(b, s, d0);
      hide Inv, Rest, Frames, Entry, Tabled;
      tables := tables[d.value := seq(NENTRIES, _ => ABSENT)];
      owner := owner[d.value := Dir(d.value)];
      assert Abs() == NewDir(s1, d0);
    }

    /** setupkvm: a directory with the kernel's translations and no user page, or None with the
        state restored. */
    method Setupkvm(data: nat) returns (r: Option<nat>)
      requires Valid() && DataOk(data)
      modifies this`head, this`next, this`freelist, this`tables, this`pages, this`owner
      ensures Valid()
      ensures r.None? ==> Restored(old(Abs()), Abs())
      ensures r.Some? ==> FreshSpace(old(Abs()), Abs(), r.value)
                          && forall v: nat :: Entry(Abs(), r.value, v) == KernelEntry(data, v)
      ensures r.None? <==> |old(freelist)| < KERNEL_FRAMES
      ensures r.Some? ==> |freelist| == |old(freelist)| - KERNEL_FRAMES && Tabled(Abs(), r.value) == KernelTables()
    {
      hide Inv, Rest, Frames, InHand, MappedRange, Entry, Tabled, RowTables, KernelTables;
      ghost var s := Abs();
      var d := NewDirectory();
      if d.None? {
        return None;
      }
      AllTables(data);
      var maps := Kmaps(data);
      var k := 0;
      while k < |maps|
        invariant 0 <= k <= |maps| && Valid() && FreshSpace(s, Abs(), d.value)
        invariant forall v: nat :: Entry(Abs(), d.value, v) == Direct(maps, k, v)
        invariant Tabled(Abs(), d.value) == FirstTables(data, k)
        invariant |freelist| + |Tabled(Abs(), d.value)| + 1 == |s.free|
      {
        var ok := MapKernel(d.value, data, k);
        if !ok {
          ghost var i :| i in RowTables(data, k) && i !in Tabled(Abs(), d.value);
          TablesLack(Tabled(Abs(), d.value), i);
          Freevm(d.value);
          SpaceGone(b, s, Abs(), d.value);
          return None;
        }
        k := k + 1;
      }
      forall v: nat ensures Entry(Abs(), d.value, v) == KernelEntry(data, v) {
        AllDirect(data, v);
      }
      return d;
    }

    /** mappages for row k of kmap, which never finds a page mapped already. */
    method MapKernel(d: nat, data: nat, k: nat) returns (ok: bool)
      requires Valid() && IsDir(Abs(), d) && DataOk(data) && k < 4
      requires forall v: nat :: Entry(Abs(), d, v) == Direct(Kmaps(data), k, v)
      modifies this`head, this`next, this`freelist, this`tables, this`owner
      ensures Valid() && IsDir(Abs(), d) && Only(old(Abs()), Abs(), d) && InHand(Abs(), d) == InHand(old(Abs()), d)
      ensures pages == old(pages)
      ensures ok ==> forall v: nat :: Entry(Abs(), d, v) == Direct(Kmaps(data), k + 1, v)
      ensures |freelist| + |Tabled(Abs(), d)| == |old(freelist)| + |Tabled(old(Abs()), d)|
      ensures Tabled(Abs(), d) <= Tabled(old(Abs()), d) + RowTables(data, k)
      ensures if ok then Tabled(Abs(), d) == Tabled(old(Abs()), d) + RowTables(data, k)
              else freelist == [] && exists i :: i in RowTables(data, k) && i !in Tabled(Abs(), d)
    {
      hide Inv, Rest, Frames, InHand, Entry, Tabled, RowsOf;
      var m := Kmaps(data)[k];
      RowFits(data, k);
      var r, done := Mappages(d, m.virt, RowSize(m), m.start / PGSIZE, m.perm);
      RowFree(data, k, done);
      RowSplit(data, k, done);
      return r == Some(0);
    }

    /** kalloc and the filling of the page. */
    method GrabPage(d: nat, c: Content) returns (mem: Option<nat>)
      requires Valid() && IsDir(Abs(), d) && InHand(Abs(), d) == {}
      modifies this`head, this`next, this`freelist, this`pages, this`owner
      ensures Valid() && IsDir(Abs(), d) && Only(old(Abs()), Abs(), d)
      ensures forall w: nat :: Entry(Abs(), d, w) == Entry(old(Abs()), d, w)
      ensures mem.None? ==> Abs() == old(Abs()) && freelist == []
      ensures mem.Some? ==> tables == old(tables) && |freelist| == |old(freelist)| - 1
      ensures mem.Some? ==>
          mem.value != d && InHand(Abs(), d) == {mem.value} && mem.value !in old(pages)
          && pages == old(pages)[mem.value := c]
    {
      ghost var s := Abs();
      mem := Kalloc(d);
      if mem.None? {
        return;
      }
      ghost var s1 := Abs();
      assert mem.value !in s.owner;
      TakeRest(s, d);
      PageSet(b, s1, d, mem.value, c);
      hide Inv, Rest, Frames;
      pages := pages[mem.value := c];
    }

    /** A page of contents c at page a: kalloc, fill, mappages. On failure `mem` is still in hand. */
    method AddPage(d: nat, a: nat, c: Content, flags: nat) returns (r: Option<int>, mem: Option<nat>)
      requires Valid() && IsDir(Abs(), d) && InHand(Abs(), d) == {} && a < KERN
      modifies this`head, this`next, this`freelist, this`tables, this`pages, this`owner
      ensures Valid() && IsDir(Abs(), d) && Only(old(Abs()), Abs(), d) && r in {None, Some(-1), Some(0)}
      ensures SubPages(Abs(), old(Abs()))
      ensures r == Some(0) ==> PageAdded(old(Abs()), Abs(), d, a, flags, c) && InHand(Abs(), d) == {}
      ensures r != Some(0) ==> forall w: nat :: Entry(Abs(), d, w) == Entry(old(Abs()), d, w)
      ensures r != Some(0) ==>
          InHand(Abs(), d) == (if mem.Some? then {mem.value} else {}) && (mem.Some? ==> mem.value != d)
      ensures r == None <==> mem.Some? && Entry(old(Abs()), d, a).present
      ensures r == Some(0) ==> Paid(old(Abs()), Abs(), d, a, a + 1, 1)
      ensures r == Some(-1) <==> |old(freelist)| < PageCost(old(Abs()), d, a)
      ensures r == None ==> PageCost(old(Abs()), d, a) == 1
    {
      hide Inv, Rest, Entry, Frames, MappedRange, InHand, Paid, RowsOf, Tabled, UserFrames, Chain;
      ghost var s := Abs();
      OnePage(a);
      mem := GrabPage(d, c);
      if mem.None? {
        return Some(-1), None;
      }
      ghost var s1 := Abs();
      OneUserFrame(a, mem.value);
      ghost var done;
      r, done := Mappages(d, a * PGSIZE, PGSIZE, mem.value, flags);
      MappedOne(s, s1, Abs(), d, a, mem.value, flags, done);
      PageCosts(s, s1, Abs(), d, a, done, r);
    }

    /** allocuvm: None where it panics, on a page that is mapped already. Some(newsz): the pages from
        oldsz up to newsz are new and zero. Some(0) without memory, or for a size beyond the user part. */
    method Allocuvm(d: nat, oldsz: nat, newsz: nat) returns (r: Option<nat>)
      requires Valid() && IsDir(Abs(), d) && InHand(Abs(), d) == {}
      modifies this`head, this`next, this`freelist, this`tables, this`pages, this`owner
      ensures Valid() && IsDir(Abs(), d) && Only(old(Abs()), Abs(), d)
      ensures newsz >= KERNBASE ==> r == Some(0) && Abs() == old(Abs())
      ensures newsz < KERNBASE && newsz < oldsz ==> r == Some(oldsz) && Abs() == old(Abs())
      ensures newsz < KERNBASE && oldsz <= newsz ==>
                && (r.Some? ==> r.value in {0, newsz} && InHand(Abs(), d) == {} && SameContents(old(Abs()), Abs()))
                && (r == Some(newsz) && 0 < newsz ==> Grown(old(Abs()), Abs(), d, RoundUp(oldsz), RoundUp(newsz),
                      ZeroPages(RoundUp(oldsz), RoundUp(newsz))))
                && (r == Some(newsz) && 0 < newsz ==> AllZero(Abs(), d, RoundUp(oldsz), RoundUp(newsz)))
                && (r == Some(0) && 0 < newsz ==> ClearedRange(old(Abs()), Abs(), d, RoundUp(oldsz), RoundUp(newsz)))
      ensures newsz < KERNBASE && oldsz <= newsz && 0 < newsz ==>
                var lo, hi := RoundUp(oldsz), RoundUp(newsz);
                && lo <= hi
                && (r == Some(0) <==> |old(freelist)| < AllocNeed(old(Abs()), d, lo, hi))
                && (r == None <==> FirstAt(old(Abs()), d, true, lo, hi) < hi
                                   && AllocNeed(old(Abs()), d, lo, hi) <= |old(freelist)|)
                && (r == Some(newsz) ==> |freelist| == |old(freelist)| - FramesFor(old(Abs()), d, lo, hi))
    {
      hide Inv, Rest, Entry, Frames, InHand, Grown, PageAdded, SubPages, SameContents, ClearedRange, ZeroPages, Paid,
        AllZero, PageCost, FramesFor, AllocNeed, FirstAt, Chain;
      if newsz >= KERNBASE {
        return Some(0);
      }
      if newsz < oldsz {
        return Some(oldsz);
      }
      ghost var s, lo, hi := Abs(), RoundUp(oldsz), RoundUp(newsz);
      ghost var want := ZeroPages(lo, hi);
      var a := RoundUp(oldsz);
      GrownStart(s, d, lo, want);
      PaidNothing(s, d, lo);
      while a * PGSIZE < newsz
        invariant lo <= a && (a * PGSIZE < newsz ==> a < hi <= KERN) && (lo <= hi ==> a <= hi)
        invariant Valid() && IsDir(Abs(), d) && Only(s, Abs(), d) && InHand(Abs(), d) == {}
        invariant Grown(s, Abs(), d, lo, a, want) && SubPages(Abs(), s)
        invariant Paid(s, Abs(), d, lo, a, a - lo)
        invariant lo <= a <= hi && FirstAt(s, d, true, lo, hi) == FirstAt(s, d, true, a, hi)
        decreases hi - a
      {
        ghost var s1 := Abs();
        ZeroPagesAt(lo, hi, a);
        PresentCost(b, s1, d, a);
        var q, mem := AddPage(d, a, ZeroPage(), PTE_W + PTE_U);
        GrownNext(s, s1, Abs(), d, lo, a, want, q == Some(0));
        AllocTurn(s, s1, Abs(), d, lo, a, hi, q);
        if q == None {
          return None;
        }
        if q == Some(-1) {
          TakeBack(d, oldsz, newsz, mem, s, a, want);
          return Some(0);
        }
        a := a + 1;
      }
      ContentsKept(s, Abs(), Abs());
      AllocEnd(s, Abs(), d, lo, hi);
      GrownZero(s, Abs(), d, lo, hi);
      return Some(newsz);
    }

    /** allocuvm's way out: deallocuvm of the whole range, then kfree of the page in hand. */
    method TakeBack(d: nat, oldsz: nat, newsz: nat, mem: Option<nat>, ghost s: Vm, ghost a: nat,
                    ghost want: map<nat, Wanted>)
      requires Valid() && IsDir(Abs(), d) && Only(s, Abs(), d) && oldsz < newsz < KERNBASE
      requires RoundUp(oldsz) <= a <= RoundUp(newsz)
      requires InHand(Abs(), d) == (if mem.Some? then {mem.value} else {}) && (mem.Some? ==> mem.value != d)
      requires Grown(s, Abs(), d, RoundUp(oldsz), a, want) && SubPages(Abs(), s)
      modifies this`head, this`next, this`freelist, this`tables, this`pages, this`owner
      ensures Valid() && IsDir(Abs(), d) && Only(s, Abs(), d) && InHand(Abs(), d) == {}
      ensures ClearedRange(s, Abs(), d, RoundUp(oldsz), RoundUp(newsz)) && SameContents(s, Abs())
    {
      hide Inv, Rest, Entry, Frames, InHand, Grown, SubPages, SameContents, ClearedRange;
      ghost var s1 := Abs();
      var sz := Deallocuvm(d, newsz, oldsz);
      ghost var s2 := Abs();
      ClearedGrown(s, s1, s2, d, RoundUp(oldsz), a, RoundUp(newsz), want);
      ContentsKept(s, s1, s2);
      if mem.Some? {
        FreeOne(d, mem.value);
        ClearedSame(s, s2, Abs(), d, RoundUp(oldsz), RoundUp(newsz));
        SubTrans(s1, s2, Abs());
        ContentsKept(s, s1, Abs());
      }
    }

    /** copyuvm: None where it panics, on a page of the parent that is not there; Some(None) without
        memory, with the state restored; Some(Some(d)) for the child. */
    method Copyuvm(parent: nat, sz: nat, data: nat) returns (r: Option<Option<nat>>)
      requires Valid() && IsDir(Abs(), parent) && sz <= KERNBASE && DataOk(data)
      modifies this`head, this`next, this`freelist, this`tables, this`pages, this`owner
      ensures r == Some(None) ==> Valid() && Restored(old(Abs()), Abs())
      ensures var n := RoundUp(sz);
              var stop := FirstAt(old(Abs()), parent, false, 0, n);
              && (r == Some(None) <==> |old(freelist)| < CopyNeed(stop))
              && (r == None <==> stop < n && CopyNeed(stop) <= |old(freelist)|)
              && (r.Some? && r.value.Some? ==> |freelist| == |old(freelist)| - CopyNeed(n))
      ensures r.Some? && r.value.Some? ==>
                && Valid() && Child(old(Abs()), Abs(), r.value.value)
                && CopyOf(old(Abs()), Abs(), parent, r.value.value, RoundUp(sz), data)
    {
      hide Inv, Rest, Entry, Frames, InHand, Grown, PageAdded, SubPages, Restored, CopyOf, ParentPages, Paid, PageCost,
        FramesFor, FirstAt, Tabled, KernelTables, CopyNeed, Chain;
      ghost var s := Abs();
      CopyNeeds(FirstAt(s, parent, false, 0, RoundUp(sz)));
      var child := Setupkvm(data);
      if child.None? {
        return Some(None);
      }
      var d := child.value;
      ghost var s1, n := Abs(), RoundUp(sz);
      ghost var want := ParentPages(s, parent, n);
      GrownStart(s1, d, 0, want);
      SamePagesSub(s1, s);
      PaidNothing(s1, d, 0);
      var a := 0;
      while a * PGSIZE < sz
        invariant 0 <= a <= n && (a * PGSIZE < sz ==> a < n <= KERN)
        invariant Valid() && Child(s, Abs(), d)
        invariant Grown(s1, Abs(), d, 0, a, want) && SubPages(Abs(), s1) && SubPages(Abs(), s)
        invariant forall w: nat :: w < a ==> Entry(s, parent, w).present
        invariant Paid(s1, Abs(), d, 0, a, a) && FirstAt(s, parent, false, 0, n) == FirstAt(s, parent, false, a, n)
      {
        ghost var s2 := Abs();
        var ok, q := CopyOne(parent, d, a, s, s1, n);
        CopyTurn(s, s1, s2, Abs(), parent, d, a, n, ok, q);
        if !ok {
          return None;
        }
        if q != Some(0) {
          Freevm(d);
          SpaceGone(b, s, Abs(), d);
          return Some(None);
        }
        a := a + 1;
      }
      CopyDone(b, s, s1, Abs(), parent, d, n, data);
      CopyEnd(s, s1, Abs(), parent, d, n);
      return Some(Some(d));
    }

    /** One turn of copyuvm's loop; not ok where it panics. Without memory the page in hand is freed. */
    method CopyOne(parent: nat, d: nat, a: nat, ghost s: Vm, ghost s1: Vm, ghost n: nat)
      returns (ok: bool, q: Option<int>)
      requires Valid() && Inv(b, s) && IsDir(s, parent) && Child(s, Abs(), d) && a < n <= KERN
      requires Grown(s1, Abs(), d, 0, a, ParentPages(s, parent, n)) && SubPages(Abs(), s1) && SubPages(Abs(), s)
      requires !Entry(s1, d, a).present
      modifies this`head, this`next, this`freelist, this`tables, this`pages, this`owner
      ensures ok <==> Entry(s, parent, a).present
      ensures ok ==> q in {Some(0), Some(-1)} && Valid() && Child(s, Abs(), d)
      ensures ok && q == Some(0) ==>
          Grown(s1, Abs(), d, 0, a + 1, ParentPages(s, parent, n)) && SubPages(Abs(), s1) && SubPages(Abs(), s)
      ensures ok ==> (q == Some(-1) <==> |old(freelist)| < PageCost(old(Abs()), d, a))
      ensures ok && q == Some(0) ==> Paid(old(Abs()), Abs(), d, a, a + 1, 1)
    {
      hide Inv, Rest, Entry, Frames, InHand, Grown, PageAdded, SubPages, ParentPages, Paid, PageCost;
      ghost var s2 := Abs();
      OthersTranslate(b, s, s2, d, parent, a);
      PresentHasTable(b, s2, parent, a);
      var t := Walkpgdir(parent, a, false);
      if t.None? {
        return false, None;
      }
      EntryIs(s2, parent, a);
      var pte := tables[t.value][a % NENTRIES];
      if !pte.present {
        return false, None;
      }
      PageThere(b, s2, parent, a);
      ParentPagesAt(s, parent, n, a);
      ghost var want := ParentPages(s, parent, n);
      var mem;
      q, mem := AddPage(d, a, pages[pte.frame], pte.flags);
      GrownNext(s1, s2, Abs(), d, 0, a, want, q == Some(0));
      SubTrans(Abs(), s2, s);
      if q == Some(-1) && mem.Some? {
        FreeOne(d, mem.value);
      }
      return true, q;
    }
  }

  /** The first page from lo up to hi that is present, or absent, as p says. */
  ghost function FirstAt(s: Vm, d: nat, p: bool, lo: nat, hi: nat): (r: nat)
    requires lo <= hi
    ensures lo <= r <= hi && (r < hi ==> Entry(s, d, r).present == p)
    ensures forall w: nat :: lo <= w < r ==> Entry(s, d, w).present != p
    decreases hi - lo
  {
    if lo == hi || Entry(s, d, lo).present == p then lo else FirstAt(s, d, p, lo + 1, hi)
  }

  /** The frames allocuvm asks for: those of the pages up to the first one that is mapped already, and
      one more for that. */
  ghost function AllocNeed(s: Vm, d: nat, lo: nat, hi: nat): int
    requires lo <= hi
  {
    var stop := FirstAt(s, d, true, lo, hi);
    FramesFor(s, d, lo, stop) + if stop < hi then 1 else 0
  }

  lemma PresentCost(b: Bounds, s: Vm, d: nat, a: nat)
    requires Inv(b, s) && IsDir(s, d) && a < VEND
    ensures Entry(s, d, a).present ==> PageCost(s, d, a) == 1
  {
    PresentHasTable(b, s, d, a);
    if Entry(s, d, a).present {
      TabledHas(s, d, a);
    }
  }

  lemma AllocTurn(s: Vm, s1: Vm, s2: Vm, d: nat, lo: nat, a: nat, hi: nat, q: Option<int>)
    requires lo <= a < hi && Paid(s, s1, d, lo, a, a - lo) && Entry(s1, d, a) == Entry(s, d, a)
    requires FirstAt(s, d, true, lo, hi) == FirstAt(s, d, true, a, hi) && q in {None, Some(-1), Some(0)}
    requires q == Some(-1) <==> |s1.free| < PageCost(s1, d, a)
    requires Entry(s1, d, a).present ==> PageCost(s1, d, a) == 1
    requires q == None ==> Entry(s1, d, a).present
    requires q == Some(0) ==> !Entry(s1, d, a).present && Paid(s1, s2, d, a, a + 1, 1)
    ensures q == Some(-1) ==> |s.free| < AllocNeed(s, d, lo, hi)
    ensures q == None ==> FirstAt(s, d, true, lo, hi) == a && AllocNeed(s, d, lo, hi) <= |s.free|
    ensures q == Some(0) ==>
              Paid(s, s2, d, lo, a + 1, a + 1 - lo) && FirstAt(s, d, true, lo, hi) == FirstAt(s, d, true, a + 1, hi)
  {
    hide Paid, PageCost, FramesFor, Entry;
    FallsShort(s, s1, d, lo, a);
    if q == Some(0) {
      PaidTrans(s, s1, s2, d, lo, a, a + 1, a - lo, 1);
    } else if !Entry(s, d, a).present {
      FramesForMore(s, d, lo, a + 1, FirstAt(s, d, true, a, hi));
    }
  }

  lemma AllocEnd(s: Vm, s': Vm, d: nat, lo: nat, hi: nat)
    requires lo <= hi && Paid(s, s', d, lo, hi, hi - lo) && FirstAt(s, d, true, lo, hi) == hi
    ensures AllocNeed(s, d, lo, hi) == FramesFor(s, d, lo, hi) && |s.free| == |s'.free| + FramesFor(s, d, lo, hi)
  {
    PaidExactly(s, s', d, lo, hi);
  }

  /** The frames copyuvm asks for to copy n pages: setupkvm's, the pages and their tables. */
  function CopyNeed(n: nat): nat {
    KERNEL_FRAMES + n + (n + NENTRIES - 1) / NENTRIES
  }

  lemma CopyNeeds(n: nat)
    ensures CopyNeed(n) >= KERNEL_FRAMES
  {
  }

  /** For a directory with only the kernel's part, user pages need all their tables. */
  lemma ChildNeeds(s: Vm, d: nat, n: nat)
    requires Tabled(s, d) == KernelTables() && n <= KERN
    ensures KERNEL_FRAMES + FramesFor(s, d, 0, n) == CopyNeed(n)
  {
    RowsCount(n);
    assert RowsOf(0, n) !! KernelTables();
    assert RowsOf(0, n) - KernelTables() == RowsOf(0, n);
  }

  lemma CopyTurn(s: Vm, s1: Vm, s2: Vm, s3: Vm, parent: nat, d: nat, a: nat, n: nat, ok: bool, q: Option<int>)
    requires a < n <= KERN && Paid(s1, s2, d, 0, a, a) && Tabled(s1, d) == KernelTables()
    requires |s1.free| == |s.free| - KERNEL_FRAMES
    requires FirstAt(s, parent, false, 0, n) == FirstAt(s, parent, false, a, n)
    requires ok <==> Entry(s, parent, a).present
    requires ok ==> q in {Some(0), Some(-1)} && (q == Some(-1) <==> |s2.free| < PageCost(s2, d, a))
    requires ok && q == Some(0) ==> Paid(s2, s3, d, a, a + 1, 1)
    ensures !ok ==> FirstAt(s, parent, false, 0, n) == a && CopyNeed(a) <= |s.free|
    ensures ok && q == Some(-1) ==> |s.free| < CopyNeed(FirstAt(s, parent, false, 0, n))
    ensures ok && q == Some(0) ==>
              && Paid(s1, s3, d, 0, a + 1, a + 1)
              && FirstAt(s, parent, false, 0, n) == FirstAt(s, parent, false, a + 1, n)
  {
    hide Paid, PageCost, FramesFor, Entry, CopyNeed, Tabled, KernelTables;
    if !ok {
      PaidExactly(s1, s2, d, 0, a);
      ChildNeeds(s1, d, a);
    } else if q == Some(0) {
      PaidTrans(s1, s2, s3, d, 0, a, a + 1, a, 1);
    } else {
      FallsShort(s1, s2, d, 0, a);
      FramesForMore(s1, d, 0, a + 1, FirstAt(s, parent, false, a, n));
      ChildNeeds(s1, d, FirstAt(s, parent, false, a, n));
    }
  }

  lemma CopyEnd(s: Vm, s1: Vm, s': Vm, parent: nat, d: nat, n: nat)
    requires n <= KERN && Paid(s1, s', d, 0, n, n) && Tabled(s1, d) == KernelTables()
    requires |s1.free| == |s.free| - KERNEL_FRAMES
    ensures |s'.free| == |s.free| - CopyNeed(n)
  {
    PaidExactly(s1, s', d, 0, n);
    ChildNeeds(s1, d, n);
  }

  /** Directory d is new and nobody else has changed. */
  ghost predicate Child(s: Vm, s': Vm, d: nat) {
    d !in s.owner && IsDir(s', d) && Only(s, s', d) && InHand(s', d) == {}
  }

  ghost function ParentAt(s: Vm, p: nat, w: nat): Wanted {
    var e := Entry(s, p, w);
    Wanted(e.flags, if e.frame in s.pages then s.pages[e.frame] else [])
  }

  ghost function ParentPages(s: Vm, p: nat, n: nat): map<nat, Wanted> {
    map w: nat | w < n :: ParentAt(s, p, w)
  }

  lemma ParentPagesAt(s: Vm, p: nat, n: nat, w: nat)
    requires w < n
    ensures w in ParentPages(s, p, n) && ParentPages(s, p, n)[w] == ParentAt(s, p, w)
  {
  }

  lemma PageThere(b: Bounds, s: Vm, d: nat, a: nat)
    requires Inv(b, s) && IsDir(s, d) && a < KERN && Entry(s, d, a).present
    ensures Entry(s, d, a).frame in s.pages
  {
    assert PageOk(s, d, a) && OwnerOk(s, Entry(s, d, a).frame);
  }

  lemma CopyDone(b: Bounds, s: Vm, s1: Vm, s': Vm, parent: nat, d: nat, n: nat, data: nat)
    requires Inv(b, s) && IsDir(s, parent) && n <= KERN && Grown(s1, s', d, 0, n, ParentPages(s, parent, n))
    requires forall w: nat :: Entry(s1, d, w) == KernelEntry(data, w)
    requires forall w: nat :: w < n ==> Entry(s, parent, w).present
    ensures CopyOf(s, s', parent, d, n, data)
  {
    hide Inv, Entry, KernelEntry;
    forall w: nat ensures if w < n then CopyAt(s, s', parent, d, w) else Entry(s', d, w) == KernelEntry(data, w) {
      assert if 0 <= w < n then GrownAt(s1, s', d, w, ParentPages(s, parent, n))
             else Entry(s', d, w) == Entry(s1, d, w);
      if w < n {
        PageThere(b, s, parent, w);
      }
    }
  }

  lemma SamePagesSub(s1: Vm, s: Vm)
    requires s1.pages == s.pages
    ensures SubPages(s1, s) && SubPages(s1, s1)
  {
  }

  /** Child d has a page of its own for each of the n pages of the parent, with the same flags and
      contents, the kernel's translations, and nothing else. */
  ghost predicate CopyOf(s: Vm, s': Vm, parent: nat, d: nat, n: nat, data: nat) {
    forall w: nat :: if w < n then CopyAt(s, s', parent, d, w) else Entry(s', d, w) == KernelEntry(data, w)
  }

  ghost predicate CopyAt(s: Vm, s': Vm, parent: nat, d: nat, w: nat) {
    && Entry(s, parent, w).present && Entry(s', d, w).present && Entry(s', d, w).flags == Entry(s, parent, w).flags
    && Entry(s, parent, w).frame in s.pages && Entry(s', d, w).frame in s'.pages
    && s'.pages[Entry(s', d, w).frame] == s.pages[Entry(s, parent, w).frame]
  }

  function ZeroPage(): Content {
    seq(PGSIZE, _ => 0)
  }

  /** The flags and contents a page is to have. */
  datatype Wanted = Wanted(flags: nat, content: Content)

  ghost function ZeroAt(w: nat): Wanted {
    Wanted(PTE_W + PTE_U, ZeroPage())
  }

  ghost function ZeroPages(lo: nat, hi: nat): map<nat, Wanted> {
    map w: nat | lo <= w < hi :: ZeroAt(w)
  }

  lemma ZeroPagesAt(lo: nat, hi: nat, a: nat)
    requires lo <= a < hi
    ensures a in ZeroPages(lo, hi) && ZeroPages(lo, hi)[a] == Wanted(PTE_W + PTE_U, ZeroPage())
  {
  }

  /** Every byte of the pages lo..hi of d is zero. */
  ghost predicate AllZero(s: Vm, d: nat, lo: nat, hi: nat) {
    forall w: nat :: lo <= w < hi ==> Entry(s, d, w).frame in s.pages && ZeroContent(s.pages[Entry(s, d, w).frame])
  }

  ghost predicate ZeroContent(c: Content) {
    |c| == PGSIZE && forall k :: 0 <= k < PGSIZE ==> c[k] == 0
  }

  lemma GrownZero(s: Vm, s': Vm, d: nat, lo: nat, hi: nat)
    requires Grown(s, s', d, lo, hi, ZeroPages(lo, hi))
    ensures AllZero(s', d, lo, hi)
  {
    hide Entry, ZeroPages;
    forall w: nat | lo <= w < hi
      ensures Entry(s', d, w).frame in s'.pages && ZeroContent(s'.pages[Entry(s', d, w).frame])
    {
      assert GrownAt(s, s', d, w, ZeroPages(lo, hi));
      ZeroPagesAt(lo, hi, w);
    }
  }

  /** Pages lo..hi of d, absent before, are there with the wanted flags and contents; its other
      translations stay. */
  ghost predicate Grown(s: Vm, s': Vm, d: nat, lo: nat, hi: nat, want: map<nat, Wanted>) {
    forall w: nat :: if lo <= w < hi then GrownAt(s, s', d, w, want) else Entry(s', d, w) == Entry(s, d, w)
  }

  ghost predicate GrownAt(s: Vm, s': Vm, d: nat, w: nat, want: map<nat, Wanted>) {
    && w in want && !Entry(s, d, w).present && Entry(s', d, w).present && Entry(s', d, w).flags == want[w].flags
    && Entry(s', d, w).frame in s'.pages && s'.pages[Entry(s', d, w).frame] == want[w].content
  }

  /** A page in use before and after has the same contents. */
  ghost predicate SameContents(s: Vm, s': Vm) {
    forall f :: f in s.pages && f in s'.pages ==> s'.pages[f] == s.pages[f]
  }

  lemma GrownStart(s: Vm, d: nat, lo: nat, want: map<nat, Wanted>)
    ensures Grown(s, s, d, lo, lo, want) && SubPages(s, s)
  {
  }

  lemma GrownNext(s: Vm, s1: Vm, s2: Vm, d: nat, lo: nat, a: nat, want: map<nat, Wanted>, added: bool)
    requires lo <= a && a in want && Grown(s, s1, d, lo, a, want) && SubPages(s1, s) && SubPages(s2, s1)
    requires if added then PageAdded(s1, s2, d, a, want[a].flags, want[a].content)
             else forall w: nat :: Entry(s2, d, w) == Entry(s1, d, w)
    ensures Grown(s, s2, d, lo, if added then a + 1 else a, want) && SubPages(s2, s)
    ensures Entry(s1, d, a) == Entry(s, d, a) && (added ==> !Entry(s1, d, a).present)
  {
    hide Entry;
    var hi := if added then a + 1 else a;
    forall w: nat ensures if lo <= w < hi then GrownAt(s, s2, d, w, want) else Entry(s2, d, w) == Entry(s, d, w) {
      assert if lo <= w < a then GrownAt(s, s1, d, w, want) else Entry(s1, d, w) == Entry(s, d, w);
    }
  }

  lemma ClearedGrown(s: Vm, s1: Vm, s2: Vm, d: nat, lo: nat, a: nat, hi: nat, want: map<nat, Wanted>)
    requires Grown(s, s1, d, lo, a, want) && lo <= a <= hi && ClearedRange(s1, s2, d, lo, hi)
    ensures ClearedRange(s, s2, d, lo, hi)
  {
    hide Entry;
    forall w: nat ensures if lo <= w < hi then !Entry(s2, d, w).present else Entry(s2, d, w) == Entry(s, d, w) {
      assert if lo <= w < hi then !Entry(s2, d, w).present else Entry(s2, d, w) == Entry(s1, d, w);
    }
  }

  lemma ClearedSame(s: Vm, s1: Vm, s2: Vm, d: nat, lo: nat, hi: nat)
    requires ClearedRange(s, s1, d, lo, hi) && forall w: nat :: Entry(s2, d, w) == Entry(s1, d, w)
    ensures ClearedRange(s, s2, d, lo, hi)
  {
    hide Entry;
  }

  lemma SubTrans(s: Vm, s1: Vm, s2: Vm)
    requires SubPages(s, s1) && SubPages(s1, s2)
    ensures SubPages(s, s2)
  {
  }

  lemma ContentsKept(s: Vm, s1: Vm, s2: Vm)
    requires SubPages(s1, s) && (SubPages(s1, s2) || s2 == s1)
    ensures SameContents(s, s2)
  {
  }

  /** With nothing mapped from oldsz up to newsz, which is what the sizes say, a failed allocuvm
      leaves every user page as it was: same frame, same flags. */
  lemma AllocFailRestores(s: Vm, s': Vm, d: nat, lo: nat, hi: nat, w: nat)
    requires ClearedRange(s, s', d, lo, hi) && forall v: nat :: lo <= v < hi ==> !Entry(s, d, v).present
    ensures Entry(s', d, w).present == Entry(s, d, w).present
    ensures Entry(s, d, w).present ==> Entry(s', d, w) == Entry(s, d, w)
  {
    hide Entry;
    assert if lo <= w < hi then !Entry(s', d, w).present else Entry(s', d, w) == Entry(s, d, w);
  }

  /** Page a of d is new, with these flags and contents; its other translations stay. */
  ghost predicate PageAdded(s: Vm, s': Vm, d: nat, a: nat, flags: nat, c: Content) {
    && !Entry(s, d, a).present
    && Entry(s', d, a).present && Entry(s', d, a).flags == flags
    && Entry(s', d, a).frame in s'.pages && s'.pages[Entry(s', d, a).frame] == c
    && forall w: nat :: w != a ==> Entry(s', d, w) == Entry(s, d, w)
  }

  lemma PageSet(b: Bounds, s: Vm, d: nat, f: nat, c: Content)
    requires Inv(b, s) && f in s.owner && s.owner[f] == Loose(d)
    ensures var s' := s.(pages := s.pages[f := c]);
            Inv(b, s') && Only(s, s', d) && forall w: nat :: Entry(s', d, w) == Entry(s, d, w)
  {
    hide Entry;
    PageSetInv(b, s, f, c);
    PageSetRest(s, d, f, c);
    hide Core, Rest, Frames;
    SameHands(s, s.(pages := s.pages[f := c]));
  }

  lemma PageSetRest(s: Vm, d: nat, f: nat, c: Content)
    requires f in s.owner && s.owner[f] == Loose(d)
    ensures Only(s, s.(pages := s.pages[f := c]), d)
  {
    var s' := s.(pages := s.pages[f := c]);
    assert Rest(s', d).pages == Rest(s, d).pages;
  }

  lemma PageSetInv(b: Bounds, s: Vm, f: nat, c: Content)
    requires Core(b, s) && f in s.owner && s.owner[f].Loose?
    ensures var s' := s.(pages := s.pages[f := c]);
            Core(b, s') && forall e: nat, w: nat :: Entry(s', e, w) == Entry(s, e, w)
  {
    var s' := s.(pages := s.pages[f := c]);
    assert forall e: nat, w: nat :: Entry(s', e, w) == Entry(s, e, w);
    hide Entry;
    assert OwnersOk(s') by {
      forall g | g in s'.owner ensures OwnerOk(s', g) {
        assert OwnerOk(s, g);
      }
    }
    assert TablesOk(s') by {
      forall e: nat, i: nat | IsDir(s', e) ensures TableOk(s', e, i) {
        assert TableOk(s, e, i);
      }
    }
    assert PagesOk(s') by {
      forall e: nat, v: nat | IsDir(s', e) ensures PageOk(s', e, v) {
        assert PageOk(s, e, v);
      }
    }
  }

  lemma MappedOne(s: Vm, s1: Vm, s2: Vm, d: nat, a: nat, f: nat, flags: nat, done: nat)
    requires forall w: nat :: Entry(s1, d, w) == Entry(s, d, w)
    requires a <= done <= a + 1 && MappedRange(s1, s2, d, a, done, f, flags)
    ensures done == a ==> forall w: nat :: Entry(s2, d, w) == Entry(s, d, w)
    ensures done == a + 1 ==> Entry(s2, d, a) == Pte(true, f, flags)
                              && forall w: nat :: w != a ==> Entry(s2, d, w) == Entry(s, d, w)
    ensures Entry(s1, d, done) == Entry(s, d, done)
  {
    hide Entry;
  }

  // ---------------------------------------------------------------- the kernel's part

  const EXTMEM := 0x10_0000
  const PHYSTOP := 0xE00_0000
  const DEVSPACE := 0xFE00_0000
  const KERNLINK := KERNBASE + EXTMEM

  /** What setupkvm takes: a directory and the tables of KernelTables. */
  const KERNEL_FRAMES := 65

  /** A row of kmap, in bytes. */
  datatype Kmap = Kmap(virt: nat, start: nat, end: nat, perm: nat)

  /** Where the linker puts the kernel's data. */
  ghost predicate DataOk(data: nat) {
    data % PGSIZE == 0 && KERNLINK < data < KERNBASE + PHYSTOP
  }

  function Kmaps(data: nat): (r: seq<Kmap>)
    requires KERNBASE <= data
    ensures |r| == 4
  {
    [Kmap(KERNBASE, 0, EXTMEM, PTE_W),
     Kmap(KERNLINK, KERNLINK - KERNBASE, data - KERNBASE, 0),
     Kmap(data, data - KERNBASE, PHYSTOP, PTE_W),
     Kmap(DEVSPACE, DEVSPACE, 0, PTE_W)]
  }

  function RowSize(m: Kmap): nat {
    (m.end - m.start) % UINT_LIMIT
  }

  ghost function RowLast(m: Kmap): int {
    (m.virt + RowSize(m) - 1) / PGSIZE
  }

  /** The translations of the first k rows. */
  ghost function Direct(maps: seq<Kmap>, k: nat, v: nat): Pte
    requires k <= |maps|
  {
    if k == 0 then ABSENT
    else
      var m := maps[k - 1];
      if m.virt / PGSIZE <= v <= RowLast(m) then Pte(true, m.start / PGSIZE + v - m.virt / PGSIZE, m.perm)
      else Direct(maps, k - 1, v)
  }

  /** What every address space maps above KERNBASE: physical memory in order, the kernel's text read
      only, and the devices in place. */
  ghost function KernelEntry(data: nat, v: nat): Pte {
    if KERN <= v < KERN + PHYSTOP / PGSIZE then
      Pte(true, v - KERN, if KERNLINK / PGSIZE <= v < data / PGSIZE then 0 else PTE_W)
    else if DEVSPACE / PGSIZE <= v < VEND then Pte(true, v, PTE_W)
    else ABSENT
  }

  /** The translations of the first row, of the first two, and so on. */
  lemma FirstRow(data: nat, v: nat)
    requires DataOk(data)
    ensures Direct(Kmaps(data), 1, v) == if KERN <= v < KERNLINK / PGSIZE then Pte(true, v - KERN, PTE_W) else ABSENT
  {
  }

  lemma SecondRow(data: nat, v: nat)
    requires DataOk(data)
    ensures Direct(Kmaps(data), 2, v) ==
              if KERNLINK / PGSIZE <= v < data / PGSIZE then Pte(true, v - KERN, 0) else Direct(Kmaps(data), 1, v)
  {
  }

  lemma ThirdRow(data: nat, v: nat)
    requires DataOk(data)
    ensures Direct(Kmaps(data), 3, v) ==
              if data / PGSIZE <= v < KERN + PHYSTOP / PGSIZE then Pte(true, v - KERN, PTE_W)
              else Direct(Kmaps(data), 2, v)
  {
  }

  lemma FourthRow(data: nat, v: nat)
    requires DataOk(data)
    ensures Direct(Kmaps(data), 4, v) ==
              if DEVSPACE / PGSIZE <= v < VEND then Pte(true, v, PTE_W) else Direct(Kmaps(data), 3, v)
  {
  }

  lemma AllDirect(data: nat, v: nat)
    requires DataOk(data)
    ensures Direct(Kmaps(data), 4, v) == KernelEntry(data, v)
  {
    hide Direct, Kmaps;
    FirstRow(data, v);
    SecondRow(data, v);
    ThirdRow(data, v);
    FourthRow(data, v);
  }

  lemma RowFits(data: nat, k: nat)
    requires DataOk(data) && k < 4
    ensures var m := Kmaps(data)[k];
            0 < RowSize(m) && KERNBASE <= m.virt && m.virt + RowSize(m) <= UINT_LIMIT && KERN <= m.virt / PGSIZE
  {
  }

  /** No page of row k is in an earlier row. */
  lemma RowFree(data: nat, k: nat, v: nat)
    requires DataOk(data) && k < 4
    ensures var m := Kmaps(data)[k]; m.virt / PGSIZE <= v ==> !Direct(Kmaps(data), k, v).present
  {
    FirstRow(data, v);
    SecondRow(data, v);
    ThirdRow(data, v);
    hide Direct;
  }

  /** The directory entries that row k of kmap goes through. */
  ghost function RowTables(data: nat, k: nat): set<nat>
    requires DataOk(data) && k < 4
  {
    var m := Kmaps(data)[k];
    RowFits(data, k);
    RowsOf(m.virt / PGSIZE, RowLast(m) + 1)
  }

  lemma RowSplit(data: nat, k: nat, done: nat)
    requires DataOk(data) && k < 4
    requires var m := Kmaps(data)[k]; m.virt / PGSIZE <= done <= RowLast(m) + 1
    ensures var m := Kmaps(data)[k];
            && RowsOf(m.virt / PGSIZE, done) <= RowTables(data, k)
            && (done == RowLast(m) + 1 ==> RowsOf(m.virt / PGSIZE, done) == RowTables(data, k))
            && (done <= RowLast(m) ==> done / NENTRIES in RowTables(data, k))
  {
    var m := Kmaps(data)[k];
    RowFits(data, k);
    RowsSplit(m.virt / PGSIZE, done, RowLast(m) + 1);
  }

  ghost function FirstTables(data: nat, k: nat): set<nat>
    requires DataOk(data) && k <= 4
  {
    if k == 0 then {} else FirstTables(data, k - 1) + RowTables(data, k - 1)
  }

  /** The tables of the kernel's part: 56 for physical memory and 8 for the devices. */
  ghost function KernelTables(): (r: set<nat>)
    ensures |r| == 64
  {
    var low, high := Span(KERN / NENTRIES, PHYSTOP / PGSIZE / NENTRIES), Span(DEVSPACE / PGSIZE / NENTRIES, 8);
    assert low !! high;
    low + high
  }

  lemma AllTables(data: nat)
    requires DataOk(data)
    ensures FirstTables(data, 4) == KernelTables()
    ensures forall k: nat :: k < 4 ==> FirstTables(data, k) + RowTables(data, k) <= KernelTables()
  {
    hide RowTables, RowsOf, KernelTables, FirstTables;
    TablesUpTo(data);
    RowTablesAre(data);
    KernelTablesAre();
    RowsSplit(KERN, KERNLINK / PGSIZE, data / PGSIZE);
    RowsSplit(KERN, data / PGSIZE, KERN + PHYSTOP / PGSIZE);
  }

  lemma RowTablesAre(data: nat)
    requires DataOk(data)
    ensures RowTables(data, 0) == RowsOf(KERN, KERNLINK / PGSIZE)
    ensures RowTables(data, 1) == RowsOf(KERNLINK / PGSIZE, data / PGSIZE)
    ensures RowTables(data, 2) == RowsOf(data / PGSIZE, KERN + PHYSTOP / PGSIZE)
    ensures RowTables(data, 3) == RowsOf(DEVSPACE / PGSIZE, VEND)
  {
    hide RowsOf;
  }

  lemma KernelTablesAre()
    ensures KernelTables() == RowsOf(KERN, KERN + PHYSTOP / PGSIZE) + RowsOf(DEVSPACE / PGSIZE, VEND)
  {
  }

  lemma TablesUpTo(data: nat)
    requires DataOk(data)
    ensures FirstTables(data, 0) == {} && FirstTables(data, 1) == RowTables(data, 0)
    ensures FirstTables(data, 2) == RowTables(data, 0) + RowTables(data, 1)
    ensures FirstTables(data, 3) == RowTables(data, 0) + RowTables(data, 1) + RowTables(data, 2)
    ensures FirstTables(data, 4) == RowTables(data, 0) + RowTables(data, 1) + RowTables(data, 2) + RowTables(data, 3)
  {
    hide RowTables;
  }

  /** A set of tables without one that the kernel needs is smaller. */
  lemma TablesLack(t: set<nat>, i: nat)
    requires t <= KernelTables() && i in KernelTables() && i !in t
    ensures |t| < 64
  {
    var all := KernelTables();
    assert all == t + (all - t) && i in all - t;
  }

  /** d is a new directory, and nothing else changed. */
  ghost predicate FreshSpace(s: Vm, s': Vm, d: nat) {
    d !in s.owner && IsDir(s', d) && Only(s, s', d) && InHand(s', d) == {} && s'.pages == s.pages
  }

  /** A frame not in use has nothing. */
  lemma NothingYet(b: Bounds, s: Vm, d: nat)
    requires Inv(b, s) && d !in s.owner
    ensures Rest(s, d) == s.(free := []) && InHand(s, d) == {}
  {
    forall f | f in s.owner ensures Other(s, d, f) {
      assert OwnerOk(s, f) && (s.owner[f].Loose? ==> HandOk(s, s.owner[f].d));
    }
    var r := Rest(s, d);
    assert r.owner == s.owner;
    assert r.tables == s.tables;
    assert r.pages == s.pages;
  }

  /** Without its new directory the state is what it was. */
  lemma SpaceGone(b: Bounds, s: Vm, s': Vm, d: nat)
    requires Inv(b, s) && d !in s.owner && s'.(free := []) == Rest(s, d) && Frames(s') == Frames(s)
    ensures Restored(s, s')
  {
    NothingYet(b, s, d);
  }

  /** Directory d is given up: what belongs to it is in the kernel's hands. */
  ghost function Orphan(s: Vm, d: nat): Vm {
    s.(owner := map f | f in s.owner :: if s.owner[f].d == d then Loose(d) else s.owner[f])
  }

  ghost predicate AllLoose(s: Vm, d: nat) {
    forall f :: f in s.owner && s.owner[f].d == d ==> s.owner[f] == Loose(d)
  }

  lemma FreeFacts(b: Bounds, s: Vm, d: nat, f: nat)
    requires Inv(b, s) && f in InHand(s, d) && (f == d ==> InHand(s, d) == {d})
    ensures var s' := Give(s, f);
            && b.lo <= f < b.hi && f !in s.free && Inv(b, s') && Only(s, s', d) && InHand(s', d) == InHand(s, d) - {f}
            && (AllLoose(s, d) ==> AllLoose(s', d)) && SubPages(s, s')
            && (IsDir(s, d) && d != f ==> IsDir(s', d))
            && (IsDir(s, d) ==> forall v: nat :: Entry(s', d, v) == Entry(s, d, v))
  {
    hide Core, HandsOk, Rest, Frames, Entry, InHand;
    InHandFacts(b, s, d, f);
    NobodyElse(b, s, d, f);
    InHandGiven(s, d, f);
    var s' := Give(s, f);
    GiveKeeps(b, s, f);
    assert Only(s, s', d) by {
      GiveRest(s, d, f);
    }
    assert HandsOk(s') by {
      GiveHands(s, f);
    }
    hide Only;
  }

  lemma InHandFacts(b: Bounds, s: Vm, d: nat, f: nat)
    requires Core(b, s) && f in InHand(s, d)
    ensures TablesOk(s) && f in s.owner && s.owner[f] == Loose(d) && b.lo <= f < b.hi && f !in s.free
  {
    hide OwnersOk, TablesOk, PagesOk;
  }

  /** Nothing is in hand on behalf of a frame in hand, save for itself. */
  lemma NobodyElse(b: Bounds, s: Vm, d: nat, f: nat)
    requires Inv(b, s) && f in InHand(s, d) && (f == d ==> InHand(s, d) == {d})
    ensures forall g :: g in s.owner && s.owner[g] == Loose(f) ==> g == f
  {
    forall g | g in s.owner && s.owner[g] == Loose(f) ensures g == f {
      assert HandOk(s, f) && g in InHand(s, f);
    }
  }

  lemma OrphanOnly(s: Vm, d: nat)
    ensures Only(s, Orphan(s, d), d) && AllLoose(Orphan(s, d), d)
  {
  }

  ghost function TablesFrom(s: Vm, d: nat, i: nat): set<nat>
    requires IsTable(s, d)
  {
    set j | i <= j < NENTRIES && s.tables[d][j].present :: s.tables[d][j].frame
  }

  lemma TablesNext(b: Bounds, s: Vm, d: nat, i: nat)
    requires Inv(b, s) && IsDir(s, d) && i < NENTRIES && IsTable(s, d)
    ensures var e := s.tables[d][i];
            && (e.present ==>
                  e.frame in TablesFrom(s, d, i) && e.frame != d
                  && TablesFrom(s, d, i + 1) == TablesFrom(s, d, i) - {e.frame})
            && (!e.present ==> TablesFrom(s, d, i + 1) == TablesFrom(s, d, i))
  {
    assert TableOk(s, d, i);
    forall j: nat | i < j < NENTRIES && s.tables[d][j].present && s.tables[d][i].present
      ensures s.tables[d][j].frame != s.tables[d][i].frame
    {
      assert TableOk(s, d, j);
    }
  }

  lemma TablesNone(s: Vm, d: nat)
    requires IsTable(s, d)
    ensures TablesFrom(s, d, NENTRIES) == {}
  {
  }

  lemma OrphanKeeps(b: Bounds, s: Vm, d: nat)
    requires Inv(b, s) && IsDir(s, d) && InHand(s, d) == {} && forall w: nat :: w < KERN ==> !Entry(s, d, w).present
    ensures Inv(b, Orphan(s, d)) && IsTable(s, d)
    ensures InHand(Orphan(s, d), d) == {d} + TablesFrom(s, d, 0)
  {
    OrphanInv(b, s, d);
    OrphanHands(s, d);
    OrphanHand(b, s, d);
  }

  lemma SameHands(s: Vm, s': Vm)
    requires HandsOk(s) && s'.owner == s.owner
    ensures HandsOk(s')
  {
    forall g | g in s'.owner && s'.owner[g].Loose? ensures HandOk(s', s'.owner[g].d) {
      assert HandOk(s, s.owner[g].d);
    }
  }

  lemma OrphanHands(s: Vm, d: nat)
    requires HandsOk(s) && IsDir(s, d)
    ensures HandsOk(Orphan(s, d))
  {
    var s' := Orphan(s, d);
    forall g | g in s'.owner && s'.owner[g].Loose? ensures HandOk(s', s'.owner[g].d) {
      assert s.owner[g].Loose? ==> HandOk(s, s.owner[g].d);
    }
  }

  lemma SameEntry(s: Vm, s': Vm, d: nat, v: nat)
    requires s'.tables == s.tables
    ensures Entry(s', d, v) == Entry(s, d, v)
  {
  }

  lemma OrphanInv(b: Bounds, s: Vm, d: nat)
    requires Core(b, s) && IsDir(s, d)
    ensures Core(b, Orphan(s, d))
  {
    hide Entry;
    var s' := Orphan(s, d);
    forall e: nat, v: nat ensures Entry(s', e, v) == Entry(s, e, v) {
      SameEntry(s, s', e, v);
    }
    assert OwnersOk(s') by {
      forall f | f in s'.owner ensures OwnerOk(s', f) {
        assert OwnerOk(s, f);
      }
    }
    assert TablesOk(s') by {
      forall e: nat, i: nat | IsDir(s', e) ensures TableOk(s', e, i) {
        assert TableOk(s, e, i);
      }
    }
    assert PagesOk(s') by {
      forall e: nat, v: nat | IsDir(s', e) ensures PageOk(s', e, v) {
        assert PageOk(s, e, v);
      }
    }
  }

  lemma OrphanHand(b: Bounds, s: Vm, d: nat)
    requires Inv(b, s) && IsDir(s, d) && InHand(s, d) == {} && forall w: nat :: w < KERN ==> !Entry(s, d, w).present
    ensures IsTable(s, d) && InHand(Orphan(s, d), d) == {d} + TablesFrom(s, d, 0)
  {
    assert OwnerOk(s, d);
    var s' := Orphan(s, d);
    hide Entry;
    forall f | f in InHand(s', d) ensures f in {d} + TablesFrom(s, d, 0) {
      assert OwnerOk(s, f) && f !in InHand(s, d);
      match s.owner[f]
      case Table(_, i) => assert s.tables[d][i].frame == f;
      case Dir(_) =>
      case Page(_, v) =>
      case Loose(_) =>
    }
    forall j | 0 <= j < NENTRIES && s.tables[d][j].present ensures s.tables[d][j].frame in InHand(s', d) {
      assert TableOk(s, d, j);
    }
  }

  lemma NoPages(b: Bounds, s: Vm, s1: Vm, d: nat)
    requires ClearedRange(s, s1, d, 0, KERN)
    ensures forall w: nat :: w < KERN ==> !Entry(s1, d, w).present
  {
  }

  lemma NothingLeft(b: Bounds, s: Vm, d: nat)
    requires Inv(b, s) && InHand(s, d) == {} && AllLoose(s, d)
    ensures s.(free := []) == Rest(s, d)
  {
    forall f | f in s.owner ensures Other(s, d, f) {
      assert f !in InHand(s, d);
    }
    var r := Rest(s, d);
    assert r.owner == s.owner;
    assert r.tables == s.tables;
    assert r.pages == s.pages;
  }

  /** Pages lo..hi of d are not mapped; its other translations stay. */
  ghost predicate ClearedRange(s: Vm, s': Vm, d: nat, lo: nat, hi: nat) {
    forall w: nat :: if lo <= w < hi then !Entry(s', d, w).present else Entry(s', d, w) == Entry(s, d, w)
  }

  /** Pages that are left have kept their contents. */
  ghost predicate SubPages(s: Vm, s': Vm) {
    forall f :: f in s'.pages ==> f in s.pages && s'.pages[f] == s.pages[f]
  }

  lemma UnmapFacts(b: Bounds, s: Vm, d: nat, a: nat)
    requires Inv(b, s) && IsDir(s, d) && a < KERN && HasTable(s, d, a) && Entry(s, d, a).present
    ensures var f, t, s' := Entry(s, d, a).frame, s.tables[d][a / NENTRIES].frame, Unmap(s, d, a);
            && f == s.tables[t][a % NENTRIES].frame && b.lo <= f < b.hi && f != t && f !in s.free
            && Inv(b, s') && IsDir(s', d) && Only(s, s', d) && InHand(s', d) == InHand(s, d)
            && ClearedRange(s, s', d, a, a + 1) && SubPages(s, s')
  {
    UnmapKeeps(b, s, d, a);
    assert TableOk(s, d, a / NENTRIES);
    UnmapRest(s, d, a);
    UnmapHands(s, d, a);
    hide Core, HandsOk, Rest, Frames;
    EntryIs(s, d, a);
  }

  lemma ClearedStart(s: Vm, d: nat, lo: nat)
    ensures ClearedRange(s, s, d, lo, lo) && SubPages(s, s)
  {
  }

  /** A directory entry without a table maps none of its pages. */
  lemma NoTableNoPages(b: Bounds, s: Vm, d: nat, a: nat)
    requires Inv(b, s) && IsDir(s, d) && a < VEND && !HasTable(s, d, a)
    ensures forall w: nat :: w / NENTRIES == a / NENTRIES ==> !Entry(s, d, w).present
  {
    TableThere(b, s, d, a / NENTRIES);
  }

  lemma ClearedSkip(s: Vm, s1: Vm, d: nat, lo: nat, a: nat, hi: nat)
    requires lo <= a < hi && ClearedRange(s, s1, d, lo, a)
    requires forall w: nat :: w / NENTRIES == a / NENTRIES ==> !Entry(s1, d, w).present
    ensures var next := (a / NENTRIES + 1) * NENTRIES;
            a < next && ClearedRange(s, s1, d, lo, if next < hi then next else hi)
  {
    var next := (a / NENTRIES + 1) * NENTRIES;
    hide Entry;
    forall w: nat | a <= w < next ensures !Entry(s1, d, w).present && Entry(s, d, w) == Entry(s1, d, w) {
      assert w / NENTRIES == a / NENTRIES;
    }
  }

  lemma ClearedStep(s: Vm, s1: Vm, s2: Vm, d: nat, lo: nat, a: nat)
    requires lo <= a && ClearedRange(s, s1, d, lo, a) && ClearedRange(s1, s2, d, a, a + 1) && SubPages(s, s1)
    requires SubPages(s1, s2)
    ensures ClearedRange(s, s2, d, lo, a + 1) && SubPages(s, s2)
  {
    forall w: nat ensures if lo <= w < a + 1 then !Entry(s2, d, w).present else Entry(s2, d, w) == Entry(s, d, w) {
      assert if lo <= w < a then !Entry(s1, d, w).present else Entry(s1, d, w) == Entry(s, d, w);
      assert if a <= w < a + 1 then !Entry(s2, d, w).present else Entry(s2, d, w) == Entry(s1, d, w);
    }
  }

  lemma ClearedAbsent(s: Vm, s1: Vm, d: nat, lo: nat, a: nat)
    requires lo <= a && ClearedRange(s, s1, d, lo, a) && !Entry(s1, d, a).present
    ensures ClearedRange(s, s1, d, lo, a + 1)
  {
    hide Entry;
  }

  lemma RangeStart(s: Vm, d: nat, a: nat, pa: nat, perm: nat)
    ensures MappedRange(s, s, d, a, a, pa, perm)
  {
  }

  lemma RangeNext(s: Vm, s1: Vm, d: nat, first: nat, a: nat, pa: nat, perm: nat)
    requires MappedRange(s, s1, d, first, a, pa, perm)
    ensures Entry(s1, d, a) == Entry(s, d, a)
  {
  }

  lemma RangeStep(s: Vm, s1: Vm, s2: Vm, d: nat, first: nat, a: nat, pa: nat, perm: nat)
    requires first <= a && MappedRange(s, s1, d, first, a, pa, perm)
    requires MappedRange(s1, s2, d, a, a + 1, pa + a - first, perm)
    ensures MappedRange(s, s2, d, first, a + 1, pa, perm)
  {
    forall w: nat ensures Entry(s2, d, w) == if first <= w < a + 1 then Pte(true, pa + w - first, perm)
        else Entry(s, d, w) {
      assert Entry(s1, d, w) == if first <= w < a then Pte(true, pa + w - first, perm) else Entry(s, d, w);
    }
  }

  lemma InHandPlaced(s: Vm, s': Vm, d: nat, f: nat, o: Owner)
    requires f in s.owner && s'.owner == s.owner[f := o] && !o.Loose?
    ensures InHand(s', d) == InHand(s, d) - {f}
  {
  }

  lemma InHandGiven(s: Vm, d: nat, f: nat)
    ensures InHand(Give(s, f), d) == InHand(s, d) - {f}
  {
  }

  lemma MapUserFacts(b: Bounds, s: Vm, d: nat, a: nat, pa: nat, perm: nat)
    requires Inv(b, s) && IsDir(s, d) && HasTable(s, d, a) && a < KERN && !Entry(s, d, a).present && pa in InHand(s, d)
    requires pa in s.pages
    ensures var s' := MapUser(s, d, a, pa, perm);
            && Inv(b, s') && IsDir(s', d) && Only(s, s', d)
            && MappedRange(s, s', d, a, a + 1, pa, perm) && InHand(s', d) == InHand(s, d) - {pa}
  {
    hide Core, HandsOk, Rest, Entry, Frames, TablesOk, InHand;
    InHandFacts(b, s, d, pa);
    var s' := MapUser(s, d, a, pa, perm);
    InHandPlaced(s, s', d, pa, Page(d, a));
    assert Core(b, s') && IsDir(s', d) && MappedRange(s, s', d, a, a + 1, pa, perm) by {
      MapUserKeeps(b, s, d, a, pa, perm);
    }
    assert Only(s, s', d) by {
      MapUserRest(s, d, a, pa, perm);
    }
    assert HandsOk(s') by {
      PlacedHands(s, d, pa, Page(d, a));
      SameHands(s.(owner := s.owner[pa := Page(d, a)]), s');
    }
    hide MappedRange, Only;
  }

  /** Writing an entry of a table leaves the directory alone. */
  lemma WriteTabled(b: Bounds, s: Vm, d: nat, a: nat, pte: Pte)
    requires Inv(b, s) && IsDir(s, d) && HasTable(s, d, a) && pte.present
    ensures Tabled(WriteEntry(s, d, a, pte), d) == Tabled(s, d)
    ensures Tabled(MapUser(s, d, a, pte.frame, pte.flags), d) == Tabled(WriteEntry(s, d, a, pte), d)
  {
    WrittenEntry(s, d, a, pte, d, a);
  }

  lemma OnePage(a: nat)
    ensures a * PGSIZE / PGSIZE == a && (a * PGSIZE + PGSIZE - 1) / PGSIZE == a
  {
  }

  lemma OneUserFrame(a: nat, f: nat)
    requires a < KERN
    ensures UserFrames(a, a + 1, f) == {f} && UserFrames(a, a, f) == {}
  {
  }

  /** kalloc of a page, then mappages of it. */
  lemma PageCosts(s: Vm, s1: Vm, s2: Vm, d: nat, a: nat, done: nat, r: Option<int>)
    requires s1.tables == s.tables && |s1.free| == |s.free| - 1 && r in {None, Some(-1), Some(0)}
    requires Paid(s1, s2, d, a, done, 0) && done == if r == Some(0) then a + 1 else a
    requires r == Some(-1) ==> s2.free == [] && done / NENTRIES !in Tabled(s2, d)
    requires r == None ==> done / NENTRIES in Tabled(s2, d)
    ensures r == Some(0) ==> Paid(s, s2, d, a, a + 1, 1)
    ensures r == Some(-1) <==> |s.free| < PageCost(s, d, a)
    ensures r == None ==> PageCost(s, d, a) == 1
  {
    RowsOne(a);
    assert RowsOf(a, a) == {};
    TablesPaid(s1, s2, d, a, done);
    assert Tabled(s1, d) == Tabled(s, d);
    assert Tabled(s, d) + {} == Tabled(s, d);
    if a / NENTRIES in Tabled(s, d) {
      assert {a / NENTRIES} - Tabled(s, d) == {};
    } else {
      assert {a / NENTRIES} - Tabled(s, d) == {a / NENTRIES};
    }
  }

  lemma TabledHas(s: Vm, d: nat, a: nat)
    requires HasTable(s, d, a)
    ensures a / NENTRIES in Tabled(s, d)
  {
  }

  lemma MapKernelFacts(b: Bounds, s: Vm, d: nat, a: nat, pa: nat, perm: nat)
    requires Inv(b, s) && IsDir(s, d) && HasTable(s, d, a) && KERN <= a
    ensures var s' := WriteEntry(s, d, a, Pte(true, pa, perm));
            && Inv(b, s') && IsDir(s', d) && Only(s, s', d)
            && MappedRange(s, s', d, a, a + 1, pa, perm) && InHand(s', d) == InHand(s, d)
  {
    assert Core(b, s) && TablesOk(s);
    hide Core, HandsOk, Rest, Entry, Frames, TablesOk;
    MapKernelKeeps(b, s, d, a, Pte(true, pa, perm));
    WriteRest(s, d, a, Pte(true, pa, perm));
    SameHands(s, WriteEntry(s, d, a, Pte(true, pa, perm)));
  }

  lemma TableThere(b: Bounds, s: Vm, d: nat, i: nat)
    requires Inv(b, s) && IsDir(s, d) && i < NENTRIES
    ensures IsTable(s, d) && (s.tables[d][i].present ==> IsTable(s, s.tables[d][i].frame))
  {
    assert TableOk(s, d, i) && OwnerOk(s, d);
    if s.tables[d][i].present {
      assert OwnerOk(s, s.tables[d][i].frame);
    }
  }

  lemma PresentHasTable(b: Bounds, s: Vm, d: nat, v: nat)
    requires Inv(b, s) && IsDir(s, d) && v < VEND
    ensures Entry(s, d, v).present ==> HasTable(s, d, v)
  {
    TableThere(b, s, d, v / NENTRIES);
  }

  lemma EntryIs(s: Vm, d: nat, v: nat)
    requires HasTable(s, d, v)
    ensures Entry(s, d, v) == s.tables[s.tables[d][v / NENTRIES].frame][v % NENTRIES]
  {
  }

  /** Pages lo..hi of d are mapped to consecutive frames from pa; its other translations stay. */
  ghost predicate MappedRange(s: Vm, s': Vm, d: nat, lo: nat, hi: nat, pa: nat, perm: nat) {
    forall w: nat :: Entry(s', d, w) == if lo <= w < hi then Pte(true, pa + w - lo, perm) else Entry(s, d, w)
  }
}
