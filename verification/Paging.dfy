/** Page frames and two-level page tables (xv6-public/vm.c, xv6-public/kalloc.c) as values: the free
    list, the contents of the frames in use, and for every frame in use the one place it belongs to.
    Addresses are page numbers. */
module Paging {
  import opened Options

  const NENTRIES := 1024
  /** Page numbers of KERNBASE and of the end of the address space. */
  const KERN := 0x80000
  const VEND := 0x100000
  const PTE_W := 2
  const PTE_U := 4

  /** The bytes of a page. */
  type Content = seq<nat>

  /** An entry: the present bit, the frame and the other flags. */
  datatype Pte = Pte(present: bool, frame: nat, flags: nat)

  const ABSENT := Pte(false, 0, 0)

  /** Where a frame belongs: in the hands of the kernel on behalf of directory d, directory d itself,
      its table i, or its user page v. */
  datatype Owner = Loose(d: nat) | Dir(d: nat) | Table(d: nat, i: nat) | Page(d: nat, v: nat)

  datatype Vm = Vm(free: seq<nat>, tables: map<nat, seq<Pte>>, pages: map<nat, Content>, owner: map<nat, Owner>)

  /** Frames that kfree accepts. */
  datatype Bounds = Bounds(lo: nat, hi: nat)

  ghost predicate IsDir(s: Vm, d: nat) {
    d in s.owner && s.owner[d] == Dir(d)
  }

  /** The entry that translates page v of directory d. */
  function Entry(s: Vm, d: nat, v: nat): Pte {
    if d in s.tables && v / NENTRIES < |s.tables[d]| && s.tables[d][v / NENTRIES].present then
      var t := s.tables[d][v / NENTRIES].frame;
      if t in s.tables && v % NENTRIES < |s.tables[t]| then s.tables[t][v % NENTRIES] else ABSENT
    else ABSENT
  }

  ghost predicate IsTable(s: Vm, f: nat) {
    f in s.tables && |s.tables[f]| == NENTRIES
  }

  /** The frame is where its owner says. */
  ghost predicate OwnerOk(s: Vm, f: nat)
    requires f in s.owner
  {
    match s.owner[f]
    case Loose(d) => true
    case Dir(d) => d == f && IsTable(s, f)
    case Table(d, i) => IsDir(s, d) && IsTable(s, d) && i < NENTRIES && IsTable(s, f) && s.tables[d][i].present
        && s.tables[d][i].frame == f
    case Page(d, v) => IsDir(s, d) && v < KERN && f in s.pages && Entry(s, d, v).present && Entry(s, d, v).frame == f
  }

  /** A present directory entry names a table of its own. */
  ghost predicate TableOk(s: Vm, d: nat, i: nat) {
    IsTable(s, d) && (i < NENTRIES && s.tables[d][i].present ==>
        s.tables[d][i].frame in s.owner && s.owner[s.tables[d][i].frame] == Table(d, i))
  }

  /** A present user entry names a page of its own. */
  ghost predicate PageOk(s: Vm, d: nat, v: nat) {
    v < KERN && Entry(s, d, v).present ==>
        Entry(s, d, v).frame in s.owner && s.owner[Entry(s, d, v).frame] == Page(d, v)
  }

  ghost predicate Distinct(free: seq<nat>) {
    forall i, j :: 0 <= i < j < |free| ==> free[i] != free[j]
  }

  /** Free frames are free once, and every frame is one that kfree accepts. */
  ghost predicate FramesOk(b: Bounds, s: Vm) {
    && Distinct(s.free)
    && (forall i :: 0 <= i < |s.free| ==> s.free[i] !in s.owner && b.lo <= s.free[i] < b.hi)
    && (forall f :: f in s.owner ==> b.lo <= f < b.hi)
    && s.tables.Keys <= s.owner.Keys && s.pages.Keys <= s.owner.Keys
  }

  ghost predicate OwnersOk(s: Vm) {
    forall f :: f in s.owner ==> OwnerOk(s, f)
  }

  /** Who a frame is in hand for is a directory, or a frame in hand for itself. */
  ghost predicate HandsOk(s: Vm) {
    forall f :: f in s.owner && s.owner[f].Loose? ==> HandOk(s, s.owner[f].d)
  }

  ghost predicate HandOk(s: Vm, d: nat) {
    d in s.owner && (s.owner[d] == Dir(d) || s.owner[d] == Loose(d))
  }

  ghost predicate TablesOk(s: Vm) {
    forall d: nat, i: nat :: IsDir(s, d) ==> TableOk(s, d, i)
  }

  ghost predicate PagesOk(s: Vm) {
    forall d: nat, v: nat :: IsDir(s, d) ==> PageOk(s, d, v)
  }

  ghost predicate Core(b: Bounds, s: Vm) {
    FramesOk(b, s) && OwnersOk(s) && TablesOk(s) && PagesOk(s)
  }

  ghost predicate Inv(b: Bounds, s: Vm) {
    Core(b, s) && HandsOk(s)
  }

  // ---------------------------------------------------------------- kalloc and kfree

  ghost function Take(s: Vm, d: nat): Vm
    requires s.free != []
  {
    s.(free := s.free[1..], owner := s.owner[s.free[0] := Loose(d)])
  }

  ghost function Give(s: Vm, f: nat): Vm {
    s.(free := [f] + s.free, owner := s.owner - {f}, tables := s.tables - {f}, pages := s.pages - {f})
  }

  lemma TakeKeeps(b: Bounds, s: Vm, d: nat)
    requires Core(b, s) && s.free != []
    ensures Core(b, Take(s, d))
    ensures forall e: nat, v: nat :: Entry(Take(s, d), e, v) == Entry(s, e, v)
    ensures forall e: nat :: IsDir(Take(s, d), e) <==> IsDir(s, e)
  {
    var s' := Take(s, d);
    assert s.free[0] !in s.owner;
    assert OwnersOk(s') by {
      forall f | f in s'.owner ensures OwnerOk(s', f) {
        assert f in s.owner ==> OwnerOk(s, f);
      }
    }
    assert TablesOk(s') by {
      forall e: nat, i: nat | IsDir(s', e) ensures TableOk(s', e, i) {
        assert TableOk(s, e, i);
      }
    }
    assert PagesOk(s') by {
      forall e: nat, v: nat | IsDir(s', e) ensures PageOk(s', e, v) {
        assert PageOk(s, e, v);
      }
    }
  }

  /** A frame in the kernel's hands is in no table. */
  lemma GiveKeeps(b: Bounds, s: Vm, f: nat)
    requires Core(b, s) && f in s.owner && s.owner[f].Loose?
    ensures Core(b, Give(s, f))
    ensures forall e: nat, v: nat :: IsDir(s, e) ==> Entry(Give(s, f), e, v) == Entry(s, e, v)
    ensures forall e: nat :: IsDir(Give(s, f), e) <==> IsDir(s, e)
  {
    var s' := Give(s, f);
    forall e: nat, v: nat | IsDir(s, e) ensures Entry(s', e, v) == Entry(s, e, v) {
      GiveEntry(s, f, e, v);
    }
    assert OwnersOk(s') by {
      forall g | g in s'.owner ensures OwnerOk(s', g) {
        assert OwnerOk(s, g);
      }
    }
    assert TablesOk(s') by {
      forall e: nat, i: nat | IsDir(s', e) ensures TableOk(s', e, i) {
        assert TableOk(s, e, i);
      }
    }
    assert PagesOk(s') by {
      forall e: nat, v: nat | IsDir(s', e) ensures PageOk(s', e, v) {
        assert PageOk(s, e, v);
      }
    }
  }

  lemma GiveEntry(s: Vm, f: nat, e: nat, v: nat)
    requires OwnersOk(s) && TablesOk(s) && f in s.owner && s.owner[f].Loose? && IsDir(s, e)
    ensures Entry(Give(s, f), e, v) == Entry(s, e, v)
  {
    assert OwnerOk(s, e) && TableOk(s, e, v / NENTRIES);
  }

  // ---------------------------------------------------------------- directories and tables

  ghost function Zeros(): (t: seq<Pte>)
    ensures |t| == NENTRIES && forall i :: 0 <= i < NENTRIES ==> t[i] == ABSENT
  {
    seq(NENTRIES, _ => ABSENT)
  }

  /** A zeroed frame becomes a directory. */
  ghost function NewDir(s: Vm, d: nat): Vm {
    s.(owner := s.owner[d := Dir(d)], tables := s.tables[d := Zeros()])
  }

  lemma NewDirKeeps(b: Bounds, s: Vm, d: nat)
    requires Core(b, s) && d in s.owner && s.owner[d] == Loose(d)
    ensures Core(b, NewDir(s, d)) && IsDir(NewDir(s, d), d) && forall v: nat :: Entry(NewDir(s, d), d, v) == ABSENT
    ensures forall e: nat, v: nat :: IsDir(s, e) ==> Entry(NewDir(s, d), e, v) == Entry(s, e, v)
  {
    var s' := NewDir(s, d);
    forall e: nat, v: nat | IsDir(s, e) ensures Entry(s', e, v) == Entry(s, e, v) {
      assert OwnerOk(s, e) && TableOk(s, e, v / NENTRIES);
    }
    assert OwnersOk(s') by {
      forall g | g in s'.owner ensures OwnerOk(s', g) {
        assert OwnerOk(s, g);
      }
    }
    assert TablesOk(s') by {
      forall e: nat, i: nat | IsDir(s', e) ensures TableOk(s', e, i) {
        assert e != d ==> TableOk(s, e, i);
      }
    }
    assert PagesOk(s') by {
      forall e: nat, v: nat | IsDir(s', e) ensures PageOk(s', e, v) {
        assert e != d ==> PageOk(s, e, v);
      }
    }
  }

  /** A zeroed frame becomes table i of directory d. */
  ghost function NewTable(s: Vm, d: nat, i: nat, f: nat): Vm
    requires d in s.tables && i < |s.tables[d]|
  {
    s.(owner := s.owner[f := Table(d, i)],
       tables := s.tables[f := Zeros()][d := s.tables[d][i := Pte(true, f, PTE_W + PTE_U)]])
  }

  lemma NewTableEntry(s: Vm, d: nat, i: nat, f: nat, e: nat, v: nat)
    requires OwnersOk(s) && TablesOk(s) && f in s.owner && s.owner[f].Loose? && IsDir(s, d) && IsDir(s, e)
    requires i < NENTRIES
    requires IsTable(s, d) && !s.tables[d][i].present
    ensures Entry(NewTable(s, d, i, f), e, v) == Entry(s, e, v)
  {
    assert OwnerOk(s, e) && TableOk(s, e, v / NENTRIES) && OwnerOk(s, d);
    var s', k := NewTable(s, d, i, f), v / NENTRIES;
    if e == d && k == i {
      assert s'.tables[d][i].frame == f && s'.tables[f] == Zeros();
    }
  }

  lemma NewTableKeeps(b: Bounds, s: Vm, d: nat, i: nat, f: nat)
    requires Core(b, s) && f in s.owner && s.owner[f] == Loose(d) && IsDir(s, d) && i < NENTRIES
    requires IsTable(s, d) && !s.tables[d][i].present
    ensures Core(b, NewTable(s, d, i, f))
    ensures forall e: nat, v: nat :: IsDir(s, e) ==> Entry(NewTable(s, d, i, f), e, v) == Entry(s, e, v)
    ensures forall e: nat :: IsDir(NewTable(s, d, i, f), e) <==> IsDir(s, e)
  {
    var s' := NewTable(s, d, i, f);
    forall e: nat, v: nat | IsDir(s, e) ensures Entry(s', e, v) == Entry(s, e, v) {
      NewTableEntry(s, d, i, f, e, v);
    }
    hide Entry;
    assert OwnersOk(s') by {
      forall g | g in s'.owner ensures OwnerOk(s', g) {
        assert OwnerOk(s, g) && OwnerOk(s, d);
      }
    }
    assert TablesOk(s') by {
      forall e: nat, j: nat | IsDir(s', e) ensures TableOk(s', e, j) {
        assert TableOk(s, e, j);
      }
    }
    assert PagesOk(s') by {
      forall e: nat, v: nat | IsDir(s', e) ensures PageOk(s', e, v) {
        assert PageOk(s, e, v);
      }
    }
  }

  // ---------------------------------------------------------------- writing an entry

  ghost predicate HasTable(s: Vm, d: nat, v: nat) {
    IsTable(s, d) && v < VEND && s.tables[d][v / NENTRIES].present && IsTable(s, s.tables[d][v / NENTRIES].frame)
  }

  ghost function WriteEntry(s: Vm, d: nat, v: nat, pte: Pte): Vm
    requires HasTable(s, d, v)
  {
    var t := s.tables[d][v / NENTRIES].frame;
    s.(tables := s.tables[t := s.tables[t][v % NENTRIES := pte]])
  }

  lemma PageNumber(v: nat, w: nat)
    requires v / NENTRIES == w / NENTRIES && v % NENTRIES == w % NENTRIES
    ensures v == w
  {
  }

  /** Writing one entry changes that translation and no other. */
  lemma WrittenEntry(s: Vm, d: nat, v: nat, pte: Pte, e: nat, w: nat)
    requires OwnersOk(s) && TablesOk(s) && IsDir(s, d) && IsDir(s, e) && HasTable(s, d, v)
    ensures Entry(WriteEntry(s, d, v, pte), e, w) == if e == d && w == v then pte else Entry(s, e, w)
    ensures WriteEntry(s, d, v, pte).tables[d] == s.tables[d] && IsTable(s, e)
    ensures WriteEntry(s, d, v, pte).tables[e] == s.tables[e]
  {
    assert OwnerOk(s, e) && OwnerOk(s, d) && TableOk(s, e, w / NENTRIES) && TableOk(s, d, v / NENTRIES);
    if e == d && w / NENTRIES == v / NENTRIES && w % NENTRIES == v % NENTRIES {
      PageNumber(v, w);
    }
  }

  /** A user page: the frame in hand becomes page v of directory d. */
  ghost function MapUser(s: Vm, d: nat, v: nat, f: nat, flags: nat): Vm
    requires HasTable(s, d, v)
  {
    WriteEntry(s, d, v, Pte(true, f, flags)).(owner := s.owner[f := Page(d, v)])
  }

  lemma MapUserKeeps(b: Bounds, s: Vm, d: nat, v: nat, f: nat, flags: nat)
    requires Core(b, s) && IsDir(s, d) && HasTable(s, d, v) && v < KERN && !Entry(s, d, v).present
    requires f in s.owner && s.owner[f] == Loose(d) && f in s.pages
    ensures var s' := MapUser(s, d, v, f, flags);
            && Core(b, s')
            && (forall e: nat :: IsDir(s', e) <==> IsDir(s, e))
            && forall e: nat, w: nat :: IsDir(s, e) ==>
                  Entry(s', e, w) == if e == d && w == v then Pte(true, f, flags) else Entry(s, e, w)
  {
    var s', s1 := MapUser(s, d, v, f, flags), WriteEntry(s, d, v, Pte(true, f, flags));
    assert OwnerOk(s, d) && TableOk(s, d, v / NENTRIES);
    forall e: nat, w: nat | IsDir(s, e)
      ensures Entry(s', e, w) == (if e == d && w == v then Pte(true, f, flags) else Entry(s, e, w)) && IsTable(s, e)
      ensures s'.tables[e] == s.tables[e]
    {
      WrittenEntry(s, d, v, Pte(true, f, flags), e, w);
      assert Entry(s', e, w) == Entry(s1, e, w);
    }
    hide Entry;
    assert OwnersOk(s') by {
      forall g | g in s'.owner ensures OwnerOk(s', g) {
        assert OwnerOk(s, g);
      }
    }
    assert TablesOk(s') by {
      forall e: nat, i: nat | IsDir(s', e) ensures TableOk(s', e, i) {
        assert TableOk(s, e, i);
      }
    }
    assert PagesOk(s') by {
      forall e: nat, w: nat | IsDir(s', e) ensures PageOk(s', e, w) {
        assert PageOk(s, e, w);
      }
    }
  }

  /** A kernel page names a frame that nobody owns here. */
  lemma MapKernelKeeps(b: Bounds, s: Vm, d: nat, v: nat, pte: Pte)
    requires Core(b, s) && IsDir(s, d) && HasTable(s, d, v) && KERN <= v
    ensures var s' := WriteEntry(s, d, v, pte);
            && Core(b, s')
            && forall e: nat, w: nat :: IsDir(s, e) ==>
                  Entry(s', e, w) == if e == d && w == v then pte else Entry(s, e, w)
  {
    var s' := WriteEntry(s, d, v, pte);
    assert OwnerOk(s, d) && TableOk(s, d, v / NENTRIES);
    forall e: nat, w: nat | IsDir(s, e)
      ensures Entry(s', e, w) == (if e == d && w == v then pte else Entry(s, e, w)) && IsTable(s, e)
      ensures s'.tables[e] == s.tables[e]
    {
      WrittenEntry(s, d, v, pte, e, w);
    }
    hide Entry;
    assert OwnersOk(s') by {
      forall g | g in s'.owner ensures OwnerOk(s', g) {
        assert OwnerOk(s, g);
      }
    }
    assert TablesOk(s') by {
      forall e: nat, i: nat | IsDir(s', e) ensures TableOk(s', e, i) {
        assert TableOk(s, e, i);
      }
    }
    assert PagesOk(s') by {
      forall e: nat, w: nat | IsDir(s', e) ensures PageOk(s', e, w) {
        assert PageOk(s, e, w);
      }
    }
  }

  /** A user page goes: its entry is cleared and its frame is free. */
  ghost function Unmap(s: Vm, d: nat, v: nat): Vm
    requires HasTable(s, d, v)
  {
    Give(WriteEntry(s, d, v, ABSENT), Entry(s, d, v).frame)
  }

  lemma UnmapKeeps(b: Bounds, s: Vm, d: nat, v: nat)
    requires Core(b, s) && IsDir(s, d) && HasTable(s, d, v) && v < KERN && Entry(s, d, v).present
    ensures Entry(s, d, v).frame in s.owner && s.owner[Entry(s, d, v).frame] == Page(d, v)
    ensures var s' := Unmap(s, d, v);
            && Core(b, s')
            && (forall e: nat :: IsDir(s', e) <==> IsDir(s, e))
            && forall e: nat, w: nat :: IsDir(s, e) ==>
                  Entry(s', e, w) == if e == d && w == v then ABSENT else Entry(s, e, w)
  {
    var s1, f := WriteEntry(s, d, v, ABSENT), Entry(s, d, v).frame;
    assert PageOk(s, d, v) && OwnerOk(s, d) && TableOk(s, d, v / NENTRIES);
    var s2 := s1.(owner := s.owner[f := Loose(d)]);
    forall e: nat, w: nat | IsDir(s, e)
      ensures Entry(s2, e, w) == (if e == d && w == v then ABSENT else Entry(s, e, w)) && IsTable(s, e)
      ensures s2.tables[e] == s.tables[e]
    {
      WrittenEntry(s, d, v, ABSENT, e, w);
      assert Entry(s2, e, w) == Entry(s1, e, w);
    }
    UnmapInv(b, s, d, v, s2);
    GiveKeeps(b, s2, f);
    assert Give(s2, f) == Unmap(s, d, v);
  }

  lemma UnmapInv(b: Bounds, s: Vm, d: nat, v: nat, s2: Vm)
    requires Core(b, s) && IsDir(s, d) && HasTable(s, d, v) && v < KERN && Entry(s, d, v).present
    requires Entry(s, d, v).frame in s.owner
    requires s2 == WriteEntry(s, d, v, ABSENT).(owner := s.owner[Entry(s, d, v).frame := Loose(d)])
    requires s.owner[Entry(s, d, v).frame] == Page(d, v)
    requires forall e: nat, w: nat :: IsDir(s, e) ==>
               Entry(s2, e, w) == (if e == d && w == v then ABSENT else Entry(s, e, w)) && IsTable(s, e)
                   && s2.tables[e] == s.tables[e]
    ensures Core(b, s2)
  {
    assert OwnerOk(s, d) && TableOk(s, d, v / NENTRIES);
    hide Entry;
    assert OwnersOk(s2) by {
      forall g | g in s2.owner ensures OwnerOk(s2, g) {
        assert OwnerOk(s, g);
      }
    }
    assert TablesOk(s2) by {
      forall e: nat, i: nat | IsDir(s2, e) ensures TableOk(s2, e, i) {
        assert TableOk(s, e, i);
      }
    }
    assert PagesOk(s2) by {
      forall e: nat, w: nat | IsDir(s2, e) ensures PageOk(s2, e, w) {
        assert PageOk(s, e, w);
      }
    }
  }

  // ---------------------------------------------------------------- frames in hand

  lemma TakeHands(s: Vm, d: nat)
    requires HandsOk(s) && s.free != [] && s.free[0] !in s.owner && (IsDir(s, d) || d == s.free[0])
    ensures HandsOk(Take(s, d))
  {
  }

  lemma GiveHands(s: Vm, f: nat)
    requires HandsOk(s) && forall g :: g in s.owner && s.owner[g] == Loose(f) ==> g == f
    ensures HandsOk(Give(s, f))
  {
    assert forall g :: g in Give(s, f).owner && s.owner[g].Loose? ==> s.owner[g] == Loose(s.owner[g].d);
  }

  lemma NewDirHands(s: Vm, d: nat)
    requires HandsOk(s) && d in s.owner && s.owner[d] == Loose(d)
    ensures HandsOk(NewDir(s, d))
  {
  }

  /** A frame in hand for a directory finds its place. */
  lemma PlacedHands(s: Vm, d: nat, f: nat, o: Owner)
    requires HandsOk(s) && IsDir(s, d) && f in s.owner && s.owner[f] == Loose(d) && !o.Loose?
    ensures HandsOk(s.(owner := s.owner[f := o]))
  {
    var s' := s.(owner := s.owner[f := o]);
    forall g | g in s'.owner && s'.owner[g].Loose? ensures HandOk(s', s'.owner[g].d) {
      assert HandOk(s, s.owner[g].d);
    }
  }

  /** A page goes: it was in nobody's hand, nor the reason for one. */
  lemma UnmapHands(s: Vm, d: nat, v: nat)
    requires HandsOk(s) && HasTable(s, d, v) && Entry(s, d, v).frame in s.owner && s.owner[Entry(s, d, v).frame].Page?
    ensures HandsOk(Unmap(s, d, v))
  {
    var s', f := Unmap(s, d, v), Entry(s, d, v).frame;
    hide Entry;
    forall g | g in s'.owner && s'.owner[g].Loose? ensures HandOk(s', s'.owner[g].d) {
      assert HandOk(s, s.owner[g].d);
    }
  }

  // ---------------------------------------------------------------- what is not directory d's

  /** All frames, free or in use. */
  ghost function Frames(s: Vm): set<nat> {
    (set f | f in s.free) + s.owner.Keys
  }

  ghost predicate Other(s: Vm, d: nat, f: nat) {
    f in s.owner && s.owner[f].d != d
  }

  /** The state without directory d and what belongs to it. */
  ghost function Rest(s: Vm, d: nat): Vm {
    Vm([], map f | f in s.tables && Other(s, d, f) :: s.tables[f],
       map f | f in s.pages && Other(s, d, f) :: s.pages[f],
       map f | f in s.owner && Other(s, d, f) :: s.owner[f])
  }

  lemma TakeRest(s: Vm, d: nat)
    requires s.free != [] && s.free[0] !in s.owner
    ensures Rest(Take(s, d), d) == Rest(s, d) && Frames(Take(s, d)) == Frames(s)
  {
    assert s.free == [s.free[0]] + s.free[1..];
  }

  lemma GiveRest(s: Vm, d: nat, f: nat)
    requires f in s.owner && s.owner[f].d == d
    ensures Rest(Give(s, f), d) == Rest(s, d) && Frames(Give(s, f)) == Frames(s)
  {
  }

  lemma NewDirRest(s: Vm, d: nat)
    requires d in s.owner && s.owner[d].d == d
    ensures Rest(NewDir(s, d), d) == Rest(s, d) && Frames(NewDir(s, d)) == Frames(s)
  {
  }

  lemma NewTableRest(s: Vm, d: nat, i: nat, f: nat)
    requires f in s.owner && s.owner[f].d == d && IsDir(s, d) && d in s.tables && i < |s.tables[d]|
    ensures Rest(NewTable(s, d, i, f), d) == Rest(s, d) && Frames(NewTable(s, d, i, f)) == Frames(s)
  {
  }

  lemma WriteRest(s: Vm, d: nat, v: nat, pte: Pte)
    requires TablesOk(s) && IsDir(s, d) && HasTable(s, d, v)
    ensures Rest(WriteEntry(s, d, v, pte), d) == Rest(s, d) && Frames(WriteEntry(s, d, v, pte)) == Frames(s)
  {
    assert TableOk(s, d, v / NENTRIES);
  }

  lemma MapUserRest(s: Vm, d: nat, v: nat, f: nat, flags: nat)
    requires TablesOk(s) && IsDir(s, d) && HasTable(s, d, v) && f in s.owner && s.owner[f].d == d
    ensures Rest(MapUser(s, d, v, f, flags), d) == Rest(s, d) && Frames(MapUser(s, d, v, f, flags)) == Frames(s)
  {
    WriteRest(s, d, v, Pte(true, f, flags));
  }

  lemma UnmapRest(s: Vm, d: nat, v: nat)
    requires TablesOk(s) && IsDir(s, d) && HasTable(s, d, v)
    requires Entry(s, d, v).frame in s.owner && s.owner[Entry(s, d, v).frame].d == d
    ensures Rest(Unmap(s, d, v), d) == Rest(s, d) && Frames(Unmap(s, d, v)) == Frames(s)
  {
    WriteRest(s, d, v, ABSENT);
    GiveRest(WriteEntry(s, d, v, ABSENT), d, Entry(s, d, v).frame);
  }

  /** s' differs from s only in what belongs to directory d, and no frame came or went. */
  ghost predicate Only(s: Vm, s': Vm, d: nat) {
    Rest(s', d) == Rest(s, d) && Frames(s') == Frames(s)
  }

  /** Frames in the kernel's hands on behalf of d. */
  ghost function InHand(s: Vm, d: nat): set<nat> {
    set f | f in s.owner && s.owner[f] == Loose(d)
  }

  /** Equal but for the order of the free list. */
  ghost predicate Restored(s: Vm, s': Vm) {
    s'.owner == s.owner && s'.tables == s.tables && s'.pages == s.pages && Frames(s') == Frames(s)
  }

  lemma RestoredFree(b: Bounds, s: Vm, s': Vm)
    requires FramesOk(b, s) && FramesOk(b, s') && Restored(s, s')
    ensures (set f | f in s'.free) == (set f | f in s.free)
  {
    assert (set f | f in s.free) == Frames(s) - s.owner.Keys;
    assert (set f | f in s'.free) == Frames(s') - s'.owner.Keys;
  }

  /** Other directories translate as before. */
  lemma OthersTranslate(b: Bounds, s: Vm, s': Vm, d: nat, e: nat, v: nat)
    requires Inv(b, s) && Inv(b, s') && Only(s, s', d) && IsDir(s, e) && e != d
    ensures IsDir(s', e) && Entry(s', e, v) == Entry(s, e, v)
    ensures v < KERN && Entry(s, e, v).present ==>
              && Entry(s, e, v).frame in s.pages && Entry(s, e, v).frame in s'.pages
              && s'.pages[Entry(s, e, v).frame] == s.pages[Entry(s, e, v).frame]
  {
    var r, r' := Rest(s, d), Rest(s', d);
    assert OwnerOk(s, e) && TableOk(s, e, v / NENTRIES);
    assert e in r.owner && e in r.tables;
    assert IsDir(s', e) && s'.tables[e] == s.tables[e];
    if v < VEND && s.tables[e][v / NENTRIES].present {
      var t := s.tables[e][v / NENTRIES].frame;
      assert OwnerOk(s, t);
      assert t in r.tables && r'.tables[t] == r.tables[t];
    }
    if v < KERN && Entry(s, e, v).present {
      var f := Entry(s, e, v).frame;
      assert PageOk(s, e, v) && OwnerOk(s, f);
      assert f in r.pages && r'.pages[f] == r.pages[f];
    }
  }
}
