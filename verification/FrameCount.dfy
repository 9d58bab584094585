/** Page frames as a quantity (xv6-public/vm.c lines 35-80, 118-136, 221-249 and 315-345): how many
    frames a range of pages takes, tables included, and that mapping it takes exactly as many. */
module FrameCount {
  import opened Paging

  /** The n numbers from lo on. */
  ghost function Span(lo: nat, n: nat): (r: set<nat>)
    ensures forall i: nat :: i in r <==> lo <= i < lo + n
    ensures |r| == n
  {
    if n == 0 then {} else Span(lo, n - 1) + {lo + n - 1}
  }

  /** The directory entries that pages lo up to hi go through. */
  ghost function RowsOf(lo: nat, hi: nat): set<nat> {
    if lo < hi then Span(lo / NENTRIES, (hi - 1) / NENTRIES - lo / NENTRIES + 1) else {}
  }

  /** The entries of directory d that have a table. */
  ghost function Tabled(s: Vm, d: nat): set<nat> {
    set i: nat | i < NENTRIES && IsTable(s, d) && s.tables[d][i].present
  }

  /** From s to s', directory d got the tables for pages lo up to hi, and apart from these n frames
      went. */
  ghost predicate Paid(s: Vm, s': Vm, d: nat, lo: nat, hi: nat, n: nat) {
    && Tabled(s', d) == Tabled(s, d) + RowsOf(lo, hi)
    && |s'.free| + |Tabled(s', d)| + n == |s.free| + |Tabled(s, d)|
  }

  /** Frames for pages lo up to hi of d, with the tables that are not there. */
  ghost function FramesFor(s: Vm, d: nat, lo: nat, hi: nat): int {
    hi - lo + |RowsOf(lo, hi) - Tabled(s, d)|
  }

  lemma RowsSplit(lo: nat, a: nat, hi: nat)
    requires lo <= a <= hi
    ensures RowsOf(lo, hi) == RowsOf(lo, a) + RowsOf(a, hi)
  {
  }

  lemma RowsOne(a: nat)
    ensures RowsOf(a, a + 1) == {a / NENTRIES}
  {
  }

  lemma PaidNothing(s: Vm, d: nat, a: nat)
    ensures Paid(s, s, d, a, a, 0)
  {
    assert Tabled(s, d) + {} == Tabled(s, d);
  }

  lemma PaidTrans(s: Vm, s1: Vm, s2: Vm, d: nat, lo: nat, a: nat, hi: nat, n: nat, m: nat)
    requires lo <= a <= hi && Paid(s, s1, d, lo, a, n) && Paid(s1, s2, d, a, hi, m)
    ensures Paid(s, s2, d, lo, hi, n + m)
  {
    hide RowsOf, Tabled;
    RowsSplit(lo, a, hi);
    assert Tabled(s, d) + RowsOf(lo, a) + RowsOf(a, hi) == Tabled(s, d) + RowsOf(lo, hi);
  }

  lemma UnionCount(a: set<nat>, b: set<nat>)
    ensures |a + b| == |a| + |b - a|
  {
    assert a + b == a + (b - a);
  }

  /** What was paid is what was needed. */
  lemma PaidExactly(s: Vm, s': Vm, d: nat, lo: nat, hi: nat)
    requires lo <= hi && Paid(s, s', d, lo, hi, hi - lo)
    ensures |s.free| == |s'.free| + FramesFor(s, d, lo, hi)
  {
    UnionCount(Tabled(s, d), RowsOf(lo, hi));
  }

  lemma FramesForMore(s: Vm, d: nat, lo: nat, a: nat, hi: nat)
    requires lo <= a <= hi
    ensures FramesFor(s, d, lo, a) + (hi - a) <= FramesFor(s, d, lo, hi)
  {
    hide RowsOf, Tabled;
    RowsSplit(lo, a, hi);
    var t, r, r' := Tabled(s, d), RowsOf(lo, a), RowsOf(lo, hi);
    assert r' - t == (r - t) + ((r' - t) - (r - t));
  }

  /** The frames of one more page: the page itself and a table, if there is none. */
  ghost function PageCost(s: Vm, d: nat, a: nat): nat {
    if a / NENTRIES in Tabled(s, d) then 1 else 2
  }

  /** Pages lo up to a are paid for, and what page a costs is not there. */
  lemma FallsShort(s: Vm, s1: Vm, d: nat, lo: nat, a: nat)
    requires lo <= a && Paid(s, s1, d, lo, a, a - lo)
    ensures FramesFor(s, d, lo, a + 1) == FramesFor(s, d, lo, a) + PageCost(s1, d, a)
    ensures |s.free| < FramesFor(s, d, lo, a + 1) <==> |s1.free| < PageCost(s1, d, a)
  {
    hide RowsOf, Tabled;
    PaidExactly(s, s1, d, lo, a);
    RowsSplit(lo, a, a + 1);
    RowsOne(a);
    var t, r, i := Tabled(s, d), RowsOf(lo, a), a / NENTRIES;
    if i in t + r {
      assert r + {i} - t == r - t;
    } else {
      assert r + {i} - t == (r - t) + {i};
    }
  }

  /** The tables for pages lo up to a are paid for, and the one for page a is not there and cannot be
      made: there were fewer frames than tables missing. */
  lemma TablesShort(s: Vm, s1: Vm, d: nat, lo: nat, a: nat, hi: nat)
    requires lo <= a < hi && Paid(s, s1, d, lo, a, 0) && s1.free == [] && a / NENTRIES !in Tabled(s1, d)
    ensures |s.free| < |RowsOf(lo, hi) - Tabled(s, d)|
  {
    hide RowsOf, Tabled;
    RowsSplit(lo, a, a + 1);
    RowsOne(a);
    RowsSplit(lo, a + 1, hi);
    var t, r, i := Tabled(s, d), RowsOf(lo, a), a / NENTRIES;
    UnionCount(t, r);
    var all := RowsOf(lo, hi) - t;
    assert i in all && r - t <= all - {i};
    assert all == (r - t) + (all - (r - t)) && i in all - (r - t);
  }

  lemma TablesPaid(s: Vm, s': Vm, d: nat, lo: nat, hi: nat)
    requires Paid(s, s', d, lo, hi, 0)
    ensures |s.free| == |s'.free| + |RowsOf(lo, hi) - Tabled(s, d)|
  {
    UnionCount(Tabled(s, d), RowsOf(lo, hi));
  }

  lemma RowsCount(hi: nat)
    ensures |RowsOf(0, hi)| == (hi + NENTRIES - 1) / NENTRIES
  {
  }
}
