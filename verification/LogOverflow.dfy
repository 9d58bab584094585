/** Which log areas are large enough. log_write compares lh.n with the size of the log area before it
    takes log.lock (xv6-public/log.c lines 218-223), so two log_writes can both pass on the last free
    slot and the list can outgrow the area. In an area of fewer than LOGSIZE blocks the commit then
    writes its last slot over the home block behind the area, before any header is written: a crash
    there recovers wrong contents. In an area of LOGSIZE blocks, which is what mkfs makes
    (xv6-public/mkfs.c line 25), the list that outgrows it pins every buffer, and the commit panics
    in bget instead. The runs are those that the interface of the log allows: any block outside the
    area may be logged, the first two of the disk included, which fs.c itself never logs. */
module LogOverflow {
  import opened Blocks
  import opened BufferCache
  import opened WriteAheadLog
  import opened LogRuns
  import opened Options
  import opened Params

  // ---------------------------------------------------------------- a buffer is always free

  /** Buffers of listed blocks are no more than the blocks listed. */
  lemma {:induction false} ListedBuffers(bufs: seq<Buf>, lh: seq<Word32>, d: set<nat>)
    requires UniqueBlocks(bufs)
    requires forall b :: b in d ==> b < |bufs| && bufs[b].dev == ROOTDEV && bufs[b].blockno in lh
    ensures |d| <= |lh|
    decreases lh
  {
    if lh == [] {
      assert d == {};
    } else if b :| b in d && bufs[b].blockno == lh[0] {
      assert forall i :: i in d - {b} ==> bufs[i].blockno in lh[1..];
      ListedBuffers(bufs, lh[1..], d - {b});
    } else {
      ListedBuffers(bufs, lh[1..], d);
    }
  }

  /** With fewer blocks listed and buffers held than there are buffers, bget finds one. */
  lemma FreeBuffer(L: Layout, s: Sys, held: set<nat>)
    requires Inv(L, s) && |s.lh| + |held| < NBUF
    requires forall b :: 0 <= b < NBUF && b !in held ==> s.cache.bufs[b].refcnt == 0
    ensures exists b :: 0 <= b < NBUF && s.cache.bufs[b].Recyclable()
  {
    var d := set b: nat | b < NBUF && s.cache.bufs[b].dirty;
    forall b | b in d ensures s.cache.bufs[b].dev == ROOTDEV && s.cache.bufs[b].blockno in s.lh {
      assert BufOk(L, s, b);
    }
    ListedBuffers(s.cache.bufs, s.lh, d);
    BelowSize(NBUF);
    if Below(NBUF) <= d + held {
      SubsetSize(Below(NBUF), d + held);
    }
    var b :| b in Below(NBUF) && b !in d + held;
    assert s.cache.bufs[b].Recyclable();
  }

  // ---------------------------------------------------------------- building the run

  /** The part of the state that bread and brelse leave alone. */
  ghost predicate SameLog(s: Sys, s': Sys) {
    && s'.lh == s.lh && s'.ops == s.ops && s'.phase == s.phase && s'.modified == s.modified
    && s'.disk == s.disk && s'.latest == s.latest && s'.committed == s.committed
  }

  /** Every buffer outside `held` is unreferenced and unlocked. */
  ghost predicate OnlyHeld(s: Sys, held: set<nat>)
    requires |s.cache.bufs| == NBUF
  {
    forall b :: 0 <= b < NBUF && b !in held ==> s.cache.bufs[b].refcnt == 0 && s.cache.bufs[b].owner.None?
  }

  ghost predicate SameHeld(s: Sys, s': Sys, held: set<nat>)
    requires |s.cache.bufs| == |s'.cache.bufs| == NBUF
  {
    forall b :: b in held && b < NBUF ==> s'.cache.bufs[b] == s.cache.bufs[b]
  }

  /** Process p alone has buffer b with block n, locked and valid. */
  ghost predicate Has(s: Sys, b: nat, p: Pid, n: nat)
    requires |s.cache.bufs| == NBUF
  {
    HeldBy(s.cache, b, p, n) && s.cache.bufs[b].refcnt == 1
  }

  /** A block that bget can give to a process while the buffers in `held` are held. */
  ghost predicate Available(s: Sys, n: nat, held: set<nat>)
    requires |s.cache.bufs| == NBUF
  {
    && OnlyHeld(s, held)
    && (|s.lh| + |held| < NBUF || exists i :: 0 <= i < NBUF && s.cache.bufs[i].Holds(n))
    && (forall i :: i in held && i < NBUF ==> !s.cache.bufs[i].Holds(n) && s.cache.bufs[i].refcnt > 0)
  }

  lemma GetFree(L: Layout, s: Sys, p: Pid, n: nat, held: set<nat>) returns (s': Sys, b: nat)
    requires Inv(L, s) && n < L.size && (L.Home(n) || !s.phase.Running?) && Available(s, n, held)
    ensures Reaches(L, s, s') && Inv(L, s') && SameLog(s, s') && SameHeld(s, s', held)
    ensures b < NBUF && s'.cache.bufs[b].Holds(n) && s'.cache.bufs[b].owner.None?
    ensures s'.cache.bufs[b].refcnt == 1 && p in s'.cache.holders[b]
    ensures b !in held && OnlyHeld(s', held + {b})
  {
    hide Reaches, DiskOk, OpsOk, Listing, BufsOk, Get;
    if |s.lh| + |held| < NBUF {
      FreeBuffer(L, s, held);
    }
    var c';
    c', b := GetFresh(s.cache, n, p, held);
    var e := GetBuf(p, n);
    assert Enabled(L, s, e);
    s' := Apply(L, s, e);
    GetStepKeeps(L, s, p, n);
    hide WellFormed;
    One(L, s, e);
  }

  /** bget of a block that nobody holds, when it is cached or some buffer can be recycled. */
  lemma GetFresh(c: Cache, n: nat, p: Pid, held: set<nat>) returns (c': Cache, b: nat)
    requires WellFormed(c) && exists i :: 0 <= i < NBUF && (c.bufs[i].Recyclable() || c.bufs[i].Holds(n))
    requires forall i :: 0 <= i < NBUF && i !in held ==> c.bufs[i].refcnt == 0 && c.bufs[i].owner.None?
    requires forall i :: i in held && i < NBUF ==> !c.bufs[i].Holds(n) && c.bufs[i].refcnt > 0
    ensures Get(c, n, p) == Some((c', b)) && WellFormed(c') && b < NBUF && b !in held
    ensures c'.bufs[b].Holds(n) && c'.bufs[b].owner.None? && c'.bufs[b].refcnt == 1 && p in c'.holders[b]
    ensures forall i :: 0 <= i < NBUF && i != b ==> c'.bufs[i] == c.bufs[i]
  {
    GetKeeps(c, n, p);
    hide Get;
    c', b := Get(c, n, p).value.0, Get(c, n, p).value.1;
    assert |c.holders[b]| == c.bufs[b].refcnt;
  }

  lemma LockFree(L: Layout, s: Sys, p: Pid, n: nat, b: nat, held: set<nat>) returns (s': Sys)
    requires Inv(L, s) && b < NBUF && b !in held && OnlyHeld(s, held + {b})
    requires s.cache.bufs[b].Holds(n) && s.cache.bufs[b].owner.None? && p in s.cache.holders[b]
    ensures Reaches(L, s, s') && Inv(L, s') && SameLog(s, s') && SameHeld(s, s', held)
    ensures s'.cache.bufs[b] == s.cache.bufs[b].(owner := Some(p)) && OnlyHeld(s', held + {b})
  {
    hide WellFormed, DiskOk, OpsOk, Listing, BufsOk, Reaches;
    var e := Lock(p, b);
    assert Enabled(L, s, e);
    LockStepKeeps(L, s, e);
    s' := Apply(L, s, e);
    One(L, s, e);
  }

  lemma FillLocked(L: Layout, s: Sys, p: Pid, n: nat, b: nat, held: set<nat>) returns (s': Sys)
    requires Inv(L, s) && b < NBUF && b !in held && OnlyHeld(s, held + {b})
    requires s.cache.bufs[b].Holds(n) && s.cache.bufs[b].owner == Some(p) && s.cache.bufs[b].refcnt == 1
    ensures Reaches(L, s, s') && Inv(L, s') && SameLog(s, s') && SameHeld(s, s', held)
    ensures Has(s', b, p, n) && OnlyHeld(s', held + {b})
  {
    hide Reaches, WellFormed, DiskOk, OpsOk, Listing;
    if s.cache.bufs[b].valid {
      s' := s;
      Here(L, s);
    } else {
      var e := Fill(p, b);
      assert BufOk(L, s, b);
      assert Enabled(L, s, e);
      FillStepKeeps(L, s, p, b);
      s' := Apply(L, s, e);
      One(L, s, e);
    }
  }

  /** bread of a block nobody holds, by one process, from bget to the filled buffer. */
  lemma Bread(L: Layout, s: Sys, p: Pid, n: nat, held: set<nat>) returns (s': Sys, b: nat)
    requires Inv(L, s) && n < L.size && (L.Home(n) || !s.phase.Running?) && Available(s, n, held)
    ensures Reaches(L, s, s') && Inv(L, s') && SameLog(s, s') && SameHeld(s, s', held)
    ensures Has(s', b, p, n) && b !in held && OnlyHeld(s', held + {b})
  {
    hide Reaches, WellFormed, BufsOk, DiskOk;
    var s0, s1;
    s0, b := GetFree(L, s, p, n, held);
    s1 := LockFree(L, s0, p, n, b, held);
    s' := FillLocked(L, s1, p, n, b, held);
    Trans(L, s, s0, s1);
    Trans(L, s, s1, s');
  }

  /** brelse of a buffer that p has alone. */
  lemma Brelse(L: Layout, s: Sys, p: Pid, n: nat, b: nat, held: set<nat>) returns (s': Sys)
    requires Inv(L, s) && Has(s, b, p, n) && b !in s.modified && OnlyHeld(s, held + {b}) && b !in held
    ensures Reaches(L, s, s') && Inv(L, s') && SameLog(s, s') && SameHeld(s, s', held) && OnlyHeld(s', held)
  {
    var e0, e1 := Unlock(p, b), PutBuf(p, b);
    hide Reaches, DiskOk, OpsOk, Listing, BufsOk;
    var s0 := Unlocked(L, s, p, n, b);
    PutKeeps(s0.cache, b, p);
    hide WellFormed;
    LockStepKeeps(L, s0, e1);
    s' := Apply(L, s0, e1);
    One(L, s0, e1);
    Trans(L, s, s0, s');
  }

  lemma Unlocked(L: Layout, s: Sys, p: Pid, n: nat, b: nat) returns (s': Sys)
    requires Inv(L, s) && Has(s, b, p, n) && b !in s.modified
    ensures Reaches(L, s, s') && Inv(L, s')
    ensures p in s.cache.holders[b] && s' == SetBuf(s, b, s.cache.bufs[b].(owner := None))
  {
    var e := Unlock(p, b);
    hide Reaches, DiskOk, OpsOk, Listing, BufsOk;
    LockStepKeeps(L, s, e);
    s' := Apply(L, s, e);
    One(L, s, e);
  }

  // ---------------------------------------------------------------- mount and three operations

  /** initlog on a disk with an empty log. */
  lemma Mount(L: Layout, disk: seq<Block>) returns (s: Sys)
    requires L.Valid() && |disk| == L.size && HeadOk(disk[L.logstart]) && Head(disk[L.logstart]) == []
    ensures Reaches(L, Boot(disk), s) && Inv(L, s) && OnlyHeld(s, {})
    ensures s.phase.Running? && s.lh == [] && s.ops == seq(NPROC, _ => Idle) && s.committed == disk
  {
    BootOk(L, disk);
    hide Inv, Shape, Reaches;
    var s0 := Boot(disk);
    var s1, b := Bread(L, s0, 0, L.logstart, {});
    assert {} + {b} == {b};
    var s2 := MountRead(L, s1, b);
    Trans(L, s0, s1, s2);
    var s3 := MountClear(L, s2, b);
    Trans(L, s0, s2, s3);
    s := Brelse(L, s3, 0, L.logstart, b, {});
    Trans(L, s0, s3, s);
  }

  lemma MountRead(L: Layout, s: Sys, b: nat) returns (s': Sys)
    requires Inv(L, s) && s.phase.Booting? && Has(s, b, 0, L.logstart)
    requires HeadOk(s.disk[L.logstart]) && Head(s.disk[L.logstart]) == []
    ensures Reaches(L, s, s') && Inv(L, s') && s' == s.(lh := [], phase := Installing(0, true))
  {
    assert BufOk(L, s, b);
    ReadHeadStepKeeps(L, s, 0, b);
    s' := Apply(L, s, ReadHead(0, b));
    One(L, s, ReadHead(0, b));
  }

  lemma MountClear(L: Layout, s: Sys, b: nat) returns (s': Sys)
    requires Inv(L, s) && s.phase == Installing(0, true) && s.lh == [] && Has(s, b, 0, L.logstart)
    requires OnlyHeld(s, {b}) && b !in s.modified
    ensures Reaches(L, s, s') && Inv(L, s') && s'.committed == s.committed
    ensures s'.phase.Running? && s'.lh == [] && s'.ops == s.ops && b !in s'.modified
    ensures OnlyHeld(s', {b}) && Has(s', b, 0, L.logstart)
  {
    hide Reaches, WellFormed, BufsOk, DiskOk, OpsOk, Listing, SetHead;
    ClearStepKeeps(L, s, 0, b);
    s' := Apply(L, s, ClearHead(0, b));
    One(L, s, ClearHead(0, b));
  }

  /** Three operations with these counts of added blocks. */
  function Three(a: nat, b: nat, c: nat): seq<Op> {
    seq(NPROC, _ => Idle)[0 := Active(a, false)][1 := Active(b, false)][2 := Active(c, false)]
  }

  /** After k added blocks: at most 9 by process 0, at most 9 by process 1, the rest by process 2. */
  function Budget(k: nat): seq<Op> {
    Three(if k < 9 then k else 9, if k < 9 then 0 else if k < 18 then k - 9 else 9, if k < 18 then 0 else k - 18)
  }

  lemma BeginOne(L: Layout, s: Sys, p: Pid) returns (s': Sys)
    requires Inv(L, s) && s.phase.Running? && s.lh == [] && p < 3
    requires Outstanding(s.ops) == p && s.ops[p].Idle?
    ensures Reaches(L, s, s') && Inv(L, s')
    ensures s' == s.(ops := s.ops[p := Active(0, false)]) && Outstanding(s'.ops) == p + 1
  {
    hide Reaches, WellFormed, BufsOk, DiskOk, OpsOk, Listing;
    OpStepKeeps(L, s, BeginOp(p));
    UpdateCounts(s.ops, p, Active(0, false));
    s' := Apply(L, s, BeginOp(p));
    One(L, s, BeginOp(p));
  }

  lemma BeginThree(L: Layout, s: Sys) returns (s': Sys)
    requires Inv(L, s) && s.phase.Running? && s.lh == [] && s.ops == seq(NPROC, _ => Idle)
    ensures Reaches(L, s, s') && Inv(L, s') && s' == s.(ops := Budget(0))
  {
    UnusedBounds(s.ops);
    hide Inv, Shape, Reaches;
    var s1 := BeginOne(L, s, 0);
    var s2 := BeginOne(L, s1, 1);
    s' := BeginOne(L, s2, 2);
    Trans(L, s, s1, s2);
    Trans(L, s, s2, s');
  }

  lemma EndOne(L: Layout, s: Sys, p: Pid) returns (s': Sys)
    requires Inv(L, s) && s.phase.Running? && OnlyHeld(s, {}) && p < 3 && s.ops[p].Active? && !s.ops[p].passed
    requires Outstanding(s.ops) == 3 - p && s.lh != []
    ensures Reaches(L, s, s') && Inv(L, s') && Outstanding(s'.ops) == 2 - p
    ensures s' == s.(ops := s.ops[p := Idle], phase := if p == 2 then Copying(0) else Running)
  {
    hide Reaches, WellFormed, BufsOk, DiskOk, OpsOk, Listing;
    UpdateCounts(s.ops, p, Idle);
    OpStepKeeps(L, s, EndOp(p));
    s' := Apply(L, s, EndOp(p));
    One(L, s, EndOp(p));
  }

  /** The three operations end, and the last one out begins the commit. */
  lemma EndThree(L: Layout, s: Sys, a: nat, b: nat, c: nat) returns (s': Sys)
    requires Inv(L, s) && s.phase.Running? && OnlyHeld(s, {}) && s.ops == Three(a, b, c) && s.lh != []
    ensures Reaches(L, s, s') && Inv(L, s')
    ensures s' == s.(ops := s'.ops, phase := Copying(0)) && OnlyHeld(s', {})
  {
    ThreeOut(a, b, c);
    hide Inv, Shape, Reaches, Outstanding;
    var s1 := EndOne(L, s, 0);
    var s2 := EndOne(L, s1, 1);
    s' := EndOne(L, s2, 2);
    Trans(L, s, s1, s2);
    Trans(L, s, s2, s');
  }

  lemma ThreeOut(a: nat, b: nat, c: nat)
    ensures Outstanding(Three(a, b, c)) == 3
  {
    var none := seq(NPROC, _ => Idle);
    UnusedBounds(none);
    UpdateCounts(none, 0, Active(a, false));
    UpdateCounts(none[0 := Active(a, false)], 1, Active(b, false));
    UpdateCounts(none[0 := Active(a, false)][1 := Active(b, false)], 2, Active(c, false));
  }

  // ---------------------------------------------------------------- log_writes

  lemma Check(L: Layout, s: Sys, p: Pid) returns (s': Sys)
    requires Inv(L, s) && p < NPROC && s.ops[p].Active? && !s.ops[p].passed && |s.lh| + 1 < L.nlog <= LOGSIZE
    ensures Reaches(L, s, s') && Inv(L, s') && s' == s.(ops := s.ops[p := s.ops[p].(passed := true)])
  {
    OpStepKeeps(L, s, LogCheck(p));
    s' := Apply(L, s, LogCheck(p));
    One(L, s, LogCheck(p));
  }

  /** A change to a held block of an operation. */
  lemma Change(L: Layout, s: Sys, p: Pid, n: nat, b: nat, data: Block) returns (s': Sys)
    requires Inv(L, s) && s.phase.Running? && p < NPROC && s.ops[p].Active? && L.Home(n) && Has(s, b, p, n)
    ensures Reaches(L, s, s') && Inv(L, s')
    ensures s' == SetBuf(s, b, s.cache.bufs[b].(data := data)).(modified := s.modified + {b})
  {
    hide Reaches, WellFormed, BufsOk, DiskOk, OpsOk, Listing;
    ModifyStepKeeps(L, s, p, b, data);
    s' := Apply(L, s, Modify(p, b, data));
    One(L, s, Modify(p, b, data));
  }

  lemma Append(L: Layout, s: Sys, p: Pid, n: nat, b: nat) returns (s': Sys)
    requires Inv(L, s) && p < NPROC && s.ops[p].Active? && s.ops[p].passed && s.ops[p].used < MAXOPBLOCKS
    requires L.Home(n) && Has(s, b, p, n) && n !in s.lh
    ensures Reaches(L, s, s') && Inv(L, s') && n < UINT_LIMIT && n < |s.latest|
    ensures s' == SetBuf(s, b, s.cache.bufs[b].(dirty := true))
                    .(lh := s.lh + [n], ops := s.ops[p := Active(s.ops[p].used + 1, false)],
                      modified := s.modified - {b}, latest := s.latest[n := s.cache.bufs[b].data])
  {
    hide WellFormed, BufsOk, DiskOk, OpsOk, Listing, Reaches;
    var e := LogAppend(p, b);
    AppendStepKeeps(L, s, p, b);
    s' := Apply(L, s, e);
    One(L, s, e);
  }

  ghost predicate Targets(L: Layout, hs: seq<nat>) {
    && (forall i :: 0 <= i < |hs| ==> L.Home(hs[i]))
    && (forall i, j :: 0 <= i < j < |hs| ==> hs[i] != hs[j])
  }

  /** The machine after three begin_ops and k blocks logged, no buffer held. */
  ghost predicate Filled(L: Layout, s: Sys, hs: seq<nat>, k: nat, disk: seq<Block>) {
    && Inv(L, s) && s.phase.Running? && OnlyHeld(s, {}) && s.committed == disk
    && k <= |hs| && s.lh == hs[..k] && s.ops == Budget(k)
  }

  /** One whole write of a block: bread, log_write, brelse. */
  lemma WriteOne(L: Layout, s: Sys, p: Pid, n: nat) returns (s': Sys)
    requires Inv(L, s) && s.phase.Running? && OnlyHeld(s, {}) && L.Home(n) && n !in s.lh
    requires p < NPROC && s.ops[p].Active? && !s.ops[p].passed && s.ops[p].used < MAXOPBLOCKS
    requires |s.lh| + 1 < L.nlog <= LOGSIZE
    ensures Reaches(L, s, s') && Inv(L, s') && OnlyHeld(s', {}) && s'.phase == s.phase && s'.committed == s.committed
    ensures n < UINT_LIMIT && s'.lh == s.lh + [n] && s'.ops == s.ops[p := Active(s.ops[p].used + 1, false)]
  {
    hide Reaches, WellFormed, BufsOk, DiskOk, OpsOk, Listing;
    var s1, b := Bread(L, s, p, n, {});
    var s2 := Check(L, s1, p);
    Trans(L, s, s1, s2);
    var s3 := Append(L, s2, p, n, b);
    Trans(L, s, s2, s3);
    s' := Brelse(L, s3, p, n, b, {});
    Trans(L, s, s3, s');
  }

  lemma AddOne(L: Layout, s: Sys, hs: seq<nat>, k: nat, disk: seq<Block>) returns (s': Sys)
    requires Targets(L, hs) && k + 2 < L.nlog <= LOGSIZE && k < |hs| && Filled(L, s, hs, k, disk)
    ensures Reaches(L, s, s') && Filled(L, s', hs, k + 1, disk)
  {
    hide Reaches, WellFormed, BufsOk, DiskOk, OpsOk, Listing;
    assert hs[k] !in hs[..k];
    s' := WriteOne(L, s, if k < 9 then 0 else if k < 18 then 1 else 2, hs[k]);
    assert hs[..k] + [hs[k]] == hs[..k + 1];
    assert s'.ops == Budget(k + 1);
  }

  lemma {:induction false} FillLog(L: Layout, s: Sys, hs: seq<nat>, k: nat, disk: seq<Block>) returns (s': Sys)
    requires Targets(L, hs) && k + 2 <= L.nlog <= LOGSIZE && k <= |hs| && Filled(L, s, hs, 0, disk)
    ensures Reaches(L, s, s') && Filled(L, s', hs, k, disk)
  {
    hide Filled, Targets, Reaches;
    if k == 0 {
      s' := s;
      assert Shape(L, s) by {
        FilledShape(L, s, hs, 0, disk);
      }
      Here(L, s);
    } else {
      var m := FillLog(L, s, hs, k - 1, disk);
      s' := AddOne(L, m, hs, k - 1, disk);
      Trans(L, s, m, s');
    }
  }

  lemma FilledShape(L: Layout, s: Sys, hs: seq<nat>, k: nat, disk: seq<Block>)
    requires Filled(L, s, hs, k, disk)
    ensures Shape(L, s)
  {
  }

  // ---------------------------------------------------------------- the race

  /** Two processes hold their blocks; the log has one free slot. */
  lemma TwoBreads(L: Layout, s: Sys, n0: nat, n1: nat) returns (s': Sys, b0: nat, b1: nat)
    requires Inv(L, s) && L.Home(n0) && L.Home(n1) && n0 != n1 && |s.lh| + 1 < NBUF && OnlyHeld(s, {})
    ensures Reaches(L, s, s') && Inv(L, s') && SameLog(s, s') && b0 != b1
    ensures Has(s', b0, 0, n0) && Has(s', b1, 1, n1) && OnlyHeld(s', {b0, b1})
  {
    hide Reaches, WellFormed, BufsOk, DiskOk, OpsOk, Listing;
    var m;
    m, b0 := Bread(L, s, 0, n0, {});
    assert {} + {b0} == {b0};
    s', b1 := Bread(L, m, 1, n1, {b0});
    assert {b0} + {b1} == {b0, b1};
    Trans(L, s, m, s');
  }

  /** Both processes pass log_write's check on the last free slot; both then append. */
  lemma Race(L: Layout, s: Sys, n0: nat, n1: nat, b0: nat, b1: nat) returns (s': Sys)
    requires Inv(L, s) && |s.lh| + 2 == L.nlog <= LOGSIZE
    requires s.ops[0].Active? && !s.ops[0].passed && s.ops[0].used < MAXOPBLOCKS
    requires s.ops[1].Active? && !s.ops[1].passed && s.ops[1].used < MAXOPBLOCKS
    requires L.Home(n0) && L.Home(n1) && n0 != n1 && n0 !in s.lh && n1 !in s.lh
    requires Has(s, b0, 0, n0) && Has(s, b1, 1, n1) && b0 != b1 && OnlyHeld(s, {b0, b1})
    ensures Reaches(L, s, s') && Inv(L, s') && n0 < UINT_LIMIT && n1 < UINT_LIMIT && n1 < |s'.latest|
    ensures s'.lh == s.lh + [n0, n1] && s'.phase == s.phase && s'.committed == s.committed
    ensures s'.ops == s.ops[0 := Active(s.ops[0].used + 1, false)][1 := Active(s.ops[1].used + 1, false)]
    ensures s'.latest[n1] == s.cache.bufs[b1].data && s'.modified == s.modified - {b0} - {b1}
    ensures Has(s', b0, 0, n0) && Has(s', b1, 1, n1) && OnlyHeld(s', {b0, b1})
  {
    hide Reaches, WellFormed, BufsOk, DiskOk, OpsOk, Listing;
    var s1 := Check(L, s, 0);
    var s2 := Check(L, s1, 1);
    Trans(L, s, s1, s2);
    var s3 := Append(L, s2, 0, n0, b0);
    Trans(L, s, s2, s3);
    s' := Append(L, s3, 1, n1, b1);
    Trans(L, s, s3, s');
    assert s.lh + [n0] + [n1] == s.lh + [n0, n1];
  }

  lemma ReleaseBoth(L: Layout, s: Sys, p0: Pid, p1: Pid, n0: nat, n1: nat, b0: nat, b1: nat) returns (s': Sys)
    requires Inv(L, s) && Has(s, b0, p0, n0) && Has(s, b1, p1, n1) && b0 != b1 && OnlyHeld(s, {b0, b1})
    requires b0 !in s.modified && b1 !in s.modified
    ensures Reaches(L, s, s') && Inv(L, s') && SameLog(s, s') && OnlyHeld(s', {})
  {
    hide Reaches, WellFormed, BufsOk, DiskOk, OpsOk, Listing;
    assert {b1} + {b0} == {b0, b1};
    var m := Brelse(L, s, p0, n0, b0, {b1});
    assert {} + {b1} == {b1};
    s' := Brelse(L, m, p1, n1, b1, {});
    Trans(L, s, m, s');
  }

  /** Process 1 changes its block, both processes log theirs at once, and both let go. */
  lemma Overfill(L: Layout, s: Sys, hs: seq<nat>, k: nat, disk: seq<Block>, data: Block) returns (s': Sys)
    requires Targets(L, hs) && k + 2 == |hs| == L.nlog <= LOGSIZE && Filled(L, s, hs, k, disk)
    ensures Reaches(L, s, s') && Inv(L, s') && s'.phase == Copying(0) && OnlyHeld(s', {})
    ensures s'.lh == hs && s'.committed == disk && hs[k + 1] < |s'.latest| && s'.latest[hs[k + 1]] == data
  {
    hide Reaches, WellFormed, BufsOk, DiskOk, OpsOk, Listing;
    assert hs[k] !in hs[..k] && hs[k + 1] !in hs[..k];
    var s1, b0, b1 := TwoBreads(L, s, hs[k], hs[k + 1]);
    var s2 := Change(L, s1, 1, hs[k + 1], b1, data);
    Trans(L, s, s1, s2);
    var s3 := Race(L, s2, hs[k], hs[k + 1], b0, b1);
    Trans(L, s, s2, s3);
    assert b0 !in s3.modified && b1 !in s3.modified;
    var s4 := ReleaseBoth(L, s3, 0, 1, hs[k], hs[k + 1], b0, b1);
    Trans(L, s, s3, s4);
    assert hs[..k] + [hs[k], hs[k + 1]] == hs;
    assert s4.ops == Three(s.ops[0].used + 1, s.ops[1].used + 1, s.ops[2].used);
    s' := EndThree(L, s4, s.ops[0].used + 1, s.ops[1].used + 1, s.ops[2].used);
    Trans(L, s, s4, s');
  }

  /** For every log area of 2 to LOGSIZE blocks and as many home blocks there is a run from mount,
      each operation within its budget and each log_write past its own check, to a commit of more
      blocks than the area has slots. */
  lemma LogCanOverflow(L: Layout, disk: seq<Block>, hs: seq<nat>, data: Block) returns (s': Sys)
    requires L.Valid() && Targets(L, hs) && |hs| == L.nlog <= LOGSIZE
    requires |disk| == L.size && HeadOk(disk[L.logstart]) && Head(disk[L.logstart]) == []
    ensures Reaches(L, Boot(disk), s') && Inv(L, s') && s'.phase == Copying(0) && OnlyHeld(s', {})
    ensures s'.lh == hs && s'.committed == disk && L.Home(hs[L.nlog - 1])
    ensures hs[L.nlog - 1] < |s'.latest| && s'.latest[hs[L.nlog - 1]] == data
  {
    hide Reaches, WellFormed, BufsOk, DiskOk, OpsOk, Listing;
    var s0 := Mount(L, disk);
    var s1 := BeginThree(L, s0);
    Trans(L, Boot(disk), s0, s1);
    assert hs[..0] == [];
    assert Filled(L, s1, hs, 0, disk);
    var s2 := FillLog(L, s1, hs, L.nlog - 2, disk);
    Trans(L, Boot(disk), s1, s2);
    s' := Overfill(L, s2, hs, L.nlog - 2, disk, data);
    Trans(L, Boot(disk), s2, s');
  }

  // ---------------------------------------------------------------- the commit that follows

  /** write_log has copied k of the blocks hs; the last one is to be `data`. */
  ghost predicate Copied(L: Layout, s: Sys, hs: seq<nat>, k: nat, disk: seq<Block>, data: Block) {
    && Inv(L, s) && s.phase == Copying(k) && OnlyHeld(s, {}) && s.lh == hs && |hs| == L.nlog < NBUF
    && s.committed == disk && hs[L.nlog - 1] < |s.latest| && s.latest[hs[L.nlog - 1]] == data
  }

  /** The two breads of one turn of write_log: the slot, then the block. */
  lemma SlotAndBlock(L: Layout, s: Sys, k: nat) returns (s': Sys, t: nat, f: nat)
    requires Inv(L, s) && s.phase == Copying(k) && OnlyHeld(s, {}) && k < |s.lh| < NBUF
    requires L.Slot(k) < L.size && L.Slot(k) != s.lh[k]
    ensures Reaches(L, s, s') && Inv(L, s') && SameLog(s, s') && OnlyHeld(s', {t, f}) && t != f
    ensures Has(s', t, 0, L.Slot(k)) && Has(s', f, 0, s.lh[k]) && L.Home(s.lh[k])
    ensures s'.cache.bufs[f].data == s.latest[s.lh[k]]
  {
    hide Reaches, WellFormed, BufOk, DiskOk, OpsOk;
    var n := s.lh[k];
    assert n in s.lh;
    var m;
    m, t := Bread(L, s, 0, L.Slot(k), {});
    assert {} + {t} == {t};
    assert Pinned(m, n);
    s', f := Bread(L, m, 0, n, {t});
    assert {t} + {f} == {t, f};
    Trans(L, s, m, s');
    WriteAheadReads(L, s', 0, f, n);
    CopyingQuiet(L, s');
  }

  lemma ListedHome(L: Layout, s: Sys, k: nat)
    requires Inv(L, s) && k < |s.lh|
    ensures L.Home(s.lh[k])
  {
    assert s.lh[k] in s.lh;
  }

  lemma CopySlot(L: Layout, s: Sys, k: nat, t: nat, f: nat) returns (s': Sys)
    requires Inv(L, s) && s.phase == Copying(k) && k < |s.lh| && k + 1 < L.nlog && t != f
    requires Has(s, t, 0, L.Slot(k)) && Has(s, f, 0, s.lh[k]) && OnlyHeld(s, {t, f})
    ensures Reaches(L, s, s') && Inv(L, s') && s'.phase == Copying(k + 1) && s'.lh == s.lh
    ensures s'.committed == s.committed && s'.latest == s.latest && t !in s'.modified && f !in s'.modified
    ensures Has(s', t, 0, L.Slot(k)) && Has(s', f, 0, s.lh[k]) && OnlyHeld(s', {t, f})
  {
    hide Reaches, WellFormed, BufsOk, DiskOk, OpsOk, Listing;
    s' := CopyStep(L, s, k, t, f);
    CopyingQuiet(L, s');
  }

  lemma CopyStep(L: Layout, s: Sys, k: nat, t: nat, f: nat) returns (s': Sys)
    requires Inv(L, s) && s.phase == Copying(k) && k < |s.lh| && k + 1 < L.nlog && t != f
    requires Has(s, t, 0, L.Slot(k)) && Has(s, f, 0, s.lh[k])
    ensures Reaches(L, s, s') && Inv(L, s') && L.Slot(k) < |s.disk|
    ensures s' == WriteBuf(s, t, s.cache.bufs[f].data).(phase := Copying(k + 1))
  {
    hide Reaches, WellFormed, BufsOk, DiskOk, OpsOk, Listing;
    var e := CopyToLog(0, t, f);
    assert L.Slot(k) < L.size;
    assert Enabled(L, s, e);
    CopyStepKeeps(L, s, 0, t, f);
    s' := Apply(L, s, e);
    One(L, s, e);
  }

  /** One turn of write_log whose slot lies in the area. */
  lemma CopyOne(L: Layout, s: Sys, hs: seq<nat>, k: nat, disk: seq<Block>, data: Block) returns (s': Sys)
    requires Copied(L, s, hs, k, disk, data) && k + 1 < L.nlog
    ensures Reaches(L, s, s') && Copied(L, s', hs, k + 1, disk, data)
  {
    hide Reaches, WellFormed, BufsOk, DiskOk, OpsOk, Listing;
    assert L.Home(hs[k]) by {
      ListedHome(L, s, k);
    }
    var s1, t, f := SlotAndBlock(L, s, k);
    var s2 := CopySlot(L, s1, k, t, f);
    Trans(L, s, s1, s2);
    s' := ReleaseBoth(L, s2, 0, 0, L.Slot(k), hs[k], t, f);
    Trans(L, s, s2, s');
  }

  lemma {:induction false} CopyMost(L: Layout, s: Sys, hs: seq<nat>, k: nat, disk: seq<Block>, data: Block)
    returns (s': Sys)
    requires Copied(L, s, hs, 0, disk, data) && k < L.nlog
    ensures Reaches(L, s, s') && Copied(L, s', hs, k, disk, data)
  {
    if k == 0 {
      s' := s;
      Here(L, s);
    } else {
      hide Copied, Reaches;
      var m := CopyMost(L, s, hs, k - 1, disk, data);
      s' := CopyOne(L, m, hs, k - 1, disk, data);
      Trans(L, s, m, s');
    }
  }

  /** The last turn: its slot is the block behind the area. */
  lemma CopyPast(L: Layout, s: Sys, hs: seq<nat>, disk: seq<Block>, data: Block) returns (s': Sys)
    requires L.Valid() && Copied(L, s, hs, L.nlog - 1, disk, data) && |disk| == L.size
    requires L.logstart + L.nlog < L.size && hs[L.nlog - 1] != L.logstart + L.nlog && data != disk[L.logstart + L.nlog]
    ensures Reaches(L, s, s') && !SafeToCrash(L, s')
  {
    hide Reaches, WellFormed, BufsOk, OpsOk, SlotsHold;
    assert hs[L.nlog - 1] in s.lh;
    var s1, t, f := SlotAndBlock(L, s, L.nlog - 1);
    var e := CopyToLog(0, t, f);
    s' := Apply(L, s1, e);
    RelabelKeeps(s1.cache, t, s'.cache.bufs[t]);
    One(L, s1, e);
    Trans(L, s, s1, s');
    assert s'.disk[L.logstart] == s1.disk[L.logstart];
    assert Recovered(L, s'.disk, L.logstart + L.nlog) == data;
  }

  // ---------------------------------------------------------------- the exact condition

  function OtherThan(b: Block): (c: Block)
    ensures c != b
  {
    if b == ZERO_BLOCK then
      assert seq(BSIZE, _ => 1)[0] != ZERO_BLOCK[0];
      seq(BSIZE, _ => 1)
    else ZERO_BLOCK
  }

  /** nlog home blocks, the last one not the block behind the area. */
  lemma SomeTargets(L: Layout) returns (hs: seq<nat>)
    requires L.Valid() && L.size >= 2 * L.nlog
    ensures Targets(L, hs) && |hs| == L.nlog && hs[L.nlog - 1] != L.logstart + L.nlog
  {
    hs := seq(L.nlog, i requires 0 <= i < L.nlog => if i < L.logstart then i else i + L.nlog);
    if hs[L.nlog - 1] == L.logstart + L.nlog {
      hs := hs[0 := hs[L.nlog - 1]][L.nlog - 1 := hs[0]];
    }
  }

  /** In any other area a run from mount reaches a state in which a crash loses committed contents. */
  lemma SmallLogUnsafe(L: Layout, disk: seq<Block>) returns (s': Sys)
    requires L.Valid() && !AreaSuffices(L)
    requires |disk| == L.size && HeadOk(disk[L.logstart]) && Head(disk[L.logstart]) == []
    ensures Reaches(L, Boot(disk), s') && !SafeToCrash(L, s')
  {
    hide Inv, Shape, Reaches, SafeToCrash, Targets;
    var hs := SomeTargets(L);
    var data := OtherThan(disk[L.logstart + L.nlog]);
    var s0 := LogCanOverflow(L, disk, hs, data);
    assert Copied(L, s0, hs, 0, disk, data);
    hide Copied;
    var s1 := CopyMost(L, s0, hs, L.nlog - 1, disk, data);
    Trans(L, Boot(disk), s0, s1);
    s' := CopyPast(L, s1, hs, disk, data);
    Trans(L, Boot(disk), s1, s');
  }

  ghost predicate EveryRunSafe(L: Layout, disk: seq<Block>) {
    forall steps, s :: IsRun(L, Boot(disk), steps, s) ==> SafeToCrash(L, s)
  }

  /** Crash safety, exactly: it holds of every run from mount if and only if the log area has LOGSIZE
      blocks, ends the disk, or has more blocks than the disk has home blocks. */
  lemma CrashSafeExactly(L: Layout, disk: seq<Block>)
    requires L.Valid() && |disk| == L.size && HeadOk(disk[L.logstart]) && Head(disk[L.logstart]) == []
    ensures EveryRunSafe(L, disk) <==> AreaSuffices(L)
  {
    hide IsRun, SafeToCrash, AreaSuffices;
    if AreaSuffices(L) {
      forall steps, s | IsRun(L, Boot(disk), steps, s) ensures SafeToCrash(L, s) {
        EveryRunIsCrashSafe(L, disk, steps, s);
      }
    } else {
      var s' := SmallLogUnsafe(L, disk);
      var steps :| IsRun(L, Boot(disk), steps, s');
    }
  }

  /** On the image that mkfs makes, a run lists LOGSIZE blocks; no bget of a log block succeeds any
      more, so the commit panics and has written nothing. */
  lemma FullLogJams(L: Layout, disk: seq<Block>) returns (s': Sys)
    requires L.Valid() && L.nlog == LOGSIZE && L.size >= 2 * L.nlog
    requires |disk| == L.size && HeadOk(disk[L.logstart]) && Head(disk[L.logstart]) == []
    ensures Reaches(L, Boot(disk), s') && Inv(L, s') && s'.phase == Copying(0) && |s'.lh| == LOGSIZE
    ensures forall n: nat, p :: !L.Home(n) ==> Get(s'.cache, n, p).None?
  {
    hide Reaches, BufsOk, DiskOk, OpsOk, Listing, Get;
    var hs := SomeTargets(L);
    s' := LogCanOverflow(L, disk, hs, ZERO_BLOCK);
    forall n: nat, p | !L.Home(n) ensures Get(s'.cache, n, p).None? {
      FullLogPanics(L, s', n, p);
    }
  }
}
