/** Runs of WriteAheadLog put together from the pieces that the code of log.c and bio.c makes: a bread is
    bget, the sleep lock and perhaps a disk read; a brelse is two steps; each bwrite of a commit or of a
    recovery is one. */
module LogRuns {
  import opened Blocks
  import opened BufferCache
  import opened WriteAheadLog
  import opened Options
  import opened Params

  lemma {:induction false} Then(L: Layout, s: Sys, a: seq<Step>, m: Sys, b: seq<Step>, e: Sys)
    requires IsRun(L, s, a, m) && IsRun(L, m, b, e)
    ensures IsRun(L, s, a + b, e)
    decreases |a|
  {
    hide Enabled, Apply, Shape;
    if a == [] {
      assert a + b == b;
    } else {
      Then(L, Apply(L, s, a[0]), a[1..], m, b, e);
      assert (a + b)[1..] == a[1..] + b;
    }
  }

  /** Some run leads from s to s'. */
  ghost predicate Reaches(L: Layout, s: Sys, s': Sys) {
    exists steps :: IsRun(L, s, steps, s')
  }

  lemma Trans(L: Layout, s: Sys, m: Sys, e: Sys)
    requires Reaches(L, s, m) && Reaches(L, m, e)
    ensures Reaches(L, s, e)
  {
    hide IsRun;
    var a :| IsRun(L, s, a, m);
    var b :| IsRun(L, m, b, e);
    Then(L, s, a, m, b, e);
  }

  lemma One(L: Layout, s: Sys, e: Step)
    requires Shape(L, s) && Enabled(L, s, e) && Shape(L, Apply(L, s, e))
    ensures Reaches(L, s, Apply(L, s, e))
  {
    assert [e][1..] == [];
    assert IsRun(L, Apply(L, s, e), [], Apply(L, s, e));
    assert IsRun(L, s, [e], Apply(L, s, e));
  }

  lemma Here(L: Layout, s: Sys)
    requires Shape(L, s)
    ensures Reaches(L, s, s)
  {
    assert IsRun(L, s, [], s);
  }

  /** Whatever a run reaches from a good state, on an area that suffices, is safe to crash. */
  lemma ReachesSafe(L: Layout, s: Sys, s': Sys)
    requires Inv(L, s) && AreaSuffices(L) && Reaches(L, s, s')
    ensures Inv(L, s') && SafeToCrash(L, s')
  {
    hide Inv, IsRun;
    var steps :| IsRun(L, s, steps, s');
    RunKeeps(L, s, steps, s');
    CrashSafe(L, s');
  }

  // ---------------------------------------------------------------- bread and brelse

  lemma LockKeeps(L: Layout, s: Sys, p: Pid, b: nat)
    requires Shape(L, s) && b < NBUF && p in s.cache.holders[b] && s.cache.bufs[b].owner.None?
    ensures var s' := SetBuf(s, b, s.cache.bufs[b].(owner := Some(p)));
            Shape(L, s') && Reaches(L, s, s')
  {
    hide WellFormed, Reaches;
    OwnerKeeps(s.cache, b, Some(p));
    One(L, s, Lock(p, b));
  }

  lemma FillRuns(L: Layout, s: Sys, p: Pid, b: nat)
    requires Shape(L, s) && b < NBUF && s.cache.bufs[b].owner == Some(p) && !s.cache.bufs[b].valid
    requires !s.cache.bufs[b].dirty && s.cache.bufs[b].dev == ROOTDEV && s.cache.bufs[b].blockno < L.size
    ensures var s' := SetBuf(s, b, s.cache.bufs[b].(data := s.disk[s.cache.bufs[b].blockno], valid := true));
            Shape(L, s') && Reaches(L, s, s')
  {
    hide WellFormed, Reaches;
    RelabelKeeps(s.cache, b, s.cache.bufs[b].(data := s.disk[s.cache.bufs[b].blockno], valid := true));
    One(L, s, Fill(p, b));
  }

  lemma BreadRuns(L: Layout, s: Sys, n: nat, p: Pid, r: Taken, c': Cache)
    requires Shape(L, s) && n < L.size && !s.phase.Running? && !r.OutOfRange?
    requires BreadCache(s.cache, s.disk, n, p, r, c')
    ensures Shape(L, s.(cache := c')) && Reaches(L, s, s.(cache := c'))
  {
    hide WellFormed, Reaches, Get;
    RingOf(s.cache);
    GetKeeps(s.cache, n, p);
    match Get(s.cache, n, p)
    case None => Here(L, s);
    case Some((c1, b)) =>
      var s1 := s.(cache := c1);
      One(L, s, GetBuf(p, n));
      if r.Locked? {
        LockKeeps(L, s1, p, b);
        var s2 := SetBuf(s1, b, c1.bufs[b].(owner := Some(p)));
        Trans(L, s, s1, s2);
        if !c1.bufs[b].valid {
          FillRuns(L, s2, p, b);
          assert s2.cache.bufs[b := c'.bufs[b]] == c1.bufs[b := c'.bufs[b]];
          Trans(L, s, s2, s.(cache := c'));
        }
      }
  }

  lemma ReleaseRuns(L: Layout, s: Sys, b: nat, p: Pid)
    requires Shape(L, s) && b < NBUF && s.cache.bufs[b].owner == Some(p) && b !in s.modified
    ensures var s' := s.(cache := Released(s.cache, b, p));
            Shape(L, s') && Reaches(L, s, s')
  {
    hide WellFormed, Reaches, Put;
    HeldOnRing(s.cache, b, p);
    OwnerKeeps(s.cache, b, None);
    var s1 := SetBuf(s, b, s.cache.bufs[b].(owner := None));
    One(L, s, Unlock(p, b));
    PutKeeps(s1.cache, b, p);
    One(L, s1, PutBuf(p, b));
    Trans(L, s, s1, s.(cache := Released(s.cache, b, p)));
  }

  // ---------------------------------------------------------------- the bwrites

  lemma WriteShape(L: Layout, s: Sys, b: nat, data: Block)
    requires Shape(L, s) && b < NBUF && s.cache.bufs[b].blockno < L.size
    ensures Shape(L, WriteBuf(s, b, data))
  {
    RelabelKeeps(s.cache, b, s.cache.bufs[b].(data := data, valid := true, dirty := false));
  }

  /** What one turn of write_log or of install_trans writes: block `from` to block `to`. */
  ghost predicate TurnAt(L: Layout, s: Sys, to: nat, from: nat)
    requires L.Valid()
  {
    match s.phase
    case Copying(k) => k < |s.lh| && k + 1 < L.nlog && to == L.Slot(k) && from == s.lh[k]
    case Installing(k, _) => k < |s.lh| && k + 1 < L.nlog && s.lh[k] < L.size && to == s.lh[k] && from == L.Slot(k)
    case _ => false
  }

  ghost function Turned(phase: Phase): Phase {
    match phase
    case Copying(k) => Copying(k + 1)
    case Installing(k, boot) => Installing(k + 1, boot)
    case _ => phase
  }

  lemma TurnRuns(L: Layout, s: Sys, p: Pid, x: nat, y: nat)
    requires Shape(L, s) && x < NBUF && y < NBUF && x != y
    requires TurnAt(L, s, s.cache.bufs[x].blockno, s.cache.bufs[y].blockno)
    requires HeldBy(s.cache, x, p, s.cache.bufs[x].blockno) && HeldBy(s.cache, y, p, s.cache.bufs[y].blockno)
    ensures s.cache.bufs[x].blockno < L.size
    ensures var s' := WriteBuf(s, x, s.cache.bufs[y].data).(phase := Turned(s.phase));
            Shape(L, s') && Reaches(L, s, s')
  {
    hide WellFormed, Reaches;
    WriteShape(L, s, x, s.cache.bufs[y].data);
    One(L, s, if s.phase.Copying? then CopyToLog(p, x, y) else Install(p, y, x));
  }

  lemma HeadRuns(L: Layout, s: Sys, p: Pid, b: nat)
    requires Shape(L, s) && b < NBUF && HeldBy(s.cache, b, p, L.logstart)
    requires s.phase == Copying(|s.lh|)
    ensures L.logstart < L.size
    ensures var s' := WriteBuf(s, b, SetHead(s.cache.bufs[b].data, s.lh))
                        .(phase := Installing(0, false), committed := s.latest);
            Shape(L, s') && Reaches(L, s, s')
  {
    hide WellFormed, Reaches, SetHead;
    WriteShape(L, s, b, SetHead(s.cache.bufs[b].data, s.lh));
    One(L, s, WriteHead(p, b));
  }

  lemma ClearRuns(L: Layout, s: Sys, p: Pid, b: nat)
    requires Shape(L, s) && b < NBUF && HeldBy(s.cache, b, p, L.logstart)
    requires s.phase.Installing? && s.phase.done == |s.lh|
    ensures L.logstart < L.size
    ensures var s' := WriteBuf(s, b, SetHead(s.cache.bufs[b].data, [])).(phase := Running, lh := []);
            Shape(L, s') && Reaches(L, s, s')
  {
    hide WellFormed, Reaches, SetHead;
    WriteShape(L, s, b, SetHead(s.cache.bufs[b].data, []));
    One(L, s, ClearHead(p, b));
  }

  lemma ReadRuns(L: Layout, s: Sys, p: Pid, b: nat)
    requires Shape(L, s) && b < NBUF && HeldBy(s.cache, b, p, L.logstart) && s.phase.Booting?
    requires HeadOk(s.cache.bufs[b].data)
    ensures var s' := s.(lh := Head(s.cache.bufs[b].data), phase := Installing(0, true));
            Shape(L, s') && Reaches(L, s, s')
  {
    hide WellFormed, Reaches;
    One(L, s, ReadHead(p, b));
  }

  /** No buffer is changed and not yet logged. */
  ghost predicate Quiet(s: Sys) {
    forall b: nat :: b < NBUF ==> b !in s.modified
  }

  /** memmove and bwrite in one turn, then both brelses. */
  lemma TurnEnds(L: Layout, s: Sys, p: Pid, x: nat, y: nat, c1: Cache, c2: Cache, c3: Cache)
    requires Shape(L, s) && Quiet(s) && x < NBUF && y < NBUF && x != y
    requires TurnAt(L, s, s.cache.bufs[x].blockno, s.cache.bufs[y].blockno)
    requires HeldBy(s.cache, x, p, s.cache.bufs[x].blockno) && HeldBy(s.cache, y, p, s.cache.bufs[y].blockno)
    requires c1 == s.cache.(bufs := s.cache.bufs[x := s.cache.bufs[x].(data := s.cache.bufs[y].data, valid := true,
                                                                        dirty := false)])
    requires WellFormed(c1) && c2 == Released(c1, y, p)
    requires WellFormed(c2) && |c2.bufs| == NBUF && c2.bufs[x].owner == Some(p) && c3 == Released(c2, x, p)
    ensures s.cache.bufs[x].blockno < L.size
    ensures var s' := s.(cache := c3, disk := s.disk[s.cache.bufs[x].blockno := s.cache.bufs[y].data],
                         phase := Turned(s.phase));
            Shape(L, s') && Reaches(L, s, s')
  {
    hide WellFormed, Reaches, Released, Turned;
    TurnRuns(L, s, p, x, y);
    var s1 := WriteBuf(s, x, s.cache.bufs[y].data).(phase := Turned(s.phase));
    assert s1.cache == c1;
    ReleaseRuns(L, s1, y, p);
    Trans(L, s, s1, s1.(cache := c2));
    ReleaseRuns(L, s1.(cache := c2), x, p);
    Trans(L, s, s1.(cache := c2), s1.(cache := c3));
  }

  /** Where write_head leaves the machine: at the commit point, or with the log cleared. */
  ghost function Headed(s: Sys): Sys {
    if s.phase.Copying? then s.(phase := Installing(0, false), committed := s.latest)
    else s.(phase := Running, lh := [])
  }

  /** write_head is due, of list lh. */
  ghost predicate HeadDue(s: Sys, lh: seq<Word32>) {
    match s.phase
    case Copying(k) => k == |s.lh| && lh == s.lh
    case Installing(k, _) => k == |s.lh| && lh == []
    case _ => false
  }

  /** The bwrite of write_head, then its brelse. */
  lemma HeadEnds(L: Layout, s: Sys, p: Pid, b: nat, lh: seq<Word32>, c1: Cache, c2: Cache)
    requires Shape(L, s) && Quiet(s) && b < NBUF && HeldBy(s.cache, b, p, L.logstart) && HeadDue(s, lh)
    requires |lh| <= LOGSIZE
    requires c1 == s.cache.(bufs := s.cache.bufs[b := s.cache.bufs[b].(data := SetHead(s.cache.bufs[b].data, lh),
                                                                        valid := true, dirty := false)])
    requires WellFormed(c1) && c2 == Released(c1, b, p)
    ensures L.logstart < L.size
    ensures var s' := Headed(s).(cache := c2, disk := s.disk[L.logstart := SetHead(s.cache.bufs[b].data, lh)]);
            Shape(L, s') && Reaches(L, s, s')
  {
    hide WellFormed, Reaches, Released, SetHead;
    if s.phase.Copying? {
      HeadRuns(L, s, p, b);
    } else {
      ClearRuns(L, s, p, b);
    }
    var s1 := Headed(s).(cache := c1, disk := s.disk[L.logstart := SetHead(s.cache.bufs[b].data, lh)]);
    ReleaseRuns(L, s1, b, p);
    Trans(L, s, s1, s1.(cache := c2));
  }

  /** read_head, then its brelse. */
  lemma ReadEnds(L: Layout, s: Sys, p: Pid, b: nat, c: Cache)
    requires Shape(L, s) && Quiet(s) && b < NBUF && HeldBy(s.cache, b, p, L.logstart) && s.phase.Booting?
    requires HeadOk(s.cache.bufs[b].data) && c == Released(s.cache, b, p)
    ensures var s' := s.(lh := Head(s.cache.bufs[b].data), phase := Installing(0, true), cache := c);
            Shape(L, s') && Reaches(L, s, s')
  {
    hide WellFormed, Reaches, Released;
    ReadRuns(L, s, p, b);
    var s1 := s.(lh := Head(s.cache.bufs[b].data), phase := Installing(0, true));
    ReleaseRuns(L, s1, b, p);
    Trans(L, s, s1, s1.(cache := c));
  }

  // ---------------------------------------------------------------- operations

  lemma BeginRuns(L: Layout, s: Sys, p: Pid)
    requires Shape(L, s) && Enabled(L, s, BeginOp(p))
    ensures var s' := s.(ops := s.ops[p := Active(0, false)]);
            Shape(L, s') && Reaches(L, s, s') && Outstanding(s'.ops) == Outstanding(s.ops) + 1
  {
    hide WellFormed, Reaches, Outstanding;
    One(L, s, BeginOp(p));
    Counted(s.ops, p, Active(0, false));
  }

  lemma Counted(ops: seq<Op>, p: nat, x: Op)
    requires p < |ops|
    ensures Outstanding(ops[p := x]) ==
              Outstanding(ops) - (if ops[p].Active? then 1 else 0) + (if x.Active? then 1 else 0)
  {
    UpdateCounts(ops, p, x);
    assert [ops[p]][1..] == [] && [x][1..] == [];
  }

  lemma EndRuns(L: Layout, s: Sys, p: Pid)
    requires Shape(L, s) && Enabled(L, s, EndOp(p))
    ensures var ops := s.ops[p := Idle];
            var s' := s.(ops := ops, phase := if Outstanding(s.ops) == 1 && s.lh != [] then Copying(0) else Running);
            Shape(L, s') && Reaches(L, s, s') && Outstanding(ops) == Outstanding(s.ops) - 1
  {
    hide WellFormed, Reaches, Outstanding;
    One(L, s, EndOp(p));
    Counted(s.ops, p, Idle);
  }

  /** Process p, in an operation with room left in its budget, holds a home block in buffer b. */
  ghost predicate MayLog(L: Layout, s: Sys, p: Pid, b: nat)
    requires Shape(L, s)
  {
    && p < NPROC && s.ops[p].Active? && !s.ops[p].passed && b < NBUF && L.Home(s.cache.bufs[b].blockno)
    && HeldBy(s.cache, b, p, s.cache.bufs[b].blockno)
    && (s.cache.bufs[b].blockno in s.lh || s.ops[p].used < MAXOPBLOCKS)
  }

  /** Where log_write leaves the machine. */
  ghost function AfterLog(s: Sys, p: Pid, b: nat): Sys
    requires b < |s.cache.bufs| && p < |s.ops| && s.ops[p].Active?
    requires s.cache.bufs[b].blockno < |s.latest| && s.cache.bufs[b].blockno < UINT_LIMIT
  {
    var n := s.cache.bufs[b].blockno;
    s.(cache := s.cache.(bufs := s.cache.bufs[b := s.cache.bufs[b].(dirty := true)]),
       lh := if n in s.lh then s.lh else s.lh + [n],
       ops := s.ops[p := Active(s.ops[p].used + if n in s.lh then 0 else 1, false)],
       modified := s.modified - {b}, latest := s.latest[n := s.cache.bufs[b].data])
  }

  lemma LogWriteRuns(L: Layout, s: Sys, p: Pid, b: nat)
    requires Shape(L, s) && MayLog(L, s, p, b) && |s.lh| < LOGSIZE && |s.lh| < L.nlog - 1
    ensures s.cache.bufs[b].blockno < |s.latest| && s.cache.bufs[b].blockno < UINT_LIMIT
    ensures Shape(L, AfterLog(s, p, b)) && Reaches(L, s, AfterLog(s, p, b))
    ensures Outstanding(AfterLog(s, p, b).ops) == Outstanding(s.ops)
  {
    hide WellFormed, Reaches, Outstanding;
    var s1 := s.(ops := s.ops[p := s.ops[p].(passed := true)]);
    One(L, s, LogCheck(p));
    RelabelKeeps(s.cache, b, s.cache.bufs[b].(dirty := true));
    var s2 := AfterLog(s, p, b);
    assert s1.ops[p := s2.ops[p]] == s2.ops;
    One(L, s1, LogAppend(p, b));
    Trans(L, s, s1, s2);
    Counted(s.ops, p, s2.ops[p]);
  }
}
