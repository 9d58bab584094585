/** The process table (xv6-public/proc.c) as steps at the granularity of ptable.lock: fork with the
    two writes it makes without the lock, exit, wait, sleep, wakeup, kill and the scheduler. History
    records which status every process exited with and what wait returned. */
module Proc {
  import opened Options
  import opened Params

  datatype State = Unused | Embryo | Sleeping | Runnable | Running | Zombie

  /** Nothing, a process (the channel of its wait), or anything else. */
  datatype Chan = NoChan | OnProc(p: nat) | OnOther(n: nat)

  /** Where a process is in the kernel: in fork with a slot taken, in fork with the child's parent
      set, in exit before the lock, or elsewhere. */
  datatype Place = Elsewhere | Forking(np: nat) | Forked(np: nat) | Exiting

  datatype Proc = Proc(state: State, pid: nat, parent: Option<nat>, chan: Chan, killed: bool, status: int, at: Place)

  datatype Reap = Reap(pid: nat, status: int)

  datatype Table = Table(procs: seq<Proc>, nextpid: nat, exits: map<nat, int>, reaps: seq<Reap>)

  predicate Live(p: Proc) {
    p.state.Sleeping? || p.state.Runnable? || p.state.Running?
  }

  // ---------------------------------------------------------------- what the code computes

  function Woken(p: Proc, chan: Chan): Proc {
    if p.state.Sleeping? && p.chan == chan then p.(state := Runnable) else p
  }

  /** wakeup1. */
  function WakeAll(procs: seq<Proc>, chan: Chan): (r: seq<Proc>)
    ensures |r| == |procs| && forall i :: 0 <= i < |procs| ==> r[i] == Woken(procs[i], chan)
  {
    seq(|procs|, i requires 0 <= i < |procs| => Woken(procs[i], chan))
  }

  function ChanOf(parent: Option<nat>): Chan {
    match parent
    case None => NoChan
    case Some(p) => OnProc(p)
  }

  function Adopted(q: Proc, p: nat, init: nat): Proc {
    if q.parent == Some(p) then q.(parent := Some(init)) else q
  }

  predicate ZombieChild(procs: seq<Proc>, p: nat, n: nat)
    requires n <= |procs|
  {
    exists i :: 0 <= i < n && procs[i].parent == Some(p) && procs[i].state.Zombie?
  }

  /** exit's pass over the first n slots: children of p go to init, which wakes if one is a zombie. */
  function Adopt(procs: seq<Proc>, p: nat, init: nat, n: nat): (r: seq<Proc>)
    requires n <= |procs|
    ensures |r| == |procs|
  {
    var a := seq(|procs|, i requires 0 <= i < |procs| => if i < n then Adopted(procs[i], p, init) else procs[i]);
    if ZombieChild(procs, p, n) then WakeAll(a, OnProc(init)) else a
  }

  /** The first zombie child of p from slot i on. */
  function FirstZombie(procs: seq<Proc>, p: nat, i: nat): (r: Option<nat>)
    requires i <= |procs|
    ensures r.Some? ==> i <= r.value < |procs| && procs[r.value].parent == Some(p) && procs[r.value].state.Zombie?
    ensures forall j :: i <= j < (if r.Some? then r.value else |procs|) ==>
              !(procs[j].parent == Some(p) && procs[j].state.Zombie?)
    decreases |procs| - i
  {
    if i == |procs| then None
    else if procs[i].parent == Some(p) && procs[i].state.Zombie? then Some(i)
    else FirstZombie(procs, p, i + 1)
  }

  predicate HasChild(procs: seq<Proc>, p: nat, n: nat)
    requires n <= |procs|
  {
    exists i :: 0 <= i < n && procs[i].parent == Some(p)
  }

  function FirstUnused(procs: seq<Proc>, i: nat): (r: Option<nat>)
    requires i <= |procs|
    ensures r.Some? ==> i <= r.value < |procs| && procs[r.value].state.Unused?
    ensures forall j :: i <= j < (if r.Some? then r.value else |procs|) ==> !procs[j].state.Unused?
    decreases |procs| - i
  {
    if i == |procs| then None else if procs[i].state.Unused? then Some(i) else FirstUnused(procs, i + 1)
  }

  function FirstPid(procs: seq<Proc>, pid: nat, i: nat): (r: Option<nat>)
    requires i <= |procs|
    ensures r.Some? ==> i <= r.value < |procs| && procs[r.value].pid == pid
    ensures forall j :: i <= j < (if r.Some? then r.value else |procs|) ==> procs[j].pid != pid
    decreases |procs| - i
  {
    if i == |procs| then None else if procs[i].pid == pid then Some(i) else FirstPid(procs, pid, i + 1)
  }

  function Killed(p: Proc): Proc {
    p.(killed := true, state := if p.state.Sleeping? then Runnable else p.state)
  }

  /** The slot after its zombie is returned by wait. */
  function Reaped(p: Proc): Proc {
    p.(state := Unused, pid := 0, parent := None, killed := false)
  }

  // ---------------------------------------------------------------- steps

  /** The slot of the first process, which never exits. */
  const INIT := 0

  datatype Step =
    | ForkAlloc(p: nat)
    | ForkFail(p: nat)
    | ForkParent(p: nat)
    | ForkDone(p: nat)
    | ExitStart(p: nat, status: int)
    | ExitFinish(p: nat)
    | Wait(p: nat)
    | Yield(p: nat)
    | SleepOn(p: nat, n: nat)
    | Schedule(p: nat)
    | Wakeup(n: nat)
    | Kill(pid: nat)

  predicate Acting(t: Table, p: nat) {
    p < |t.procs| && t.procs[p].state.Running?
  }

  predicate Enabled(t: Table, a: Step) {
    match a
    case ForkAlloc(p) => Acting(t, p) && t.procs[p].at.Elsewhere?
    case ForkFail(p) => Acting(t, p) && t.procs[p].at.Forking? && t.procs[p].at.np < |t.procs|
    case ForkParent(p) => Acting(t, p) && t.procs[p].at.Forking? && t.procs[p].at.np < |t.procs|
    case ForkDone(p) => Acting(t, p) && t.procs[p].at.Forked? && t.procs[p].at.np < |t.procs|
    case ExitStart(p, _) => Acting(t, p) && t.procs[p].at.Elsewhere? && p != INIT
    case ExitFinish(p) => Acting(t, p) && t.procs[p].at.Exiting?
    case Wait(p) => Acting(t, p) && t.procs[p].at.Elsewhere?
    case Yield(p) => Acting(t, p)
    case SleepOn(p, _) => Acting(t, p)
    case Schedule(p) => p < |t.procs| && t.procs[p].state.Runnable?
    case Wakeup(_) => true
    case Kill(_) => true
  }

  /** One slot changes. */
  function Put(t: Table, p: nat, q: Proc): Table
    requires p < |t.procs|
  {
    t.(procs := t.procs[p := q])
  }

  /** wait with the lock held: returns a zombie child, fails, or sleeps. */
  function AfterWait(t: Table, p: nat): Table
    requires p < |t.procs|
  {
    match FirstZombie(t.procs, p, 0)
    case Some(z) =>
      Put(t, z, Reaped(t.procs[z])).(reaps := t.reaps + [Reap(t.procs[z].pid, t.procs[z].status)])
    case None =>
      if !HasChild(t.procs, p, |t.procs|) || t.procs[p].killed then t
      else Put(t, p, t.procs[p].(state := Sleeping, chan := OnProc(p)))
  }

  /** exit with the lock held. */
  function AfterExit(procs: seq<Proc>, p: nat): (r: seq<Proc>)
    requires p < |procs|
    ensures |r| == |procs|
  {
    var a := Adopt(WakeAll(procs, ChanOf(procs[p].parent)), p, INIT, |procs|);
    a[p := a[p].(state := Zombie, at := Elsewhere)]
  }

  function Apply(t: Table, a: Step): Table
    requires Enabled(t, a)
  {
    match a
    case ForkAlloc(p) =>
      (match FirstUnused(t.procs, 0)
       case None => t
       case Some(np) =>
         Put(Put(t, np, t.procs[np].(state := Embryo, pid := t.nextpid)), p,
             t.procs[p].(at := Forking(np))).(nextpid := t.nextpid + 1))
    case ForkFail(p) =>
      var np := t.procs[p].at.np;
      Put(Put(t, np, t.procs[np].(state := Unused)), p, t.procs[p].(at := Elsewhere))
    case ForkParent(p) =>
      var np := t.procs[p].at.np;
      Put(Put(t, np, t.procs[np].(parent := Some(p))), p, t.procs[p].(at := Forked(np)))
    case ForkDone(p) =>
      var np := t.procs[p].at.np;
      Put(Put(t, np, t.procs[np].(state := Runnable)), p, t.procs[p].(at := Elsewhere))
    case ExitStart(p, status) =>
      Put(t, p, t.procs[p].(status := status, at := Exiting)).(exits := t.exits[t.procs[p].pid := status])
    case ExitFinish(p) => t.(procs := AfterExit(t.procs, p))
    case Wait(p) => AfterWait(t, p)
    case Yield(p) => Put(t, p, t.procs[p].(state := Runnable))
    case SleepOn(p, n) => Put(t, p, t.procs[p].(state := Sleeping, chan := OnOther(n)))
    case Schedule(p) => Put(t, p, t.procs[p].(state := Running, chan := NoChan))
    case Wakeup(n) => t.(procs := WakeAll(t.procs, OnOther(n)))
    case Kill(pid) =>
      (match FirstPid(t.procs, pid, 0)
       case None => t
       case Some(i) => Put(t, i, Killed(t.procs[i])))
  }

  // ---------------------------------------------------------------- the invariant

  /** The family: a parent is a live process, and the child that a fork is making is its own. */
  ghost predicate FamilyOk(procs: seq<Proc>, i: nat)
    requires i < |procs|
  {
    var q := procs[i];
    && (q.state.Unused? || i == INIT ==> q.parent == None) && q.parent != Some(i)
    && (q.parent.Some? ==> q.parent.value < |procs| && Live(procs[q.parent.value]))
    && (!Live(q) ==> q.at.Elsewhere?)
    && (q.at.Forking? ==> q.at.np < |procs| && procs[q.at.np].state.Embryo? && procs[q.at.np].parent == None)
    && (q.at.Forked? ==> q.at.np < |procs| && procs[q.at.np].state.Embryo? && procs[q.at.np].parent == Some(i))
    && (q.state.Sleeping? && q.chan.OnProc? ==> q.chan.p == i) && (q.state.Running? ==> q.chan.NoChan?)
  }

  function Making(q: Proc): Option<nat> {
    if q.at.Forking? || q.at.Forked? then Some(q.at.np) else None
  }

  /** No two forks make the same child, and nobody sleeps in wait with a zombie child. */
  ghost predicate PairOk(procs: seq<Proc>, i: nat, j: nat)
    requires i < |procs| && j < |procs|
  {
    && (i != j && Making(procs[i]).Some? ==> Making(procs[i]) != Making(procs[j]))
    && (procs[i].state.Sleeping? && procs[i].chan == OnProc(i) && procs[j].parent == Some(i) ==>
          !procs[j].state.Zombie?)
  }

  ghost predicate FamiliesOk(procs: seq<Proc>) {
    forall i: nat :: i < |procs| ==> FamilyOk(procs, i)
  }

  ghost predicate PairsOk(procs: seq<Proc>) {
    forall i: nat, j: nat :: i < |procs| && j < |procs| ==> PairOk(procs, i, j)
  }

  /** A process that has called exit is on record with its status, and no other is. */
  ghost predicate RecordOk(t: Table, i: nat)
    requires i < |t.procs|
  {
    var q := t.procs[i];
    && q.pid < t.nextpid
    && (q.state.Zombie? || q.at.Exiting? ==> q.pid in t.exits && t.exits[q.pid] == q.status)
    && (!q.state.Unused? && !q.state.Zombie? && !q.at.Exiting? ==> q.pid !in t.exits)
    && (!q.state.Unused? ==> q.pid > 0) && NotReaped(t.reaps, q.pid)
  }

  ghost predicate NotReaped(reaps: seq<Reap>, pid: nat) {
    forall k :: 0 <= k < |reaps| ==> reaps[k].pid != pid
  }

  /** Also for the pid that a failed fork leaves in a free slot. */
  ghost predicate PidsDiffer(procs: seq<Proc>) {
    forall i: nat, j: nat :: i < j < |procs| && procs[i].pid > 0 && procs[j].pid > 0 ==> procs[i].pid != procs[j].pid
  }

  /** What wait has returned: every child once, with the status it passed to exit. */
  ghost predicate ReapsOk(t: Table) {
    && (forall k, l :: 0 <= k < l < |t.reaps| ==> t.reaps[k].pid != t.reaps[l].pid)
    && (forall k :: 0 <= k < |t.reaps| ==> t.reaps[k].pid in t.exits && t.exits[t.reaps[k].pid] == t.reaps[k].status)
    && (forall pid :: pid in t.exits ==> 0 < pid < t.nextpid)
  }

  ghost predicate HistoryOk(t: Table) {
    && (forall i: nat :: i < |t.procs| ==> RecordOk(t, i))
    && PidsDiffer(t.procs) && ReapsOk(t)
  }

  ghost predicate Inv(t: Table) {
    && |t.procs| == NPROC
    && Live(t.procs[INIT]) && !t.procs[INIT].at.Exiting?
    && FamiliesOk(t.procs) && PairsOk(t.procs) && HistoryOk(t)
  }

  // ---------------------------------------------------------------- every step keeps it

  /** A change of state between the live ones that puts nobody to sleep in wait. */
  ghost predicate Mild(q: Proc, q': Proc) {
    && q'.parent == q.parent && q'.pid == q.pid && q'.status == q.status && q'.at == q.at
    && Live(q') == Live(q) && (!Live(q) ==> q'.state == q.state)
    && (q'.state.Sleeping? && q'.chan.OnProc? ==> q.state.Sleeping? && q'.chan == q.chan)
    && (q'.state.Running? ==> q'.chan.NoChan?)
  }

  ghost predicate AllMild(procs: seq<Proc>, procs': seq<Proc>) {
    |procs'| == |procs| && forall i: nat :: i < |procs| ==> Mild(procs[i], procs'[i])
  }

  lemma MildFamilies(procs: seq<Proc>, procs': seq<Proc>)
    requires FamiliesOk(procs) && PairsOk(procs) && AllMild(procs, procs')
    ensures FamiliesOk(procs') && PairsOk(procs')
  {
    forall i: nat | i < |procs'| ensures FamilyOk(procs', i) {
      assert FamilyOk(procs, i);
    }
    forall i: nat, j: nat | i < |procs'| && j < |procs'| ensures PairOk(procs', i, j) {
      assert PairOk(procs, i, j);
    }
  }

  lemma MildHistory(t: Table, procs': seq<Proc>)
    requires HistoryOk(t) && AllMild(t.procs, procs')
    ensures HistoryOk(t.(procs := procs'))
  {
    var t' := t.(procs := procs');
    forall i: nat | i < |procs'| ensures RecordOk(t', i) {
      assert RecordOk(t, i);
    }
  }

  lemma MildKeeps(t: Table, procs': seq<Proc>)
    requires Inv(t) && AllMild(t.procs, procs')
    ensures Inv(t.(procs := procs'))
  {
    MildFamilies(t.procs, procs');
    MildHistory(t, procs');
    hide FamiliesOk, PairsOk, HistoryOk;
  }

  /** yield, sleep on anything but wait, the scheduler, wakeup and kill. */
  lemma QuietKeeps(t: Table, a: Step)
    requires Inv(t) && Enabled(t, a) && (a.Yield? || a.SleepOn? || a.Schedule? || a.Wakeup? || a.Kill?)
    ensures Inv(Apply(t, a))
  {
    forall i: nat | i < NPROC ensures Mild(t.procs[i], Apply(t, a).procs[i]) {
      FamilyAt(t, i);
    }
    MildKeeps(t, Apply(t, a).procs);
  }

  /** Only slot np and where the process in slot p is have changed; np is in no one else's hands. */
  ghost predicate ForkStep(procs: seq<Proc>, procs': seq<Proc>, p: nat, np: nat) {
    && |procs'| == |procs| && p < |procs| && np < |procs| && p != np
    && (forall i: nat :: i < |procs| && i != p && i != np ==> procs'[i] == procs[i])
    && procs'[p] == procs[p].(at := procs'[p].at) && !procs'[p].at.Exiting? && !procs[p].at.Exiting?
    && Live(procs[p]) && !Live(procs[np]) && !procs[np].state.Zombie? && !procs'[np].state.Zombie?
    && procs'[np].at == procs[np].at && procs'[np].chan == procs[np].chan && !procs'[np].state.Sleeping?
    && (Making(procs'[p]).Some? ==> Making(procs'[p]) == Some(np))
    && (forall i: nat :: i < |procs| && i != p ==> Making(procs[i]) != Some(np))
  }

  lemma ForkPairs(procs: seq<Proc>, procs': seq<Proc>, p: nat, np: nat)
    requires ForkStep(procs, procs', p, np) && PairsOk(procs) && FamilyOk(procs, np)
    requires (procs'[np].parent == procs[np].parent || procs'[np].parent == Some(p))
    requires procs[p].state.Running?
    ensures PairsOk(procs')
  {
    forall i: nat, j: nat | i < |procs'| && j < |procs'| ensures PairOk(procs', i, j) {
      assert PairOk(procs, i, j);
    }
  }

  lemma ForkFamilies(procs: seq<Proc>, procs': seq<Proc>, p: nat, np: nat)
    requires ForkStep(procs, procs', p, np) && FamiliesOk(procs) && FamilyOk(procs', p) && FamilyOk(procs', np)
    ensures FamiliesOk(procs')
  {
    forall i: nat | i < |procs'| && i != p && i != np ensures FamilyOk(procs', i) {
      assert FamilyOk(procs, i) && FamilyOk(procs, p);
    }
  }

  /** The slot that a fork takes is on nobody's mind. */
  lemma SlotFree(t: Table, p: nat, np: nat)
    requires Inv(t) && p < NPROC && np < NPROC && t.procs[p].state.Running? && !t.procs[p].at.Exiting?
    requires t.procs[np].state.Unused? || Making(t.procs[p]) == Some(np)
    ensures p != np && !Live(t.procs[np]) && !t.procs[np].state.Zombie?
    ensures forall i: nat :: i < NPROC && i != p ==> Making(t.procs[i]) != Some(np)
  {
    assert FamilyOk(t.procs, p);
    forall i: nat | i < NPROC && i != p ensures Making(t.procs[i]) != Some(np) {
      assert FamilyOk(t.procs, i) && PairOk(t.procs, i, p);
    }
  }

  lemma ForkHistory(t: Table, t': Table, p: nat, np: nat)
    requires ForkStep(t.procs, t'.procs, p, np) && HistoryOk(t) && t'.reaps == t.reaps && t'.exits == t.exits
    requires t'.procs[np].status == t.procs[np].status && t.procs[np].at.Elsewhere?
    requires if t.procs[np].state.Unused? then t'.nextpid == t.nextpid + 1 && t'.procs[np].pid == t.nextpid
             else t'.nextpid == t.nextpid && t'.procs[np].pid == t.procs[np].pid
    ensures HistoryOk(t')
  {
    assert forall i: nat :: i < |t.procs| ==> RecordOk(t, i);
    forall i: nat | i < |t'.procs| ensures RecordOk(t', i) {
      assert RecordOk(t, i);
    }
    forall i: nat, j: nat | i < j < |t'.procs| && t'.procs[i].pid > 0 && t'.procs[j].pid > 0
      ensures t'.procs[i].pid != t'.procs[j].pid
    {
      assert RecordOk(t, i) && RecordOk(t, j);
    }
  }

  /** The two slots of a step of fork. */
  ghost predicate ForkSlots(t: Table, a: Step, np: nat) {
    && Enabled(t, a) && (a.ForkAlloc? || a.ForkFail? || a.ForkParent? || a.ForkDone?)
    && (if a.ForkAlloc? then FirstUnused(t.procs, 0) == Some(np) else t.procs[a.p].at.np == np)
  }

  lemma FamilyAt(t: Table, i: nat)
    requires Inv(t) && i < NPROC
    ensures FamilyOk(t.procs, i)
  {
  }

  lemma ForkIsStep(t: Table, a: Step, np: nat)
    requires Inv(t) && ForkSlots(t, a, np)
    ensures ForkStep(t.procs, Apply(t, a).procs, a.p, np)
  {
    hide FamiliesOk, PairsOk, HistoryOk;
    SlotFree(t, a.p, np);
    FamilyAt(t, np);
  }

  lemma ForkFamily(t: Table, a: Step, np: nat)
    requires Inv(t) && ForkSlots(t, a, np)
    ensures FamilyOk(Apply(t, a).procs, a.p) && FamilyOk(Apply(t, a).procs, np)
  {
    hide FamiliesOk, PairsOk, HistoryOk;
    SlotFree(t, a.p, np);
    FamilyAt(t, a.p);
    FamilyAt(t, np);
  }

  lemma ForkKeeps(t: Table, a: Step)
    requires Inv(t) && Enabled(t, a) && (a.ForkAlloc? || a.ForkFail? || a.ForkParent? || a.ForkDone?)
    ensures Inv(Apply(t, a))
  {
    var t', p := Apply(t, a), a.p;
    if a.ForkAlloc? && FirstUnused(t.procs, 0).None? {
      return;
    }
    var np := if a.ForkAlloc? then FirstUnused(t.procs, 0).value else t.procs[p].at.np;
    assert FamilyOk(t.procs, p) && FamilyOk(t.procs, np);
    SlotFree(t, p, np);
    ForkIsStep(t, a, np);
    ForkFamily(t, a, np);
    hide FamiliesOk, PairsOk, HistoryOk, ForkStep;
    ForkPairs(t.procs, t'.procs, p, np);
    ForkFamilies(t.procs, t'.procs, p, np);
    ForkHistory(t, t', p, np);
  }

  lemma ExitStartKeeps(t: Table, p: nat, status: int)
    requires Inv(t) && Enabled(t, ExitStart(p, status))
    ensures Inv(Apply(t, ExitStart(p, status)))
  {
    var t' := Apply(t, ExitStart(p, status));
    assert FamiliesOk(t'.procs) by {
      forall i: nat | i < NPROC ensures FamilyOk(t'.procs, i) {
        assert FamilyOk(t.procs, i);
      }
    }
    assert PairsOk(t'.procs) by {
      forall i: nat, j: nat | i < NPROC && j < NPROC ensures PairOk(t'.procs, i, j) {
        assert PairOk(t.procs, i, j);
      }
    }
    ExitStartHistory(t, p, status);
  }

  lemma ExitStartHistory(t: Table, p: nat, status: int)
    requires HistoryOk(t) && Enabled(t, ExitStart(p, status))
    ensures HistoryOk(Apply(t, ExitStart(p, status)))
  {
    var t' := Apply(t, ExitStart(p, status));
    assert RecordOk(t, p);
    forall i: nat | i < |t'.procs| ensures RecordOk(t', i) {
      assert RecordOk(t, i);
      assert i != p ==> t.procs[i].pid != t.procs[p].pid;
    }
    assert ReapsOk(t');
  }

  /** What exit leaves in slot i. */
  lemma AfterExitAt(procs: seq<Proc>, p: nat, i: nat)
    requires p < |procs| && i < |procs|
    ensures var q, q' := procs[i], AfterExit(procs, p)[i];
            && q'.pid == q.pid && q'.status == q.status && q'.killed == q.killed && q'.chan == q.chan
            && q'.parent == (if q.parent == Some(p) then Some(INIT) else q.parent)
            && (i == p ==> q'.state.Zombie? && q'.at.Elsewhere?)
            && (i != p ==> q'.at == q.at && (q'.state == q.state || (q.state.Sleeping? && q'.state.Runnable?)))
            && (i != p && q.state.Sleeping? ==>
                  (q'.state.Sleeping? <==>
                   q.chan != ChanOf(procs[p].parent) && (ZombieChild(procs, p, |procs|) ==> q.chan != OnProc(INIT))))
  {
    var w := WakeAll(procs, ChanOf(procs[p].parent));
    assert ZombieChild(procs, p, |procs|) <==> ZombieChild(w, p, |w|) by {
      assert forall k :: 0 <= k < |procs| ==>
             (w[k].parent == procs[k].parent && (w[k].state.Zombie? <==> procs[k].state.Zombie?));
    }
    assert Adopt(w, p, INIT, |w|)[i].parent == if w[i].parent == Some(p) then Some(INIT) else w[i].parent;
  }

  lemma ExitFamilies(t: Table, p: nat)
    requires Inv(t) && Enabled(t, ExitFinish(p))
    ensures FamiliesOk(AfterExit(t.procs, p))
  {
    var procs' := AfterExit(t.procs, p);
    AfterExitAt(t.procs, p, INIT);
    hide AfterExit;
    forall i: nat | i < NPROC ensures FamilyOk(procs', i) {
      assert FamilyOk(t.procs, i) && FamilyOk(t.procs, p);
      AfterExitAt(t.procs, p, i);
      if t.procs[i].parent.Some? {
        AfterExitAt(t.procs, p, t.procs[i].parent.value);
      }
      if Making(t.procs[i]).Some? {
        AfterExitAt(t.procs, p, t.procs[i].at.np);
      }
    }
  }

  /** The parent is awake before the zombie is there, and so is init before it adopts one. */
  lemma ExitPairs(t: Table, p: nat)
    requires Inv(t) && Enabled(t, ExitFinish(p))
    ensures PairsOk(AfterExit(t.procs, p))
  {
    var procs' := AfterExit(t.procs, p);
    hide AfterExit;
    forall i: nat, j: nat | i < NPROC && j < NPROC ensures PairOk(procs', i, j) {
      assert PairOk(t.procs, i, j) && FamilyOk(t.procs, i) && FamilyOk(t.procs, p);
      AfterExitAt(t.procs, p, i);
      AfterExitAt(t.procs, p, j);
      assert t.procs[j].parent == Some(p) && t.procs[j].state.Zombie? ==> ZombieChild(t.procs, p, |t.procs|);
    }
  }

  lemma ExitHistory(t: Table, p: nat)
    requires Inv(t) && Enabled(t, ExitFinish(p))
    ensures HistoryOk(t.(procs := AfterExit(t.procs, p)))
  {
    var t' := t.(procs := AfterExit(t.procs, p));
    hide AfterExit;
    forall i: nat | i < NPROC ensures RecordOk(t', i) {
      AfterExitAt(t.procs, p, i);
      assert RecordOk(t, i);
    }
    forall i: nat, j: nat | i < j < NPROC && t'.procs[i].pid > 0 && t'.procs[j].pid > 0
      ensures t'.procs[i].pid != t'.procs[j].pid
    {
      AfterExitAt(t.procs, p, i);
      AfterExitAt(t.procs, p, j);
    }
  }

  lemma ExitFinishKeeps(t: Table, p: nat)
    requires Inv(t) && Enabled(t, ExitFinish(p))
    ensures Inv(Apply(t, ExitFinish(p)))
  {
    ExitFamilies(t, p);
    ExitPairs(t, p);
    ExitHistory(t, p);
    AfterExitAt(t.procs, p, INIT);
    assert p != INIT;
    hide AfterExit, FamiliesOk, PairsOk, HistoryOk;
  }

  lemma ReapKeeps(t: Table, p: nat, z: nat)
    requires Inv(t) && Enabled(t, Wait(p)) && FirstZombie(t.procs, p, 0) == Some(z)
    ensures Inv(Apply(t, Wait(p)))
  {
    var t' := Apply(t, Wait(p));
    assert FamilyOk(t.procs, z) && RecordOk(t, z);
    assert FamiliesOk(t'.procs) by {
      forall i: nat | i < NPROC ensures FamilyOk(t'.procs, i) {
        assert FamilyOk(t.procs, i);
      }
    }
    assert PairsOk(t'.procs) by {
      forall i: nat, j: nat | i < NPROC && j < NPROC ensures PairOk(t'.procs, i, j) {
        assert PairOk(t.procs, i, j);
      }
    }
    ReapHistory(t, p, z);
  }

  lemma ReapHistory(t: Table, p: nat, z: nat)
    requires Inv(t) && Enabled(t, Wait(p)) && FirstZombie(t.procs, p, 0) == Some(z)
    ensures HistoryOk(Apply(t, Wait(p)))
  {
    var t' := Apply(t, Wait(p));
    assert RecordOk(t, z) && FamilyOk(t.procs, z);
    forall i: nat | i < NPROC ensures RecordOk(t', i) {
      assert RecordOk(t, i);
      assert i != z ==> t.procs[i].pid != t.procs[z].pid;
    }
    assert ReapsOk(t');
  }

  lemma WaitSleepFamilies(t: Table, p: nat)
    requires Inv(t) && Enabled(t, Wait(p)) && FirstZombie(t.procs, p, 0).None?
    ensures FamiliesOk(Apply(t, Wait(p)).procs) && PairsOk(Apply(t, Wait(p)).procs)
  {
    hide HistoryOk;
    var t' := Apply(t, Wait(p));
    forall i: nat | i < NPROC ensures FamilyOk(t'.procs, i) {
      assert FamilyOk(t.procs, i);
    }
    forall i: nat, j: nat | i < NPROC && j < NPROC ensures PairOk(t'.procs, i, j) {
      assert PairOk(t.procs, i, j);
    }
  }

  lemma WaitSleepKeeps(t: Table, p: nat)
    requires Inv(t) && Enabled(t, Wait(p)) && FirstZombie(t.procs, p, 0).None?
    ensures Inv(Apply(t, Wait(p)))
  {
    hide FamiliesOk, PairsOk;
    WaitSleepFamilies(t, p);
    var t' := Apply(t, Wait(p));
    forall i: nat | i < NPROC ensures RecordOk(t', i) {
      assert RecordOk(t, i);
    }
  }

  lemma StepKeeps(t: Table, a: Step)
    requires Inv(t) && Enabled(t, a)
    ensures Inv(Apply(t, a))
  {
    match a
    case ForkAlloc(_) => ForkKeeps(t, a);
    case ForkFail(_) => ForkKeeps(t, a);
    case ForkParent(_) => ForkKeeps(t, a);
    case ForkDone(_) => ForkKeeps(t, a);
    case ExitStart(p, status) => ExitStartKeeps(t, p, status);
    case ExitFinish(p) => ExitFinishKeeps(t, p);
    case Wait(p) =>
      if FirstZombie(t.procs, p, 0).Some? {
        ReapKeeps(t, p, FirstZombie(t.procs, p, 0).value);
      } else {
        WaitSleepKeeps(t, p);
      }
    case Yield(_) => QuietKeeps(t, a);
    case SleepOn(_, _) => QuietKeeps(t, a);
    case Schedule(_) => QuietKeeps(t, a);
    case Wakeup(_) => QuietKeeps(t, a);
    case Kill(_) => QuietKeeps(t, a);
  }

  // ---------------------------------------------------------------- runs

  /** After userinit: the first process is runnable, every other slot is free. */
  function Boot(): Table {
    var free := Proc(Unused, 0, None, NoChan, false, 0, Elsewhere);
    Table([free.(state := Runnable, pid := 1)] + seq(NPROC - 1, _ => free), 2, map[], [])
  }

  ghost predicate IsRun(ts: seq<Table>, steps: seq<Step>) {
    && |ts| == |steps| + 1 && ts[0] == Boot()
    && forall i :: 0 <= i < |steps| ==> Enabled(ts[i], steps[i]) && ts[i + 1] == Apply(ts[i], steps[i])
  }

  lemma {:induction false} RunKeeps(ts: seq<Table>, steps: seq<Step>, n: nat)
    requires IsRun(ts, steps) && n <= |steps|
    ensures Inv(ts[n])
  {
    if n == 0 {
      assert forall i: nat :: i < NPROC ==> FamilyOk(Boot().procs, i);
    } else {
      RunKeeps(ts, steps, n - 1);
      StepKeeps(ts[n - 1], steps[n - 1]);
    }
  }

  /** In every state of every run: no process sleeps in wait while it has a zombie child. */
  lemma NoLostExit(ts: seq<Table>, steps: seq<Step>, n: nat, p: nat, c: nat)
    requires IsRun(ts, steps) && n <= |steps| && p < |ts[n].procs| && c < |ts[n].procs|
    requires ts[n].procs[c].parent == Some(p) && ts[n].procs[c].state.Zombie?
    ensures !(ts[n].procs[p].state.Sleeping? && ts[n].procs[p].chan == OnProc(p))
  {
    RunKeeps(ts, steps, n);
    assert PairOk(ts[n].procs, p, c);
  }

  /** In every state of every run: a parent is neither a zombie nor an unused slot. */
  lemma ParentsLive(ts: seq<Table>, steps: seq<Step>, n: nat, c: nat)
    requires IsRun(ts, steps) && n <= |steps| && c < |ts[n].procs| && ts[n].procs[c].parent.Some?
    ensures ts[n].procs[c].parent.value < |ts[n].procs| && Live(ts[n].procs[ts[n].procs[c].parent.value])
  {
    RunKeeps(ts, steps, n);
    assert FamilyOk(ts[n].procs, c);
  }

  /** Over every run: wait returns an exited child at most once, with the status it passed to exit. */
  lemma ReapedOnce(ts: seq<Table>, steps: seq<Step>, n: nat, k: nat)
    requires IsRun(ts, steps) && n <= |steps| && k < |ts[n].reaps|
    ensures ts[n].reaps[k].pid in ts[n].exits && ts[n].exits[ts[n].reaps[k].pid] == ts[n].reaps[k].status
    ensures forall l :: 0 <= l < |ts[n].reaps| && ts[n].reaps[l].pid == ts[n].reaps[k].pid ==> l == k
  {
    RunKeeps(ts, steps, n);
  }

  // ---------------------------------------------------------------- statuses, by the steps taken

  /** Step m is a call of exit with this status by the process with this pid. */
  ghost predicate Exits(ts: seq<Table>, steps: seq<Step>, m: nat, pid: nat, status: int)
    requires IsRun(ts, steps) && m < |steps|
  {
    && steps[m].ExitStart? && steps[m].status == status
    && steps[m].p < |ts[m].procs| && ts[m].procs[steps[m].p].pid == pid
  }

  /** Step m is a call of wait by the parent of a zombie with this pid, which leaves its slot free. */
  ghost predicate Collects(ts: seq<Table>, steps: seq<Step>, m: nat, pid: nat)
    requires IsRun(ts, steps) && m < |steps|
  {
    steps[m].Wait? && |ts[m + 1].procs| == |ts[m].procs|
    && exists z :: 0 <= z < |ts[m].procs| && ts[m].procs[z].state.Zombie? && ts[m].procs[z].pid == pid
         && ts[m].procs[z].parent == Some(steps[m].p) && ts[m + 1].procs[z].state.Unused?
  }

  /** Every status on record was passed to exit by the process it is recorded for. */
  lemma {:induction false} ExitedBy(ts: seq<Table>, steps: seq<Step>, n: nat, pid: nat) returns (m: nat)
    requires IsRun(ts, steps) && n <= |steps| && pid in ts[n].exits
    ensures m < n && Exits(ts, steps, m, pid, ts[n].exits[pid])
  {
    var t, a := ts[n - 1], steps[n - 1];
    if a.ExitStart? && t.procs[a.p].pid == pid {
      m := n - 1;
    } else {
      m := ExitedBy(ts, steps, n - 1, pid);
    }
  }

  /** What wait has returned so far: what it had returned before the last step, and what that step gives. */
  lemma ReapsGrow(t: Table, a: Step)
    requires Enabled(t, a)
    ensures var was, now := t.reaps, Apply(t, a).reaps;
            if a.Wait? && FirstZombie(t.procs, a.p, 0).Some? then |now| == |was| + 1 && now[..|was|] == was
            else now == was
  {
  }

  /** Over every run, by its steps alone: what wait returns is the pid and the status of a child of the
      caller that called exit with that status before, and that child's slot is free afterwards. */
  lemma {:induction false} ReapTold(ts: seq<Table>, steps: seq<Step>, n: nat, k: nat) returns (e: nat, w: nat)
    requires IsRun(ts, steps) && n <= |steps| && k < |ts[n].reaps|
    ensures e < w < n && Collects(ts, steps, w, ts[n].reaps[k].pid)
    ensures Exits(ts, steps, e, ts[n].reaps[k].pid, ts[n].reaps[k].status)
  {
    var t, a := ts[n - 1], steps[n - 1];
    ReapsGrow(t, a);
    if k < |t.reaps| {
      e, w := ReapTold(ts, steps, n - 1, k);
    } else {
      RunKeeps(ts, steps, n - 1);
      var z := FirstZombie(t.procs, a.p, 0).value;
      assert RecordOk(t, z);
      w := n - 1;
      e := ExitedBy(ts, steps, n - 1, t.procs[z].pid);
      assert ts[n].procs[z].state.Unused?;
    }
  }

  /** In every state of every run: no slot carries the pid of a process that wait has returned, so a kill
      of it fails. */
  lemma ReapedGone(ts: seq<Table>, steps: seq<Step>, n: nat, k: nat)
    requires IsRun(ts, steps) && n <= |steps| && k < |ts[n].reaps|
    ensures FirstPid(ts[n].procs, ts[n].reaps[k].pid, 0) == None
  {
    RunKeeps(ts, steps, n);
    forall i: nat | i < NPROC ensures ts[n].procs[i].pid != ts[n].reaps[k].pid {
      assert RecordOk(ts[n], i);
    }
  }

  // ---------------------------------------------------------------- sleeping and waking

  /** A wakeup on its channel, a kill that finds it first, or the exit that its wait is for. */
  ghost predicate Wakes(t: Table, a: Step, i: nat)
    requires Enabled(t, a) && i < |t.procs|
  {
    match a
    case Wakeup(n) => t.procs[i].chan == OnOther(n)
    case Kill(pid) => t.procs[i].pid == pid && forall j: nat :: j < i ==> t.procs[j].pid != pid
    case ExitFinish(p) =>
      t.procs[i].chan == ChanOf(t.procs[p].parent)
      || (t.procs[i].chan == OnProc(INIT) && ZombieChild(t.procs, p, |t.procs|))
    case _ => false
  }

  /** The slot that fork takes: no slot before it is free. */
  ghost predicate LowestFree(procs: seq<Proc>, i: nat)
    requires i < |procs|
  {
    procs[i].state.Unused? && forall j: nat :: j < i ==> !procs[j].state.Unused?
  }

  /** The child that wait returns: no slot before it is a zombie child of the same process. */
  ghost predicate LowestZombie(procs: seq<Proc>, p: nat, i: nat)
    requires i < |procs|
  {
    && procs[i].state.Zombie? && procs[i].parent == Some(p)
    && forall j: nat :: j < i ==> !(procs[j].state.Zombie? && procs[j].parent == Some(p))
  }

  /** wait has children, all of them alive, and is not killed. */
  ghost predicate MustWait(procs: seq<Proc>, p: nat)
    requires p < |procs|
  {
    HasChild(procs, p, |procs|) && !ZombieChild(procs, p, |procs|) && !procs[p].killed
  }

  /** The life of a process, by the state it is in: which steps take it to which state. */
  ghost function NextState(t: Table, a: Step, i: nat): State
    requires Enabled(t, a) && i < |t.procs|
  {
    var q := t.procs[i];
    match q.state
    case Unused => if a.ForkAlloc? && LowestFree(t.procs, i) then Embryo else Unused
    case Embryo =>
      if a.ForkFail? && t.procs[a.p].at.np == i then Unused
      else if a.ForkDone? && t.procs[a.p].at.np == i then Runnable
      else Embryo
    case Runnable => if a == Schedule(i) then Running else Runnable
    case Running =>
      if a == Yield(i) then Runnable
      else if a == ExitFinish(i) then Zombie
      else if (a.SleepOn? && a.p == i) || (a == Wait(i) && MustWait(t.procs, i)) then Sleeping
      else Running
    case Sleeping => if Wakes(t, a, i) then Runnable else Sleeping
    case Zombie => if a.Wait? && LowestZombie(t.procs, a.p, i) then Unused else Zombie
  }

  /** What a step is to do with slot i. */
  ghost predicate Lives(t: Table, a: Step, i: nat)
    requires Enabled(t, a) && i < |t.procs|
  {
    && |Apply(t, a).procs| == |t.procs|
    && var q, q' := t.procs[i], Apply(t, a).procs[i];
    && q'.state == NextState(t, a, i)
    && (q'.state.Sleeping? ==>
          q'.chan == if q.state.Sleeping? then q.chan else if a.SleepOn? then OnOther(a.n) else OnProc(i))
  }

  lemma AllocLives(t: Table, a: Step, i: nat)
    requires Inv(t) && Enabled(t, a) && a.ForkAlloc? && i < NPROC
    ensures Lives(t, a, i)
  {
    hide FamiliesOk, PairsOk, HistoryOk;
  }

  lemma ForkLives(t: Table, a: Step, i: nat)
    requires Inv(t) && Enabled(t, a) && (a.ForkFail? || a.ForkParent? || a.ForkDone?) && i < NPROC
    ensures Lives(t, a, i)
  {
    hide FamiliesOk, PairsOk, HistoryOk;
    FamilyAt(t, a.p);
  }

  lemma ExitLives(t: Table, a: Step, i: nat)
    requires Inv(t) && Enabled(t, a) && a.ExitFinish? && i < NPROC
    ensures Lives(t, a, i)
  {
    hide FamiliesOk, PairsOk, HistoryOk, AfterExit;
    AfterExitAt(t.procs, a.p, i);
  }

  lemma WaitLives(t: Table, a: Step, i: nat)
    requires Inv(t) && Enabled(t, a) && a.Wait? && i < NPROC
    ensures Lives(t, a, i)
  {
    hide FamiliesOk, PairsOk, HistoryOk;
    FamilyAt(t, i);
  }

  lemma QuietLives(t: Table, a: Step, i: nat)
    requires Inv(t) && Enabled(t, a) && i < NPROC
    requires a.ExitStart? || a.Yield? || a.SleepOn? || a.Schedule? || a.Wakeup? || a.Kill?
    ensures Lives(t, a, i)
  {
    hide FamiliesOk, PairsOk, HistoryOk;
  }

  /** Every step moves every slot just as the life of a process has it: a sleeper is woken by exactly the
      steps of Wakes, a zombie leaves by its parent's wait alone, and whoever falls asleep does so on the
      channel that its waker will use. */
  lemma LifeCycle(t: Table, a: Step, i: nat)
    requires Inv(t) && Enabled(t, a) && i < NPROC
    ensures Lives(t, a, i)
  {
    hide Inv, Lives, Enabled;
    match a
    case ForkAlloc(_) => AllocLives(t, a, i);
    case ForkFail(_) => ForkLives(t, a, i);
    case ForkParent(_) => ForkLives(t, a, i);
    case ForkDone(_) => ForkLives(t, a, i);
    case ExitFinish(_) => ExitLives(t, a, i);
    case Wait(_) => WaitLives(t, a, i);
    case _ => QuietLives(t, a, i);
  }

  ghost predicate KilledWaiter(q: Proc) {
    q.state.Sleeping? && q.chan.OnProc? && q.killed
  }

  lemma KilledAwake(t: Table, a: Step, i: nat)
    requires Inv(t) && Enabled(t, a) && i < NPROC && !KilledWaiter(t.procs[i])
    ensures |Apply(t, a).procs| == NPROC && !KilledWaiter(Apply(t, a).procs[i])
  {
    hide FamiliesOk, PairsOk, HistoryOk, AfterExit;
    if a.ExitFinish? {
      AfterExitAt(t.procs, a.p, i);
    }
  }

  /** In every state of every run: nobody sleeps in wait with the killed flag up. */
  lemma {:induction false} KilledDoNotWait(ts: seq<Table>, steps: seq<Step>, n: nat, i: nat)
    requires IsRun(ts, steps) && n <= |steps| && i < NPROC
    ensures |ts[n].procs| == NPROC && !KilledWaiter(ts[n].procs[i])
  {
    if n > 0 {
      KilledDoNotWait(ts, steps, n - 1, i);
      RunKeeps(ts, steps, n - 1);
      KilledAwake(ts[n - 1], steps[n - 1], i);
    }
  }

  /** kill finds the process with this pid, leaves it with the flag up and awake, and changes no other
      slot. */
  lemma KillReaches(t: Table, i: nat)
    requires Inv(t) && i < NPROC && !t.procs[i].state.Unused?
    ensures var t' := Apply(t, Kill(t.procs[i].pid));
            && |t'.procs| == NPROC && t'.procs[i].killed && !t'.procs[i].state.Sleeping?
            && forall j: nat :: j < NPROC && j != i ==> t'.procs[j] == t.procs[j]
  {
    var r := FirstPid(t.procs, t.procs[i].pid, 0);
    assert RecordOk(t, i) && r == Some(i);
    hide FamiliesOk, PairsOk, HistoryOk;
  }

  /** fork gives up with nothing changed exactly when no slot is free. */
  lemma ForkGivesUp(t: Table, p: nat)
    requires Inv(t) && Enabled(t, ForkAlloc(p))
    ensures Apply(t, ForkAlloc(p)) == t <==> forall i: nat :: i < NPROC ==> !t.procs[i].state.Unused?
  {
    hide FamiliesOk, PairsOk, HistoryOk;
  }

  // ---------------------------------------------------------------- the killed flag

  /** No slot waits for its next process with the killed flag up. Nothing clears the flag when a slot
      is taken, so that process would be born killed. */
  ghost predicate Clean(t: Table) {
    forall i: nat :: i < |t.procs| && t.procs[i].state.Unused? ==> !t.procs[i].killed
  }

  /** A kill whose pid is found first in an unused slot: pid 0, which a slot starts with and wait leaves
      there, or the pid of a failed fork. Or a fork that fails once its child has been killed. */
  ghost predicate Stray(t: Table, a: Step)
    requires Enabled(t, a)
  {
    match a
    case Kill(pid) => FirstPid(t.procs, pid, 0).Some? && t.procs[FirstPid(t.procs, pid, 0).value].state.Unused?
    case ForkFail(p) => t.procs[t.procs[p].at.np].killed
    case _ => false
  }

  lemma CleanStep(t: Table, a: Step)
    requires Inv(t) && Clean(t) && Enabled(t, a)
    ensures Clean(Apply(t, a)) <==> !Stray(t, a)
  {
    var t' := Apply(t, a);
    if Stray(t, a) {
      var i := if a.Kill? then FirstPid(t.procs, a.pid, 0).value else t.procs[a.p].at.np;
      assert FamilyOk(t.procs, i) && (a.ForkFail? ==> FamilyOk(t.procs, a.p));
      hide FamiliesOk, PairsOk, HistoryOk;
      assert t'.procs[i].state.Unused? && t'.procs[i].killed;
    } else {
      forall i: nat | i < |t'.procs| && t'.procs[i].state.Unused? ensures !t'.procs[i].killed {
        CleanSlot(t, a, i);
      }
    }
  }

  lemma CleanSlot(t: Table, a: Step, i: nat)
    requires Inv(t) && Clean(t) && Enabled(t, a) && !Stray(t, a) && i < NPROC
    ensures |Apply(t, a).procs| == NPROC && (Apply(t, a).procs[i].state.Unused? ==> !Apply(t, a).procs[i].killed)
  {
    hide FamiliesOk, PairsOk, HistoryOk, AfterExit;
    if a.ExitFinish? {
      AfterExitAt(t.procs, a.p, i);
    }
  }

  /** Exactly: through a run no slot is ever left with the flag up, so that every process starts without
      it, if and only if no step is a stray one. */
  lemma {:induction false} CleanExactly(ts: seq<Table>, steps: seq<Step>)
    requires IsRun(ts, steps)
    ensures (forall n: nat :: n <= |steps| ==> Clean(ts[n])) <==>
            (forall n: nat :: n < |steps| ==> !Stray(ts[n], steps[n]))
  {
    if forall n: nat :: n <= |steps| ==> Clean(ts[n]) {
      forall n: nat | n < |steps| ensures !Stray(ts[n], steps[n]) {
        RunKeeps(ts, steps, n);
        CleanStep(ts[n], steps[n]);
        assert Clean(ts[n + 1]);
      }
    } else if forall n: nat :: n < |steps| ==> !Stray(ts[n], steps[n]) {
      forall n: nat | n <= |steps| ensures Clean(ts[n]) {
        CleanUpTo(ts, steps, n);
      }
    }
  }

  lemma {:induction false} CleanUpTo(ts: seq<Table>, steps: seq<Step>, n: nat)
    requires IsRun(ts, steps) && n <= |steps| && forall m: nat :: m < |steps| ==> !Stray(ts[m], steps[m])
    ensures Clean(ts[n])
  {
    if n > 0 {
      CleanUpTo(ts, steps, n - 1);
      RunKeeps(ts, steps, n - 1);
      CleanStep(ts[n - 1], steps[n - 1]);
    }
  }

  /** A slot with the flag up keeps it until a fork takes it, and gives it to the child. */
  lemma BornKilled(t: Table, a: Step, i: nat)
    requires Inv(t) && Enabled(t, a) && i < NPROC && t.procs[i].state.Unused? && t.procs[i].killed
    ensures |Apply(t, a).procs| == NPROC && Apply(t, a).procs[i].killed
    ensures !Apply(t, a).procs[i].state.Unused? ==>
              a.ForkAlloc? && FirstUnused(t.procs, 0) == Some(i) && Apply(t, a).procs[i].pid == t.nextpid
  {
    hide FamiliesOk, PairsOk, HistoryOk, AfterExit;
    FamilyAt(t, i);
    if a.ExitFinish? {
      AfterExitAt(t.procs, a.p, i);
    } else if !a.Kill? && !a.Wakeup? && !a.Wait? && a.p < NPROC {
      FamilyAt(t, a.p);
    }
  }

  /** kill(0) from the first process: it is told that all went well, and its first child is born
      killed. */
  lemma KillZero() returns (ts: seq<Table>, steps: seq<Step>)
    ensures IsRun(ts, steps) && (forall n: nat :: n < |steps| && steps[n].Kill? ==> steps[n].pid == 0)
    ensures var t := ts[|steps|];
            |t.procs| == NPROC && t.procs[1].state.Runnable? && t.procs[1].pid == 2 && t.procs[1].killed
  {
    steps := [Kill(0), Schedule(INIT), ForkAlloc(INIT), ForkParent(INIT), ForkDone(INIT)];
    var t0 := Boot();
    assert FirstPid(t0.procs, 0, 0) == FirstPid(t0.procs, 0, 1) == Some(1);
    var t1 := Apply(t0, steps[0]);
    var t2 := Apply(t1, steps[1]);
    assert FirstUnused(t2.procs, 0) == FirstUnused(t2.procs, 1) == Some(1);
    var t3 := Apply(t2, steps[2]);
    var t4 := Apply(t3, steps[3]);
    ts := [t0, t1, t2, t3, t4, Apply(t4, steps[4])];
  }
}
