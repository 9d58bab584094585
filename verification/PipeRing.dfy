/** Pipes (xv6-public/pipe.c): a ring of 512 bytes with 32-bit counters that wrap, and the sleeping
    and waking of its readers and writers as steps at the granularity of the pipe's lock. Processes
    may be killed at any time. */
module PipeRing {
  import opened Params

  const PIPESIZE := 512

  /** The pipe, with all bytes ever stored and all bytes ever fetched. */
  datatype Ring = Ring(data: seq<Byte>, nread: nat, nwrite: nat, readopen: bool, writeopen: bool,
                       written: seq<Byte>, taken: seq<Byte>)

  /** The ring holds exactly what was written and not yet taken. */
  ghost predicate RingOk(r: Ring) {
    && |r.data| == PIPESIZE
    && |r.taken| <= |r.written| <= |r.taken| + PIPESIZE && r.taken == r.written[..|r.taken|]
    && r.nread == |r.taken| % UINT_LIMIT && r.nwrite == |r.written| % UINT_LIMIT
    && forall k :: |r.taken| <= k < |r.written| ==> r.data[k % PIPESIZE] == r.written[k]
  }

  /** The tests of the code. */
  predicate Full(r: Ring) {
    r.nwrite == (r.nread + PIPESIZE) % UINT_LIMIT
  }

  predicate Empty(r: Ring) {
    r.nread == r.nwrite
  }

  lemma SlotOf(n: nat)
    ensures (n % UINT_LIMIT) % PIPESIZE == n % PIPESIZE
  {
    assert n == n / UINT_LIMIT * UINT_LIMIT + n % UINT_LIMIT;
    assert n / UINT_LIMIT * UINT_LIMIT == n / UINT_LIMIT * 0x80_0000 * PIPESIZE;
  }

  /** The counters tell a full pipe and an empty one apart, wrapped or not. */
  lemma Counters(r: Ring)
    requires RingOk(r)
    ensures Full(r) <==> |r.written| == |r.taken| + PIPESIZE
    ensures Empty(r) <==> |r.written| == |r.taken|
  {
    var d := |r.written| - |r.taken|;
    assert r.nwrite == (r.nread + d) % UINT_LIMIT by {
      assert |r.written| == |r.taken| / UINT_LIMIT * UINT_LIMIT + r.nread + d;
    }
  }

  function Store(r: Ring, b: Byte): Ring
    requires |r.data| == PIPESIZE
  {
    r.(data := r.data[r.nwrite % PIPESIZE := b], nwrite := (r.nwrite + 1) % UINT_LIMIT, written := r.written + [b])
  }

  function Fetch(r: Ring): Ring
    requires |r.data| == PIPESIZE
  {
    r.(nread := (r.nread + 1) % UINT_LIMIT, taken := r.taken + [r.data[r.nread % PIPESIZE]])
  }

  lemma SlotsApart(k: nat, n: nat)
    requires k < n < k + PIPESIZE
    ensures k % PIPESIZE != n % PIPESIZE
  {
  }

  lemma NextCount(n: nat)
    ensures (n % UINT_LIMIT + 1) % UINT_LIMIT == (n + 1) % UINT_LIMIT
  {
  }

  lemma StoreOk(r: Ring, b: Byte)
    requires RingOk(r) && !Full(r)
    ensures RingOk(Store(r, b))
  {
    Counters(r);
    SlotOf(|r.written|);
    NextCount(|r.written|);
    var r' := Store(r, b);
    forall k | |r'.taken| <= k < |r'.written| ensures r'.data[k % PIPESIZE] == r'.written[k] {
      if k < |r.written| {
        SlotsApart(k, |r.written|);
      }
    }
  }

  lemma FetchOk(r: Ring)
    requires RingOk(r) && !Empty(r)
    ensures RingOk(Fetch(r)) && Fetch(r).taken == r.written[..|r.taken| + 1]
  {
    Counters(r);
    SlotOf(|r.taken|);
    NextCount(|r.taken|);
  }

  // ---------------------------------------------------------------- a turn with the lock

  /** pipewrite's loop until the bytes are stored or the ring is full. */
  function StoreAll(r: Ring, bytes: seq<Byte>): (r': Ring)
    requires |r.data| == PIPESIZE
    ensures r.written <= r'.written <= r.written + bytes
    decreases bytes
  {
    if bytes == [] || Full(r) then r else StoreAll(Store(r, bytes[0]), bytes[1..])
  }

  /** piperead's copy loop: at most n bytes. */
  function FetchAll(r: Ring, n: nat): Ring
    requires |r.data| == PIPESIZE
    decreases n
  {
    if n == 0 || Empty(r) then r else FetchAll(Fetch(r), n - 1)
  }

  ghost function Room(r: Ring): int {
    |r.taken| + PIPESIZE - |r.written|
  }

  function Least(a: int, b: int): int {
    if a < b then a else b
  }

  lemma {:induction false} StoreAllOk(r: Ring, bytes: seq<Byte>)
    requires RingOk(r)
    ensures var r' := StoreAll(r, bytes); var k := Least(|bytes|, Room(r));
            && RingOk(r') && 0 <= k && r'.written == r.written + bytes[..k] && r'.taken == r.taken
            && r'.readopen == r.readopen && r'.writeopen == r.writeopen
    decreases bytes
  {
    Counters(r);
    if bytes != [] && !Full(r) {
      StoreOk(r, bytes[0]);
      hide RingOk;
      var k := Least(|bytes|, Room(r));
      assert StoreAll(r, bytes) == StoreAll(Store(r, bytes[0]), bytes[1..]);
      hide Full;
      StoreAllOk(Store(r, bytes[0]), bytes[1..]);
      assert [bytes[0]] + bytes[1..][..k - 1] == bytes[..k];
    } else {
      assert bytes[..Least(|bytes|, Room(r))] == [];
    }
  }

  lemma {:induction false} FetchAllOk(r: Ring, n: nat)
    requires RingOk(r)
    ensures var r' := FetchAll(r, n); var k := Least(n, |r.written| - |r.taken|);
            && RingOk(r') && r'.taken == r.written[..|r.taken| + k] && r'.written == r.written
            && r'.readopen == r.readopen && r'.writeopen == r.writeopen
    decreases n
  {
    Counters(r);
    if n > 0 && !Empty(r) {
      FetchOk(r);
      assert |r.taken| < |r.written|;
      hide RingOk, Empty;
      FetchAllOk(Fetch(r), n - 1);
    }
  }

  // ---------------------------------------------------------------- readers and writers

  /** A process outside the pipe, in pipewrite with bytes left, or in piperead; asleep or not. */
  datatype Thread = Idle | Writer(rest: seq<Byte>, asleep: bool) | Reader(n: nat, asleep: bool)

  datatype State = State(ring: Ring, threads: map<nat, Thread>, killed: set<nat>)

  datatype Step =
    | StartWrite(t: nat, bytes: seq<Byte>)
    | StartRead(t: nat, n: nat)
    | RunWrite(t: nat)
    | RunRead(t: nat)
    | CloseWrite
    | CloseRead
    | Kill(t: nat)

  ghost predicate Writing(s: State) {
    exists t :: t in s.threads && s.threads[t].Writer?
  }

  ghost predicate Reading(s: State) {
    exists t :: t in s.threads && s.threads[t].Reader?
  }

  /** A process in a call holds its end of the pipe open, so an end closes when no call uses it. A
      killed process finishes the call it is in and makes no other. */
  ghost predicate Enabled(s: State, a: Step) {
    match a
    case StartWrite(t, _) => t in s.threads && s.threads[t].Idle? && t !in s.killed && s.ring.writeopen
    case StartRead(t, _) => t in s.threads && s.threads[t].Idle? && t !in s.killed && s.ring.readopen
    case RunWrite(t) => t in s.threads && s.threads[t].Writer? && !s.threads[t].asleep
    case RunRead(t) => t in s.threads && s.threads[t].Reader? && !s.threads[t].asleep
    case CloseWrite => s.ring.writeopen && !Writing(s)
    case CloseRead => s.ring.readopen && !Reading(s)
    case Kill(t) => t in s.threads
  }

  /** wakeup(&p->nread) and wakeup(&p->nwrite). */
  ghost function WakeReaders(threads: map<nat, Thread>): map<nat, Thread> {
    map t | t in threads :: if threads[t].Reader? then Reader(threads[t].n, false) else threads[t]
  }

  ghost function WakeWriters(threads: map<nat, Thread>): map<nat, Thread> {
    map t | t in threads :: if threads[t].Writer? then Writer(threads[t].rest, false) else threads[t]
  }

  ghost function Awake(th: Thread): Thread {
    match th
    case Idle => Idle
    case Writer(rest, _) => Writer(rest, false)
    case Reader(n, _) => Reader(n, false)
  }

  ghost function Apply(s: State, a: Step): State
    requires Enabled(s, a) && |s.ring.data| == PIPESIZE
  {
    match a
    case StartWrite(t, bytes) => s.(threads := s.threads[t := Writer(bytes, false)])
    case StartRead(t, n) => s.(threads := s.threads[t := Reader(n, false)])
    case RunWrite(t) =>
      var rest := s.threads[t].rest;
      var r := StoreAll(s.ring, rest);
      var k := |r.written| - |s.ring.written|;
      if k >= |rest| then State(r, WakeReaders(s.threads[t := Idle]), s.killed)
      else if !r.readopen || t in s.killed then State(r, s.threads[t := Idle], s.killed)
      else State(r, WakeReaders(s.threads)[t := Writer(rest[k..], true)], s.killed)
    case RunRead(t) =>
      var n := s.threads[t].n;
      if Empty(s.ring) && s.ring.writeopen then
        s.(threads := s.threads[t := if t in s.killed then Idle else Reader(n, true)])
      else State(FetchAll(s.ring, n), WakeWriters(s.threads[t := Idle]), s.killed)
    case CloseWrite => s.(ring := s.ring.(writeopen := false), threads := WakeReaders(s.threads))
    case CloseRead => s.(ring := s.ring.(readopen := false), threads := WakeWriters(s.threads))
    case Kill(t) => s.(threads := s.threads[t := Awake(s.threads[t])], killed := s.killed + {t})
  }

  // ---------------------------------------------------------------- the invariant

  ghost predicate ReaderAsleep(s: State) {
    exists t :: t in s.threads && s.threads[t].Reader? && s.threads[t].asleep
  }

  /** No writer sleeps who has something to do, nor while a reader sleeps; no reader sleeps on a pipe
      without writers. */
  ghost predicate ThreadOk(s: State, t: nat)
    requires t in s.threads
  {
    match s.threads[t]
    case Idle => true
    case Writer(_, asleep) => s.ring.writeopen && (asleep ==> Full(s.ring) && s.ring.readopen && !ReaderAsleep(s))
    case Reader(_, asleep) => s.ring.readopen && (asleep ==> s.ring.writeopen)
  }

  ghost predicate Inv(s: State) {
    RingOk(s.ring) && forall t :: t in s.threads ==> ThreadOk(s, t)
  }

  lemma RunWriteKeeps(s: State, t: nat)
    requires Inv(s) && Enabled(s, RunWrite(t))
    ensures Inv(Apply(s, RunWrite(t)))
  {
    var s', rest := Apply(s, RunWrite(t)), s.threads[t].rest;
    StoreAllOk(s.ring, rest);
    Counters(s.ring);
    Counters(s'.ring);
    assert ThreadOk(s, t);
    hide RingOk, Full, Empty;
    forall u | u in s'.threads ensures ThreadOk(s', u) {
      assert u in s.threads && ThreadOk(s, u);
    }
  }

  lemma RunReadKeeps(s: State, t: nat)
    requires Inv(s) && Enabled(s, RunRead(t))
    ensures Inv(Apply(s, RunRead(t)))
  {
    var s' := Apply(s, RunRead(t));
    FetchAllOk(s.ring, s.threads[t].n);
    Counters(s.ring);
    Counters(s'.ring);
    assert ThreadOk(s, t);
    hide RingOk, Full, Empty;
    forall u | u in s'.threads ensures ThreadOk(s', u) {
      assert u in s.threads && ThreadOk(s, u);
    }
  }

  lemma OtherKeeps(s: State, a: Step)
    requires Inv(s) && Enabled(s, a) && !a.RunWrite? && !a.RunRead?
    ensures Inv(Apply(s, a))
  {
    var s' := Apply(s, a);
    forall u | u in s'.threads ensures ThreadOk(s', u) {
      assert u in s.threads && ThreadOk(s, u);
    }
  }

  lemma StepKeeps(s: State, a: Step)
    requires Inv(s) && Enabled(s, a)
    ensures Inv(Apply(s, a))
  {
    match a
    case RunWrite(t) => RunWriteKeeps(s, t);
    case RunRead(t) => RunReadKeeps(s, t);
    case _ => OtherKeeps(s, a);
  }

  // ---------------------------------------------------------------- short writes

  /** No reader sleeps on a pipe with bytes in it, and a writer that is or may be killed has no more
      bytes left than the pipe holds. */
  ghost predicate Calm(s: State, mortal: set<nat>) {
    && s.killed <= mortal
    && forall t :: t in s.threads ==>
         && (s.threads[t].Reader? && s.threads[t].asleep ==> Empty(s.ring))
         && (s.threads[t].Writer? && t in mortal ==> |s.threads[t].rest| <= PIPESIZE)
  }

  /** A step in which only the processes in `mortal` are killed, and these write little. */
  ghost predicate Short(a: Step, mortal: set<nat>) {
    && (a.Kill? ==> a.t in mortal)
    && (a.StartWrite? && a.t in mortal ==> |a.bytes| <= PIPESIZE)
  }

  /** A killed writer returns without a wakeup only from a full pipe; with at most PIPESIZE bytes
      left it has then found bytes in the pipe, so no reader was asleep. */
  lemma CalmStep(s: State, a: Step, mortal: set<nat>)
    requires Inv(s) && Enabled(s, a) && Calm(s, mortal) && Short(a, mortal)
    ensures Calm(Apply(s, a), mortal)
  {
    var s' := Apply(s, a);
    Counters(s.ring);
    if a.RunWrite? {
      StoreAllOk(s.ring, s.threads[a.t].rest);
      Counters(s'.ring);
      assert ThreadOk(s, a.t);
    } else if a.RunRead? {
      FetchAllOk(s.ring, s.threads[a.t].n);
      Counters(s'.ring);
    }
    hide RingOk, Full;
    assert forall t :: t in s'.threads ==> t in s.threads;
  }

  // ---------------------------------------------------------------- runs

  /** pipealloc: whatever the memory holds, nothing is written yet and both ends are open. */
  ghost predicate Fresh(s: State) {
    && |s.ring.data| == PIPESIZE
    && s.ring == Ring(s.ring.data, 0, 0, true, true, [], []) && s.killed == {}
    && forall t :: t in s.threads ==> s.threads[t].Idle?
  }

  ghost predicate IsRun(ss: seq<State>, steps: seq<Step>) {
    && |ss| == |steps| + 1 && Fresh(ss[0])
    && forall i :: 0 <= i < |steps| ==>
         |ss[i].ring.data| == PIPESIZE && Enabled(ss[i], steps[i]) && ss[i + 1] == Apply(ss[i], steps[i])
  }

  lemma {:induction false} RunKeeps(ss: seq<State>, steps: seq<Step>, n: nat)
    requires IsRun(ss, steps) && n <= |steps|
    ensures Inv(ss[n])
  {
    if n > 0 {
      RunKeeps(ss, steps, n - 1);
      StepKeeps(ss[n - 1], steps[n - 1]);
    }
  }

  /** In every state of every run, bytes come out in the order they went in, and what is in between
      fits the ring and is in it. */
  lemma FirstInFirstOut(ss: seq<State>, steps: seq<Step>, n: nat)
    requires IsRun(ss, steps) && n <= |steps|
    ensures var r := ss[n].ring;
            && r.taken <= r.written && |r.written| - |r.taken| <= PIPESIZE
            && forall k :: |r.taken| <= k < |r.written| ==>
                  k % PIPESIZE < |r.data| && r.data[k % PIPESIZE] == r.written[k]
  {
    RunKeeps(ss, steps, n);
  }

  /** In every state of every run, no writer sleeps on a pipe with room or without readers, and no
      reader on one without writers. */
  lemma NoIdleWriter(ss: seq<State>, steps: seq<Step>, n: nat, t: nat)
    requires IsRun(ss, steps) && n <= |steps| && t in ss[n].threads
    ensures var r, th := ss[n].ring, ss[n].threads[t];
            && (th.Writer? && th.asleep ==> |r.written| == |r.taken| + PIPESIZE && r.readopen)
            && (th.Reader? && th.asleep ==> r.writeopen)
  {
    RunKeeps(ss, steps, n);
    assert ThreadOk(ss[n], t);
    Counters(ss[n].ring);
  }

  /** In every state of every run, a reader and a writer never wait for each other. */
  lemma NoDeadlock(ss: seq<State>, steps: seq<Step>, n: nat, t: nat, u: nat)
    requires IsRun(ss, steps) && n <= |steps| && t in ss[n].threads && u in ss[n].threads
    requires ss[n].threads[t].Reader? && ss[n].threads[u].Writer?
    ensures !(ss[n].threads[t].asleep && ss[n].threads[u].asleep)
  {
    RunKeeps(ss, steps, n);
    assert ThreadOk(ss[n], u);
  }

  /** Processes that are killed in the run write at most m bytes in a call. */
  ghost predicate KilledWriteAtMost(steps: seq<Step>, m: nat) {
    forall i, j :: 0 <= i < |steps| && 0 <= j < |steps| ==>
      steps[i].StartWrite? && steps[j].Kill? && steps[i].t == steps[j].t ==> |steps[i].bytes| <= m
  }

  ghost function Mortal(steps: seq<Step>): set<nat> {
    set i | 0 <= i < |steps| && steps[i].Kill? :: steps[i].t
  }

  lemma {:induction false} CalmRun(ss: seq<State>, steps: seq<Step>, n: nat)
    requires IsRun(ss, steps) && n <= |steps| && KilledWriteAtMost(steps, PIPESIZE)
    ensures Calm(ss[n], Mortal(steps))
  {
    if n > 0 {
      CalmRun(ss, steps, n - 1);
      RunKeeps(ss, steps, n - 1);
      assert Short(steps[n - 1], Mortal(steps)) by {
        assert steps[n - 1].Kill? ==> steps[n - 1].t in Mortal(steps);
      }
      hide Inv, Calm, Short, Mortal;
      CalmStep(ss[n - 1], steps[n - 1], Mortal(steps));
    }
  }

  /** No reader sleeps on a pipe with bytes in it. */
  ghost predicate ReadersServed(s: State) {
    forall t :: t in s.threads && s.threads[t].Reader? && s.threads[t].asleep ==> |s.ring.written| == |s.ring.taken|
  }

  /** No wakeup is lost in a run whose killed processes write no more than the pipe holds. */
  lemma NoLostWakeup(ss: seq<State>, steps: seq<Step>, n: nat)
    requires IsRun(ss, steps) && n <= |steps| && KilledWriteAtMost(steps, PIPESIZE)
    ensures ReadersServed(ss[n])
  {
    CalmRun(ss, steps, n);
    RunKeeps(ss, steps, n);
    Counters(ss[n].ring);
  }

  /** A longer write by a process that is killed loses one: it fills the pipe and returns -1, and the
      reader sleeps on. */
  lemma LongWriteLoses(bytes: seq<Byte>) returns (ss: seq<State>, steps: seq<Step>)
    requires |bytes| > PIPESIZE
    ensures IsRun(ss, steps) && KilledWriteAtMost(steps, |bytes|)
    ensures !ReadersServed(ss[|steps|]) && Full(ss[|steps|].ring)
  {
    var r := Ring(seq(PIPESIZE, _ => 0), 0, 0, true, true, [], []);
    var s0 := State(r, map[0 := Idle, 1 := Idle], {});
    steps := [StartRead(0, 1), RunRead(0), StartWrite(1, bytes), Kill(1), RunWrite(1)];
    var s1 := Apply(s0, steps[0]);
    var s2 := Apply(s1, steps[1]);
    var s3 := Apply(s2, steps[2]);
    var s4 := Apply(s3, steps[3]);
    StoreAllOk(r, bytes);
    var s5 := Apply(s4, steps[4]);
    Counters(s5.ring);
    ss := [s0, s1, s2, s3, s4, s5];
    hide StoreAll, RingOk;
    assert s5.threads[0] == Reader(1, true);
  }

  ghost predicate AlwaysServed(m: nat) {
    forall ss, steps :: IsRun(ss, steps) && KilledWriteAtMost(steps, m) ==> ReadersServed(ss[|steps|])
  }

  /** Exactly: every run wakes its readers if and only if killed processes write at most PIPESIZE
      bytes in a call. */
  lemma ServedExactly(m: nat)
    ensures AlwaysServed(m) <==> m <= PIPESIZE
  {
    hide ReadersServed, Fresh, Enabled, Apply;
    if m <= PIPESIZE {
      forall ss, steps | IsRun(ss, steps) && KilledWriteAtMost(steps, m) ensures ReadersServed(ss[|steps|]) {
        NoLostWakeup(ss, steps, |steps|);
      }
    } else {
      var ss, steps := LongWriteLoses(seq(m, _ => 0));
    }
  }

  // ---------------------------------------------------------------- what each call has written

  /** What step i added to the pipe. */
  ghost function Added(ss: seq<State>, i: nat): seq<Byte>
    requires i + 1 < |ss| && |ss[i].ring.written| <= |ss[i + 1].ring.written|
  {
    ss[i + 1].ring.written[|ss[i].ring.written|..]
  }

  /** The pipe only ever gets longer, and only in a turn of a writer. */
  ghost predicate Grows(ss: seq<State>, steps: seq<Step>) {
    && |ss| == |steps| + 1
    && forall i: nat :: i < |steps| ==>
         && ss[i].ring.written <= ss[i + 1].ring.written
         && (!steps[i].RunWrite? ==> ss[i + 1].ring.written == ss[i].ring.written)
  }

  lemma RunGrows(ss: seq<State>, steps: seq<Step>)
    requires IsRun(ss, steps)
    ensures Grows(ss, steps) && |ss| == |steps| + 1
  {
    forall i: nat | i < |steps|
      ensures ss[i].ring.written <= ss[i + 1].ring.written
      ensures !steps[i].RunWrite? ==> ss[i + 1].ring.written == ss[i].ring.written
    {
      RunKeeps(ss, steps, i);
      if steps[i].RunRead? {
        FetchAllOk(ss[i].ring, ss[i].threads[steps[i].t].n);
      }
      hide RingOk, Full, Empty, FetchAll;
    }
  }

  /** The bytes that process t passed to its last pipewrite among the first n steps. */
  function Passed(steps: seq<Step>, t: nat, n: nat): seq<Byte>
    requires n <= |steps|
  {
    if n == 0 then []
    else if steps[n - 1].StartWrite? && steps[n - 1].t == t then steps[n - 1].bytes
    else Passed(steps, t, n - 1)
  }

  /** The bytes that this call has put into the pipe. */
  ghost function Stored(ss: seq<State>, steps: seq<Step>, t: nat, n: nat): seq<Byte>
    requires Grows(ss, steps) && n <= |steps|
  {
    if n == 0 then []
    else if steps[n - 1].StartWrite? && steps[n - 1].t == t then []
    else if steps[n - 1].RunWrite? && steps[n - 1].t == t then Stored(ss, steps, t, n - 1) + Added(ss, n - 1)
    else Stored(ss, steps, t, n - 1)
  }

  ghost function Rest(s: State, t: nat): seq<Byte> {
    if t in s.threads && s.threads[t].Writer? then s.threads[t].rest else []
  }

  /** What one turn of a writer stores, and what it has left. */
  lemma WriterTurn(s: State, t: nat)
    requires Inv(s) && Enabled(s, RunWrite(t))
    ensures var s', rest := Apply(s, RunWrite(t)), s.threads[t].rest;
            && t in s'.threads && s.ring.written <= s'.ring.written
            && var added := s'.ring.written[|s.ring.written|..];
            && added <= rest
            && (added < rest ==> |s'.ring.written| == |s'.ring.taken| + PIPESIZE)
            && s'.threads[t] == if added == rest || !s.ring.readopen || t in s.killed then Idle
                                else Writer(rest[|added|..], true)
  {
    StoreAllOk(s.ring, s.threads[t].rest);
    hide RingOk, Full, StoreAll;
  }

  /** A step of others leaves a writer what it has left. */
  lemma RestKept(s: State, a: Step, t: nat)
    requires Inv(s) && Enabled(s, a) && !(a.RunWrite? && a.t == t) && !(a.StartWrite? && a.t == t)
    ensures Rest(Apply(s, a), t) == Rest(s, t)
    ensures t in s.threads && s.threads[t].Writer? <==> t in Apply(s, a).threads && Apply(s, a).threads[t].Writer?
  {
    hide RingOk, Full, Empty, StoreAll, FetchAll;
  }

  /** In every state of every run: a call in progress has stored the first bytes it was given and has
      the others left; a call that is over stored the first of them. */
  lemma {:induction false} CallBytes(ss: seq<State>, steps: seq<Step>, t: nat, n: nat)
    requires IsRun(ss, steps) && n <= |steps|
    ensures Grows(ss, steps)
    ensures if t in ss[n].threads && ss[n].threads[t].Writer?
            then Passed(steps, t, n) == Stored(ss, steps, t, n) + ss[n].threads[t].rest
            else Stored(ss, steps, t, n) <= Passed(steps, t, n)
  {
    hide Inv, Grows, Apply, IsRun;
    RunGrows(ss, steps);
    if n == 0 {
      StartsFresh(ss, steps, t);
    } else {
      var a := steps[n - 1];
      CallBytes(ss, steps, t, n - 1);
      StepAt(ss, steps, n - 1);
      if a.RunWrite? && a.t == t {
        WriterTurn(ss[n - 1], t);
        var rest, added := ss[n - 1].threads[t].rest, Added(ss, n - 1);
        assert rest == added + rest[|added|..];
      } else if a.StartWrite? && a.t == t {
        WriteStarts(ss[n - 1], a);
      } else {
        RestKept(ss[n - 1], a, t);
      }
    }
  }

  lemma WriteStarts(s: State, a: Step)
    requires Inv(s) && Enabled(s, a) && a.StartWrite?
    ensures a.t in Apply(s, a).threads && Apply(s, a).threads[a.t] == Writer(a.bytes, false)
  {
    hide RingOk, ThreadOk;
  }

  /** How pipewrite returns, in every run: with n when all its bytes are stored, in order; with -1 only
      from a full pipe, without readers or killed. Else it sleeps on a full pipe. */
  lemma WriteReturns(ss: seq<State>, steps: seq<Step>, t: nat, n: nat)
    requires IsRun(ss, steps) && n < |steps| && steps[n] == RunWrite(t)
    ensures Grows(ss, steps) && t in ss[n + 1].threads
    ensures var all, r := Stored(ss, steps, t, n + 1) == Passed(steps, t, n + 1), ss[n + 1].ring;
            && (ss[n + 1].threads[t].Idle? <==> all || !r.readopen || t in ss[n].killed)
            && (!ss[n + 1].threads[t].Idle? ==> ss[n + 1].threads[t].Writer? && ss[n + 1].threads[t].asleep)
            && (!all ==> |r.written| == |r.taken| + PIPESIZE)
  {
    hide IsRun, Inv, Apply;
    CallBytes(ss, steps, t, n);
    CallBytes(ss, steps, t, n + 1);
    StepAt(ss, steps, n);
    WriterTurn(ss[n], t);
    ReadersStay(ss[n], steps[n]);
    var rest, added := ss[n].threads[t].rest, Added(ss, n);
    assert rest == added + rest[|added|..];
  }

  /** How piperead returns: with the next bytes, as many as asked for or as there are; with -1 when it is
      killed on an empty pipe with writers. Else it sleeps there. */
  lemma ReadReturns(ss: seq<State>, steps: seq<Step>, t: nat, n: nat)
    requires IsRun(ss, steps) && n < |steps| && steps[n] == RunRead(t)
    ensures t in ss[n].threads && t in ss[n + 1].threads && ss[n].threads[t].Reader?
    ensures var r, r', want := ss[n].ring, ss[n + 1].ring, ss[n].threads[t].n;
            var waits := |r.written| == |r.taken| && r.writeopen;
            && |r.taken| <= |r.written|
            && r'.taken == r.written[..|r.taken| + if waits then 0 else Least(want, |r.written| - |r.taken|)]
            && ss[n + 1].threads[t] == if waits && t !in ss[n].killed then Reader(want, true) else Idle
  {
    RunKeeps(ss, steps, n);
    Counters(ss[n].ring);
    FetchAllOk(ss[n].ring, ss[n].threads[t].n);
    hide FetchAll, Empty;
  }

  /** All the bytes that t passed to pipewrite, and all that it has put into the pipe. */
  function Sent(steps: seq<Step>, t: nat, n: nat): seq<Byte>
    requires n <= |steps|
  {
    if n == 0 then []
    else Sent(steps, t, n - 1) + if steps[n - 1].StartWrite? && steps[n - 1].t == t then steps[n - 1].bytes else []
  }

  ghost function Contributed(ss: seq<State>, steps: seq<Step>, t: nat, n: nat): seq<Byte>
    requires Grows(ss, steps) && n <= |steps|
  {
    if n == 0 then []
    else Contributed(ss, steps, t, n - 1) + if steps[n - 1] == RunWrite(t) then Added(ss, n - 1) else []
  }

  /** While readers stay and t is not killed, what t has put into the pipe and what it has left is
      everything it sent, in order and once. */
  lemma {:induction false} EverythingSent(ss: seq<State>, steps: seq<Step>, t: nat, n: nat)
    requires IsRun(ss, steps) && n <= |steps|
    requires forall i :: 0 <= i < n ==> !steps[i].CloseRead? && steps[i] != Kill(t)
    ensures Grows(ss, steps) && ss[n].ring.readopen && t !in ss[n].killed
    ensures Contributed(ss, steps, t, n) + Rest(ss[n], t) == Sent(steps, t, n)
  {
    hide IsRun, Inv, Apply, Enabled, Rest;
    RunGrows(ss, steps);
    if n == 0 {
      StartsFresh(ss, steps, t);
    } else {
      EverythingSent(ss, steps, t, n - 1);
      StepAt(ss, steps, n - 1);
      ReadersStay(ss[n - 1], steps[n - 1]);
      RestStep(ss[n - 1], steps[n - 1], t);
    }
  }

  lemma StartsFresh(ss: seq<State>, steps: seq<Step>, t: nat)
    requires IsRun(ss, steps)
    ensures ss[0].ring.readopen && t !in ss[0].killed && Rest(ss[0], t) == []
  {
  }

  lemma StepAt(ss: seq<State>, steps: seq<Step>, i: nat)
    requires IsRun(ss, steps) && i < |steps|
    ensures Inv(ss[i]) && Enabled(ss[i], steps[i]) && ss[i + 1] == Apply(ss[i], steps[i])
  {
    RunKeeps(ss, steps, i);
  }

  /** What a step does to what t has left. */
  lemma RestStep(s: State, a: Step, t: nat)
    requires Inv(s) && Enabled(s, a) && s.ring.readopen && t !in s.killed
    ensures var s' := Apply(s, a);
            if a == RunWrite(t) then
              s.ring.written <= s'.ring.written && Rest(s, t) == s'.ring.written[|s.ring.written|..] + Rest(s', t)
            else if a.StartWrite? && a.t == t then Rest(s, t) == [] && Rest(s', t) == a.bytes
            else Rest(s', t) == Rest(s, t)
  {
    if a == RunWrite(t) {
      WriterTurn(s, t);
    } else if !(a.StartWrite? && a.t == t) {
      RestKept(s, a, t);
    }
    hide Inv, StoreAll, FetchAll, Full, Empty;
  }

  lemma ReadersStay(s: State, a: Step)
    requires Inv(s) && Enabled(s, a) && !a.CloseRead?
    ensures Apply(s, a).ring.readopen == s.ring.readopen
    ensures Apply(s, a).killed == s.killed + if a.Kill? then {a.t} else {}
  {
    if a.RunWrite? {
      StoreAllOk(s.ring, s.threads[a.t].rest);
    } else if a.RunRead? {
      FetchAllOk(s.ring, s.threads[a.t].n);
    }
    hide RingOk, Full, Empty, StoreAll, FetchAll;
  }

  lemma EndsStep(s: State, a: Step)
    requires Inv(s) && Enabled(s, a)
    ensures Apply(s, a).ring.writeopen == (s.ring.writeopen && !a.CloseWrite?)
    ensures Apply(s, a).ring.readopen == (s.ring.readopen && !a.CloseRead?)
  {
    if a.RunWrite? {
      StoreAllOk(s.ring, s.threads[a.t].rest);
    } else if a.RunRead? {
      FetchAllOk(s.ring, s.threads[a.t].n);
    }
    hide RingOk, Full, Empty, StoreAll, FetchAll;
  }

  /** In every state of every run an end is open exactly until it is closed. */
  lemma {:induction false} OpenUntilClosed(ss: seq<State>, steps: seq<Step>, n: nat)
    requires IsRun(ss, steps) && n <= |steps|
    ensures |ss| == |steps| + 1
    ensures ss[n].ring.writeopen <==> forall i :: 0 <= i < n ==> !steps[i].CloseWrite?
    ensures ss[n].ring.readopen <==> forall i :: 0 <= i < n ==> !steps[i].CloseRead?
  {
    if n > 0 {
      hide Inv, Enabled, Apply;
      OpenUntilClosed(ss, steps, n - 1);
      StepAt(ss, steps, n - 1);
      EndsStep(ss[n - 1], steps[n - 1]);
    }
  }

  /** With one writer the pipe carries the bytes of its calls one after the other, and readers have
      got the first of them. */
  lemma OneWriter(ss: seq<State>, steps: seq<Step>, t: nat, n: nat)
    requires IsRun(ss, steps) && n <= |steps|
    requires forall i :: 0 <= i < n ==> !steps[i].CloseRead? && steps[i] != Kill(t)
    requires forall i :: 0 <= i < n && steps[i].RunWrite? ==> steps[i].t == t
    ensures ss[n].ring.taken <= ss[n].ring.written && ss[n].ring.written + Rest(ss[n], t) == Sent(steps, t, n)
  {
    RunKeeps(ss, steps, n);
    EverythingSent(ss, steps, t, n);
    AllContributed(ss, steps, t, n);
  }

  lemma {:induction false} AllContributed(ss: seq<State>, steps: seq<Step>, t: nat, n: nat)
    requires IsRun(ss, steps) && Grows(ss, steps) && n <= |steps|
    requires forall i :: 0 <= i < n && steps[i].RunWrite? ==> steps[i].t == t
    ensures Contributed(ss, steps, t, n) == ss[n].ring.written
  {
    if n > 0 {
      AllContributed(ss, steps, t, n - 1);
      hide Apply, Enabled;
      assert ss[n - 1].ring.written <= ss[n].ring.written;
    }
  }
}
