/** What the log is for (xv6-public/log.c lines 10-28), told by the steps alone: a disk on which a change
    waits until it is logged, logged changes wait until a commit, and a commit makes all of them last at
    once. Every run of WriteAheadLog shows its readers, and leaves to recovery, exactly this. */
module LogSpec {
  import opened Blocks
  import opened BufferCache
  import opened WriteAheadLog
  import opened Options
  import opened Params

  /** What a step means to the contents of the disk: block n changed in memory, the change of block n
      logged, all that is logged committed, memory lost. */
  datatype Event = Change(n: nat, data: Block) | Log(n: nat) | Commit | Lose | Nothing

  /** Block numbers are read off the labels of the buffers; nothing else of the state matters. */
  ghost function EventOf(s: Sys, e: Step): Event {
    match e
    case Modify(_, b, data) => if b < |s.cache.bufs| then Change(s.cache.bufs[b].blockno, data) else Nothing
    case LogAppend(_, b) => if b < |s.cache.bufs| then Log(s.cache.bufs[b].blockno) else Nothing
    case WriteHead(_, _) => Commit
    case Crash => Lose
    case _ => Nothing
  }

  ghost function Events(L: Layout, s: Sys, steps: seq<Step>, s': Sys): seq<Event>
    requires IsRun(L, s, steps, s')
    decreases |steps|
  {
    if steps == [] then [] else [EventOf(s, steps[0])] + Events(L, Apply(L, s, steps[0]), steps[1..], s')
  }

  /** The disk of the specification: changes not yet logged, contents with all logged changes, and
      committed contents. */
  datatype Spec = Spec(pending: map<nat, Block>, latest: seq<Block>, committed: seq<Block>)

  function Do(a: Spec, v: Event): Spec {
    match v
    case Change(n, data) => a.(pending := a.pending[n := data])
    case Log(n) =>
      if n in a.pending && n < |a.latest| then a.(pending := a.pending - {n}, latest := a.latest[n := a.pending[n]])
      else a
    case Commit => a.(committed := a.latest)
    case Lose => Spec(map[], a.committed, a.committed)
    case Nothing => a
  }

  function Play(a: Spec, vs: seq<Event>): Spec
    decreases vs
  {
    if vs == [] then a else Play(Do(a, vs[0]), vs[1..])
  }

  /** The machine stands where the specification stands. */
  ghost predicate Matches(s: Sys, a: Spec) {
    && s.latest == a.latest && s.committed == a.committed && |s.cache.bufs| == NBUF
    && (forall b: nat :: b < NBUF && b in s.modified ==> Waits(s, a, b))
    && (forall n :: n in a.pending ==> exists b: nat :: b < NBUF && b in s.modified && s.cache.bufs[b].Holds(n))
  }

  ghost predicate Waits(s: Sys, a: Spec, b: nat)
    requires b < |s.cache.bufs|
  {
    var x := s.cache.bufs[b];
    x.dev == ROOTDEV && x.blockno in a.pending && a.pending[x.blockno] == x.data
  }

  /** The changed buffers, and the contents, stay as they are. */
  ghost predicate Untouched(s: Sys, s': Sys) {
    && s'.latest == s.latest && s'.committed == s.committed && s'.modified == s.modified
    && |s.cache.bufs| == |s'.cache.bufs| == NBUF
    && forall b: nat :: b < NBUF && b in s.modified ==> SameData(s.cache.bufs[b], s'.cache.bufs[b])
  }

  ghost predicate SameData(x: Buf, y: Buf) {
    y.dev == x.dev && y.blockno == x.blockno && y.data == x.data
  }

  lemma UntouchedMatches(s: Sys, s': Sys, a: Spec)
    requires Matches(s, a) && Untouched(s, s')
    ensures Matches(s', a)
  {
    forall b: nat | b < NBUF && b in s'.modified ensures Waits(s', a, b) {
      assert Waits(s, a, b) && SameData(s.cache.bufs[b], s'.cache.bufs[b]);
    }
    forall n | n in a.pending
      ensures exists b: nat :: b < NBUF && b in s'.modified && s'.cache.bufs[b].Holds(n)
    {
      var b: nat :| b < NBUF && b in s.modified && s.cache.bufs[b].Holds(n);
      assert SameData(s.cache.bufs[b], s'.cache.bufs[b]);
    }
  }

  /** A changed buffer is valid and somebody's. */
  lemma ChangedHeld(L: Layout, s: Sys, b: nat)
    requires Inv(L, s) && b < NBUF && b in s.modified
    ensures s.phase.Running? && s.cache.bufs[b].valid && s.cache.bufs[b].dev == ROOTDEV
    ensures L.Home(s.cache.bufs[b].blockno)
    ensures s.cache.bufs[b].owner.Some? && s.cache.bufs[b].refcnt > 0
  {
    assert BufOk(L, s, b);
    hide DiskOk, OpsOk, BufsOk;
  }

  lemma CacheUntouched(L: Layout, s: Sys, e: Step)
    requires Inv(L, s) && Enabled(L, s, e) && (e.GetBuf? || e.Lock? || e.Unlock? || e.PutBuf? || e.Fill?)
    ensures Untouched(s, Apply(L, s, e))
  {
    var s' := Apply(L, s, e);
    if e.GetBuf? {
      GetKeeps(s.cache, e.n, e.p);
    } else if e.Lock? || e.Unlock? || e.PutBuf? {
      LockedSame(L, s, e);
    }
    hide WellFormed, Get, Put, DiskOk, OpsOk, BufsOk, Listing;
    forall b: nat | b < NBUF && b in s.modified ensures SameData(s.cache.bufs[b], s'.cache.bufs[b]) {
      ChangedHeld(L, s, b);
    }
  }

  lemma OtherUntouched(L: Layout, s: Sys, e: Step)
    requires Inv(L, s) && Enabled(L, s, e)
    requires e.BeginOp? || e.EndOp? || e.LogCheck? || e.CopyToLog? || e.Install? || e.ClearHead? || e.ReadHead?
    ensures Untouched(s, Apply(L, s, e))
  {
    var s' := Apply(L, s, e);
    hide WellFormed, DiskOk, OpsOk, BufsOk, Listing;
    forall b: nat | b < NBUF && b in s.modified ensures SameData(s.cache.bufs[b], s'.cache.bufs[b]) {
      ChangedHeld(L, s, b);
    }
  }

  lemma ModifyMatches(L: Layout, s: Sys, e: Step, a: Spec)
    requires Inv(L, s) && Enabled(L, s, e) && e.Modify? && Matches(s, a)
    ensures Matches(Apply(L, s, e), Do(a, EventOf(s, e)))
  {
    var s', a' := Apply(L, s, e), Do(a, EventOf(s, e));
    OneBufferPerBlock(s.cache);
    hide WellFormed, DiskOk, OpsOk, BufsOk, Listing;
    forall b: nat | b < NBUF && b in s'.modified ensures Waits(s', a', b) {
      assert b != e.b ==> Waits(s, a, b);
    }
    forall n | n in a'.pending
      ensures exists b: nat :: b < NBUF && b in s'.modified && s'.cache.bufs[b].Holds(n)
    {
      if n in a.pending {
        var b: nat :| b < NBUF && b in s.modified && s.cache.bufs[b].Holds(n);
        assert s'.cache.bufs[b].Holds(n);
      } else {
        assert s'.cache.bufs[e.b].Holds(n);
      }
    }
  }

  /** Every log_write, of a block that is listed or not, leaves the buffer as it is and makes its contents
      the latest of the block. */
  lemma AppendEffect(L: Layout, s: Sys, p: Pid, b: nat)
    requires Shape(L, s) && Enabled(L, s, LogAppend(p, b))
    ensures var s', n := Apply(L, s, LogAppend(p, b)), s.cache.bufs[b].blockno;
            && n < L.size && s'.latest == s.latest[n := s.cache.bufs[b].data]
            && s'.cache == s.cache.(bufs := s.cache.bufs[b := s.cache.bufs[b].(dirty := true)])
            && s'.disk == s.disk && s'.committed == s.committed && s'.modified == s.modified - {b}
            && n in s'.lh && s.lh <= s'.lh && |s'.lh| <= |s.lh| + 1 && (n in s.lh ==> s'.lh == s.lh)
  {
  }

  lemma AppendMatches(L: Layout, s: Sys, e: Step, a: Spec)
    requires Inv(L, s) && Enabled(L, s, e) && e.LogAppend? && Matches(s, a)
    ensures Matches(Apply(L, s, e), Do(a, EventOf(s, e)))
  {
    hide WellFormed, DiskOk, OpsOk, BufsOk, Listing, Apply, Matches;
    AppendEffect(L, s, e.p, e.b);
    AppendData(L, s, e, a);
    OneBufferPerBlock(s.cache);
    MatchesLogged(s, Apply(L, s, e), a, e.b, s.cache.bufs[e.b].blockno);
  }

  lemma MatchesLogged(s: Sys, s': Sys, a: Spec, b: nat, n: nat)
    requires Matches(s, a) && b < NBUF && s.cache.bufs[b].Holds(n) && n < |s.latest| && UniqueBlocks(s.cache.bufs)
    requires s.cache.bufs[b].data == if n in a.pending then a.pending[n] else a.latest[n]
    requires s'.latest == s.latest[n := s.cache.bufs[b].data] && s'.committed == s.committed
    requires s'.modified == s.modified - {b}
    requires s'.cache == s.cache.(bufs := s.cache.bufs[b := s.cache.bufs[b].(dirty := true)])
    ensures Matches(s', Do(a, Log(n)))
  {
    var a' := Do(a, Log(n));
    forall c: nat | c < NBUF && c in s'.modified ensures Waits(s', a', c) {
      assert Waits(s, a, c);
    }
    forall m | m in a'.pending
      ensures exists c: nat :: c < NBUF && c in s'.modified && s'.cache.bufs[c].Holds(m)
    {
      var c: nat :| c < NBUF && c in s.modified && s.cache.bufs[c].Holds(m);
      assert s'.cache.bufs[c].Holds(m);
    }
  }

  /** The contents that a log_write finds are those of the last change, if there is one, else the latest. */
  lemma AppendData(L: Layout, s: Sys, e: Step, a: Spec)
    requires Inv(L, s) && Enabled(L, s, e) && e.LogAppend? && Matches(s, a)
    ensures var n := s.cache.bufs[e.b].blockno;
            && n < |a.latest| && s.cache.bufs[e.b].data == (if n in a.pending then a.pending[n] else a.latest[n])
            && (n in a.pending <==> e.b in s.modified)
  {
    BlockWaits(s, a, e.b);
    assert BufOk(L, s, e.b);
    hide WellFormed, DiskOk, BufsOk, Listing;
  }

  /** A block waits exactly while its buffer is changed. */
  lemma BlockWaits(s: Sys, a: Spec, b: nat)
    requires WellFormed(s.cache) && Matches(s, a) && b < NBUF && s.cache.bufs[b].dev == ROOTDEV
    ensures var n := s.cache.bufs[b].blockno;
            && (n in a.pending <==> b in s.modified)
            && (n in a.pending ==> a.pending[n] == s.cache.bufs[b].data)
  {
    var n := s.cache.bufs[b].blockno;
    OneBufferPerBlock(s.cache);
    hide WellFormed;
    if n in a.pending {
      var c: nat :| c < NBUF && c in s.modified && s.cache.bufs[c].Holds(n);
      assert c == b;
    }
    assert b in s.modified ==> Waits(s, a, b);
  }

  lemma StepMatches(L: Layout, s: Sys, e: Step, a: Spec)
    requires Inv(L, s) && Enabled(L, s, e) && Matches(s, a)
    ensures Matches(Apply(L, s, e), Do(a, EventOf(s, e)))
  {
    hide Shape, BufsOk, DiskOk, OpsOk, Listing, Enabled, Apply, Matches, Untouched, Do;
    if e.Modify? {
      ModifyMatches(L, s, e, a);
    } else if e.LogAppend? {
      AppendMatches(L, s, e, a);
    } else if e.WriteHead? {
      CommitMatches(L, s, e, a);
    } else if e.Crash? {
      CrashMatches(L, s, a);
    } else {
      NothingHappens(a);
      if e.GetBuf? || e.Lock? || e.Unlock? || e.PutBuf? || e.Fill? {
        CacheUntouched(L, s, e);
      } else {
        OtherUntouched(L, s, e);
      }
      UntouchedMatches(s, Apply(L, s, e), a);
    }
  }

  lemma NothingHappens(a: Spec)
    ensures Do(a, Nothing) == a
  {
  }

  lemma CrashMatches(L: Layout, s: Sys, a: Spec)
    requires Inv(L, s) && Matches(s, a)
    ensures Matches(Apply(L, s, Crash), Do(a, Lose))
  {
    hide WellFormed, DiskOk, OpsOk, BufsOk, Listing;
  }

  lemma CommitMatches(L: Layout, s: Sys, e: Step, a: Spec)
    requires Inv(L, s) && Enabled(L, s, e) && e.WriteHead? && Matches(s, a)
    ensures Matches(Apply(L, s, e), Do(a, EventOf(s, e)))
  {
    hide WellFormed, DiskOk, OpsOk, BufsOk, Listing;
    CopyingQuiet(L, s);
    assert forall n :: n in a.pending ==> false;
  }

  lemma {:induction false} RunMatches(L: Layout, s: Sys, steps: seq<Step>, s': Sys, a: Spec)
    requires Inv(L, s) && IsRun(L, s, steps, s') && AreaSuffices(L) && Matches(s, a)
    ensures Matches(s', Play(a, Events(L, s, steps, s')))
    decreases |steps|
  {
    hide Inv, Enabled, Apply, Shape, Matches, AreaSuffices, EventOf, Do;
    if steps != [] {
      var e, vs := steps[0], Events(L, s, steps, s');
      SlotWriteFits(L, s, e);
      StepKeeps(L, s, e);
      StepMatches(L, s, e, a);
      RunMatches(L, Apply(L, s, e), steps[1..], s', Do(a, EventOf(s, e)));
      assert vs[0] == EventOf(s, e) && vs[1..] == Events(L, Apply(L, s, e), steps[1..], s');
    }
  }

  /** Every run from mount, on a log area that suffices: a crash would leave every home block with the
      committed contents of the specification, and who holds a block reads its last change, or, where
      none waits to be logged, the last logged. */
  lemma EveryRunTold(L: Layout, disk: seq<Block>, steps: seq<Step>, s': Sys)
    requires L.Valid() && AreaSuffices(L)
    requires |disk| == L.size && HeadOk(disk[L.logstart]) && Head(disk[L.logstart]) == []
    requires IsRun(L, Boot(disk), steps, s')
    ensures var a := Play(Spec(map[], disk, disk), Events(L, Boot(disk), steps, s'));
            && LogInBounds(L, s'.disk) && |a.latest| == |a.committed| == L.size && |s'.cache.bufs| == NBUF
            && (forall n: nat :: L.Home(n) ==> Recovered(L, s'.disk, n) == a.committed[n])
            && (!InRecovery(s') ==> forall b: nat, p, n: nat :: L.Home(n) && HeldBy(s'.cache, b, p, n) ==>
                  s'.cache.bufs[b].data == if n in a.pending then a.pending[n] else a.latest[n])
  {
    var a := Play(Spec(map[], disk, disk), Events(L, Boot(disk), steps, s'));
    EveryRunIsCrashSafe(L, disk, steps, s');
    BootOk(L, disk);
    RunMatches(L, Boot(disk), steps, s', Spec(map[], disk, disk));
    hide IsRun, Play, Events, Recovered;
    if !InRecovery(s') {
      forall b: nat, p, n: nat | L.Home(n) && HeldBy(s'.cache, b, p, n)
        ensures s'.cache.bufs[b].data == if n in a.pending then a.pending[n] else a.latest[n]
      {
        ReadsTold(L, s', a, b, p, n);
      }
    }
  }

  lemma ReadsTold(L: Layout, s: Sys, a: Spec, b: nat, p: Pid, n: nat)
    requires Inv(L, s) && Matches(s, a) && !InRecovery(s) && L.Home(n) && HeldBy(s.cache, b, p, n)
    ensures n < |a.latest| && s.cache.bufs[b].data == if n in a.pending then a.pending[n] else a.latest[n]
  {
    BlockWaits(s, a, b);
    assert BufOk(L, s, b);
    hide WellFormed, DiskOk, BufsOk, Listing;
  }

  // ---------------------------------------------------------------- the specification in words

  /** The change of block n that waits to be logged after these events. */
  function Waiting(vs: seq<Event>, n: nat): Option<Block> {
    if vs == [] then None
    else
      match vs[|vs| - 1]
      case Change(m, data) => if m == n then Some(data) else Waiting(vs[..|vs| - 1], n)
      case Log(m) => if m == n then None else Waiting(vs[..|vs| - 1], n)
      case Lose => None
      case _ => Waiting(vs[..|vs| - 1], n)
  }

  /** The change of block n that was logged last. */
  function LastLogged(vs: seq<Event>, n: nat): Option<Block> {
    if vs == [] then None
    else
      var before, v := vs[..|vs| - 1], vs[|vs| - 1];
      if v == Log(n) && Waiting(before, n).Some? then Waiting(before, n) else LastLogged(before, n)
  }

  lemma {:induction false} PlayLast(a: Spec, vs: seq<Event>, v: Event)
    ensures Play(a, vs + [v]) == Do(Play(a, vs), v)
    decreases vs
  {
    hide Do;
    if vs == [] {
      assert (vs + [v])[1..] == [];
    } else {
      PlayLast(Do(a, vs[0]), vs[1..], v);
      assert (vs + [v])[1..] == vs[1..] + [v];
    }
  }

  /** Until memory is lost, the latest contents of a block are those of the last change of it that was
      logged. */
  lemma {:induction false} LatestIsLastLogged(disk: seq<Block>, vs: seq<Event>, n: nat)
    requires n < |disk| && forall i :: 0 <= i < |vs| ==> vs[i] != Lose
    ensures var a := Play(Spec(map[], disk, disk), vs);
            && |a.latest| == |disk|
            && (n in a.pending <==> Waiting(vs, n).Some?) && (n in a.pending ==> Waiting(vs, n) == Some(a.pending[n]))
            && a.latest[n] == match LastLogged(vs, n) case None => disk[n] case Some(d) => d
  {
    if vs != [] {
      var before, v := vs[..|vs| - 1], vs[|vs| - 1];
      LatestIsLastLogged(disk, before, n);
      PlayLast(Spec(map[], disk, disk), before, v);
      assert before + [v] == vs;
      hide Play;
    }
  }
}
