/** xv6-public/log.c as code over the buffer cache: the loops of write_log, write_head,
    install_trans and log_write, and commit and recover_from_log built from them, run by one
    process up to its first sleep. Each method says exactly which blocks it writes
    to the disk and in which order; the lemmas show what a crash between any two of those writes
    leaves, for commit and for recovery interrupted any number of times. */
module LogCode {
  import opened Blocks
  import opened BufferCache
  import opened LogRuns
  import opened WriteAheadLog
  import opened Options
  import opened Params

  // ---------------------------------------------------------------- write sequences

  function ApplyWrites(disk: seq<Block>, ws: seq<Write>): (d: seq<Block>)
    requires forall w :: w in ws ==> w.blockno < |disk|
    ensures |d| == |disk|
  {
    if ws == [] then disk
    else ApplyWrites(disk, ws[..|ws| - 1])[ws[|ws| - 1].blockno := ws[|ws| - 1].data]
  }

  /** write_log: slot i gets the cached contents of the i-th listed block. */
  function LogWrites(L: Layout, payload: seq<Block>): seq<Write> {
    seq(|payload|, i requires 0 <= i < |payload| => Write(L.Slot(i), payload[i]))
  }

  /** install_trans: the i-th listed block gets the contents of slot i. */
  function InstallWrites(lh: seq<Word32>, payload: seq<Block>): seq<Write>
    requires |payload| == |lh|
  {
    seq(|lh|, i requires 0 <= i < |lh| => Write(lh[i], payload[i]))
  }

  /** All the disk writes of commit, given the header block as it was. */
  function CommitWrites(L: Layout, lh: seq<Word32>, payload: seq<Block>, header: Block): seq<Write>
    requires |payload| == |lh| <= LOGSIZE
  {
    LogWrites(L, payload) + [Write(L.logstart, SetHead(header, lh))]
      + InstallWrites(lh, payload) + [Write(L.logstart, SetHead(SetHead(header, lh), []))]
  }

  function Slots(L: Layout, disk: seq<Block>, k: nat): (payload: seq<Block>)
    requires |disk| == L.size && L.Valid() && k < L.nlog
    ensures |payload| == k
  {
    seq(k, i requires 0 <= i < k => disk[L.Slot(i)])
  }

  /** All the disk writes of recover_from_log. */
  function RecoverWrites(L: Layout, disk: seq<Block>): seq<Write>
    requires LogInBounds(L, disk)
  {
    var h := Head(disk[L.logstart]);
    InstallWrites(h, Slots(L, disk, |h|)) + [Write(L.logstart, SetHead(disk[L.logstart], []))]
  }

  ghost predicate InRange(ws: seq<Write>, n: nat) { forall w :: w in ws ==> w.blockno < n }

  lemma {:induction false} ApplyAppend(disk: seq<Block>, a: seq<Write>, b: seq<Write>)
    requires InRange(a, |disk|) && InRange(b, |disk|)
    ensures InRange(a + b, |disk|)
    ensures ApplyWrites(disk, a + b) == ApplyWrites(ApplyWrites(disk, a), b)
    decreases |b|
  {
    if b == [] {
      assert a + b == a;
    } else {
      var b' := b[..|b| - 1];
      ApplyAppend(disk, a, b');
      assert (a + b)[..|a + b| - 1] == a + b';
    }
  }

  lemma ApplyLast(disk: seq<Block>, ws: seq<Write>, w: Write)
    requires InRange(ws, |disk|) && w.blockno < |disk|
    ensures InRange(ws + [w], |disk|) && ApplyWrites(disk, ws + [w]) == ApplyWrites(disk, ws)[w.blockno := w.data]
  {
    assert (ws + [w])[..|ws|] == ws;
  }

  lemma {:induction false} ApplyUntouched(disk: seq<Block>, ws: seq<Write>, n: nat)
    requires InRange(ws, |disk|) && n < |disk| && forall w :: w in ws ==> w.blockno != n
    ensures ApplyWrites(disk, ws)[n] == disk[n]
    decreases |ws|
  {
    if ws != [] {
      ApplyUntouched(disk, ws[..|ws| - 1], n);
    }
  }

  /** Writes to distinct blocks all land. */
  lemma {:induction false} ApplyLands(disk: seq<Block>, ws: seq<Write>, i: nat)
    requires InRange(ws, |disk|) && i < |ws|
    requires forall a, b :: 0 <= a < b < |ws| ==> ws[a].blockno != ws[b].blockno
    ensures ws[i].blockno < |disk| && ApplyWrites(disk, ws)[ws[i].blockno] == ws[i].data
    decreases |ws|
  {
    assert ws[i] in ws;
    if i < |ws| - 1 {
      ApplyLands(disk, ws[..|ws| - 1], i);
    }
  }

  // ---------------------------------------------------------------- crashes

  /** A disk at rest: nothing listed in its header. */
  ghost predicate AtRest(L: Layout, disk: seq<Block>) {
    L.Valid() && |disk| == L.size && HeadOk(disk[L.logstart]) && Head(disk[L.logstart]) == []
  }

  lemma SlotsWritten(L: Layout, disk: seq<Block>, payload: seq<Block>, k: nat)
    requires L.Valid() && |disk| == L.size && |payload| < L.nlog && k <= |payload|
    ensures InRange(LogWrites(L, payload)[..k], L.size)
    ensures var d := ApplyWrites(disk, LogWrites(L, payload)[..k]);
            && d[L.logstart] == disk[L.logstart]
            && (forall n: nat :: L.Home(n) ==> d[n] == disk[n])
            && (forall i :: 0 <= i < k ==> d[L.Slot(i)] == payload[i])
  {
    var ws := LogWrites(L, payload)[..k];
    ApplyUntouched(disk, ws, L.logstart);
    forall n: nat | L.Home(n)
      ensures ApplyWrites(disk, ws)[n] == disk[n]
    {
      ApplyUntouched(disk, ws, n);
    }
    forall i | 0 <= i < k
      ensures ApplyWrites(disk, ws)[L.Slot(i)] == payload[i]
    {
      ApplyLands(disk, ws, i);
    }
  }

  lemma HomesWritten(L: Layout, disk: seq<Block>, lh: seq<Word32>, payload: seq<Block>, k: nat)
    requires L.Valid() && |disk| == L.size && ListOk(L, lh) && |payload| == |lh| && k <= |lh|
    ensures InRange(InstallWrites(lh, payload)[..k], L.size)
    ensures var d := ApplyWrites(disk, InstallWrites(lh, payload)[..k]);
            && (forall n: nat :: n < L.size && n !in lh[..k] ==> d[n] == disk[n])
            && (forall i :: 0 <= i < k ==> lh[i] < L.size && d[lh[i]] == payload[i])
  {
    var ws := InstallWrites(lh, payload)[..k];
    forall w | w in ws
      ensures w.blockno in lh[..k] && w.blockno < L.size
    {
      var i :| 0 <= i < k && ws[i] == w;
      assert lh[i] in lh && lh[..k][i] == lh[i];
    }
    forall n: nat | n < L.size && n !in lh[..k]
      ensures ApplyWrites(disk, ws)[n] == disk[n]
    {
      ApplyUntouched(disk, ws, n);
    }
    forall i | 0 <= i < k
      ensures lh[i] < L.size && ApplyWrites(disk, ws)[lh[i]] == payload[i]
    {
      assert lh[i] in lh;
      ApplyLands(disk, ws, i);
    }
  }

  /** What a crash leaves when the header lists `lh` and its slots hold `payload`. */
  lemma ListedRecovers(L: Layout, d: seq<Block>, lh: seq<Word32>, payload: seq<Block>)
    requires L.Valid() && |d| == L.size && ListOk(L, lh) && |payload| == |lh|
    requires HeadOk(d[L.logstart]) && Head(d[L.logstart]) == lh
    requires forall i :: 0 <= i < |lh| ==> d[L.Slot(i)] == payload[i]
    ensures LogInBounds(L, d)
    ensures forall i :: 0 <= i < |lh| ==> L.Home(lh[i]) && Recovered(L, d, lh[i]) == payload[i]
    ensures forall n: nat :: L.Home(n) && n !in lh ==> Recovered(L, d, n) == d[n]
  {
    forall i | 0 <= i < |lh|
      ensures L.Home(lh[i]) && Recovered(L, d, lh[i]) == payload[i]
    {
      assert lh[i] in lh;
      ReplayAt(L, d, lh, i);
    }
    forall n: nat | L.Home(n) && n !in lh
      ensures Recovered(L, d, n) == d[n]
    {
      ReplayOff(L, d, lh, n);
    }
  }

  /** Commit's writes up to the header: the slots, then the header that lists them. */
  lemma HeaderWritten(L: Layout, disk: seq<Block>, lh: seq<Word32>, payload: seq<Block>)
    requires AtRest(L, disk) && ListOk(L, lh) && |payload| == |lh|
    ensures var ws := LogWrites(L, payload) + [Write(L.logstart, SetHead(disk[L.logstart], lh))];
            && InRange(ws, L.size)
            && var d := ApplyWrites(disk, ws);
               && d[L.logstart] == SetHead(disk[L.logstart], lh)
               && (forall n: nat :: L.Home(n) ==> d[n] == disk[n])
               && (forall i :: 0 <= i < |lh| ==> d[L.Slot(i)] == payload[i])
  {
    var a, b := LogWrites(L, payload), [Write(L.logstart, SetHead(disk[L.logstart], lh))];
    assert a[..|lh|] == a;
    SlotsWritten(L, disk, payload, |lh|);
    ApplyAppend(disk, a, b);
    assert b[..0] == [] && ApplyWrites(ApplyWrites(disk, a), []) == ApplyWrites(disk, a);
  }

  /** Crash atomicity of commit: after any number k of its disk writes, recovery yields the old
      contents of every home block if the header write is not among them, and otherwise the new
      contents of every listed block and the old ones of the rest. */
  lemma CommitCrash(L: Layout, disk: seq<Block>, lh: seq<Word32>, payload: seq<Block>, k: nat)
    requires AtRest(L, disk) && ListOk(L, lh) && |payload| == |lh|
    requires k <= |CommitWrites(L, lh, payload, disk[L.logstart])|
    ensures var ws := CommitWrites(L, lh, payload, disk[L.logstart])[..k];
            && InRange(ws, L.size)
            && var d := ApplyWrites(disk, ws);
               && LogInBounds(L, d)
               && (forall n: nat :: L.Home(n) && (k <= |lh| || n !in lh) ==> Recovered(L, d, n) == disk[n])
               && (k > |lh| ==> forall i :: 0 <= i < |lh| ==> L.Home(lh[i]) && Recovered(L, d, lh[i]) == payload[i])
  {
    var all := CommitWrites(L, lh, payload, disk[L.logstart]);
    var a := LogWrites(L, payload);
    var h := SetHead(disk[L.logstart], lh);
    if k <= |lh| {
      assert all[..k] == a[..k];
      SlotsWritten(L, disk, payload, k);
      ListedRecovers(L, ApplyWrites(disk, a[..k]), [], []);
    } else {
      var b := a + [Write(L.logstart, h)];
      var d := ApplyWrites(disk, b);
      HeaderWritten(L, disk, lh, payload);
      HeadOfSetHead(disk[L.logstart], lh);
      var j := k - |lh| - 1;
      if j <= |lh| {
        assert all[..k] == b + InstallWrites(lh, payload)[..j];
        InstallCrash(L, d, lh, payload, j);
        ApplyAppend(disk, b, InstallWrites(lh, payload)[..j]);
      } else {
        var c := InstallWrites(lh, payload);
        assert all[..k] == b + (c + [Write(L.logstart, SetHead(h, []))]);
        ClearCrash(L, d, lh, payload);
        ApplyAppend(disk, b, c + [Write(L.logstart, SetHead(h, []))]);
      }
    }
  }

  /** Installing while the header lists lh: recovery would give the same. */
  lemma InstallCrash(L: Layout, d: seq<Block>, lh: seq<Word32>, payload: seq<Block>, j: nat)
    requires L.Valid() && |d| == L.size && ListOk(L, lh) && |payload| == |lh| && j <= |lh|
    requires HeadOk(d[L.logstart]) && Head(d[L.logstart]) == lh
    requires forall i :: 0 <= i < |lh| ==> d[L.Slot(i)] == payload[i]
    ensures InRange(InstallWrites(lh, payload)[..j], L.size)
    ensures var e := ApplyWrites(d, InstallWrites(lh, payload)[..j]);
            && LogInBounds(L, e) && e[L.logstart] == d[L.logstart]
            && (forall i :: 0 <= i < |lh| ==> e[L.Slot(i)] == payload[i])
            && (forall i :: 0 <= i < |lh| ==> L.Home(lh[i]) && Recovered(L, e, lh[i]) == payload[i])
            && (forall n: nat :: L.Home(n) && n !in lh ==> Recovered(L, e, n) == d[n])
  {
    hide ApplyWrites, Recovered, Head, HeadOk;
    HomesWritten(L, d, lh, payload, j);
    var e := ApplyWrites(d, InstallWrites(lh, payload)[..j]);
    hide InstallWrites;
    assert forall n :: n in lh[..j] ==> n in lh;
    assert forall i :: 0 <= i < |lh| ==> L.Slot(i) !in lh[..j];
    ListedRecovers(L, e, lh, payload);
  }

  /** Installing everything and clearing the header leaves the disk at rest and up to date. */
  lemma ClearCrash(L: Layout, d: seq<Block>, lh: seq<Word32>, payload: seq<Block>)
    requires L.Valid() && |d| == L.size && ListOk(L, lh) && |payload| == |lh| && HeadOk(d[L.logstart])
    ensures var ws := InstallWrites(lh, payload) + [Write(L.logstart, SetHead(d[L.logstart], []))];
            && InRange(ws, L.size)
            && var e := ApplyWrites(d, ws);
               && AtRest(L, e) && LogInBounds(L, e)
               && (forall i :: 0 <= i < |lh| ==>
                     L.Home(lh[i]) && e[lh[i]] == payload[i] && Recovered(L, e, lh[i]) == payload[i])
               && (forall n: nat :: L.Home(n) && n !in lh ==> e[n] == d[n] && Recovered(L, e, n) == d[n])
  {
    hide ApplyWrites, Recovered, Head, HeadOk, SetHead;
    var a, w := InstallWrites(lh, payload), Write(L.logstart, SetHead(d[L.logstart], []));
    assert a[..|lh|] == a && lh[..|lh|] == lh;
    HomesWritten(L, d, lh, payload, |lh|);
    ApplyLast(d, a, w);
    hide InstallWrites;
    HeadOfSetHead(d[L.logstart], []);
    assert forall i :: 0 <= i < |lh| ==> lh[i] in lh;
    ListedRecovers(L, ApplyWrites(d, a + [w]), [], []);
  }

  // ---------------------------------------------------------------- interrupted recovery

  ghost predicate Recoverable(L: Layout, disk: seq<Block>) {
    L.Valid() && |disk| == L.size && HeadOk(disk[L.logstart]) && ListOk(L, Head(disk[L.logstart]))
  }

  /** Recovery cut short after any k of its writes leaves a disk from which recovery yields the
      same; run to its end it puts exactly that on the disk and empties the log. */
  lemma RecoverCrash(L: Layout, disk: seq<Block>, k: nat)
    requires Recoverable(L, disk) && k <= |RecoverWrites(L, disk)|
    ensures InRange(RecoverWrites(L, disk)[..k], L.size)
    ensures var d := ApplyWrites(disk, RecoverWrites(L, disk)[..k]);
            && Recoverable(L, d)
            && (forall n: nat :: L.Home(n) ==> Recovered(L, d, n) == Recovered(L, disk, n))
            && (k == |RecoverWrites(L, disk)| ==>
                  AtRest(L, d) && forall n: nat :: L.Home(n) ==> d[n] == Recovered(L, disk, n))
  {
    hide ApplyWrites, Recovered, Head, HeadOk, SetHead;
    var h := Head(disk[L.logstart]);
    if k <= |h| {
      RecoverPart(L, disk, k);
    } else {
      assert RecoverWrites(L, disk)[..k] == RecoverWrites(L, disk);
      RecoverFull(L, disk);
    }
  }

  lemma RecoverPart(L: Layout, disk: seq<Block>, k: nat)
    requires Recoverable(L, disk) && k <= |Head(disk[L.logstart])|
    ensures InRange(RecoverWrites(L, disk)[..k], L.size)
    ensures var d := ApplyWrites(disk, RecoverWrites(L, disk)[..k]);
            Recoverable(L, d) && forall n: nat :: L.Home(n) ==> Recovered(L, d, n) == Recovered(L, disk, n)
  {
    hide ApplyWrites, Recovered, Head, HeadOk, SetHead, Distinct;
    var h := Head(disk[L.logstart]);
    var payload := Slots(L, disk, |h|);
    assert RecoverWrites(L, disk)[..k] == InstallWrites(h, payload)[..k];
    ListedRecovers(L, disk, h, payload);
    InstallCrash(L, disk, h, payload, k);
    hide InstallWrites, RecoverWrites;
    var d := ApplyWrites(disk, InstallWrites(h, payload)[..k]);
    forall n: nat | L.Home(n)
      ensures Recovered(L, d, n) == Recovered(L, disk, n)
    {
      if n in h {
        var i :| 0 <= i < |h| && h[i] == n;
        assert Recovered(L, d, h[i]) == payload[i];
      }
    }
  }

  lemma RecoverFull(L: Layout, disk: seq<Block>)
    requires Recoverable(L, disk)
    ensures InRange(RecoverWrites(L, disk), L.size)
    ensures var d := ApplyWrites(disk, RecoverWrites(L, disk));
            && Recoverable(L, d) && AtRest(L, d)
            && forall n: nat :: L.Home(n) ==>
                  Recovered(L, d, n) == Recovered(L, disk, n) && d[n] == Recovered(L, disk, n)
  {
    hide ApplyWrites, Recovered, Head, HeadOk, SetHead;
    var h := Head(disk[L.logstart]);
    var payload := Slots(L, disk, |h|);
    ListedRecovers(L, disk, h, payload);
    ClearCrash(L, disk, h, payload);
    var d := ApplyWrites(disk, RecoverWrites(L, disk));
    hide InstallWrites, RecoverWrites;
    forall n: nat | L.Home(n)
      ensures Recovered(L, d, n) == Recovered(L, disk, n) && d[n] == Recovered(L, disk, n)
    {
      if n in h {
        var i :| 0 <= i < |h| && h[i] == n;
        assert Recovered(L, d, h[i]) == payload[i] && d[h[i]] == payload[i];
      }
    }
  }

  /** The disk after recoveries that crash after ks[0], ks[1], ... writes. */
  ghost function AfterCrashes(L: Layout, disk: seq<Block>, ks: seq<nat>): seq<Block>
    requires Recoverable(L, disk)
    decreases |ks|
  {
    if ks == [] then disk
    else
      var all := RecoverWrites(L, disk);
      var k := if ks[0] <= |all| then ks[0] else |all|;
      RecoverCrash(L, disk, k);
      AfterCrashes(L, ApplyWrites(disk, all[..k]), ks[1..])
  }

  /** However many times recovery itself crashes, the recovery that completes gives every home
      block what the first disk stood for. */
  lemma {:induction false} RepeatedCrashes(L: Layout, disk: seq<Block>, ks: seq<nat>)
    requires Recoverable(L, disk)
    ensures var d := AfterCrashes(L, disk, ks);
            && Recoverable(L, d) && InRange(RecoverWrites(L, d), L.size)
            && var e := ApplyWrites(d, RecoverWrites(L, d));
               AtRest(L, e) && forall n: nat :: L.Home(n) ==> e[n] == Recovered(L, disk, n)
    decreases |ks|
  {
    var all := RecoverWrites(L, disk);
    if ks == [] {
      assert all[..|all|] == all;
      RecoverCrash(L, disk, |all|);
    } else {
      var k := if ks[0] <= |all| then ks[0] else |all|;
      RecoverCrash(L, disk, k);
      RepeatedCrashes(L, ApplyWrites(disk, all[..k]), ks[1..]);
    }
  }

  // ---------------------------------------------------------------- the code

  class Log {
    const bc: Bcache
    const start: nat
    const size: nat      // sb.nlog
    var outstanding: nat
    var committing: bool
    var n: nat           // lh.n
    var block: seq<Word32>

    ghost function Layout(): Layout
      reads bc
    {
      WriteAheadLog.Layout(|bc.disk|, start, size)
    }

    ghost function Lh(): seq<Word32>
      reads this
      requires n <= |block|
    {
      block[..n]
    }

    ghost predicate Valid()
      reads this, bc
    {
      && bc.Valid()
      && Layout().Valid()
      && |block| == LOGSIZE && n <= LOGSIZE
    }

    /** The machine stands where the disk and the cache stand. Any disk and cache have such a state. */
    ghost predicate Tracks(s: Sys)
      reads bc
    {
      s.cache == bc.Abs() && s.disk == bc.disk && Shape(Layout(), s) && Quiet(s)
    }

    /** The machine, moved to where they stand now. */
    ghost function Now(s: Sys, phase: Phase): Sys
      reads bc
    {
      s.(cache := bc.Abs(), disk := bc.disk, phase := phase)
    }

    /** There is a run from s to the state that stands there now, in this phase. */
    ghost predicate RanTo(s: Sys, phase: Phase)
      reads bc
    {
      Tracks(Now(s, phase)) && Reaches(Layout(), s, Now(s, phase))
    }

    lemma Stands(s: Sys)
      requires Tracks(s)
      ensures RanTo(s, s.phase) && Reaches(Layout(), s, s)
    {
      Here(Layout(), s);
    }

    /** The machine stands where the whole log stands: disk, cache, list, operations, and the commit that
        the last of them must run. */
    ghost predicate Mirrors(s: Sys)
      requires n <= |block|
      reads this, bc
    {
      && s.cache == bc.Abs() && s.disk == bc.disk && s.lh == Lh() && Shape(Layout(), s)
      && Outstanding(s.ops) == outstanding && (committing ==> outstanding == 0)
      && (if committing then s.lh != [] ==> !s.phase.Running? else s.phase.Running?)
    }

    /** One pass of begin_op's loop under log.lock: admitted, or put to sleep. For process p it is the
        step of the machine. */
    method BeginOp(ghost p: Pid, ghost s: Sys) returns (admitted: bool)
      requires Valid()
      modifies this`outstanding
      ensures Valid()
      ensures admitted <==> !committing && n + (old(outstanding) + 1) * MAXOPBLOCKS <= LOGSIZE
      ensures outstanding == if admitted then old(outstanding) + 1 else old(outstanding)
      ensures old(Mirrors(s)) && p < NPROC && s.ops[p].Idle? ==>
                if admitted then
                  var s' := s.(ops := s.ops[p := Active(0, false)]);
                  Mirrors(s') && Reaches(Layout(), s, s')
                else !committing ==> !Enabled(Layout(), s, WriteAheadLog.BeginOp(p))
    {
      hide WellFormed, Linked, Reaches, Outstanding;
      if committing {
        return false;
      } else if n + (outstanding + 1) * MAXOPBLOCKS > LOGSIZE {
        return false;
      } else {
        if Mirrors(s) && p < NPROC && s.ops[p].Idle? {
          BeginRuns(Layout(), s, p);
        }
        outstanding := outstanding + 1;
        return true;
      }
    }

    /** end_op under log.lock; None is the panic "log.committing". The caller that gets Some(true)
        runs Commit and then EndCommit. */
    method EndOp(ghost p: Pid, ghost s: Sys) returns (doCommit: Option<bool>)
      requires Valid() && outstanding > 0
      modifies this`outstanding, this`committing
      ensures Valid() && outstanding == old(outstanding) - 1
      ensures doCommit.None? <==> old(committing)
      ensures doCommit == Some(true) <==> !old(committing) && outstanding == 0
      ensures committing == (old(committing) || outstanding == 0)
      ensures old(Mirrors(s)) && Enabled(Layout(), s, WriteAheadLog.EndOp(p)) && doCommit.Some? ==>
                var s' := s.(ops := s.ops[p := Idle], phase := if doCommit.value && n > 0 then Copying(0) else Running);
                Mirrors(s') && Reaches(Layout(), s, s')
    {
      hide WellFormed, Linked, Reaches, Outstanding;
      if Mirrors(s) && Enabled(Layout(), s, WriteAheadLog.EndOp(p)) {
        EndRuns(Layout(), s, p);
      }
      outstanding := outstanding - 1;
      if committing { return None; }
      if outstanding == 0 {
        committing := true;
        return Some(true);
      }
      return Some(false);
    }

    method EndCommit()
      requires Valid()
      modifies this`committing
      ensures Valid() && !committing
    {
      committing := false;
    }

    /** log_write of a held buffer: absorbed if its block is listed, else appended; the buffer is
        pinned by its dirty flag. False is one of its panics. */
    method LogWrite(b: nat, ghost p: Pid, ghost s: Sys) returns (ok: bool)
      requires Valid() && b < NBUF && bc.bufs[b].blockno < UINT_LIMIT
      modifies this`n, this`block, bc`bufs
      ensures Valid()
      ensures ok <==> old(n) < LOGSIZE && old(n) + 1 < size && outstanding >= 1
      ensures !ok ==> Lh() == old(Lh()) && bc.bufs == old(bc.bufs)
      ensures ok ==>
                var m := old(bc.bufs)[b].blockno;
                && Lh() == (if m in old(Lh()) then old(Lh()) else old(Lh()) + [m])
                && bc.bufs == old(bc.bufs)[b := old(bc.bufs)[b].(dirty := true)]
      ensures ok && old(Mirrors(s)) && MayLog(old(Layout()), s, p, b) ==>
                && s.cache.bufs[b].blockno < |s.latest|
                && Mirrors(AfterLog(s, p, b)) && Reaches(Layout(), s, AfterLog(s, p, b))
    {
      hide WellFormed, Linked, Reaches, Outstanding, MayLog;
      if n >= LOGSIZE || n >= size - 1 { return false; }
      if outstanding < 1 { return false; }
      var m := bc.bufs[b].blockno;
      var i := 0;
      while i < n && block[i] != m
        invariant 0 <= i <= n
        invariant m !in block[..i]
      {
        i := i + 1;
      }
      ghost var was := block;
      block := block[i := m];
      if i == n {
        n := n + 1;
        assert Lh() == was[..i] + [m];
      } else {
        assert was[..n][i] == m && Lh() == was[..n];
      }
      if old(Mirrors(s)) && MayLog(Layout(), s, p, b) {
        LogWriteRuns(Layout(), s, p, b);
      }
      bc.SetDirty(b);
      return true;
    }

    /** Every buffer is locked by whoever had it locked before, and can be recycled if it could. */
    twostate predicate SameLocks()
      reads bc
    {
      Settled(old(bc.bufs), bc.bufs)
    }

    /** A bread of one of the blocks that lh is about has panicked, or sleeps on a lock that was taken
        before. */
    twostate predicate Stuck(lh: seq<Word32>)
      reads this, bc
    {
      exists m :: Concerns(Layout(), lh, m) && Blocked(old(bc.bufs), bc.bufs, m)
    }

    /** It does not come to that when no buffer is locked and two can be recycled. */
    twostate predicate Completes(ok: bool, lh: seq<Word32>)
      reads this, bc
    {
      (!ok ==> Stuck(lh)) && (Ready(old(bc.bufs)) ==> ok)
    }

    /** Every dirty buffer was dirty before, and none of them is in `clean`. */
    twostate predicate DirtyOnly(clean: seq<nat>)
      reads bc
    {
      DirtyFrom(old(bc.bufs), bc.bufs, clean)
    }

    constructor (bc: Bcache, start: nat, size: nat)
      requires bc.Valid() && start + size <= |bc.disk| <= UINT_LIMIT && size >= 2
      ensures Valid() && this.bc == bc && this.start == start && this.size == size
      ensures outstanding == 0 && !committing && Lh() == []
    {
      this.bc, this.start, this.size := bc, start, size;
      outstanding, committing, n, block := 0, false, 0, seq(LOGSIZE, _ => 0);
    }

    /** The disk changed by exactly the writes ws, in that order. */
    twostate predicate Wrote(ws: seq<Write>)
      reads bc
    {
      && InRange(ws, |old(bc.disk)|)
      && bc.writes == old(bc.writes) + ws
      && bc.disk == ApplyWrites(old(bc.disk), ws)
    }

    /** bread of two different blocks. */
    method BreadPair(a: nat, b: nat, p: Pid, ghost view: seq<Block>, ghost s: Sys) returns (ok: bool, x: nat, y: nat)
      requires Valid() && |view| == |bc.disk| && Agrees(bc.bufs, bc.disk, view)
      requires a != b && a < |bc.disk| && b < |bc.disk| && Tracks(s) && !s.phase.Running?
      modifies bc
      ensures Valid() && bc.disk == old(bc.disk) && bc.writes == old(bc.writes)
      ensures ok ==>
                && x < NBUF && y < NBUF && x != y && Agrees(bc.bufs, bc.disk, view)
                && bc.bufs[x].valid && bc.bufs[x].Holds(a) && bc.bufs[x].owner == Some(p) && bc.bufs[x].data == view[a]
                && bc.bufs[y].valid && bc.bufs[y].Holds(b) && bc.bufs[y].owner == Some(p) && bc.bufs[y].data == view[b]
                && (forall i :: 0 <= i < NBUF && i != x && i != y ==> bc.bufs[i] == old(bc.bufs)[i])
                && old(bc.bufs)[x].owner.None? && old(bc.bufs)[y].owner.None? && DirtyOnly([])
                && bc.bufs[x].refcnt == old(bc.bufs)[x].refcnt + 1 && bc.bufs[x].dirty == old(bc.bufs)[x].dirty
                && bc.bufs[y].refcnt == old(bc.bufs)[y].refcnt + 1 && bc.bufs[y].dirty == old(bc.bufs)[y].dirty
      ensures !ok ==> Blocked(old(bc.bufs), bc.bufs, a) || Blocked(old(bc.bufs), bc.bufs, b)
      ensures Ready(old(bc.bufs)) ==> ok
      ensures RanTo(s, s.phase)
    {
      hide WellFormed, Linked, Agrees, TakenOk, Ready, Reaches, BreadCache;
      var r := bc.Bread(a, p, view);
      FirstTaken(old(bc.bufs), bc.bufs, a, p, r);
      BreadRuns(Layout(), s, a, p, r, bc.Abs());
      if !r.Locked? { return false, 0, 0; }
      x := r.b;
      ghost var mid, first, s1 := bc.bufs, r, Now(s, s.phase);
      r := bc.Bread(b, p, view);
      SecondTaken(old(bc.bufs), mid, bc.bufs, a, b, p, first, r);
      BreadRuns(Layout(), s1, b, p, r, bc.Abs());
      Trans(Layout(), s, s1, Now(s, s.phase));
      if !r.Locked? { return false, 0, 0; }
      y := r.b;
      return true, x, y;
    }

    /** Two held buffers x and y: memmove y into x, bwrite x, brelse both. */
    method CopyHeld(x: nat, y: nat, p: Pid, ghost view: seq<Block>, ghost s: Sys)
      requires Valid() && |view| == |bc.disk| && Agrees(bc.bufs, bc.disk, view)
      requires x < NBUF && y < NBUF && x != y && bc.bufs[x].valid && bc.bufs[x].dev == ROOTDEV
      requires bc.bufs[x].owner == Some(p) && bc.bufs[y].owner == Some(p)
      requires bc.bufs[y].valid && bc.bufs[y].dev == ROOTDEV
      requires Tracks(s) && TurnAt(Layout(), s, bc.bufs[x].blockno, bc.bufs[y].blockno)
      modifies bc
      ensures Valid() && RanTo(s, Turned(s.phase))
      ensures forall i :: 0 <= i < NBUF && i != x && i != y ==> bc.bufs[i] == old(bc.bufs)[i]
      ensures forall i :: i in {x, y} ==>
                && bc.bufs[i].owner == None && bc.bufs[i].refcnt == old(bc.bufs)[i].refcnt - 1
                && (bc.bufs[i].dirty ==> old(bc.bufs)[i].dirty)
      ensures var to, data := old(bc.bufs[x].blockno), old(bc.bufs[y].data);
              && to < |view| == |old(bc.disk)| && bc.disk == old(bc.disk)[to := data]
              && bc.writes == old(bc.writes) + [Write(to, data)]
              && Agrees(bc.bufs, bc.disk, view[to := data]) && DirtyOnly([to])
    {
      hide WellFormed, Linked, Agrees, Reaches, Released, TurnAt, Turned;
      HeldInRange(bc.bufs, bc.disk, view, x);
      DirtyDev(bc.bufs, bc.disk, view);
      OneBufferPerBlock(bc.Abs());
      ghost var v := view[bc.bufs[x].blockno := bc.bufs[y].data];
      var ok := bc.WriteThrough(x, p, bc.bufs[y].data, view);
      ghost var c1 := bc.Abs();
      ok := bc.Release(y, p, v);
      ghost var c2 := bc.Abs();
      ok := bc.Release(x, p, v);
      TurnEnds(Layout(), s, p, x, y, c1, c2, bc.Abs());
    }

    /** bread of a log block and of a home block, then a copy from one to the other. */
    method CopyBlock(slot: nat, home: nat, toLog: bool, p: Pid, ghost view: seq<Block>, ghost s: Sys) returns (ok: bool)
      requires Valid() && |view| == |bc.disk| && Agrees(bc.bufs, bc.disk, view)
      requires slot != home && slot < |bc.disk| && home < |bc.disk| && Tracks(s)
      requires TurnAt(Layout(), s, if toLog then slot else home, if toLog then home else slot)
      modifies bc
      ensures Valid() && |bc.disk| == |old(bc.disk)| && |bc.bufs| == |old(bc.bufs)|
      ensures !ok ==> bc.disk == old(bc.disk) && bc.writes == old(bc.writes)
      ensures !ok ==> Blocked(old(bc.bufs), bc.bufs, slot) || Blocked(old(bc.bufs), bc.bufs, home)
      ensures Ready(old(bc.bufs)) ==> ok
      ensures RanTo(s, if ok then Turned(s.phase) else s.phase)
      ensures ok ==>
                var to, data := (if toLog then slot else home), (if toLog then view[home] else view[slot]);
                && SameLocks() && bc.disk == old(bc.disk)[to := data] && bc.writes == old(bc.writes) + [Write(to, data)]
                && Agrees(bc.bufs, bc.disk, view[to := data]) && DirtyOnly([to])
    {
      hide WellFormed, Linked, Agrees, Ready, Blocked, Reaches, Turned, Shape;
      var a, b;
      ok, a, b := BreadPair(slot, home, p, view, s);
      if !ok { return; }
      ghost var s1 := Now(s, s.phase);
      if toLog {
        CopyHeld(a, b, p, view, s1);
      } else {
        CopyHeld(b, a, p, view, s1);
      }
      assert Now(s1, Turned(s.phase)) == Now(s, Turned(s.phase));
      Trans(Layout(), s, s1, Now(s, Turned(s.phase)));
    }

    /** write_log: copy the listed blocks from the cache to the log. `ok` is false when a bread
        panics or goes to sleep on a buffer another process has locked; k counts the writes made. */
    method WriteLog(p: Pid, ghost view: seq<Block>, ghost s: Sys) returns (ok: bool, ghost k: nat)
      requires Valid() && |view| == |bc.disk| && Agrees(bc.bufs, bc.disk, view) && ListOk(Layout(), Lh())
      requires Tracks(s) && s.lh == Lh() && s.phase == Copying(0)
      modifies bc
      ensures Valid() && Layout() == old(Layout())
      ensures var ws := LogWrites(Layout(), Payload(Lh(), view));
              && k <= n && (ok ==> k == n) && Wrote(ws[..k]) && InRange(ws, |view|)
              && (ok ==> SameLocks() && DirtyOnly([]) && Agrees(bc.bufs, bc.disk, ApplyWrites(view, ws)))
      ensures Completes(ok, Lh()) && RanTo(s, Copying(k))
    {
      hide WellFormed, Linked, Agrees, ApplyWrites, LogWrites, Payload, InRange, Blocked, Ready, Concerns, Reaches,
        Shape, Quiet, Tracks, Settled, DirtyFrom;
      ghost var L, lh := Layout(), Lh();
      ghost var payload := Payload(lh, view);
      ghost var ws := LogWrites(L, payload);
      LogWritesOk(L, view, lh);
      k := 0;
      WroteNone(bc.disk, ws);
      WroteNone(view, ws);
      Stands(s);
      SettledSelf(bc.bufs);
      var tail := 0;
      while tail < n
        invariant 0 <= tail == k <= n
        invariant Valid() && SameLocks() && Layout() == L
        invariant Wrote(ws[..tail]) && DirtyOnly([]) && RanTo(s, Copying(tail))
        invariant Agrees(bc.bufs, bc.disk, ApplyWrites(view, ws[..tail]))
      {
        LogWriteAt(L, view, lh, tail);
        ghost var v := ApplyWrites(view, ws[..tail]);
        ghost var mid := bc.bufs;
        ghost var s1 := Now(s, Copying(tail));
        ok := CopyBlock(start + tail + 1, block[tail], true, p, v, s1);
        Trans(L, s, s1, Now(s, Copying(if ok then tail + 1 else tail)));
        TurnCompletes(old(bc.bufs), mid, bc.bufs, L, lh, tail, ok);
        if !ok { return false, k; }
        SettledTrans(old(bc.bufs), mid, bc.bufs, [], [L.Slot(tail)]);
        WroteOne(old(bc.disk), ws, tail);
        WroteOne(view, ws, tail);
        tail, k := tail + 1, k + 1;
      }
      assert ws[..n] == ws;
      return true, k;
    }

    /** write_head: store the in-memory list into the header block and write it. */
    method WriteHead(p: Pid, ghost view: seq<Block>, ghost s: Sys) returns (ok: bool)
      requires Valid() && |view| == |bc.disk| && Agrees(bc.bufs, bc.disk, view)
      requires Tracks(s) && HeadDue(s, Lh())
      modifies bc
      ensures Valid() && Layout() == old(Layout())
      ensures ok ==>
                && SameLocks() && DirtyOnly([]) && Agrees(bc.bufs, bc.disk, view[start := SetHead(view[start], Lh())])
                && bc.disk == old(bc.disk)[start := SetHead(view[start], Lh())]
                && bc.writes == old(bc.writes) + [Write(start, SetHead(view[start], Lh()))]
      ensures !ok ==> bc.disk == old(bc.disk) && bc.writes == old(bc.writes)
      ensures !ok ==> Blocked(old(bc.bufs), bc.bufs, start)
      ensures Ready(old(bc.bufs)) ==> ok
      ensures var s' := if ok then Headed(s) else s;
              Tracks(Now(s', s'.phase)) && Reaches(Layout(), s, Now(s', s'.phase))
    {
      hide WellFormed, Linked, Agrees, Ready, Blocked, Reaches, SetHead, Shape, Quiet;
      var b := BreadHead(p, view, s);
      if b.None? { return false; }
      ghost var s1 := Now(s, s.phase);
      var hb := StoreHead(bc.bufs[b.value].data);
      ok := WriteHeld(b.value, p, hb, view, s1);
      Trans(Layout(), s, s1, Now(Headed(s), Headed(s).phase));
    }

    /** bread of the header block. */
    method BreadHead(p: Pid, ghost view: seq<Block>, ghost s: Sys) returns (r: Option<nat>)
      requires Valid() && |view| == |bc.disk| && Agrees(bc.bufs, bc.disk, view) && Tracks(s) && !s.phase.Running?
      modifies bc
      ensures Valid() && bc.disk == old(bc.disk) && bc.writes == old(bc.writes) && RanTo(s, s.phase)
      ensures r.None? ==> Blocked(old(bc.bufs), bc.bufs, start) && !Ready(old(bc.bufs))
      ensures r.Some? ==>
                && |old(bc.bufs)| == |bc.bufs| == NBUF && GotLock(old(bc.bufs), bc.bufs, start, p, r.value)
                && bc.bufs[r.value].valid && bc.bufs[r.value].data == view[start] && Agrees(bc.bufs, bc.disk, view)
    {
      hide WellFormed, Linked, Agrees, Ready, Blocked, Reaches, BreadCache, TakenOk;
      var b := bc.Bread(start, p, view);
      FirstTaken(old(bc.bufs), bc.bufs, start, p, b);
      BreadRuns(Layout(), s, start, p, b, bc.Abs());
      return if b.Locked? then Some(b.b) else None;
    }

    /** The header block with the list stored in it. */
    method StoreHead(data: Block) returns (hb: Block)
      requires n <= LOGSIZE == |block|
      ensures hb == SetHead(data, Lh())
    {
      hb := SetWord(data, 0, n);
      var i := 0;
      while i < n
        invariant 0 <= i <= n
        invariant hb == StoreEntries(SetWord(data, 0, n), block[..i])
      {
        hb := SetWord(hb, i + 1, block[i]);
        assert block[..i + 1][..i] == block[..i];
        i := i + 1;
      }
    }

    /** bwrite and brelse of the header block. */
    method WriteHeld(b: nat, p: Pid, hb: Block, ghost view: seq<Block>, ghost s: Sys) returns (ok: bool)
      requires Valid() && |view| == |bc.disk| && Agrees(bc.bufs, bc.disk, view) && Tracks(s) && HeadDue(s, Lh())
      requires b < NBUF && HeldBy(bc.Abs(), b, p, start) && bc.bufs[b].refcnt > 0
      requires hb == SetHead(bc.bufs[b].data, Lh())
      modifies bc
      ensures Valid() && ok && |bc.disk| == |old(bc.disk)|
      ensures bc.disk == old(bc.disk)[start := hb] && bc.writes == old(bc.writes) + [Write(start, hb)]
      ensures Agrees(bc.bufs, bc.disk, view[start := hb])
      ensures bc.bufs == old(bc.bufs)[b := old(bc.bufs)[b].(data := hb, valid := true, dirty := false, owner := None,
                                                            refcnt := old(bc.bufs)[b].refcnt - 1)]
      ensures Tracks(Now(Headed(s), Headed(s).phase)) && Reaches(Layout(), s, Now(Headed(s), Headed(s).phase))
    {
      hide WellFormed, Linked, Agrees, Reaches, Released, SetHead, HeadDue;
      ok := bc.WriteThrough(b, p, hb, view);
      ghost var c1 := bc.Abs();
      ok := bc.Release(b, p, view[start := hb]);
      HeadEnds(Layout(), s, p, b, Lh(), c1, bc.Abs());
    }

    /** install_trans: copy the listed blocks from the log to their homes. */
    method InstallTrans(p: Pid, ghost view: seq<Block>, ghost s: Sys) returns (ok: bool, ghost k: nat)
      requires Valid() && |view| == |bc.disk| && Agrees(bc.bufs, bc.disk, view) && ListOk(Layout(), Lh())
      requires Tracks(s) && s.lh == Lh() && s.phase.Installing? && s.phase.done == 0
      modifies bc
      ensures Valid() && Layout() == old(Layout())
      ensures var ws := InstallWrites(Lh(), Slots(Layout(), view, n));
              && k <= n && (ok ==> k == n) && Wrote(ws[..k]) && InRange(ws, |view|)
              && (ok ==> SameLocks() && DirtyOnly(Lh()) && Agrees(bc.bufs, bc.disk, ApplyWrites(view, ws)))
      ensures Completes(ok, Lh()) && RanTo(s, Installing(k, s.phase.boot))
    {
      hide WellFormed, Linked, Agrees, ApplyWrites, InstallWrites, ListOk, InRange, Blocked, Ready, Concerns, Reaches,
        Shape, Quiet, Tracks, Settled, DirtyFrom, Slots;
      ListFits(Layout(), Lh());
      ghost var L, lh := Layout(), Lh();
      ghost var payload := Slots(L, view, n);
      ghost var ws := InstallWrites(lh, payload);
      InstallInRange(L, lh, payload);
      k := 0;
      WroteNone(bc.disk, ws);
      WroteNone(view, ws);
      Stands(s);
      SettledSelf(bc.bufs);
      var tail := 0;
      while tail < n
        invariant 0 <= tail == k <= n
        invariant Valid() && SameLocks() && Layout() == L
        invariant Wrote(ws[..tail]) && DirtyOnly(lh[..tail]) && RanTo(s, Installing(tail, s.phase.boot))
        invariant Agrees(bc.bufs, bc.disk, ApplyWrites(view, ws[..tail]))
      {
        SlotKept(L, view, lh, payload, tail);
        ghost var v := ApplyWrites(view, ws[..tail]);
        ghost var mid := bc.bufs;
        ghost var s1 := Now(s, Installing(tail, s.phase.boot));
        ok := CopyBlock(start + tail + 1, block[tail], false, p, v, s1);
        Trans(L, s, s1, Now(s, Installing(if ok then tail + 1 else tail, s.phase.boot)));
        TurnCompletes(old(bc.bufs), mid, bc.bufs, L, lh, tail, ok);
        if !ok { return false, k; }
        SettledTrans(old(bc.bufs), mid, bc.bufs, lh[..tail], [lh[tail]]);
        WroteOne(old(bc.disk), ws, tail);
        WroteOne(view, ws, tail);
        assert lh[..tail + 1] == lh[..tail] + [lh[tail]];
        tail, k := tail + 1, k + 1;
      }
      assert ws[..n] == ws && lh[..n] == lh;
      return true, k;
    }

    /** commit. Its disk writes are a prefix of CommitWrites, all of them unless a bread panics or
        sleeps; at every prefix the disk stands for the old contents of every home block or for all the new
        ones, as the header write decides. */
    method Commit(p: Pid, ghost view: seq<Block>, ghost s: Sys) returns (ok: bool, ghost k: nat, ghost s': Sys)
      requires Valid() && |view| == |bc.disk| && Agrees(bc.bufs, bc.disk, view) && ListOk(Layout(), Lh())
      requires AtRest(Layout(), bc.disk) && view[start] == bc.disk[start]
      requires Tracks(s) && s.lh == Lh() && (n > 0 ==> s.phase == Copying(0))
      modifies this`n, bc
      ensures Valid() && Layout() == old(Layout())
      ensures old(n) == 0 ==> ok && bc.disk == old(bc.disk) && bc.writes == old(bc.writes) && n == 0
      ensures old(n) > 0 ==>
                var L, lh := Layout(), old(Lh());
                var payload := Payload(lh, view);
                var ws := CommitWrites(L, lh, payload, view[start]);
                && k <= |ws| && (ok ==> k == |ws| && n == 0 && SameLocks() && DirtyOnly(lh)) && Wrote(ws[..k])
                && LogInBounds(L, bc.disk)
                && (forall m: nat :: L.Home(m) && (k <= |lh| || m !in lh) ==>
                      Recovered(L, bc.disk, m) == old(bc.disk)[m])
                && (k > |lh| ==> forall i :: 0 <= i < |lh| ==>
                      L.Home(lh[i]) && Recovered(L, bc.disk, lh[i]) == payload[i])
      ensures Completes(ok, old(Lh()))
      ensures Tracks(s') && Reaches(Layout(), s, s')
      ensures ok && old(n) > 0 ==> s' == Now(s.(lh := [], committed := s.latest), Running)
    {
      hide WellFormed, Linked, Agrees, ApplyWrites, Recovered, SetHead, Blocked, Ready, Concerns, Reaches, Shape;
      Stands(s);
      if n == 0 { return true, 0, s; }
      ghost var L, lh := Layout(), Lh();
      ghost var payload := Payload(lh, view);
      ghost var ws := CommitWrites(L, lh, payload, view[start]);
      ok, k, s' := CommitSteps(p, view, s);
      CommitCrash(L, old(bc.disk), lh, payload, k);
    }

    /** The end of commit and of recover_from_log: install_trans, lh.n = 0, write_head. */
    method InstallAndClear(p: Pid, ghost view: seq<Block>, ghost s: Sys) returns (ok: bool, ghost k: nat, ghost s': Sys)
      requires Valid() && |view| == |bc.disk| && Agrees(bc.bufs, bc.disk, view) && ListOk(Layout(), Lh())
      requires Tracks(s) && s.lh == Lh() && s.phase.Installing? && s.phase.done == 0
      modifies this`n, bc
      ensures Valid() && Layout() == old(Layout())
      ensures var lh := old(Lh());
              var ws := InstallWrites(lh, Slots(Layout(), view, |lh|)) + [Write(start, SetHead(view[start], []))];
              k <= |ws| && (ok ==> k == |ws| && n == 0 && SameLocks() && DirtyOnly(lh)) && Wrote(ws[..k])
      ensures Completes(ok, old(Lh()))
      ensures Tracks(s') && Reaches(Layout(), s, s') && (ok ==> s' == Now(s.(lh := []), Running))
    {
      hide WellFormed, Linked, Agrees, ApplyWrites, SetHead, Blocked, Ready, Concerns, Reaches, Shape;
      ghost var L, lh := Layout(), Lh();
      ghost var payload := Slots(L, view, n);
      ghost var c := InstallWrites(lh, payload);
      ghost var ws := c + [Write(start, SetHead(view[start], []))];
      ok, k := InstallTrans(p, view, s);
      s' := Now(s, Installing(k, s.phase.boot));
      assert ws[..k] == c[..k];
      if !ok { return; }
      HomesWritten(L, view, lh, payload, n);
      assert c[..n] == c && lh[..n] == lh;
      ghost var v := ApplyWrites(view, c);
      n := 0;
      assert Lh() == [];
      ghost var mid, s1 := bc.bufs, s';
      ok := WriteHead(p, v, s1);
      s' := if ok then Now(Headed(s1), Headed(s1).phase) else Now(s1, s1.phase);
      Trans(L, s, s1, s');
      HeadCompletes(old(bc.bufs), mid, bc.bufs, L, lh, ok);
      if !ok { return; }
      WroteOne(old(bc.disk), ws, |c|);
      k := k + 1;
      assert ws[..k] == ws;
    }

    /** The beginning of commit: write_log, write_head. */
    method LogAndHead(p: Pid, ghost view: seq<Block>, ghost s: Sys)
      returns (ok: bool, ghost k: nat, ghost v: seq<Block>, ghost s': Sys)
      requires Valid() && |view| == |bc.disk| && Agrees(bc.bufs, bc.disk, view) && ListOk(Layout(), Lh())
      requires Tracks(s) && s.lh == Lh() && s.phase == Copying(0)
      modifies bc
      ensures Valid() && Layout() == old(Layout())
      ensures var payload := Payload(Lh(), view);
              var ws := LogWrites(Layout(), payload) + [Write(start, SetHead(view[start], Lh()))];
              && k <= |ws| && Wrote(ws[..k])
              && (ok ==>
                    && k == |ws| && SameLocks() && DirtyOnly([]) && |v| == |bc.disk| && Agrees(bc.bufs, bc.disk, v)
                    && v[start] == SetHead(view[start], Lh()) && Slots(Layout(), v, n) == payload)
      ensures Completes(ok, Lh())
      ensures Tracks(s') && Reaches(Layout(), s, s')
      ensures ok ==> s' == Now(s.(committed := s.latest), Installing(0, false))
    {
      hide WellFormed, Linked, Agrees, ApplyWrites, SetHead, Blocked, Ready, Concerns, Reaches, Shape;
      ghost var L, lh := Layout(), Lh();
      ghost var payload := Payload(lh, view);
      ghost var a := LogWrites(L, payload);
      ghost var ws := a + [Write(start, SetHead(view[start], lh))];
      v := view;
      ok, k := WriteLog(p, view, s);
      s' := Now(s, Copying(k));
      assert ws[..k] == a[..k];
      if !ok { return; }
      assert a[..n] == a;
      SlotsWritten(L, view, payload, n);
      v := ApplyWrites(view, a);
      ghost var mid, s1 := bc.bufs, s';
      ok := WriteHead(p, v, s1);
      s' := if ok then Now(Headed(s1), Headed(s1).phase) else Now(s1, s1.phase);
      Trans(L, s, s1, s');
      HeadCompletes(old(bc.bufs), mid, bc.bufs, L, lh, ok);
      if !ok { return; }
      WroteOne(old(bc.disk), ws, |a|);
      v := v[start := SetHead(view[start], lh)];
      k := k + 1;
      assert ws[..k] == ws;
    }

    method CommitSteps(p: Pid, ghost view: seq<Block>, ghost s: Sys) returns (ok: bool, ghost k: nat, ghost s': Sys)
      requires Valid() && |view| == |bc.disk| && Agrees(bc.bufs, bc.disk, view) && ListOk(Layout(), Lh())
      requires Tracks(s) && s.lh == Lh() && s.phase == Copying(0)
      modifies this`n, bc
      ensures Valid() && Layout() == old(Layout())
      ensures var lh := old(Lh());
              var ws := CommitWrites(Layout(), lh, Payload(lh, view), view[start]);
              k <= |ws| && (ok ==> k == |ws| && n == 0 && SameLocks() && DirtyOnly(lh)) && Wrote(ws[..k])
      ensures Completes(ok, old(Lh()))
      ensures Tracks(s') && Reaches(Layout(), s, s')
      ensures ok ==> s' == Now(s.(lh := [], committed := s.latest), Running)
    {
      hide WellFormed, Linked, Agrees, ApplyWrites, SetHead, CommitWrites, LogWrites, InstallWrites, ListOk, Slots,
        Payload, Blocked, Ready, Concerns, Reaches, Shape, Quiet, Tracks, Settled, DirtyFrom;
      ListFits(Layout(), Lh());
      ghost var L, lh := Layout(), Lh();
      ghost var payload := Payload(lh, view);
      ghost var h := SetHead(view[start], lh);
      ghost var b := LogWrites(L, payload) + [Write(start, h)];
      ghost var c := InstallWrites(lh, payload) + [Write(start, SetHead(h, []))];
      CommitParts(L, lh, payload, view[start]);
      ghost var v, k2;
      ok, k, v, s' := LogAndHead(p, view, s);
      Prefixes(b, c, k, 0);
      if !ok { return; }
      ghost var mid, s1 := bc.bufs, s';
      ok, k2, s' := InstallAndClear(p, v, s1);
      Trans(L, s, s1, s');
      RestCompletes(old(bc.bufs), mid, bc.bufs, L, lh, ok);
      if ok {
        SettledTrans(old(bc.bufs), mid, bc.bufs, [], lh);
        assert [] + lh == lh;
      }
      Prefixes(b, c, k, k2);
      ApplyAppend(old(bc.disk), b, c[..k2]);
      k := k + k2;
    }

    /** read_head: load the list from the header block. */
    method ReadHead(p: Pid, ghost view: seq<Block>, ghost s: Sys) returns (ok: bool)
      requires Valid() && |view| == |bc.disk| && Agrees(bc.bufs, bc.disk, view) && HeadOk(view[start])
      requires Tracks(s) && s.phase.Booting?
      modifies this`n, this`block, bc
      ensures Valid() && bc.disk == old(bc.disk) && bc.writes == old(bc.writes)
      ensures ok ==> SameLocks() && DirtyOnly([]) && Agrees(bc.bufs, bc.disk, view) && Lh() == Head(view[start])
      ensures !ok ==> Blocked(old(bc.bufs), bc.bufs, start)
      ensures Ready(old(bc.bufs)) ==> ok
      ensures if ok then
                var s' := Now(s.(lh := Head(view[start])), Installing(0, true)); Tracks(s') && Reaches(Layout(), s, s')
              else RanTo(s, s.phase)
    {
      hide WellFormed, Linked, Agrees, Ready, Blocked, Reaches, Released;
      var b := BreadHead(p, view, s);
      if b.None? { return false; }
      ghost var s1 := Now(s, s.phase);
      LoadHead(bc.bufs[b.value].data);
      ok := bc.Release(b.value, p, view);
      ReadEnds(Layout(), s1, p, b.value, bc.Abs());
      Trans(Layout(), s, s1, Now(s.(lh := Head(view[start])), Installing(0, true)));
    }

    /** The list in memory becomes that of the header block. */
    method LoadHead(data: Block)
      requires HeadOk(data) && |block| == LOGSIZE
      modifies this`n, this`block
      ensures |block| == LOGSIZE && n <= LOGSIZE && Lh() == Head(data)
    {
      n := Word(data, 0);
      var i := 0;
      while i < n
        modifies this`block
        invariant 0 <= i <= n == |Head(data)| <= LOGSIZE && |block| == LOGSIZE
        invariant block[..i] == Head(data)[..i]
      {
        block := block[i := Word(data, i + 1)];
        i := i + 1;
      }
    }

    /** recover_from_log, at boot when every buffer is clean. Its disk writes are a prefix of
        RecoverWrites, so whatever they leave still recovers to the same contents. */
    method RecoverFromLog(p: Pid, ghost s: Sys) returns (ok: bool, ghost k: nat, ghost s': Sys)
      requires Valid() && Agrees(bc.bufs, bc.disk, bc.disk) && Recoverable(Layout(), bc.disk)
      requires Tracks(s) && s.phase.Booting?
      modifies this`n, this`block, bc
      ensures Valid() && Layout() == old(Layout())
      ensures var L := Layout();
              var ws := RecoverWrites(L, old(bc.disk));
              && k <= |ws| && (ok ==> k == |ws| && n == 0 && SameLocks()) && Wrote(ws[..k])
              && Recoverable(L, bc.disk)
              && (forall m: nat :: L.Home(m) ==> Recovered(L, bc.disk, m) == Recovered(L, old(bc.disk), m))
              && (ok ==>
                    AtRest(L, bc.disk) && forall m: nat :: L.Home(m) ==> bc.disk[m] == Recovered(L, old(bc.disk), m))
      ensures Completes(ok, Head(old(bc.disk)[start]))
      ensures Tracks(s') && Reaches(Layout(), s, s') && (ok ==> s' == Now(s.(lh := []), Running))
    {
      hide WellFormed, Linked, Agrees, ApplyWrites, Recovered, SetHead, Blocked, Ready, Concerns, Reaches, Shape;
      ghost var L, disk := Layout(), bc.disk;
      ghost var ws := RecoverWrites(L, disk);
      k := 0;
      WroteNone(disk, ws);
      RecoverCrash(L, disk, 0);
      ok := ReadHead(p, disk, s);
      s' := if ok then Now(s.(lh := Head(disk[start])), Installing(0, true)) else Now(s, s.phase);
      HeadCompletes(old(bc.bufs), old(bc.bufs), bc.bufs, L, Head(disk[start]), ok);
      if !ok { return; }
      ghost var mid, s1 := bc.bufs, s';
      ok, k, s' := InstallAndClear(p, disk, s1);
      Trans(L, s, s1, s');
      RestCompletes(old(bc.bufs), mid, bc.bufs, L, Head(disk[start]), ok);
      RecoverCrash(L, disk, k);
    }
  }

  // ---------------------------------------------------------------- when a bread does not return

  /** A bread of block m cannot return: its buffer is locked, by whoever had it locked before, or no
      buffer holds it and none can be recycled. */
  ghost predicate Blocked(was: seq<Buf>, bufs: seq<Buf>, m: nat) {
    && |was| == |bufs|
    && ((exists b :: 0 <= b < |bufs| && bufs[b].Holds(m) && bufs[b].owner.Some? && was[b].owner == bufs[b].owner)
        || forall b :: 0 <= b < |bufs| ==> !bufs[b].Holds(m) && !bufs[b].Recyclable())
  }

  /** No buffer is locked and two can be recycled. */
  ghost predicate Ready(bufs: seq<Buf>) {
    && (forall b :: 0 <= b < |bufs| ==> bufs[b].owner.None?)
    && exists b, c :: 0 <= b < c < |bufs| && bufs[b].Recyclable() && bufs[c].Recyclable()
  }

  /** The blocks that a commit or a recovery of the list lh reads: header, slots and homes. */
  ghost predicate Concerns(L: Layout, lh: seq<Word32>, m: nat) {
    L.logstart <= m <= L.logstart + |lh| || m in lh
  }

  /** Owners as they were, and idle buffers still idle. */
  ghost predicate Settled(was: seq<Buf>, bufs: seq<Buf>) {
    && |bufs| == |was|
    && forall b :: 0 <= b < |bufs| ==>
         bufs[b].owner == was[b].owner && (was[b].Recyclable() ==> bufs[b].Recyclable())
  }

  lemma HeldInRange(bufs: seq<Buf>, disk: seq<Block>, view: seq<Block>, b: nat)
    requires Agrees(bufs, disk, view) && b < |bufs| && bufs[b].valid && bufs[b].dev == ROOTDEV
    ensures bufs[b].blockno < |view| == |disk|
  {
    assert ShowsView(bufs[b], view);
  }

  lemma DirtyDev(bufs: seq<Buf>, disk: seq<Block>, view: seq<Block>)
    requires Agrees(bufs, disk, view)
    ensures forall b :: 0 <= b < |bufs| && bufs[b].dirty ==> bufs[b].dev == ROOTDEV
  {
    assert forall b :: 0 <= b < |bufs| ==> ShowsView(bufs[b], view);
  }

  /** Every dirty buffer was dirty before, and none of them is of a block in `clean`. */
  ghost predicate DirtyFrom(was: seq<Buf>, bufs: seq<Buf>, clean: seq<nat>) {
    && |bufs| == |was|
    && forall b :: 0 <= b < |bufs| && bufs[b].dirty ==>
         was[b].dirty && bufs[b].blockno == was[b].blockno && bufs[b].blockno !in clean
  }

  lemma SettledTrans(was: seq<Buf>, mid: seq<Buf>, bufs: seq<Buf>, a: seq<nat>, b: seq<nat>)
    requires Settled(was, mid) && Settled(mid, bufs) && DirtyFrom(was, mid, a) && DirtyFrom(mid, bufs, b)
    ensures Settled(was, bufs) && DirtyFrom(was, bufs, a) && DirtyFrom(was, bufs, a + b)
  {
  }

  lemma SettledSelf(bufs: seq<Buf>)
    ensures Settled(bufs, bufs) && DirtyFrom(bufs, bufs, [])
  {
  }

  lemma SettledReady(was: seq<Buf>, bufs: seq<Buf>)
    requires Settled(was, bufs) && Ready(was)
    ensures Ready(bufs)
  {
    var b, c :| 0 <= b < c < |was| && was[b].Recyclable() && was[c].Recyclable();
    assert bufs[b].Recyclable() && bufs[c].Recyclable();
  }

  lemma SettledBlocked(was: seq<Buf>, mid: seq<Buf>, bufs: seq<Buf>, m: nat)
    requires Settled(was, mid) && Blocked(mid, bufs, m)
    ensures Blocked(was, bufs, m)
  {
  }

  lemma FirstTaken(was: seq<Buf>, bufs: seq<Buf>, n: nat, p: Pid, r: Taken)
    requires TakenOk(was, bufs, n, p, r) && !r.OutOfRange?
    ensures if r.Locked? then |was| == |bufs| == NBUF && GotLock(was, bufs, n, p, r.b)
            else Blocked(was, bufs, n) && !Ready(was)
  {
  }

  lemma OneLeft(was: seq<Buf>, mid: seq<Buf>, n: nat, p: Pid, b: nat)
    requires |was| == |mid| == NBUF && GotLock(was, mid, n, p, b) && Ready(was)
    ensures exists c :: 0 <= c < NBUF && mid[c].Recyclable()
    ensures forall c :: 0 <= c < NBUF && mid[c].owner.Some? ==> c == b
  {
    var c, d :| 0 <= c < d < |was| && was[c].Recyclable() && was[d].Recyclable();
    assert mid[if c == b then d else c].Recyclable();
  }

  /** A second bread while the buffer of the first is held. */
  lemma SecondTaken(was: seq<Buf>, mid: seq<Buf>, bufs: seq<Buf>, a: nat, b: nat, p: Pid, s: Taken, r: Taken)
    requires TakenOk(was, mid, a, p, s) && s.Locked? && TakenOk(mid, bufs, b, p, r) && !r.OutOfRange? && a != b
    ensures if r.Locked? then
              && |mid| == |bufs| == |was| == NBUF && GotLock(mid, bufs, b, p, r.b) && s.b < NBUF
              && s.b != r.b && mid[s.b] == bufs[s.b] && was[r.b] == mid[r.b]
              && forall i :: 0 <= i < NBUF && i != s.b && i != r.b ==> bufs[i] == was[i]
            else Blocked(was, bufs, b) && !Ready(was)
  {
    if Ready(was) {
      OneLeft(was, mid, a, p, s.b);
    }
  }

  lemma TurnCompletes(was: seq<Buf>, mid: seq<Buf>, bufs: seq<Buf>, L: Layout, lh: seq<Word32>, k: nat, ok: bool)
    requires Settled(was, mid) && k < |lh|
    requires !ok ==> Blocked(mid, bufs, L.Slot(k)) || Blocked(mid, bufs, lh[k])
    requires Ready(mid) ==> ok
    ensures !ok ==> exists m :: Concerns(L, lh, m) && Blocked(was, bufs, m)
    ensures Ready(was) ==> ok
  {
    if Ready(was) {
      SettledReady(was, mid);
    }
    if !ok {
      hide Blocked;
      var m := if Blocked(mid, bufs, L.Slot(k)) then L.Slot(k) else lh[k];
      SettledBlocked(was, mid, bufs, m);
      assert Concerns(L, lh, m);
    }
  }

  lemma HeadCompletes(was: seq<Buf>, mid: seq<Buf>, bufs: seq<Buf>, L: Layout, lh: seq<Word32>, ok: bool)
    requires Settled(was, mid)
    requires !ok ==> Blocked(mid, bufs, L.logstart)
    requires Ready(mid) ==> ok
    ensures !ok ==> exists m :: Concerns(L, lh, m) && Blocked(was, bufs, m)
    ensures Ready(was) ==> ok
  {
    if Ready(was) {
      SettledReady(was, mid);
    }
    if !ok {
      SettledBlocked(was, mid, bufs, L.logstart);
      assert Concerns(L, lh, L.logstart);
    }
  }

  lemma RestCompletes(was: seq<Buf>, mid: seq<Buf>, bufs: seq<Buf>, L: Layout, lh: seq<Word32>, ok: bool)
    requires Settled(was, mid)
    requires !ok ==> exists m :: Concerns(L, lh, m) && Blocked(mid, bufs, m)
    requires Ready(mid) ==> ok
    ensures !ok ==> exists m :: Concerns(L, lh, m) && Blocked(was, bufs, m)
    ensures Ready(was) ==> ok
  {
    if Ready(was) {
      SettledReady(was, mid);
    }
    if !ok {
      var m :| Concerns(L, lh, m) && Blocked(mid, bufs, m);
      SettledBlocked(was, mid, bufs, m);
    }
  }

  lemma ListFits(L: Layout, lh: seq<Word32>)
    requires ListOk(L, lh)
    ensures |lh| < L.nlog && |lh| <= LOGSIZE && forall m :: m in lh ==> m < L.size
  {
  }

  lemma LogWritesOk(L: Layout, view: seq<Block>, lh: seq<Word32>)
    requires L.Valid() && |view| == L.size && ListOk(L, lh)
    ensures |LogWrites(L, Payload(lh, view))| == |lh| && InRange(LogWrites(L, Payload(lh, view)), L.size)
  {
  }

  /** The next write of write_log takes its block as the cache had it at the start. */
  lemma LogWriteAt(L: Layout, view: seq<Block>, lh: seq<Word32>, k: nat)
    requires L.Valid() && |view| == L.size && ListOk(L, lh) && k < |lh|
    ensures var ws := LogWrites(L, Payload(lh, view));
            && k < |ws| && InRange(ws[..k], L.size) && lh[k] < L.size && L.Slot(k) < L.size && L.Slot(k) != lh[k]
            && ws[k] == Write(L.Slot(k), view[lh[k]]) && ApplyWrites(view, ws[..k])[lh[k]] == view[lh[k]]
  {
    assert lh[k] in lh;
    SlotsWritten(L, view, Payload(lh, view), k);
    hide ApplyWrites;
  }

  lemma CommitParts(L: Layout, lh: seq<Word32>, payload: seq<Block>, header: Block)
    requires |payload| == |lh| <= LOGSIZE
    ensures var h := SetHead(header, lh);
            CommitWrites(L, lh, payload, header) == (LogWrites(L, payload) + [Write(L.logstart, h)])
                + (InstallWrites(lh, payload) + [Write(L.logstart, SetHead(h, []))])
  {
    hide SetHead, LogWrites, InstallWrites;
  }

  lemma Prefixes(b: seq<Write>, c: seq<Write>, k: nat, k2: nat)
    requires k <= |b| && k2 <= |c|
    ensures (b + c)[..k] == b[..k] && b[..|b|] == b && (b + c)[..|b| + k2] == b + c[..k2] && c[..|c|] == c
  {
  }

  lemma InstallInRange(L: Layout, lh: seq<Word32>, payload: seq<Block>)
    requires ListOk(L, lh) && |payload| == |lh|
    ensures InRange(InstallWrites(lh, payload), L.size) && |InstallWrites(lh, payload)| == |lh|
  {
    var ws := InstallWrites(lh, payload);
    forall w | w in ws
      ensures w.blockno < L.size
    {
      var i :| 0 <= i < |lh| && ws[i] == w;
      assert lh[i] in lh;
    }
  }

  /** Installing the first k blocks does not touch the slot of the next. */
  lemma SlotKept(L: Layout, view: seq<Block>, lh: seq<Word32>, payload: seq<Block>, k: nat)
    requires L.Valid() && |view| == L.size && ListOk(L, lh) && k < |lh| && payload == Slots(L, view, |lh|)
    ensures InRange(InstallWrites(lh, payload)[..k], L.size)
    ensures ApplyWrites(view, InstallWrites(lh, payload)[..k])[L.Slot(k)] == payload[k]
    ensures k < |InstallWrites(lh, payload)| && InstallWrites(lh, payload)[k] == Write(lh[k], payload[k])
    ensures lh[k] < L.size && L.Slot(k) < L.size && L.Slot(k) != lh[k]
  {
    assert lh[k] in lh;
    HomesWritten(L, view, lh, payload, k);
    assert forall m :: m in lh[..k] ==> m in lh;
  }

  lemma WroteNone(disk: seq<Block>, ws: seq<Write>)
    ensures ws[..0] == [] && InRange([], |disk|) && ApplyWrites(disk, []) == disk
  {
  }

  lemma WroteOne(disk: seq<Block>, ws: seq<Write>, k: nat)
    requires k < |ws| && InRange(ws[..k], |disk|) && ws[k].blockno < |disk|
    ensures ws[..k + 1] == ws[..k] + [ws[k]] && InRange(ws[..k + 1], |disk|)
    ensures ApplyWrites(disk, ws[..k + 1]) == ApplyWrites(disk, ws[..k])[ws[k].blockno := ws[k].data]
  {
    assert ws[..k + 1][..k] == ws[..k];
  }

  function Payload(lh: seq<Word32>, view: seq<Block>): (payload: seq<Block>)
    requires forall n :: n in lh ==> n < |view|
    ensures |payload| == |lh|
  {
    seq(|lh|, i requires 0 <= i < |lh| => assert lh[i] in lh; view[lh[i]])
  }
}
