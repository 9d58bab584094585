/** The group-commit redo log over the buffer cache over the disk, as a machine whose steps any
    number of processes interleave, and in which a crash may fall between any two steps, recovery
    included (xv6-public/log.c on top of xv6-public/bio.c and xv6-public/memide.c).

    `latest` is what the last log_write of each block stored; `committed` is `latest` at the last
    write of a commit header. Neither exists in memory or on disk: they are what the machine's
    disk and cache are proved against. */
module WriteAheadLog {
  import opened Blocks
  import opened BufferCache
  import opened Options
  import opened Params

  /** Disk layout: header at logstart, then log slots, nlog blocks in all. */
  datatype Layout = Layout(size: nat, logstart: nat, nlog: nat)
  {
    predicate Valid() { logstart + nlog <= size <= UINT_LIMIT && nlog >= 2 }
    predicate Home(n: nat) { n < size && !(logstart <= n < logstart + nlog) }
    function Slot(i: nat): nat { logstart + 1 + i }
  }

  // ---------------------------------------------------------------- the header block

  predicate HeadOk(b: Block) { Word(b, 0) <= LOGSIZE }

  /** The block numbers a header block lists (read_head). */
  function Head(b: Block): (h: seq<Word32>)
    requires HeadOk(b)
  {
    seq(Word(b, 0), i requires 0 <= i < Word(b, 0) => Word(b, i + 1))
  }

  /** The header block after write_head: stale entries beyond the new count stay. */
  function SetHead(b: Block, lh: seq<Word32>): Block
    requires |lh| <= LOGSIZE
  {
    StoreEntries(SetWord(b, 0, |lh|), lh)
  }

  function StoreEntries(b: Block, lh: seq<Word32>): Block
    requires |lh| <= LOGSIZE
  {
    if lh == [] then b
    else SetWord(StoreEntries(b, lh[..|lh| - 1]), |lh|, lh[|lh| - 1])
  }

  lemma {:induction false} StoredEntries(b: Block, lh: seq<Word32>)
    requires |lh| <= LOGSIZE
    ensures Word(StoreEntries(b, lh), 0) == Word(b, 0)
    ensures forall i :: 0 <= i < |lh| ==> Word(StoreEntries(b, lh), i + 1) == lh[i]
  {
    if lh != [] {
      var front := lh[..|lh| - 1];
      StoredEntries(b, front);
      WordOfSetWord(StoreEntries(b, front), |lh|, lh[|lh| - 1]);
      assert forall i :: 0 <= i < |front| ==> Word(StoreEntries(b, front), i + 1) == front[i] == lh[i];
    }
  }

  /** read_head after write_head gives back the list. */
  lemma HeadOfSetHead(b: Block, lh: seq<Word32>)
    requires |lh| <= LOGSIZE
    ensures HeadOk(SetHead(b, lh)) && Head(SetHead(b, lh)) == lh
  {
    WordOfSetWord(b, 0, |lh|);
    StoredEntries(SetWord(b, 0, |lh|), lh);
  }

  // ---------------------------------------------------------------- what recovery makes of a disk

  predicate LogInBounds(L: Layout, disk: seq<Block>) {
    && L.Valid() && |disk| == L.size
    && HeadOk(disk[L.logstart])
    && |Head(disk[L.logstart])| < L.nlog
  }

  /** Contents of home block n once recover_from_log has run to its end on this disk: the last
      log slot listed for n, or n itself. */
  function Recovered(L: Layout, disk: seq<Block>, n: nat): Block
    requires LogInBounds(L, disk) && n < L.size
  {
    Replay(L, disk, Head(disk[L.logstart]), n)
  }

  function Replay(L: Layout, disk: seq<Block>, h: seq<Word32>, n: nat): Block
    requires L.Valid() && |disk| == L.size && |h| < L.nlog && n < L.size
  {
    if h == [] then disk[n]
    else if h[|h| - 1] == n then disk[L.Slot(|h| - 1)]
    else Replay(L, disk, h[..|h| - 1], n)
  }

  lemma ReplayAt(L: Layout, disk: seq<Block>, h: seq<Word32>, i: nat)
    requires L.Valid() && |disk| == L.size && |h| < L.nlog && i < |h| && h[i] < L.size
    requires forall a, b :: 0 <= a < b < |h| ==> h[a] != h[b]
    ensures Replay(L, disk, h, h[i]) == disk[L.Slot(i)]
  {
    if i < |h| - 1 {
      ReplayAt(L, disk, h[..|h| - 1], i);
    }
  }

  lemma ReplayOff(L: Layout, disk: seq<Block>, h: seq<Word32>, n: nat)
    requires L.Valid() && |disk| == L.size && |h| < L.nlog && n < L.size && n !in h
    ensures Replay(L, disk, h, n) == disk[n]
  {
  }

  // ---------------------------------------------------------------- the machine

  /** One FS system call between begin_op and end_op: how many blocks it has added to the log, and
      whether it stands inside log_write past the size check (which holds no lock). */
  datatype Op = Idle | Active(used: nat, passed: bool)

  datatype Phase =
    | Running
    | Copying(done: nat)                  // commit: write_log has written `done` slots
    | Installing(done: nat, boot: bool)   // install_trans, in commit or in recovery
    | Booting                             // after a crash, before read_head

  datatype Sys = Sys(disk: seq<Block>, cache: Cache, lh: seq<Word32>, ops: seq<Op>, phase: Phase,
                     modified: set<nat>, latest: seq<Block>, committed: seq<Block>)

  datatype Step =
    | BeginOp(p: Pid)
    | EndOp(p: Pid)
    | GetBuf(p: Pid, n: nat)              // bget under bcache.lock
    | Lock(p: Pid, b: nat)                // acquiresleep succeeds
    | Fill(p: Pid, b: nat)                // bread's iderw
    | Unlock(p: Pid, b: nat)              // brelse: releasesleep
    | PutBuf(p: Pid, b: nat)              // brelse under bcache.lock
    | Modify(p: Pid, b: nat, data: Block)
    | LogCheck(p: Pid)                    // log_write lines 218-221
    | LogAppend(p: Pid, b: nat)           // log_write under log.lock
    | CopyToLog(p: Pid, t: nat, f: nat)   // write_log: memmove and bwrite of one slot; t is not f,
                                          // a second bread of the same block would wait for ever
    | WriteHead(p: Pid, b: nat)           // commit: write_head
    | Install(p: Pid, l: nat, d: nat)     // install_trans: memmove and bwrite of one block
    | ClearHead(p: Pid, b: nat)           // lh.n = 0 and write_head
    | ReadHead(p: Pid, b: nat)            // recover_from_log: read_head
    | Crash

  function Outstanding(ops: seq<Op>): nat {
    if ops == [] then 0 else (if ops[0].Active? then 1 else 0) + Outstanding(ops[1..])
  }

  /** Log space promised to operations in progress and not yet used by them. */
  function Unused(ops: seq<Op>): int {
    if ops == [] then 0 else (if ops[0].Active? then MAXOPBLOCKS - ops[0].used else 0) + Unused(ops[1..])
  }

  const FRESH_CACHE := Cache(seq(NBUF, _ => Buf(0, 0, false, false, 0, None, ZERO_BLOCK)),
                             seq(NBUF, i requires 0 <= i < NBUF => NBUF - 1 - i),
                             seq(NBUF, _ => multiset{}), seq(NBUF, i => i), NBUF)

  /** The system at mount of a disk whose log is empty. */
  function Boot(disk: seq<Block>): Sys {
    Sys(disk, FRESH_CACHE, [], seq(NPROC, _ => Idle), Booting, {}, disk, disk)
  }

  ghost predicate Shape(L: Layout, s: Sys) {
    && L.Valid()
    && |s.disk| == |s.latest| == |s.committed| == L.size
    && |s.ops| == NPROC
    && |s.cache.bufs| == |s.cache.holders| == NBUF && WellFormed(s.cache)
    && |s.lh| <= LOGSIZE
  }

  predicate HeldBy(c: Cache, b: nat, p: Pid, n: nat)
    requires |c.bufs| == NBUF
  {
    b < NBUF && c.bufs[b].owner == Some(p) && c.bufs[b].valid && c.bufs[b].Holds(n)
  }

  function SetBuf(s: Sys, b: nat, x: Buf): Sys
    requires b < |s.cache.bufs|
  {
    s.(cache := s.cache.(bufs := s.cache.bufs[b := x]))
  }

  /** bwrite of buffer b with contents `data`: on disk, valid and clean. */
  function WriteBuf(s: Sys, b: nat, data: Block): Sys
    requires b < |s.cache.bufs| && s.cache.bufs[b].blockno < |s.disk|
  {
    SetBuf(s, b, s.cache.bufs[b].(data := data, valid := true, dirty := false))
      .(disk := s.disk[s.cache.bufs[b].blockno := data])
  }

  ghost predicate Enabled(L: Layout, s: Sys, e: Step)
    requires Shape(L, s)
  {
    var bufs := s.cache.bufs;
    match e
    case BeginOp(p) =>
      && p < NPROC && s.ops[p].Idle? && s.phase.Running?
      && |s.lh| + (Outstanding(s.ops) + 1) * MAXOPBLOCKS <= LOGSIZE
    case EndOp(p) =>
      && p < NPROC && s.ops[p].Active? && !s.ops[p].passed && s.phase.Running?
      && forall b :: b in s.modified && b < NBUF ==> bufs[b].owner != Some(p)
    case GetBuf(p, n) =>
      && n < L.size && (L.Home(n) || !s.phase.Running?)
      && Get(s.cache, n, p).Some?
    case Lock(p, b) => b < NBUF && p in s.cache.holders[b] && bufs[b].owner.None?
    case Fill(p, b) => b < NBUF && bufs[b].owner == Some(p) && !bufs[b].valid && bufs[b].dev == ROOTDEV
        && bufs[b].blockno < L.size
    case Unlock(p, b) => b < NBUF && bufs[b].owner == Some(p) && b !in s.modified
    case PutBuf(p, b) => b < NBUF && p in s.cache.holders[b] && bufs[b].owner != Some(p) && b in s.cache.order
        && bufs[b].refcnt > 0
    case Modify(p, b, data) =>
      && s.phase.Running? && p < NPROC && s.ops[p].Active?
      && b < NBUF && L.Home(bufs[b].blockno) && HeldBy(s.cache, b, p, bufs[b].blockno)
    case LogCheck(p) =>
      && p < NPROC && s.ops[p].Active? && !s.ops[p].passed
      && |s.lh| < LOGSIZE && |s.lh| < L.nlog - 1
    case LogAppend(p, b) =>
      && p < NPROC && s.ops[p].Active? && s.ops[p].passed
      && b < NBUF && L.Home(bufs[b].blockno) && HeldBy(s.cache, b, p, bufs[b].blockno)
      && (bufs[b].blockno in s.lh || s.ops[p].used < MAXOPBLOCKS)
    case CopyToLog(p, t, f) =>
      && s.phase.Copying? && s.phase.done < |s.lh| && L.Slot(s.phase.done) < L.size && t != f
      && HeldBy(s.cache, t, p, L.Slot(s.phase.done))
      && HeldBy(s.cache, f, p, s.lh[s.phase.done])
    case WriteHead(p, b) => s.phase == Copying(|s.lh|) && HeldBy(s.cache, b, p, L.logstart)
    case Install(p, l, d) =>
      && s.phase.Installing? && s.phase.done < |s.lh| && s.lh[s.phase.done] < L.size
      && HeldBy(s.cache, l, p, L.Slot(s.phase.done))
      && HeldBy(s.cache, d, p, s.lh[s.phase.done])
    case ClearHead(p, b) => s.phase.Installing? && s.phase.done == |s.lh| && HeldBy(s.cache, b, p, L.logstart)
    case ReadHead(p, b) => s.phase.Booting? && HeldBy(s.cache, b, p, L.logstart) && HeadOk(bufs[b].data)
    case Crash => true
  }

  ghost function Apply(L: Layout, s: Sys, e: Step): Sys
    requires Shape(L, s) && Enabled(L, s, e)
  {
    var bufs := s.cache.bufs;
    match e
    case BeginOp(p) => s.(ops := s.ops[p := Active(0, false)])
    case EndOp(p) =>
      var ops := s.ops[p := Idle];
      s.(ops := ops, phase := if Outstanding(ops) == 0 && s.lh != [] then Copying(0) else Running)
    case GetBuf(p, n) => s.(cache := Get(s.cache, n, p).value.0)
    case Lock(p, b) => SetBuf(s, b, bufs[b].(owner := Some(p)))
    case Fill(p, b) =>
      if bufs[b].dirty then WriteBuf(s, b, bufs[b].data)
      else SetBuf(s, b, bufs[b].(data := s.disk[bufs[b].blockno], valid := true))
    case Unlock(p, b) => SetBuf(s, b, bufs[b].(owner := None))
    case PutBuf(p, b) => s.(cache := Put(s.cache, b, p))
    case Modify(p, b, data) => SetBuf(s, b, bufs[b].(data := data)).(modified := s.modified + {b})
    case LogCheck(p) => s.(ops := s.ops[p := s.ops[p].(passed := true)])
    case LogAppend(p, b) =>
      var n := bufs[b].blockno;
      var added := if n in s.lh then 0 else 1;
      SetBuf(s, b, bufs[b].(dirty := true))
        .(lh := if n in s.lh then s.lh else s.lh + [n],
          ops := s.ops[p := Active(s.ops[p].used + added, false)],
          modified := s.modified - {b},
          latest := s.latest[n := bufs[b].data])
    case CopyToLog(p, t, f) => WriteBuf(s, t, bufs[f].data).(phase := Copying(s.phase.done + 1))
    case WriteHead(p, b) =>
      WriteBuf(s, b, SetHead(bufs[b].data, s.lh)).(phase := Installing(0, false), committed := s.latest)
    case Install(p, l, d) => WriteBuf(s, d, bufs[l].data).(phase := s.phase.(done := s.phase.done + 1))
    case ClearHead(p, b) => WriteBuf(s, b, SetHead(bufs[b].data, [])).(phase := Running, lh := [])
    case ReadHead(p, b) => s.(lh := Head(bufs[b].data), phase := Installing(0, true))
    case Crash => Boot(s.disk).(latest := s.committed, committed := s.committed)
  }

  // ---------------------------------------------------------------- the invariant

  ghost predicate InRecovery(s: Sys) { s.phase.Booting? || (s.phase.Installing? && s.phase.boot) }

  /** Listed blocks whose home copy is not yet on disk. */
  ghost function Pending(s: Sys): seq<Word32> {
    match s.phase
    case Running => s.lh
    case Copying(_) => s.lh
    case Installing(k, _) => if k <= |s.lh| then s.lh[k..] else []
    case Booting => []
  }

  /** What a reader of block n must see. */
  ghost function View(L: Layout, s: Sys, n: nat): Block
    requires Shape(L, s) && n < L.size
  {
    if L.Home(n) && !InRecovery(s) then s.latest[n] else s.disk[n]
  }

  ghost predicate Distinct(h: seq<Word32>) {
    forall i, j :: 0 <= i < j < |h| ==> h[i] != h[j]
  }

  /** A list of home blocks, each once; it may be longer than the log area. */
  ghost predicate Listing(L: Layout, h: seq<Word32>) {
    && |h| <= LOGSIZE
    && Distinct(h)
    && (forall n :: n in h ==> L.Home(n))
  }

  ghost predicate ListOk(L: Layout, h: seq<Word32>) {
    Listing(L, h) && |h| < L.nlog
  }

  ghost predicate OpsOk(s: Sys) {
    && (forall p :: 0 <= p < |s.ops| ==> s.ops[p].Active? ==> s.phase.Running? && s.ops[p].used <= MAXOPBLOCKS)
    && (s.phase.Running? ==> |s.lh| + Unused(s.ops) <= LOGSIZE)
  }

  ghost predicate BufOk(L: Layout, s: Sys, b: nat)
    requires Shape(L, s) && b < NBUF
  {
    var x := s.cache.bufs[b];
    && (x.dev == ROOTDEV ==> x.blockno < L.size)
    && (x.dirty ==> !InRecovery(s) && x.dev == ROOTDEV && x.valid && x.blockno in Pending(s))
    && (x.dev == ROOTDEV && x.valid && b !in s.modified ==> x.blockno < L.size && x.data == View(L, s, x.blockno))
    && (b in s.modified ==>
          && s.phase.Running? && x.dev == ROOTDEV && x.valid && L.Home(x.blockno)
          && x.owner.Some? && x.owner.value < NPROC && s.ops[x.owner.value].Active?)
  }

  /** Some buffer holds block n dirty, so n cannot be recycled. */
  ghost predicate Pinned(s: Sys, n: nat)
    requires |s.cache.bufs| == NBUF
  {
    exists b :: 0 <= b < NBUF && s.cache.bufs[b].Holds(n) && s.cache.bufs[b].dirty
  }

  ghost predicate BufsOk(L: Layout, s: Sys)
    requires Shape(L, s)
  {
    && (forall b :: 0 <= b < NBUF ==> BufOk(L, s, b))
    && (!InRecovery(s) ==> forall n :: n in Pending(s) ==> Pinned(s, n))
  }

  ghost predicate SlotsHold(L: Layout, s: Sys, h: seq<Word32>, k: nat)
    requires Shape(L, s) && k <= |h| && k < L.nlog
  {
    forall i :: 0 <= i < k ==> h[i] < L.size && s.disk[L.Slot(i)] == s.latest[h[i]]
  }

  ghost predicate DiskOk(L: Layout, s: Sys)
    requires Shape(L, s)
  {
    && HeadOk(s.disk[L.logstart])
    && var h := Head(s.disk[L.logstart]);
       match s.phase
       case Running =>
         && h == []
         && (forall n: nat :: L.Home(n) ==>
               s.disk[n] == s.committed[n] && (n !in s.lh ==> s.latest[n] == s.committed[n]))
       case Copying(k) =>
         && k <= |s.lh| && k < L.nlog && h == [] && SlotsHold(L, s, s.lh, k)
         && (k > 0 ==> |s.lh| < NBUF)
         && (forall n: nat :: L.Home(n) ==>
               s.disk[n] == s.committed[n] && (n !in s.lh ==> s.latest[n] == s.committed[n]))
       case Installing(k, _) =>
         && k <= |s.lh| < L.nlog && h == s.lh && SlotsHold(L, s, h, |h|)
         && (forall n: nat :: L.Home(n) ==>
               s.latest[n] == s.committed[n] && (n !in s.lh[k..] ==> s.disk[n] == s.latest[n]))
       case Booting =>
         && ListOk(L, h) && SlotsHold(L, s, h, |h|)
         && (forall n: nat :: L.Home(n) ==> s.latest[n] == s.committed[n] && (n !in h ==> s.disk[n] == s.latest[n]))
  }

  /** The list of log_writes may outgrow the log area; what reaches the disk may not. */
  ghost predicate Inv(L: Layout, s: Sys) {
    && Shape(L, s)
    && Listing(L, s.lh)
    && OpsOk(s)
    && BufsOk(L, s)
    && DiskOk(L, s)
  }

  // ---------------------------------------------------------------- counting operations

  lemma {:induction false} UpdateCounts(ops: seq<Op>, p: nat, x: Op)
    requires p < |ops|
    ensures Outstanding(ops[p := x]) == Outstanding(ops) - Outstanding([ops[p]]) + Outstanding([x])
    ensures Unused(ops[p := x]) == Unused(ops) - Unused([ops[p]]) + Unused([x])
  {
    if p > 0 {
      UpdateCounts(ops[1..], p - 1, x);
      assert ops[p := x][1..] == ops[1..][p - 1 := x];
    } else {
      assert ops[p := x][1..] == ops[1..];
    }
  }

  lemma {:induction false} UnusedBounds(ops: seq<Op>)
    requires forall p :: 0 <= p < |ops| ==> ops[p].Active? ==> ops[p].used <= MAXOPBLOCKS
    ensures 0 <= Unused(ops) <= Outstanding(ops) * MAXOPBLOCKS
    ensures Outstanding(ops) == 0 <==> forall p :: 0 <= p < |ops| ==> ops[p].Idle?
    ensures forall p :: 0 <= p < |ops| && ops[p].Active? ==> MAXOPBLOCKS - ops[p].used <= Unused(ops)
  {
    if ops != [] {
      UnusedBounds(ops[1..]);
      assert forall p :: 1 <= p < |ops| ==> ops[p] == ops[1..][p - 1];
      assert forall p :: 0 <= p < |ops| - 1 ==> ops[1..][p] == ops[p + 1];
    }
  }

  // ---------------------------------------------------------------- every step keeps the invariant

  lemma OpStepKeeps(L: Layout, s: Sys, e: Step)
    requires Inv(L, s) && Enabled(L, s, e) && (e.BeginOp? || e.EndOp? || e.LogCheck?)
    ensures Inv(L, Apply(L, s, e))
  {
    hide WellFormed, BufsOk, DiskOk, Listing;
    var s' := Apply(L, s, e);
    UpdateCounts(s.ops, e.p, s'.ops[e.p]);
    UnusedBounds(s.ops);
    UnusedBounds(s'.ops);
    assert OpsMove(s, s', e.p);
    OpsMoveKeeps(L, s, s', e.p);
  }

  /** Only the operation of process p changes; when the last one ends the commit may begin. */
  ghost predicate OpsMove(s: Sys, s': Sys, p: nat) {
    && |s.ops| == |s'.ops| == NPROC && p < NPROC && s.phase.Running?
    && s' == s.(ops := s'.ops, phase := s'.phase)
    && (forall q :: 0 <= q < NPROC && q != p ==> s'.ops[q] == s.ops[q])
    && (s'.ops[p].Active? || forall b :: b in s.modified && b < NBUF && b < |s.cache.bufs| ==>
          s.cache.bufs[b].owner != Some(p))
    && (!s'.phase.Running? ==> s'.phase == Copying(0) && forall q :: 0 <= q < NPROC ==> s'.ops[q].Idle?)
  }

  lemma OpsMoveKeeps(L: Layout, s: Sys, s': Sys, p: nat)
    requires Inv(L, s) && OpsMove(s, s', p) && OpsOk(s')
    ensures Inv(L, s')
  {
    hide WellFormed, OpsOk;
    assert Pending(s') == Pending(s);
    assert BufsOk(L, s') by {
      forall b | 0 <= b < NBUF ensures BufOk(L, s', b) {
        assert BufOk(L, s, b);
      }
      assert forall n :: n in Pending(s') ==> Pinned(s, n) && Pinned(s', n);
    }
    assert SlotsHold(L, s', s'.lh, 0);
  }

  /** A step that changes only the cache needs to look only at the buffers. */
  lemma CacheOnlyKeeps(L: Layout, s: Sys, s': Sys)
    requires Inv(L, s) && s' == s.(cache := s'.cache) && WellFormed(s'.cache)
    requires forall b :: 0 <= b < NBUF ==> BufOk(L, s', b)
    requires !InRecovery(s) ==> forall n :: n in Pending(s) ==> Pinned(s', n)
    ensures Inv(L, s')
  {
  }

  lemma StayPinned(s: Sys, s': Sys)
    requires |s.cache.bufs| == |s'.cache.bufs| == NBUF
    requires forall b :: 0 <= b < NBUF && s.cache.bufs[b].dirty ==>
               && s'.cache.bufs[b].dirty && s'.cache.bufs[b].dev == s.cache.bufs[b].dev
               && s'.cache.bufs[b].blockno == s.cache.bufs[b].blockno
    ensures forall n :: Pinned(s, n) ==> Pinned(s', n)
  {
    forall n | Pinned(s, n)
      ensures Pinned(s', n)
    {
      var i :| 0 <= i < NBUF && s.cache.bufs[i].Holds(n) && s.cache.bufs[i].dirty;
      assert s'.cache.bufs[i].Holds(n) && s'.cache.bufs[i].dirty;
    }
  }

  /** The buffer of a block still to be installed is the pinned one. */
  lemma PendingBuffer(L: Layout, s: Sys, b: nat)
    requires Inv(L, s) && !InRecovery(s) && b < NBUF
    requires s.cache.bufs[b].dev == ROOTDEV && s.cache.bufs[b].blockno in Pending(s)
    ensures s.cache.bufs[b].valid && s.cache.bufs[b].dirty
  {
    OneBufferPerBlock(s.cache);
    hide WellFormed;
    var n := s.cache.bufs[b].blockno;
    assert Pinned(s, n);
    var i :| 0 <= i < NBUF && s.cache.bufs[i].Holds(n) && s.cache.bufs[i].dirty;
    assert BufOk(L, s, i);
    assert i == b;
  }

  lemma GetBufOk(L: Layout, s: Sys, s': Sys, p: Pid, n: nat, b: nat, i: nat)
    requires Inv(L, s) && n < L.size && (L.Home(n) || !s.phase.Running?) && i < NBUF && b < NBUF
    requires Get(s.cache, n, p) == Some((s'.cache, b)) && s' == s.(cache := s'.cache) && Shape(L, s')
    ensures BufOk(L, s', i)
    ensures s.cache.bufs[i].dirty ==>
              && s'.cache.bufs[i].dirty && s'.cache.bufs[i].dev == s.cache.bufs[i].dev
              && s'.cache.bufs[i].blockno == s.cache.bufs[i].blockno
  {
    hide WellFormed, Get, DiskOk, OpsOk;
    GetKeeps(s.cache, n, p);
    assert BufOk(L, s, i) && BufOk(L, s, b);
  }

  lemma GetStepKeeps(L: Layout, s: Sys, p: Pid, n: nat)
    requires Inv(L, s) && Enabled(L, s, GetBuf(p, n))
    ensures Inv(L, Apply(L, s, GetBuf(p, n)))
  {
    var s' := Apply(L, s, GetBuf(p, n));
    GetKeeps(s.cache, n, p);
    forall i | 0 <= i < NBUF
      ensures BufOk(L, s', i)
      ensures s.cache.bufs[i].dirty ==>
                && s'.cache.bufs[i].dirty && s'.cache.bufs[i].dev == s.cache.bufs[i].dev
                && s'.cache.bufs[i].blockno == s.cache.bufs[i].blockno
    {
      GetBufOk(L, s, s', p, n, Get(s.cache, n, p).value.1, i);
    }
    hide WellFormed, Get, BufOk, DiskOk;
    StayPinned(s, s');
    CacheOnlyKeeps(L, s, s');
  }

  lemma LockStepKeeps(L: Layout, s: Sys, e: Step)
    requires Inv(L, s) && Enabled(L, s, e) && (e.Lock? || e.Unlock? || e.PutBuf?)
    ensures Inv(L, Apply(L, s, e))
  {
    hide WellFormed, Put, DiskOk, OpsOk;
    var s' := Apply(L, s, e);
    LockedSame(L, s, e);
    assert forall i :: 0 <= i < NBUF ==> BufOk(L, s', i) by {
      forall i | 0 <= i < NBUF ensures BufOk(L, s', i) {
        assert BufOk(L, s, i);
      }
    }
    StayPinned(s, s');
    CacheOnlyKeeps(L, s, s');
  }

  lemma LockedSame(L: Layout, s: Sys, e: Step)
    requires Inv(L, s) && Enabled(L, s, e) && (e.Lock? || e.Unlock? || e.PutBuf?)
    ensures var s' := Apply(L, s, e);
            && Shape(L, s') && s' == s.(cache := s'.cache)
            && (forall i :: 0 <= i < NBUF && i != e.b ==> s'.cache.bufs[i] == s.cache.bufs[i])
            && s'.cache.bufs[e.b] == s.cache.bufs[e.b].(owner := s'.cache.bufs[e.b].owner,
                  refcnt := s'.cache.bufs[e.b].refcnt)
            && (e.b in s.modified ==> s'.cache.bufs[e.b].owner == s.cache.bufs[e.b].owner)
  {
    assert BufOk(L, s, e.b);
    if e.PutBuf? {
      PutKeeps(s.cache, e.b, e.p);
    } else if e.Lock? {
      OwnerKeeps(s.cache, e.b, Some(e.p));
    } else {
      OwnerKeeps(s.cache, e.b, None);
    }
    hide WellFormed;
  }

  lemma FillStepKeeps(L: Layout, s: Sys, p: Pid, b: nat)
    requires Inv(L, s) && Enabled(L, s, Fill(p, b))
    ensures Inv(L, Apply(L, s, Fill(p, b)))
  {
    var s' := Apply(L, s, Fill(p, b));
    var n := s.cache.bufs[b].blockno;
    assert BufOk(L, s, b);
    RelabelKeeps(s.cache, b, s'.cache.bufs[b]);
    hide WellFormed;
    if !InRecovery(s) {
      if n in Pending(s) {
        PendingBuffer(L, s, b);
      }
    }
    StayPinned(s, s');
    forall i | 0 <= i < NBUF
      ensures BufOk(L, s', i)
    {
      assert BufOk(L, s, i);
    }
    CacheOnlyKeeps(L, s, s');
  }

  lemma ModifyStepKeeps(L: Layout, s: Sys, p: Pid, b: nat, data: Block)
    requires Inv(L, s) && Enabled(L, s, Modify(p, b, data))
    ensures Inv(L, Apply(L, s, Modify(p, b, data)))
  {
    hide WellFormed;
    var s' := Apply(L, s, Modify(p, b, data));
    RelabelKeeps(s.cache, b, s'.cache.bufs[b]);
    forall i | 0 <= i < NBUF
      ensures BufOk(L, s', i)
    {
      assert BufOk(L, s, i);
    }
    StayPinned(s, s');
  }

  lemma AppendStepKeeps(L: Layout, s: Sys, p: Pid, b: nat)
    requires Inv(L, s) && Enabled(L, s, LogAppend(p, b))
    ensures Inv(L, Apply(L, s, LogAppend(p, b)))
  {
    hide WellFormed, BufsOk, DiskOk;
    var s' := Apply(L, s, LogAppend(p, b));
    AppendOps(L, s, p, b);
    RelabelKeeps(s.cache, b, s'.cache.bufs[b]);
    AppendBufs(L, s, p, b);
    AppendDisk(L, s, p, b);
  }

  /** There is room for what an operation within its budget adds. */
  lemma AppendOps(L: Layout, s: Sys, p: Pid, b: nat)
    requires Inv(L, s) && Enabled(L, s, LogAppend(p, b))
    ensures var s' := Apply(L, s, LogAppend(p, b)); OpsOk(s') && Listing(L, s'.lh)
  {
    hide WellFormed, BufsOk, DiskOk;
    var s' := Apply(L, s, LogAppend(p, b));
    UpdateCounts(s.ops, p, s'.ops[p]);
    UnusedBounds(s.ops);
    assert forall m :: m in s'.lh ==> m == s.cache.bufs[b].blockno || m in s.lh;
  }

  lemma AppendBufs(L: Layout, s: Sys, p: Pid, b: nat)
    requires Inv(L, s) && Enabled(L, s, LogAppend(p, b)) && Shape(L, Apply(L, s, LogAppend(p, b)))
    ensures BufsOk(L, Apply(L, s, LogAppend(p, b)))
  {
    hide WellFormed, DiskOk, OpsOk, Listing, BufOk;
    var s' := Apply(L, s, LogAppend(p, b));
    var n := s.cache.bufs[b].blockno;
    forall i | 0 <= i < NBUF ensures BufOk(L, s', i) {
      AppendBuf(L, s, p, b, i);
    }
    StayPinned(s, s');
    assert s'.cache.bufs[b].Holds(n) && s'.cache.bufs[b].dirty;
  }

  lemma AppendBuf(L: Layout, s: Sys, p: Pid, b: nat, i: nat)
    requires Inv(L, s) && Enabled(L, s, LogAppend(p, b)) && Shape(L, Apply(L, s, LogAppend(p, b))) && i < NBUF
    ensures BufOk(L, Apply(L, s, LogAppend(p, b)), i)
  {
    assert s.phase.Running? && BufOk(L, s, i);
    OneBufferPerBlock(s.cache);
    hide WellFormed, DiskOk, OpsOk, Listing, BufsOk;
    if i != b {
      assert s.cache.bufs[i].dev == ROOTDEV ==> s.cache.bufs[i].blockno != s.cache.bufs[b].blockno;
    }
  }

  lemma AppendDisk(L: Layout, s: Sys, p: Pid, b: nat)
    requires Inv(L, s) && Enabled(L, s, LogAppend(p, b)) && Shape(L, Apply(L, s, LogAppend(p, b)))
    ensures DiskOk(L, Apply(L, s, LogAppend(p, b)))
  {
    hide WellFormed, BufsOk, Listing;
    assert s.phase.Running?;
  }

  /** The buffer that pins block n. */
  ghost function PinOf(s: Sys, n: nat): (b: nat)
    requires |s.cache.bufs| == NBUF && Pinned(s, n)
    ensures b < NBUF && s.cache.bufs[b].Holds(n) && s.cache.bufs[b].dirty
  {
    var b :| 0 <= b < NBUF && s.cache.bufs[b].Holds(n) && s.cache.bufs[b].dirty;
    b
  }

  /** NBUF listed blocks pin every buffer. */
  lemma FullLogPinsAll(L: Layout, s: Sys, b: nat)
    requires Inv(L, s) && (s.phase.Running? || s.phase.Copying?) && |s.lh| == NBUF && b < NBUF
    ensures s.cache.bufs[b].dirty && s.cache.bufs[b].dev == ROOTDEV && s.cache.bufs[b].blockno in s.lh
  {
    hide WellFormed, DiskOk, OpsOk, BufOk, Pinned;
    var pins := seq(NBUF, i requires 0 <= i < NBUF => PinOf(s, s.lh[i]));
    RingCovers(pins, b);
    var i :| 0 <= i < NBUF && pins[i] == b;
  }

  /** So bget finds no buffer for a log block and the commit panics before its first disk write,
      however large the log area. */
  lemma FullLogPanics(L: Layout, s: Sys, n: nat, p: Pid)
    requires Inv(L, s) && (s.phase.Running? || s.phase.Copying?) && |s.lh| == NBUF && !L.Home(n)
    ensures Get(s.cache, n, p).None?
    ensures forall q, t, f :: !Enabled(L, s, CopyToLog(q, t, f))
  {
    hide OpsOk, BufsOk, SlotsHold;
    assert s.phase.Copying? ==> s.phase.done == 0;
    hide DiskOk;
    assert forall b :: 0 <= b < NBUF ==> !s.cache.bufs[b].Recyclable() && L.Home(s.cache.bufs[b].blockno) by {
      forall b | 0 <= b < NBUF ensures !s.cache.bufs[b].Recyclable() && L.Home(s.cache.bufs[b].blockno) {
        FullLogPinsAll(L, s, b);
      }
    }
    GetKeeps(s.cache, n, p);
  }

  /** A slot write fits when its slot lies in the log area. */
  ghost predicate Fits(L: Layout, s: Sys, e: Step) {
    e.CopyToLog? && s.phase.Copying? ==> s.phase.done + 1 < L.nlog
  }

  /** A log area that no run writes past: it has LOGSIZE blocks, or it ends the disk, or it has more
      blocks than can be listed. */
  predicate AreaSuffices(L: Layout) {
    L.nlog >= LOGSIZE || L.logstart + L.nlog == L.size || L.size < 2 * L.nlog
  }

  /** Distinct numbers below m are at most m. */
  lemma DistinctBelow(h: seq<nat>, m: nat)
    requires forall i, j :: 0 <= i < j < |h| ==> h[i] != h[j]
    requires forall i :: 0 <= i < |h| ==> h[i] < m
    ensures |h| <= m
  {
    InjectiveImage(h, |h|);
    BelowSize(m);
    SubsetSize(set i | 0 <= i < |h| :: h[i], Below(m));
  }

  /** A list of home blocks is no longer than there are home blocks. */
  lemma HomesOnly(L: Layout, h: seq<Word32>)
    requires L.Valid() && Listing(L, h)
    ensures |h| <= L.size - L.nlog
  {
    assert forall i :: 0 <= i < |h| ==> L.Home(h[i]);
    DistinctBelow(seq(|h|, i requires 0 <= i < |h| => if h[i] < L.logstart then h[i] else h[i] - L.nlog),
                  L.size - L.nlog);
  }

  /** NBUF is LOGSIZE, and a list of that many blocks leaves no buffer to write a slot with, so an
      area of LOGSIZE blocks, one slot short, suffices. */
  lemma SlotWriteFits(L: Layout, s: Sys, e: Step)
    requires Inv(L, s) && Enabled(L, s, e) && AreaSuffices(L)
    ensures Fits(L, s, e)
  {
    hide WellFormed, BufsOk, OpsOk;
    HomesOnly(L, s.lh);
  }

  lemma CopyStepKeeps(L: Layout, s: Sys, p: Pid, t: nat, f: nat)
    requires Inv(L, s) && Enabled(L, s, CopyToLog(p, t, f)) && Fits(L, s, CopyToLog(p, t, f))
    ensures Inv(L, Apply(L, s, CopyToLog(p, t, f)))
  {
    hide WellFormed, BufsOk, DiskOk;
    var s' := Apply(L, s, CopyToLog(p, t, f));
    RelabelKeeps(s.cache, t, s'.cache.bufs[t]);
    CopyBufs(L, s, p, t, f);
    CopyDisk(L, s, p, t, f);
  }

  lemma CopyBufs(L: Layout, s: Sys, p: Pid, t: nat, f: nat)
    requires Inv(L, s) && Enabled(L, s, CopyToLog(p, t, f)) && Fits(L, s, CopyToLog(p, t, f))
    requires Shape(L, Apply(L, s, CopyToLog(p, t, f)))
    ensures BufsOk(L, Apply(L, s, CopyToLog(p, t, f)))
  {
    hide WellFormed, DiskOk, OpsOk;
    var s' := Apply(L, s, CopyToLog(p, t, f));
    assert BufOk(L, s, t);
    OneBufferPerBlock(s.cache);
    forall i | 0 <= i < NBUF ensures BufOk(L, s', i) {
      assert BufOk(L, s, i);
    }
    StayPinned(s, s');
  }

  lemma CopyDisk(L: Layout, s: Sys, p: Pid, t: nat, f: nat)
    requires Inv(L, s) && Enabled(L, s, CopyToLog(p, t, f)) && Fits(L, s, CopyToLog(p, t, f))
    requires Shape(L, Apply(L, s, CopyToLog(p, t, f)))
    ensures DiskOk(L, Apply(L, s, CopyToLog(p, t, f)))
  {
    hide WellFormed, OpsOk, BufsOk;
    var s', k := Apply(L, s, CopyToLog(p, t, f)), s.phase.done;
    assert s.lh[k] in s.lh && s.cache.bufs[f].data == s.latest[s.lh[k]] by {
      CopyingQuiet(L, s);
      WriteAheadReads(L, s, p, f, s.lh[k]);
    }
    if |s.lh| == NBUF {
      FullLogPinsAll(L, s, t);
    }
    assert SlotsHold(L, s', s'.lh, k + 1);
  }

  lemma HeadStepKeeps(L: Layout, s: Sys, p: Pid, b: nat)
    requires Inv(L, s) && Enabled(L, s, WriteHead(p, b))
    ensures Inv(L, Apply(L, s, WriteHead(p, b)))
  {
    hide WellFormed, SetHead;
    var s' := Apply(L, s, WriteHead(p, b));
    HeadOfSetHead(s.cache.bufs[b].data, s.lh);
    assert BufOk(L, s, b);
    RelabelKeeps(s.cache, b, s'.cache.bufs[b]);
    OneBufferPerBlock(s.cache);
    assert Pending(s') == Pending(s);
    assert BufsOk(L, s') by {
      forall i | 0 <= i < NBUF ensures BufOk(L, s', i) {
        assert BufOk(L, s, i);
      }
      StayPinned(s, s');
    }
    assert DiskOk(L, s') by {
      assert SlotsHold(L, s', s'.lh, |s'.lh|);
    }
    hide BufsOk, DiskOk, BufOk;
  }

  /** s' is s after install_trans copies the slot held in buffer l to the home block held in d. */
  ghost predicate Installs(L: Layout, s: Sys, l: nat, d: nat, s': Sys)
    requires Shape(L, s)
  {
    && s.phase.Installing? && s.phase.done < |s.lh| && l < NBUF && d < NBUF
    && s.cache.bufs[l].valid && s.cache.bufs[l].Holds(L.Slot(s.phase.done))
    && s.cache.bufs[d].valid && s.cache.bufs[d].Holds(s.lh[s.phase.done]) && s.cache.bufs[d].blockno < L.size
    && s' == WriteBuf(s, d, s.cache.bufs[l].data).(phase := s.phase.(done := s.phase.done + 1))
  }

  /** One install: the home block gets what the last log_write stored, and nothing else moves. */
  lemma InstallEffect(L: Layout, s: Sys, l: nat, d: nat, s': Sys)
    requires Inv(L, s) && Installs(L, s, l, d, s')
    ensures var n := s.lh[s.phase.done];
            && L.Home(n) && n in s.lh && WellFormed(s'.cache)
            && s'.disk == s.disk[n := s.latest[n]] && s'.cache.bufs[d].data == s.latest[n]
            && (forall m :: m in Pending(s) <==> m == n || m in Pending(s'))
            && n !in Pending(s')
            && (forall i :: 0 <= i < NBUF && i != d ==> !s.cache.bufs[i].Holds(n))
  {
    hide WellFormed, OpsOk, BufsOk, DiskOk, Listing;
    InstallSlot(L, s, l, d, s');
    InstallPending(L, s, s.phase.done, s');
    RelabelKeeps(s.cache, d, s'.cache.bufs[d]);
    OneBufferPerBlock(s.cache);
  }

  /** The slot of the block to install holds its latest contents. */
  lemma InstallSlot(L: Layout, s: Sys, l: nat, d: nat, s': Sys)
    requires Inv(L, s) && Installs(L, s, l, d, s')
    ensures var n := s.lh[s.phase.done]; L.Home(n) && n in s.lh && s.cache.bufs[l].data == s.latest[n]
  {
    hide WellFormed, OpsOk, Pinned;
    assert s.lh[s.phase.done] in s.lh && BufOk(L, s, l);
  }

  lemma InstallPending(L: Layout, s: Sys, k: nat, s': Sys)
    requires Listing(L, s.lh) && s.phase.Installing? && s.phase.done == k < |s.lh|
    requires s'.lh == s.lh && s'.phase == s.phase.(done := k + 1)
    ensures forall m :: m in Pending(s) <==> m == s.lh[k] || m in Pending(s')
    ensures s.lh[k] !in Pending(s')
  {
    assert s.lh[k..] == [s.lh[k]] + s.lh[k + 1..];
  }

  lemma InstallBuf(L: Layout, s: Sys, l: nat, d: nat, s': Sys, i: nat)
    requires Inv(L, s) && Installs(L, s, l, d, s') && i < NBUF
    ensures Shape(L, s') && BufOk(L, s', i)
  {
    hide WellFormed, OpsOk, DiskOk;
    InstallEffect(L, s, l, d, s');
    assert BufOk(L, s, i);
  }

  lemma InstallPins(L: Layout, s: Sys, l: nat, d: nat, s': Sys)
    requires Inv(L, s) && Installs(L, s, l, d, s') && !InRecovery(s)
    ensures |s'.cache.bufs| == NBUF && forall m :: m in Pending(s') ==> Pinned(s', m)
  {
    hide WellFormed, DiskOk, OpsOk, BufOk;
    InstallEffect(L, s, l, d, s');
    forall m | m in Pending(s')
      ensures Pinned(s', m)
    {
      assert Pinned(s, m);
      var i :| 0 <= i < NBUF && s.cache.bufs[i].Holds(m) && s.cache.bufs[i].dirty;
      assert s'.cache.bufs[i].Holds(m) && s'.cache.bufs[i].dirty;
    }
  }

  lemma InstallDisk(L: Layout, s: Sys, l: nat, d: nat, s': Sys)
    requires Inv(L, s) && Installs(L, s, l, d, s')
    ensures Shape(L, s') && Listing(L, s'.lh) && DiskOk(L, s')
  {
    hide WellFormed, BufsOk, OpsOk, Pending, Head, HeadOk, SlotsHold, Listing;
    var k, n := s.phase.done, s.lh[s.phase.done];
    InstallEffect(L, s, l, d, s');
    InstallSlots(L, s, n, s');
    assert s'.disk[L.logstart] == s.disk[L.logstart];
    assert s.lh[k..] == [n] + s.lh[k + 1..];
    forall m: nat | L.Home(m) ensures m !in s'.lh[k + 1..] ==> s'.disk[m] == s'.latest[m] {
      assert m !in s.lh[k + 1..] ==> m == n || m !in s.lh[k..];
    }
  }

  lemma InstallSlots(L: Layout, s: Sys, n: nat, s': Sys)
    requires Shape(L, s) && Shape(L, s') && |s.lh| < L.nlog && SlotsHold(L, s, s.lh, |s.lh|) && L.Home(n)
    requires s'.disk == s.disk[n := s.latest[n]] && s'.lh == s.lh && s'.latest == s.latest
    ensures SlotsHold(L, s', s'.lh, |s'.lh|)
  {
    hide WellFormed;
  }

  lemma InstallStepKeeps(L: Layout, s: Sys, p: Pid, l: nat, d: nat)
    requires Inv(L, s) && Enabled(L, s, Install(p, l, d))
    ensures Inv(L, Apply(L, s, Install(p, l, d)))
  {
    hide WellFormed, BufsOk, DiskOk, BufOk;
    var s' := Apply(L, s, Install(p, l, d));
    assert Installs(L, s, l, d, s');
    InstallsKeeps(L, s, l, d, s');
  }

  lemma InstallsKeeps(L: Layout, s: Sys, l: nat, d: nat, s': Sys)
    requires Inv(L, s) && Installs(L, s, l, d, s')
    ensures Inv(L, s')
  {
    hide WellFormed, BufOk, Pinned, DiskOk, Listing;
    InstallDisk(L, s, l, d, s');
    forall i | 0 <= i < NBUF
      ensures BufOk(L, s', i)
    {
      InstallBuf(L, s, l, d, s', i);
    }
    if !InRecovery(s) {
      InstallPins(L, s, l, d, s');
    }
  }

  lemma ClearBufs(L: Layout, s: Sys, p: Pid, b: nat)
    requires Inv(L, s) && Enabled(L, s, ClearHead(p, b))
    ensures var s' := Apply(L, s, ClearHead(p, b));
            Shape(L, s') && BufsOk(L, s')
  {
    var s' := Apply(L, s, ClearHead(p, b));
    assert BufOk(L, s, b);
    RelabelKeeps(s.cache, b, s'.cache.bufs[b]);
    OneBufferPerBlock(s.cache);
    hide WellFormed, SetHead;
    assert Pending(s) == [] && Pending(s') == [];
    forall i | 0 <= i < NBUF
      ensures BufOk(L, s', i)
    {
      assert BufOk(L, s, i);
    }
  }

  lemma AllInstalled(L: Layout, s: Sys)
    requires Inv(L, s) && s.phase.Installing? && s.phase.done == |s.lh|
    ensures forall n: nat :: L.Home(n) ==> s.disk[n] == s.committed[n] && s.latest[n] == s.committed[n]
  {
  }

  lemma ClearDisk(L: Layout, s: Sys, s': Sys, x: Block)
    requires Inv(L, s) && s.phase.Installing? && s.phase.done == |s.lh|
    requires HeadOk(x) && Head(x) == []
    requires Shape(L, s') && s'.disk == s.disk[L.logstart := x] && s'.phase == Running && s'.lh == []
    requires s'.latest == s.latest && s'.committed == s.committed
    ensures DiskOk(L, s')
  {
    AllInstalled(L, s);
  }

  lemma ClearStepDisk(L: Layout, s: Sys, p: Pid, b: nat)
    requires Inv(L, s) && Enabled(L, s, ClearHead(p, b))
    requires Shape(L, Apply(L, s, ClearHead(p, b)))
    ensures DiskOk(L, Apply(L, s, ClearHead(p, b)))
  {
    var x := SetHead(s.cache.bufs[b].data, []);
    HeadOfSetHead(s.cache.bufs[b].data, []);
    ClearDisk(L, s, Apply(L, s, ClearHead(p, b)), x);
  }

  lemma ClearStepKeeps(L: Layout, s: Sys, p: Pid, b: nat)
    requires Inv(L, s) && Enabled(L, s, ClearHead(p, b))
    ensures Inv(L, Apply(L, s, ClearHead(p, b)))
  {
    hide WellFormed, SetHead;
    ClearBufs(L, s, p, b);
    ClearStepDisk(L, s, p, b);
    UnusedBounds(s.ops);
  }

  lemma ReadHeadStepKeeps(L: Layout, s: Sys, p: Pid, b: nat)
    requires Inv(L, s) && Enabled(L, s, ReadHead(p, b))
    ensures Inv(L, Apply(L, s, ReadHead(p, b)))
  {
    hide WellFormed;
    var s' := Apply(L, s, ReadHead(p, b));
    assert BufOk(L, s, b);
    forall i | 0 <= i < NBUF
      ensures BufOk(L, s', i)
    {
      assert BufOk(L, s, i);
    }
    assert s'.lh[0..] == s'.lh;
    assert SlotsHold(L, s', s'.lh, |s'.lh|);
  }

  lemma FreshCacheWellFormed()
    ensures WellFormed(FRESH_CACHE)
  {
  }

  lemma IdleUnused(n: nat)
    ensures Unused(seq(n, _ => Idle)) == 0
  {
    if n > 0 {
      IdleUnused(n - 1);
      assert seq(n, _ => Idle)[1..] == seq(n - 1, _ => Idle);
    }
  }

  lemma CrashKeeps(L: Layout, s: Sys)
    requires Inv(L, s)
    ensures Inv(L, Apply(L, s, Crash))
  {
    FreshCacheWellFormed();
    var s' := Apply(L, s, Crash);
    var h := Head(s.disk[L.logstart]);
    assert SlotsHold(L, s', h, |h|);
  }

  /** A disk whose header lists nothing is a good place to start. */
  lemma BootOk(L: Layout, disk: seq<Block>)
    requires L.Valid() && |disk| == L.size && HeadOk(disk[L.logstart]) && Head(disk[L.logstart]) == []
    ensures Inv(L, Boot(disk))
  {
    FreshCacheWellFormed();
  }

  lemma StepKeeps(L: Layout, s: Sys, e: Step)
    requires Inv(L, s) && Enabled(L, s, e) && Fits(L, s, e)
    ensures Inv(L, Apply(L, s, e))
  {
    hide WellFormed, SetHead;
    match e
    case BeginOp(_) => OpStepKeeps(L, s, e);
    case EndOp(_) => OpStepKeeps(L, s, e);
    case LogCheck(_) => OpStepKeeps(L, s, e);
    case GetBuf(p, n) => GetStepKeeps(L, s, p, n);
    case Lock(_, _) => LockStepKeeps(L, s, e);
    case Unlock(_, _) => LockStepKeeps(L, s, e);
    case PutBuf(_, _) => LockStepKeeps(L, s, e);
    case Fill(p, b) => FillStepKeeps(L, s, p, b);
    case Modify(p, b, data) => ModifyStepKeeps(L, s, p, b, data);
    case LogAppend(p, b) => AppendStepKeeps(L, s, p, b);
    case CopyToLog(p, t, f) => CopyStepKeeps(L, s, p, t, f);
    case WriteHead(p, b) => HeadStepKeeps(L, s, p, b);
    case Install(p, l, d) => InstallStepKeeps(L, s, p, l, d);
    case ClearHead(p, b) => ClearStepKeeps(L, s, p, b);
    case ReadHead(p, b) => ReadHeadStepKeeps(L, s, p, b);
    case Crash => CrashKeeps(L, s);
  }

  // ---------------------------------------------------------------- runs

  /** `steps` leads from s to s', every step enabled where it is taken. */
  ghost predicate IsRun(L: Layout, s: Sys, steps: seq<Step>, s': Sys)
    decreases |steps|
  {
    && Shape(L, s)
    && if steps == [] then s' == s
       else Enabled(L, s, steps[0]) && IsRun(L, Apply(L, s, steps[0]), steps[1..], s')
  }

  lemma {:induction false} RunKeeps(L: Layout, s: Sys, steps: seq<Step>, s': Sys)
    requires Inv(L, s) && IsRun(L, s, steps, s') && AreaSuffices(L)
    ensures Inv(L, s')
    decreases |steps|
  {
    hide Inv, Shape, Enabled, Apply;
    if steps != [] {
      SlotWriteFits(L, s, steps[0]);
      StepKeeps(L, s, steps[0]);
      RunKeeps(L, Apply(L, s, steps[0]), steps[1..], s');
    }
  }

  /** What a crash now would leave: recovery gives every home block its committed contents. */
  ghost predicate SafeToCrash(L: Layout, s: Sys) {
    && LogInBounds(L, s.disk) && |s.committed| == L.size
    && forall n: nat :: L.Home(n) ==> Recovered(L, s.disk, n) == s.committed[n]
  }

  /** Crash safety. Wherever the machine stands, a crash there loses and mixes nothing: running
      recovery on the disk as it is gives every home block its committed contents. */
  lemma CrashSafe(L: Layout, s: Sys)
    requires Inv(L, s)
    ensures SafeToCrash(L, s)
  {
    var h := Head(s.disk[L.logstart]);
    forall n: nat | L.Home(n)
      ensures Recovered(L, s.disk, n) == s.committed[n]
    {
      if n in h {
        var i :| 0 <= i < |h| && h[i] == n;
        ReplayAt(L, s.disk, h, i);
      } else {
        ReplayOff(L, s.disk, h, n);
      }
    }
  }

  /** The committed contents change at one step only, the header write of a commit; it is taken
      with no operation in progress, and what it commits is every log_write made so far. */
  lemma CommitPoint(L: Layout, s: Sys, e: Step)
    requires Inv(L, s) && Enabled(L, s, e) && Apply(L, s, e).committed != s.committed
    ensures e.WriteHead? && Apply(L, s, e).committed == s.latest
    ensures forall p :: 0 <= p < NPROC ==> s.ops[p].Idle?
    ensures forall b: nat :: b < NBUF ==> b !in s.modified
  {
    hide WellFormed, BufsOk, DiskOk, OpsOk;
    CopyingQuiet(L, s);
  }

  /** While the log is copied no operation is in progress and no change is unlogged. */
  lemma CopyingQuiet(L: Layout, s: Sys)
    requires Inv(L, s) && s.phase.Copying?
    ensures forall p :: 0 <= p < NPROC ==> s.ops[p].Idle?
    ensures forall b: nat :: b < NBUF ==> b !in s.modified
  {
    hide WellFormed, DiskOk, Pinned;
    forall b: nat | b < NBUF ensures b !in s.modified {
      assert BufOk(L, s, b);
    }
  }

  /** Write-ahead and read-your-writes: until the header is written no home block on disk differs
      from its committed contents, and a process holding a block it has not itself modified since
      sees what the last log_write of that block stored. */
  lemma WriteAheadReads(L: Layout, s: Sys, p: Pid, b: nat, n: nat)
    requires Inv(L, s) && !InRecovery(s) && L.Home(n)
    ensures s.phase.Running? || s.phase.Copying? ==> s.disk[n] == s.committed[n]
    ensures b !in s.modified && HeldBy(s.cache, b, p, n) ==> s.cache.bufs[b].data == s.latest[n]
  {
    if b < NBUF {
      assert BufOk(L, s, b);
    }
  }

  /** Reservation: the log plus the space still promised to operations in progress fits in
      LOGSIZE, no block is listed twice, and while any operation is in progress no commit is
      running, so end_op never finds `committing` set. */
  lemma Reservation(L: Layout, s: Sys, p: Pid)
    requires Inv(L, s) && p < NPROC && s.ops[p].Active?
    ensures s.phase.Running? && 0 <= Unused(s.ops) <= LOGSIZE - |s.lh| && Distinct(s.lh)
  {
    UnusedBounds(s.ops);
  }

  ghost predicate NoCommit(steps: seq<Step>) {
    forall i :: 0 <= i < |steps| ==> !steps[i].WriteHead?
  }

  lemma {:induction false} CommittedStays(L: Layout, s: Sys, steps: seq<Step>, s': Sys)
    requires IsRun(L, s, steps, s') && NoCommit(steps)
    ensures s'.committed == s.committed
    decreases |steps|
  {
    if steps != [] {
      hide WellFormed;
      CommittedStays(L, Apply(L, s, steps[0]), steps[1..], s');
    }
  }

  /** Atomicity. From any state, after any number of crashes, partial recoveries and further
      operations that do not commit, whenever the machine is running again each home block on disk
      is what recovery from the disk at the start would have made it. */
  lemma RecoveryDecided(L: Layout, s: Sys, steps: seq<Step>, s': Sys, n: nat)
    requires Inv(L, s) && IsRun(L, s, steps, s') && AreaSuffices(L) && NoCommit(steps)
    requires s'.phase.Running? && L.Home(n)
    ensures LogInBounds(L, s.disk) && |s'.disk| == L.size
    ensures s'.disk[n] == Recovered(L, s.disk, n)
  {
    CrashSafe(L, s);
    CommittedStays(L, s, steps, s');
    RunKeeps(L, s, steps, s');
  }

  /** The whole story for a log area that suffices, mkfs's own included: every run from mount is
      safe to crash at its end. LogOverflow shows that no other area will do. */
  lemma EveryRunIsCrashSafe(L: Layout, disk: seq<Block>, steps: seq<Step>, s': Sys)
    requires L.Valid() && AreaSuffices(L)
    requires |disk| == L.size && HeadOk(disk[L.logstart]) && Head(disk[L.logstart]) == []
    requires IsRun(L, Boot(disk), steps, s')
    ensures Inv(L, s') && SafeToCrash(L, s')
  {
    hide IsRun, Inv, Shape;
    BootOk(L, disk);
    RunKeeps(L, Boot(disk), steps, s');
    CrashSafe(L, s');
  }
}
