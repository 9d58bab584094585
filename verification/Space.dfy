/** Free blocks as a quantity (xv6-public/fs.c lines 56-95 and 362-400): which slots of an inode a
    write still has to fill, and that filling them takes exactly as many blocks out of the bitmap. */
module Space {
  import opened Blocks
  import opened Files

  ghost function FreeBlocks(sb: Super, disk: seq<Block>): set<nat>
    requires sb.Valid() && |disk| == sb.size
  {
    set c: nat | c < sb.size && !Marked(sb, disk, c)
  }

  /** Slot k is looked at by a write of n bytes at off. */
  predicate Touches(k: nat, off: nat, n: nat) {
    && n > 0
    && var lo, hi := off / BSIZE, (off + n - 1) / BSIZE;
       if k < NDIRECT then lo <= k <= hi else if k == NDIRECT then hi >= NDIRECT else lo <= k - 1 <= hi
  }

  /** The slots of inode i that such a write has to fill. */
  ghost function Missing(sb: Super, fs: Fs, i: nat, off: nat, n: nat): set<nat>
    requires Shape(sb, fs) && i < |fs.inodes|
  {
    set k: nat | k < SLOTS && Touches(k, off, n) && RefAt(sb, fs, i, k) == 0
  }

  /** From fs to fs' exactly the slots s of inode i were filled, each with a block of its own from
      the bitmap. */
  ghost predicate Took(sb: Super, fs: Fs, fs': Fs, i: nat, s: set<nat>) {
    && Shape(sb, fs) && Shape(sb, fs') && i < |fs.inodes| == |fs'.inodes|
    && (forall k :: k in s ==> k < SLOTS && RefAt(sb, fs, i, k) == 0 && RefAt(sb, fs', i, k) != 0)
    && (forall j: nat, k: nat :: j < |fs.inodes| && k < SLOTS && !(j == i && k in s) ==>
          RefAt(sb, fs', j, k) == RefAt(sb, fs, j, k))
    && |FreeBlocks(sb, fs'.disk)| + |s| == |FreeBlocks(sb, fs.disk)|
  }

  lemma TookNothing(sb: Super, fs: Fs, fs': Fs, i: nat)
    requires SameRefs(sb, fs, fs') && i < |fs.inodes|
    requires FreeBlocks(sb, fs'.disk) == FreeBlocks(sb, fs.disk)
    ensures Took(sb, fs, fs', i, {})
  {
  }

  lemma TookTrans(sb: Super, a: Fs, b: Fs, c: Fs, i: nat, s: set<nat>, t: set<nat>)
    requires Took(sb, a, b, i, s) && Took(sb, b, c, i, t)
    ensures s !! t && Took(sb, a, c, i, s + t)
  {
    hide RefAt, FreeBlocks;
    assert s !! t;
    assert |s + t| == |s| + |t|;
    forall k | k in s + t
      ensures k < SLOTS && RefAt(sb, a, i, k) == 0 && RefAt(sb, c, i, k) != 0
    {
      if k in s {
        assert RefAt(sb, c, i, k) == RefAt(sb, b, i, k);
      } else {
        assert RefAt(sb, b, i, k) == RefAt(sb, a, i, k);
      }
    }
    forall j: nat, k: nat | j < |a.inodes| && k < SLOTS && !(j == i && k in s + t)
      ensures RefAt(sb, c, j, k) == RefAt(sb, a, j, k)
    {
      assert RefAt(sb, c, j, k) == RefAt(sb, b, j, k);
    }
  }

  /** balloc takes one block. */
  lemma AllocTakes(sb: Super, disk: seq<Block>, b: nat)
    requires sb.Valid() && |disk| == sb.size && b < sb.size && MetaMarked(sb, disk) && !Marked(sb, disk, b)
    ensures FreeBlocks(sb, Alloc(sb, disk, b)) == FreeBlocks(sb, disk) - {b} && b in FreeBlocks(sb, disk)
  {
    AllocMarks(sb, disk, b);
    hide Marked, Alloc, MetaMarked;
  }

  /** Writing a data block takes none. */
  lemma DataTakesNone(sb: Super, disk: seq<Block>, b: nat, x: Block)
    requires sb.Valid() && |disk| == sb.size && sb.datastart <= b < sb.size
    ensures FreeBlocks(sb, disk[b := x]) == FreeBlocks(sb, disk)
  {
    forall c: nat | c < sb.size
      ensures Marked(sb, disk[b := x], c) <==> Marked(sb, disk, c)
    {
      MarkedElsewhere(sb, disk, b, x, c);
    }
    hide Marked;
  }

  /** balloc and the store of the new block into slot k. */
  lemma FillingOne(sb: Super, fs: Fs, fs1: Fs, fs2: Fs, i: nat, k: nat, b: nat)
    requires Inv(sb, fs) && b < sb.size && !Marked(sb, fs.disk, b) && fs1 == fs.(disk := Alloc(sb, fs.disk, b))
    requires SameRefs(sb, fs, fs1) && OneNewRef(sb, fs1, fs2, i, k, b)
    requires FreeBlocks(sb, fs2.disk) == FreeBlocks(sb, fs1.disk)
    ensures Filling(sb, fs, fs2, i, {k}, true)
  {
    AllocTakes(sb, fs.disk, b);
    assert b != 0;
    hide RefAt, FreeBlocks, Marked, Inv, Alloc;
    assert RefAt(sb, fs1, i, k) == RefAt(sb, fs, i, k);
    forall j: nat, l: nat | j < |fs.inodes| && l < SLOTS && (j, l) != (i, k)
      ensures RefAt(sb, fs2, j, l) == RefAt(sb, fs, j, l)
    {
      assert RefAt(sb, fs1, j, l) == RefAt(sb, fs, j, l);
    }
    assert Took(sb, fs, fs2, i, {k});
  }

  /** The outcome of filling the slots `need` of inode i: all of them, or, when it fails, some of
      them until no block was free. */
  ghost predicate Filling(sb: Super, fs: Fs, fs': Fs, i: nat, need: set<nat>, ok: bool) {
    exists s :: Took(sb, fs, fs', i, s) && if ok then s == need else s < need && FreeBlocks(sb, fs'.disk) == {}
  }

  /** It succeeds exactly when there are enough free blocks, and takes as many as it fills. */
  lemma FillingExact(sb: Super, fs: Fs, fs': Fs, i: nat, need: set<nat>, ok: bool)
    requires Filling(sb, fs, fs', i, need, ok)
    ensures Shape(sb, fs) && Shape(sb, fs')
    ensures ok <==> |need| <= |FreeBlocks(sb, fs.disk)|
    ensures ok ==> |FreeBlocks(sb, fs'.disk)| == |FreeBlocks(sb, fs.disk)| - |need|
    ensures !ok ==> FreeBlocks(sb, fs'.disk) == {} && need != {}
  {
    hide RefAt, FreeBlocks;
    var s :| Took(sb, fs, fs', i, s) && if ok then s == need else s < need && FreeBlocks(sb, fs'.disk) == {};
    if !ok {
      assert need == s + (need - s);
    }
  }

  lemma FillingTrans(sb: Super, a: Fs, b: Fs, c: Fs, i: nat, first: set<nat>, second: set<nat>, ok: bool)
    requires Filling(sb, a, b, i, first, true) && Filling(sb, b, c, i, second, ok) && first !! second
    ensures Filling(sb, a, c, i, first + second, ok)
  {
    hide RefAt, FreeBlocks;
    var t :| Took(sb, b, c, i, t) && if ok then t == second else t < second && FreeBlocks(sb, c.disk) == {};
    TookTrans(sb, a, b, c, i, first, t);
  }

  /** Running out on part of the slots is running out on all. */
  lemma FillingMore(sb: Super, fs: Fs, fs': Fs, i: nat, need: set<nat>, all: set<nat>)
    requires Filling(sb, fs, fs', i, need, false) && need <= all
    ensures Filling(sb, fs, fs', i, all, false)
  {
    hide RefAt, FreeBlocks;
  }

  lemma TouchesSplit(k: nat, off: nat, a: nat, b: nat)
    ensures Touches(k, off, a + b) <==> Touches(k, off, a) || Touches(k, off + a, b)
  {
  }

  lemma TouchesBlock(k: nat, off: nat, n: nat)
    requires n > 0 && off % BSIZE + n <= BSIZE
    ensures Touches(k, off, n) <==> Touches(k, off / BSIZE * BSIZE, 1)
  {
  }

  /** What two writes in a row have to fill is what the one write has to. */
  lemma MissingSplit(sb: Super, fs: Fs, fs': Fs, i: nat, off: nat, a: nat, b: nat)
    requires Shape(sb, fs) && i < |fs.inodes| && Filling(sb, fs, fs', i, Missing(sb, fs, i, off, a), true)
    ensures Shape(sb, fs') && i < |fs'.inodes|
    ensures Missing(sb, fs, i, off, a) !! Missing(sb, fs', i, off + a, b)
    ensures Missing(sb, fs, i, off, a + b) == Missing(sb, fs, i, off, a) + Missing(sb, fs', i, off + a, b)
  {
    forall k: nat | k < SLOTS
      ensures k in Missing(sb, fs, i, off, a + b) <==>
              k in Missing(sb, fs, i, off, a) || k in Missing(sb, fs', i, off + a, b)
    {
      TouchesSplit(k, off, a, b);
      hide RefAt, Touches, FreeBlocks;
      assert k !in Missing(sb, fs, i, off, a) ==> RefAt(sb, fs', i, k) == RefAt(sb, fs, i, k);
    }
  }

  lemma MissingBlock(sb: Super, fs: Fs, i: nat, off: nat, n: nat)
    requires Shape(sb, fs) && i < |fs.inodes| && n > 0 && off % BSIZE + n <= BSIZE
    ensures Missing(sb, fs, i, off, n) == Missing(sb, fs, i, off / BSIZE * BSIZE, 1)
  {
    forall k: nat | k < SLOTS
      ensures Touches(k, off, n) <==> Touches(k, off / BSIZE * BSIZE, 1)
    {
      TouchesBlock(k, off, n);
    }
    hide RefAt, Touches;
  }

  /** Below a file's size nothing is missing. */
  lemma NothingMissing(sb: Super, fs: Fs, i: nat, off: nat, n: nat)
    requires Inv(sb, fs) && i < |fs.inodes| && off + n <= fs.inodes[i].size
    ensures Missing(sb, fs, i, off, n) == {}
  {
    assert SizeOk(sb, fs, i);
    forall k: nat | k < SLOTS && Touches(k, off, n)
      ensures RefAt(sb, fs, i, k) != 0
    {
      var bn := if k < NDIRECT then k else if k == NDIRECT then (off + n - 1) / BSIZE else k - 1;
      assert bn * BSIZE < fs.inodes[i].size;
      assert RefAt(sb, fs, i, SlotOf(bn)) != 0;
    }
    hide RefAt, Touches;
  }

  /** A write of a + b bytes as a write of a bytes and one of b bytes. */
  lemma FillingStep(sb: Super, fs: Fs, fs1: Fs, fs2: Fs, i: nat, off: nat, a: nat, b: nat, n: nat, ok: bool)
    requires Shape(sb, fs) && i < |fs.inodes| && Filling(sb, fs, fs1, i, Missing(sb, fs, i, off, a), true)
    requires Shape(sb, fs1) && i < |fs1.inodes| && Filling(sb, fs1, fs2, i, Missing(sb, fs1, i, off + a, b), ok)
    requires a + b <= n
    ensures ok ==> Filling(sb, fs, fs2, i, Missing(sb, fs, i, off, a + b), true)
    ensures !ok ==> Filling(sb, fs, fs2, i, Missing(sb, fs, i, off, n), false)
  {
    MissingSplit(sb, fs, fs1, i, off, a, b);
    MissingMore(sb, fs, i, off, a + b, n);
    hide Filling, Missing;
    FillingTrans(sb, fs, fs1, fs2, i, Missing(sb, fs, i, off, a), Missing(sb, fs1, i, off + a, b), ok);
    if !ok {
      FillingMore(sb, fs, fs2, i, Missing(sb, fs, i, off, a + b), Missing(sb, fs, i, off, n));
    }
  }

  lemma MissingMore(sb: Super, fs: Fs, i: nat, off: nat, a: nat, n: nat)
    requires Shape(sb, fs) && i < |fs.inodes| && a <= n
    ensures Missing(sb, fs, i, off, a) <= Missing(sb, fs, i, off, n)
  {
    forall k: nat | k < SLOTS && Touches(k, off, a)
      ensures Touches(k, off, n)
    {
      TouchesSplit(k, off, a, n - a);
    }
    hide RefAt, Touches;
  }

  lemma MissingNothing(sb: Super, fs: Fs, i: nat, off: nat)
    requires Shape(sb, fs) && i < |fs.inodes|
    ensures Missing(sb, fs, i, off, 0) == {} && Filling(sb, fs, fs, i, Missing(sb, fs, i, off, 0), true)
  {
    TookNothing(sb, fs, fs, i);
  }

  /** A step that fills nothing changes nothing of this. */
  lemma FillingThen(sb: Super, a: Fs, b: Fs, c: Fs, i: nat, need: set<nat>)
    requires Filling(sb, a, b, i, need, true) && Took(sb, b, c, i, {})
    ensures Filling(sb, a, c, i, need, true)
  {
    hide RefAt, FreeBlocks;
    assert need + {} == need;
    TookTrans(sb, a, b, c, i, need, {});
  }

  lemma TookResize(sb: Super, fs: Fs, i: nat, size: nat)
    requires Shape(sb, fs) && i < |fs.inodes|
    ensures Took(sb, fs, fs.(inodes := fs.inodes[i := fs.inodes[i].(size := size)]), i, {})
  {
  }

  lemma TookData(sb: Super, fs: Fs, i: nat, b: nat, x: Block)
    requires Shape(sb, fs) && i < |fs.inodes| && sb.datastart <= b < sb.size
    requires SameRefs(sb, fs, fs.(disk := fs.disk[b := x]))
    ensures Took(sb, fs, fs.(disk := fs.disk[b := x]), i, {})
  {
    DataTakesNone(sb, fs.disk, b, x);
    TookNothing(sb, fs, fs.(disk := fs.disk[b := x]), i);
  }

  /** The slots of file block bn. */
  lemma MissingOne(sb: Super, fs: Fs, i: nat, bn: nat)
    requires Shape(sb, fs) && i < |fs.inodes| && bn < MAXFILE
    ensures Missing(sb, fs, i, bn * BSIZE, 1)
         == (if bn >= NDIRECT && RefAt(sb, fs, i, NDIRECT) == 0 then {NDIRECT} else {})
            + (if RefAt(sb, fs, i, SlotOf(bn)) == 0 then {SlotOf(bn)} else {})
  {
    hide RefAt;
  }

  lemma FillingNothing(sb: Super, fs: Fs, i: nat)
    requires Shape(sb, fs) && i < |fs.inodes|
    ensures Filling(sb, fs, fs, i, {}, true)
  {
    TookNothing(sb, fs, fs, i);
  }

  /** With every block marked, a slot cannot be filled. */
  lemma FillingFails(sb: Super, fs: Fs, i: nat, k: nat)
    requires Shape(sb, fs) && i < |fs.inodes| && forall c: nat :: c < sb.size ==> Marked(sb, fs.disk, c)
    ensures Filling(sb, fs, fs, i, {k}, false)
  {
    TookNothing(sb, fs, fs, i);
    assert FreeBlocks(sb, fs.disk) == {};
  }

  // ---------------------------------------------------------------- what is passed to log_write

  /** Every block that differs is logged. */
  ghost predicate Covers(disk: seq<Block>, disk': seq<Block>, log: set<nat>) {
    |disk'| == |disk| && forall b: nat :: b < |disk| && disk'[b] != disk[b] ==> b in log
  }

  /** From fs to fs', with the log growing from log0 to log: only inode i changed, not its size, and every
      block that changed is logged. */
  ghost predicate Logs(fs: Fs, log0: set<nat>, fs': Fs, log: set<nat>, i: nat) {
    && i < |fs.inodes| == |fs'.inodes| && fs'.inodes == fs.inodes[i := fs'.inodes[i]]
    && fs'.inodes[i].size == fs.inodes[i].size && log0 <= log && Covers(fs.disk, fs'.disk, log)
  }

  lemma LogsNothing(fs: Fs, log: set<nat>, i: nat)
    requires i < |fs.inodes|
    ensures Logs(fs, log, fs, log, i)
  {
  }

  lemma LogsTrans(a: Fs, log0: set<nat>, b: Fs, log1: set<nat>, c: Fs, log2: set<nat>, i: nat)
    requires Logs(a, log0, b, log1, i) && Logs(b, log1, c, log2, i)
    ensures Logs(a, log0, c, log2, i)
  {
    assert a.inodes[i := b.inodes[i]][i := c.inodes[i]] == a.inodes[i := c.inodes[i]];
  }

  /** A change of inode i itself, or of who owns what, touches no block. */
  lemma LogsInode(a: Fs, log0: set<nat>, b: Fs, log: set<nat>, c: Fs, i: nat)
    requires Logs(a, log0, b, log, i) && c.disk == b.disk && i < |c.inodes| == |b.inodes|
    requires c.inodes == b.inodes[i := c.inodes[i]] && c.inodes[i].size == b.inodes[i].size
    ensures Logs(a, log0, c, log, i)
  {
    assert a.inodes[i := b.inodes[i]][i := c.inodes[i]] == a.inodes[i := c.inodes[i]];
  }

  lemma LogsWrite(fs: Fs, log: set<nat>, i: nat, b: nat, x: Block)
    requires i < |fs.inodes| && b < |fs.disk|
    ensures Logs(fs, log, fs.(disk := fs.disk[b := x]), log + {b}, i)
  {
  }

  lemma LogsAlloc(sb: Super, fs: Fs, log: set<nat>, i: nat, b: nat)
    requires sb.Valid() && |fs.disk| == sb.size && b < sb.size && i < |fs.inodes|
    ensures Logs(fs, log, fs.(disk := Alloc(sb, fs.disk, b)), log + {sb.BBlock(b), b}, i)
  {
  }

  /** An inode none of whose slots was filled is the same. */
  lemma SameInode(sb: Super, fs: Fs, fs': Fs, i: nat)
    requires i < |fs.inodes| == |fs'.inodes| && Filling(sb, fs, fs', i, {}, true)
    requires fs'.inodes[i].size == fs.inodes[i].size
    ensures fs'.inodes[i] == fs.inodes[i]
  {
    assert Took(sb, fs, fs', i, {});
    assert fs'.inodes[i].addrs == fs.inodes[i].addrs by {
      forall k: nat | k <= NDIRECT ensures fs'.inodes[i].addrs[k] == fs.inodes[i].addrs[k] {
        assert RefAt(sb, fs', i, k) == RefAt(sb, fs, i, k);
      }
    }
  }
}
