/** xv6-public/fs.c as code: balloc, bfree, bmap, itrunc, readi and writei working in place on the
    blocks and on the in-memory inodes, and the loop of filewrite (xv6-public/file.c) over them.
    `disk` is what bread returns, the latest logged contents of every block. `logged` collects the
    block numbers passed to log_write. None stands for a panic. */
module FileCode {
  import opened Blocks
  import opened Bitmap
  import opened Files
  import opened Options
  import opened Params
  import opened Space

  const MAX_CHUNK := ((MAXOPBLOCKS - 1 - 1 - 2) / 2) * 512   // filewrite's `max`

  class FileSystem {
    const sb: Super
    var disk: seq<Block>
    var inodes: seq<Inode>
    ghost var owner: map<nat, (nat, nat)>
    ghost var logged: set<nat>

    ghost function Abs(): Fs
      reads this
    {
      Fs(disk, inodes, owner)
    }

    ghost predicate Valid()
      reads this
    {
      Inv(sb, Abs())
    }

    /** A file system found on disk in a consistent state. */
    constructor (sb: Super, disk: seq<Block>, inodes: seq<Inode>, ghost owner: map<nat, (nat, nat)>)
      requires Inv(sb, Fs(disk, inodes, owner))
      ensures Valid() && this.sb == sb && Abs() == Fs(disk, inodes, owner) && logged == {}
    {
      this.sb, this.disk, this.inodes, this.owner, logged := sb, disk, inodes, owner, {};
    }

    /** balloc's inner loop: the first clear bit of the bitmap block for blocks b, b+1, ... */
    method ScanBitmap(b: nat) returns (found: bool, bi: nat)
      requires sb.Valid() && |disk| == sb.size && b < sb.size && b % BPB == 0
      ensures bi <= BPB && forall c: nat :: b <= c < b + bi && c < sb.size ==> Marked(sb, disk, c)
      ensures found ==> bi < BPB && b + bi < sb.size && !Marked(sb, disk, b + bi)
      ensures !found ==> bi == BPB || b + bi >= sb.size
    {
      var bno := b / BPB + sb.bmapstart;
      bi := 0;
      while bi < BPB && b + bi < sb.size
        invariant 0 <= bi <= BPB
        invariant forall c: nat :: b <= c < b + bi && c < sb.size ==> Marked(sb, disk, c)
      {
        SameBitmapBlock(b, bi);
        if !BitOn(disk[bno][bi / 8], bi % 8) {
          return true, bi;
        }
        bi := bi + 1;
      }
      return false, bi;
    }

    /** balloc: the first clear bit of the bitmap, set; the block zeroed. None when all are set. */
    method Balloc() returns (r: Option<nat>)
      requires sb.Valid() && |disk| == sb.size
      modifies this`disk, this`logged
      ensures r.None? ==> disk == old(disk) && logged == old(logged) &&
                          forall c: nat :: c < sb.size ==> Marked(sb, disk, c)
      ensures r.Some? ==>
                && r.value < sb.size && !Marked(sb, old(disk), r.value)
                && (forall c: nat :: c < r.value ==> Marked(sb, old(disk), c))
                && disk == Alloc(sb, old(disk), r.value)
                && logged == old(logged) + {sb.BBlock(r.value), r.value}
    {
      hide Marked, Alloc;
      var b := 0;
      while b < sb.size
        invariant b % BPB == 0 && 0 <= b
        invariant disk == old(disk) && logged == old(logged)
        invariant forall c: nat :: c < b && c < sb.size ==> Marked(sb, disk, c)
      {
        var found, bi := ScanBitmap(b);
        if found {
          Claim(b, bi);
          return Some(b + bi);
        }
        b := b + BPB;
      }
      return None;
    }

    /** Set the bit found, log the bitmap block, and bzero the block itself. */
    method Claim(b: nat, bi: nat)
      requires sb.Valid() && |disk| == sb.size && b % BPB == 0 && bi < BPB && b + bi < sb.size
      modifies this`disk, this`logged
      ensures disk == Alloc(sb, old(disk), b + bi) && logged == old(logged) + {sb.BBlock(b + bi), b + bi}
    {
      SameBitmapBlock(b, bi);
      var bno := b / BPB + sb.bmapstart;
      ByteBits(disk[bno][bi / 8], bi % 8);
      disk := disk[bno := disk[bno][bi / 8 := SetBit(disk[bno][bi / 8], bi % 8)]];
      logged := logged + {bno};
      disk := disk[b + bi := ZERO_BLOCK];
      logged := logged + {b + bi};
    }

    static lemma SameBitmapBlock(b: nat, bi: nat)
      requires b % BPB == 0 && bi < BPB
      ensures (b + bi) / BPB == b / BPB && (b + bi) % BPB == bi
    {
    }

    /** bfree: clear the block's bit; false is the panic "freeing free block". */
    method Bfree(b: nat) returns (ok: bool)
      requires sb.Valid() && |disk| == sb.size && b < sb.size
      modifies this`disk, this`logged
      ensures ok <==> Marked(sb, old(disk), b)
      ensures disk == if ok then Unmark(sb, old(disk), b) else old(disk)
      ensures logged == if ok then old(logged) + {sb.BBlock(b)} else old(logged)
    {
      var bno := b / BPB + sb.bmapstart;
      var bi := b % BPB;
      if !BitOn(disk[bno][bi / 8], bi % 8) {
        return false;
      }
      ByteBits(disk[bno][bi / 8], bi % 8);
      disk := disk[bno := disk[bno][bi / 8 := ClearBit(disk[bno][bi / 8], bi % 8)]];
      logged := logged + {bno};
      return true;
    }

    /** balloc, and the new block stored in slot k of inode i itself. */
    method AllocInto(i: nat, k: nat) returns (r: Option<nat>)
      requires Valid() && i < |inodes| && k <= NDIRECT && RefAt(sb, Abs(), i, k) == 0
      modifies this`disk, this`inodes, this`owner, this`logged
      ensures Valid() && Extends(sb, old(Abs()), Abs())
      ensures r.None? ==> Abs() == old(Abs()) && logged == old(logged)
      ensures Filling(sb, old(Abs()), Abs(), i, {k}, r.Some?) && Logs(old(Abs()), old(logged), Abs(), logged, i)
      ensures r.Some? ==>
                && r.value != 0 && r.value < sb.size && RefAt(sb, Abs(), i, k) == r.value
                && inodes == old(inodes)[i := old(inodes)[i].(addrs := old(inodes)[i].addrs[k := r.value])]
                && logged == old(logged) + {sb.BBlock(r.value), r.value}
                && (k == NDIRECT ==> forall l: nat :: NDIRECT < l < SLOTS ==> RefAt(sb, Abs(), i, l) == 0)
    {
      ExtendsSelf();
      LogsNothing(Abs(), logged, i);
      hide Alloc, Marked, LinkDirect, Logs;
      r := Balloc();
      if r.Some? {
        var b := r.value;
        LogsAlloc(sb, old(Abs()), old(logged), i, b);
        AllocKeeps(sb, old(Abs()), b);
        ghost var fs := Abs();
        LinkDirectKeeps(sb, fs, i, k, b);
        FillingOne(sb, old(Abs()), fs, LinkDirect(fs, i, k, b), i, k, b);
        hide Inv, Extends, Filling;
        ExtendsTrans(sb, old(Abs()), fs, LinkDirect(fs, i, k, b));
        ZeroEntries(sb, fs, i, k, b);
        inodes := inodes[i := inodes[i].(addrs := inodes[i].addrs[k := b])];
        owner := owner[b := (i, k)];
        LinkDirectIs(fs, i, k, b);
        LogsInode(old(Abs()), old(logged), fs, logged, Abs(), i);
      } else {
        FillingFails(sb, Abs(), i, k);
      }
    }

    /** The indirect half of bmap once the indirect block exists: entry e of it. */
    method BmapEntry(i: nat, e: nat) returns (r: Option<nat>)
      requires Valid() && i < |inodes| && e < NINDIRECT && inodes[i].addrs[NDIRECT] != 0
      modifies this`disk, this`owner, this`logged
      ensures Valid() && Extends(sb, old(Abs()), Abs()) && |inodes[i].addrs| == NDIRECT + 1
      ensures r.Some? ==> r.value != 0 && r.value < sb.size && RefAt(sb, Abs(), i, NDIRECT + 1 + e) == r.value
      ensures RefAt(sb, old(Abs()), i, NDIRECT + 1 + e) != 0 ==> r.Some? && Abs() == old(Abs()) && logged == old(logged)
      ensures RefAt(sb, old(Abs()), i, NDIRECT + 1 + e) == 0 ==>
                Filling(sb, old(Abs()), Abs(), i, {NDIRECT + 1 + e}, r.Some?)
      ensures Logs(old(Abs()), old(logged), Abs(), logged, i)
      ensures r.Some? && RefAt(sb, old(Abs()), i, NDIRECT + 1 + e) == 0 ==>
                logged == old(logged) + {sb.BBlock(r.value), r.value, inodes[i].addrs[NDIRECT]}
    {
      hide Alloc, Marked, Inv, Extends, Filling, Logs;
      ExtendsSelf();
      InodeShape(sb, Abs(), i);
      LogsNothing(Abs(), logged, i);
      var root := inodes[i].addrs[NDIRECT];
      var addr := Word(disk[root], e);
      assert addr == RefAt(sb, Abs(), i, NDIRECT + 1 + e);
      if addr == 0 {
        r := Balloc();
        if r.None? {
          FillingFails(sb, Abs(), i, NDIRECT + 1 + e);
          return;
        }
        EntryLinked(sb, old(Abs()), i, e, r.value);
        LogsAlloc(sb, old(Abs()), old(logged), i, r.value);
        LogsWrite(Abs(), logged, i, root, SetWord(disk[root], e, r.value));
        hide RefAt;
        ghost var fs, log := Abs(), logged;
        disk := disk[root := SetWord(disk[root], e, r.value)];
        logged := logged + {root};
        LogsTrans(old(Abs()), old(logged), fs, log, Abs(), logged, i);
        ghost var fs1 := Abs();
        owner := owner[r.value := (i, NDIRECT + 1 + e)];
        LogsInode(old(Abs()), old(logged), fs1, logged, Abs(), i);
        return;
      }
      EntryInRange(sb, Abs(), i, NDIRECT + 1 + e);
      return Some(addr);
    }

    /** bmap: the address of block bn of inode i, allocating it and the indirect block as needed.
        None is a panic: no block free, or bn out of range. `bits` are the bitmap blocks logged. */
    method Bmap(i: nat, bn: nat) returns (r: Option<nat>, ghost bits: set<nat>)
      requires Valid() && i < |inodes|
      modifies this`disk, this`inodes, this`owner, this`logged
      ensures Valid() && Extends(sb, old(Abs()), Abs())
      ensures bn >= MAXFILE ==> r.None?
      ensures bn < MAXFILE ==> Filling(sb, old(Abs()), Abs(), i, Missing(sb, old(Abs()), i, bn * BSIZE, 1), r.Some?)
      ensures Logs(old(Abs()), old(logged), Abs(), logged, i)
      ensures r.Some? ==> r.value != 0 && r.value < sb.size && r.value == RefAt(sb, Abs(), i, SlotOf(bn))
      ensures bn < MAXFILE && RefAt(sb, old(Abs()), i, SlotOf(bn)) != 0 ==>
          r.Some? && Abs() == old(Abs()) && logged == old(logged)
      ensures r.Some? ==>
                && |bits| <= (if RefAt(sb, old(Abs()), i, SlotOf(bn)) == 0 then 1 else 0)
                             + (if bn >= NDIRECT && old(inodes)[i].addrs[NDIRECT] == 0 then 1 else 0)
                && logged <= old(logged) + bits + {r.value} + (if bn >= NDIRECT then {inodes[i].addrs[NDIRECT]} else {})
      ensures r.Some? && bn < NDIRECT ==> inodes[i].addrs[NDIRECT] == old(inodes)[i].addrs[NDIRECT]
    {
      hide Alloc, Marked, RefAt, Inv, Extends, KeepsSlot, Filling, Logs;
      ExtendsSelf();
      LogsNothing(Abs(), logged, i);
      if bn < NDIRECT {
        r, bits := BmapDirect(i, bn);
      } else if bn < MAXFILE {
        r, bits := BmapIndirect(i, bn - NDIRECT);
      } else {
        r, bits := None, {};
      }
    }

    /** bmap for entry e of the indirect block. */
    method BmapIndirect(i: nat, e: nat) returns (r: Option<nat>, ghost bits: set<nat>)
      requires Valid() && i < |inodes| && e < NINDIRECT
      modifies this`disk, this`inodes, this`owner, this`logged
      ensures Valid() && Extends(sb, old(Abs()), Abs())
      ensures r.Some? ==> r.value != 0 && r.value < sb.size && r.value == RefAt(sb, Abs(), i, NDIRECT + 1 + e)
      ensures RefAt(sb, old(Abs()), i, NDIRECT + 1 + e) != 0 ==> r.Some? && Abs() == old(Abs()) && logged == old(logged)
      ensures Filling(sb, old(Abs()), Abs(), i, Missing(sb, old(Abs()), i, (NDIRECT + e) * BSIZE, 1), r.Some?)
      ensures Logs(old(Abs()), old(logged), Abs(), logged, i)
      ensures r.Some? ==>
                && |bits| <= (if RefAt(sb, old(Abs()), i, NDIRECT + 1 + e) == 0 then 1 else 0)
                             + (if old(inodes)[i].addrs[NDIRECT] == 0 then 1 else 0)
                && logged <= old(logged) + bits + {r.value} + {inodes[i].addrs[NDIRECT]}
    {
      hide Alloc, Marked, RefAt, Inv, Extends, Filling, Missing, Logs, Shape;
      ghost var fs0 := Abs();
      bits := {};
      ExtendsSelf();
      InodeShape(sb, fs0, i);
      RootIsSlot(sb, fs0, i, e);
      MissingOne(sb, fs0, i, NDIRECT + e);
      FillingNothing(sb, fs0, i);
      LogsNothing(fs0, logged, i);
      ghost var need := Missing(sb, fs0, i, (NDIRECT + e) * BSIZE, 1);
      if inodes[i].addrs[NDIRECT] == 0 {
        var root := AllocInto(i, NDIRECT);
        if root.None? {
          FillingMore(sb, fs0, Abs(), i, {NDIRECT}, need);
          return None, bits;
        }
        bits := {sb.BBlock(root.value)};
      }
      ghost var fs1, log := Abs(), logged;
      InodeShape(sb, fs1, i);
      r := BmapEntry(i, e);
      LogsTrans(fs0, old(logged), fs1, log, Abs(), logged, i);
      ExtendsTrans(sb, fs0, fs1, Abs());
      EntryFilled(sb, fs0, fs1, Abs(), i, e, r.Some?);
      if r.Some? && RefAt(sb, fs0, i, NDIRECT + 1 + e) == 0 {
        bits := bits + {sb.BBlock(r.value)};
      }
    }

    /** bmap for a direct block. */
    method BmapDirect(i: nat, bn: nat) returns (r: Option<nat>, ghost bits: set<nat>)
      requires Valid() && i < |inodes| && bn < NDIRECT
      modifies this`disk, this`inodes, this`owner, this`logged
      ensures Valid() && Extends(sb, old(Abs()), Abs())
      ensures r.Some? ==> r.value != 0 && r.value < sb.size && r.value == RefAt(sb, Abs(), i, bn)
      ensures RefAt(sb, old(Abs()), i, bn) != 0 ==> r.Some? && Abs() == old(Abs()) && logged == old(logged)
      ensures Filling(sb, old(Abs()), Abs(), i, Missing(sb, old(Abs()), i, bn * BSIZE, 1), r.Some?)
      ensures Logs(old(Abs()), old(logged), Abs(), logged, i)
      ensures r.Some? ==>
          |bits| <= (if RefAt(sb, old(Abs()), i, bn) == 0 then 1 else 0) && logged <= old(logged) + bits + {r.value}
      ensures r.Some? ==> inodes[i].addrs[NDIRECT] == old(inodes)[i].addrs[NDIRECT]
    {
      bits := {};
      ExtendsSelf();
      MissingOne(sb, Abs(), i, bn);
      FillingNothing(sb, Abs(), i);
      LogsNothing(Abs(), logged, i);
      hide Filling, Missing, Logs;
      var addr := inodes[i].addrs[bn];
      if addr == 0 {
        r := AllocInto(i, bn);
        if r.Some? { bits := {sb.BBlock(r.value)}; }
        return;
      }
      EntryInRange(sb, Abs(), i, bn);
      return Some(addr), bits;
    }

    /** bfree of the block in slot k of inode i while it is being truncated. It never panics. */
    method FreeSlot(i: nat, k: nat, b: nat, ghost gone: nat)
      requires Truncating(sb, Abs(), i, gone) && k < SLOTS && b != 0 && b == RefAt(sb, Abs(), i, k)
      requires if k < NDIRECT then gone == 0 else if k == NDIRECT then gone == NINDIRECT else k == NDIRECT + 1 + gone
      modifies this`disk, this`inodes, this`owner, this`logged
      ensures Abs() == Release(sb, old(Abs()), i, k, b) && b in old(owner)
      ensures logged == old(logged) + {sb.BBlock(b)} && Covers(old(disk), disk, {sb.BBlock(b)})
      ensures Truncating(sb, Abs(), i, if k > NDIRECT then gone + 1 else 0) && FreedOnly(sb, old(Abs()), Abs(), i)
    {
      ReleaseKeeps(sb, Abs(), i, k, gone);
      UnmarkCovers(sb, disk, b);
      hide Truncating, FreedOnly, Marked, RefAt, Unmark;
      var ok := Bfree(b);
      assert ok;
      if k <= NDIRECT {
        inodes := inodes[i := inodes[i].(addrs := inodes[i].addrs[k := 0])];
      }
      owner := owner - {b};
    }

    /** itrunc: every block of the inode is freed, once, and no other; the file becomes empty. */
    method Itrunc(i: nat)
      requires Valid() && i < |inodes|
      modifies this`disk, this`inodes, this`owner, this`logged
      ensures Valid() && |inodes| == |old(inodes)|
      ensures forall b :: b in owner <==> b in old(owner) && old(owner)[b].0 != i
      ensures forall b: nat :: b < sb.size ==>
                (Marked(sb, disk, b) <==> Marked(sb, old(disk), b) && !(b in old(owner) && old(owner)[b].0 == i))
      ensures inodes[i].size == 0 && Content(sb, Abs(), i) == []
      ensures forall j: nat :: j < |inodes| && j != i ==>
                && old(inodes)[j].size <= MAXFILE * BSIZE && inodes[j] == old(inodes)[j]
                && Content(sb, Abs(), j) == Content(sb, old(Abs()), j)
      ensures logged == old(logged) + TruncLog(sb, old(Abs()), i)
      ensures Covers(old(disk), disk, logged)
    {
      ghost var fs0, log0 := Abs(), logged;
      StartTruncate(sb, fs0, i, log0);
      hide Truncating, FreedLog, Inv, Marked, RefAt, Release, Content, BitmapOf;
      TruncDirect(i, fs0, log0);
      TruncIndirect(i, fs0, log0);
      FreedOf(sb, fs0, log0, Abs(), logged, i);
      TruncateDone(sb, fs0, Abs(), i);
      FreedAll(fs0.owner, owner, i);
      inodes := inodes[i := inodes[i].(size := 0)];
      logged := logged + {sb.IBlock(i)};
    }

    /** itrunc's loop over the direct blocks. */
    method TruncDirect(i: nat, ghost fs0: Fs, ghost log0: set<nat>)
      requires Truncating(sb, Abs(), i, 0) && FreedLog(sb, fs0, log0, Abs(), logged, i)
      modifies this`disk, this`inodes, this`owner, this`logged
      ensures Truncating(sb, Abs(), i, 0) && FreedLog(sb, fs0, log0, Abs(), logged, i)
      ensures i < |inodes| && |inodes[i].addrs| == NDIRECT + 1
      ensures forall l :: 0 <= l < NDIRECT ==> inodes[i].addrs[l] == 0
    {
      var k := 0;
      while k < NDIRECT
        invariant 0 <= k <= NDIRECT && i < |inodes| && |inodes[i].addrs| == NDIRECT + 1
        invariant Truncating(sb, Abs(), i, 0) && FreedLog(sb, fs0, log0, Abs(), logged, i)
        invariant forall l :: 0 <= l < k ==> inodes[i].addrs[l] == 0
      {
        TruncRef(sb, Abs(), i, k, 0);
        ghost var fs, log := Abs(), logged;
        hide Truncating, FreedLog, Marked, RefAt, Unmark;
        if inodes[i].addrs[k] != 0 {
          ghost var b := inodes[i].addrs[k];
          FreeSlot(i, k, inodes[i].addrs[k], 0);
          FreedStep(sb, fs0, log0, fs, log, Abs(), i, b);
        }
        k := k + 1;
      }
    }

    /** itrunc's loop over the entries of the indirect block. */
    method TruncEntries(i: nat, root: nat, ghost fs0: Fs, ghost log0: set<nat>)
      requires i < |inodes| && |inodes[i].addrs| == NDIRECT + 1 && root == inodes[i].addrs[NDIRECT] && root != 0
      requires Truncating(sb, Abs(), i, 0) && FreedLog(sb, fs0, log0, Abs(), logged, i)
      modifies this`disk, this`inodes, this`owner, this`logged
      ensures Truncating(sb, Abs(), i, NINDIRECT) && FreedLog(sb, fs0, log0, Abs(), logged, i) && inodes == old(inodes)
    {
      hide Truncating, FreedLog, Shape, RefAt, Marked, Release, Unmark, Valid, Inv;
      var j := 0;
      while j < NINDIRECT
        invariant 0 <= j <= NINDIRECT && inodes == old(inodes)
        invariant Truncating(sb, Abs(), i, j) && FreedLog(sb, fs0, log0, Abs(), logged, i)
      {
        TruncOne(i, root, j, fs0, log0);
        j := j + 1;
      }
    }

    method TruncOne(i: nat, root: nat, j: nat, ghost fs0: Fs, ghost log0: set<nat>)
      requires j < NINDIRECT && i < |inodes| && |inodes[i].addrs| == NDIRECT + 1 && root == inodes[i].addrs[NDIRECT]
      requires root != 0
      requires Truncating(sb, Abs(), i, j) && FreedLog(sb, fs0, log0, Abs(), logged, i)
      modifies this`disk, this`inodes, this`owner, this`logged
      ensures Truncating(sb, Abs(), i, j + 1) && FreedLog(sb, fs0, log0, Abs(), logged, i) && inodes == old(inodes)
    {
      TruncEntry(sb, Abs(), i, j);
      ghost var fs, log := Abs(), logged;
      hide Truncating, FreedLog, Marked, RefAt, Unmark;
      var b := Word(disk[root], j);
      if b != 0 {
        FreeSlot(i, NDIRECT + 1 + j, b, j);
        FreedStep(sb, fs0, log0, fs, log, Abs(), i, b);
      }
    }

    /** itrunc's second half: the entries of the indirect block, then the block itself. */
    method TruncIndirect(i: nat, ghost fs0: Fs, ghost log0: set<nat>)
      requires Truncating(sb, Abs(), i, 0) && FreedLog(sb, fs0, log0, Abs(), logged, i)
      requires forall l :: 0 <= l < NDIRECT ==> inodes[i].addrs[l] == 0
      modifies this`disk, this`inodes, this`owner, this`logged
      ensures Truncating(sb, Abs(), i, 0) && FreedLog(sb, fs0, log0, Abs(), logged, i)
      ensures i < |inodes| && |inodes[i].addrs| == NDIRECT + 1
      ensures forall l :: 0 <= l <= NDIRECT ==> inodes[i].addrs[l] == 0
    {
      TruncRef(sb, Abs(), i, NDIRECT, 0);
      hide Truncating, FreedLog, Marked, RefAt, Unmark;
      var root := inodes[i].addrs[NDIRECT];
      if root != 0 {
        TruncEntries(i, root, fs0, log0);
        TruncRef(sb, Abs(), i, NDIRECT, NINDIRECT);
        ghost var fs, log := Abs(), logged;
        FreeSlot(i, NDIRECT, root, NINDIRECT);
        FreedStep(sb, fs0, log0, fs, log, Abs(), i, root);
      }
    }

    /** One turn of readi's loop: the part of the file within one block. */
    method ReadChunk(i: nat, at: nat, m: nat) returns (s: seq<Byte>)
      requires Valid() && i < |inodes| && 0 < m && at + m <= inodes[i].size <= MAXFILE * BSIZE
      requires at % BSIZE + m <= BSIZE
      modifies this`disk, this`inodes, this`owner, this`logged
      ensures Valid() && Abs() == old(Abs()) && logged == old(logged)
      ensures s == Content(sb, Abs(), i)[at..at + m]
    {
      hide RefAt, Inv, Extends, ByteAt, SizeOk;
      BelowSizeAllocated(sb, Abs(), i, at);
      BlockSlice(sb, Abs(), i, at, m);
      var b, _ := Bmap(i, at / BSIZE);
      s := disk[b.value][at % BSIZE..at % BSIZE + m];
    }

    /** readi of a regular file or directory: None is the return value -1. */
    method Readi(i: nat, off: nat, n: nat) returns (r: Option<seq<Byte>>)
      requires Valid() && i < |inodes| && off < UINT_LIMIT && n < UINT_LIMIT
      modifies this`disk, this`inodes, this`owner, this`logged
      ensures Valid() && Abs() == old(Abs()) && logged == old(logged) && inodes[i].size <= MAXFILE * BSIZE
      ensures r.None? <==> off > inodes[i].size || off + n >= UINT_LIMIT
      ensures r.Some? ==>
                var last := if off + n > inodes[i].size then inodes[i].size else off + n;
                r.value == Content(sb, Abs(), i)[off..last]
    {
      assert SizeOk(sb, Abs(), i);
      if off > inodes[i].size || (off + n) % UINT_LIMIT < off {
        return None;
      }
      var want := if off + n > inodes[i].size then inodes[i].size - off else n;
      hide RefAt, Inv, ByteAt, SizeOk;
      var dst := ReadLoop(i, off, want);
      return Some(dst);
    }

    method ReadLoop(i: nat, off: nat, want: nat) returns (dst: seq<Byte>)
      requires Valid() && i < |inodes| && off + want <= inodes[i].size <= MAXFILE * BSIZE
      modifies this`disk, this`inodes, this`owner, this`logged
      ensures Valid() && Abs() == old(Abs()) && logged == old(logged)
      ensures dst == Content(sb, Abs(), i)[off..off + want]
    {
      ghost var content := Content(sb, Abs(), i);
      assert |content| == inodes[i].size;
      hide Inv, Content, InBlock;
      dst := [];
      var tot, at := 0, off;
      while tot < want
        invariant Valid() && Abs() == old(Abs()) && logged == old(logged)
        invariant 0 <= tot <= want && at == off + tot
        invariant dst == content[off..at]
      {
        var m := InBlock(at, want - tot);
        var s := ReadChunk(i, at, m);
        assert content[off..at] + content[at..at + m] == content[off..at + m];
        dst := dst + s;
        tot, at := tot + m, at + m;
      }
    }

    /** One turn of writei's loop: bmap, memmove into the block, log_write. */
    method WriteChunk(i: nat, at: nat, piece: seq<Byte>) returns (ok: bool, ghost bits: set<nat>, ghost addr: nat)
      requires Valid() && i < |inodes| && 0 < |piece| && at % BSIZE + |piece| <= BSIZE
      requires at + |piece| <= MAXFILE * BSIZE
      modifies this`disk, this`inodes, this`owner, this`logged
      ensures Valid() && |inodes| == |old(inodes)| && |inodes[i].addrs| == |old(inodes)[i].addrs| == NDIRECT + 1
      ensures !ok ==> Extends(sb, old(Abs()), Abs())
      ensures Filling(sb, old(Abs()), Abs(), i, Missing(sb, old(Abs()), i, at, |piece|), ok)
      ensures Logs(old(Abs()), old(logged), Abs(), logged, i)
      ensures ok ==>
                && Wrote(sb, old(Abs()), Abs(), i, at, piece)
                && |bits| <= (if Allocated(sb, old(Abs()), i, at) then 0 else 1)
                             + (if at / BSIZE >= NDIRECT && old(inodes)[i].addrs[NDIRECT] == 0 then 1 else 0)
                && logged <= old(logged) + bits + {addr}
                      + (if at / BSIZE >= NDIRECT then {inodes[i].addrs[NDIRECT]} else {})
                && (at / BSIZE >= NDIRECT ==> inodes[i].addrs[NDIRECT] != 0)
                && (at / BSIZE < NDIRECT || old(inodes)[i].addrs[NDIRECT] != 0 ==>
                      inodes[i].addrs[NDIRECT] == old(inodes)[i].addrs[NDIRECT])
    {
      var bn := at / BSIZE;
      ghost var fs0 := Abs();
      MissingBlock(sb, fs0, i, at, |piece|);
      hide RefAt, Inv, ByteAt, Filling, Missing, Took, Logs;
      var b;
      b, bits := Bmap(i, bn);
      ghost var fs1 := Abs();
      RootFacts(sb, fs0, fs1, i, bn);
      if b.None? { return false, bits, 0; }
      addr := b.value;
      ghost var was := disk[b.value];
      var x := disk[b.value][..at % BSIZE] + piece + disk[b.value][at % BSIZE + |piece|..];
      WriteDataKeeps(sb, fs1, i, bn, x);
      LogsWrite(fs1, logged, i, b.value, x);
      LogsTrans(fs0, old(logged), fs1, logged, fs1.(disk := fs1.disk[b.value := x]), logged + {b.value}, i);
      disk := disk[b.value := x];
      logged := logged + {b.value};
      ChunkWrote(sb, fs0, fs1, Abs(), i, at, piece, was);
      TookData(sb, fs1, i, b.value, x);
      FillingThen(sb, fs0, fs1, Abs(), i, Missing(sb, fs0, i, at, |piece|));
      return true, bits, addr;
    }

    /** One turn of writei's loop, with its account of what is logged. */
    method WriteTurn(i: nat, src: seq<Byte>, off: nat, tot: nat, ghost fs0: Fs, ghost log0: set<nat>, ghost root0: nat,
                     ghost t: Tally)
      returns (ok: bool, m: nat, ghost t': Tally)
      requires Valid() && i < |inodes| && off + |src| <= MAXFILE * BSIZE && tot < |src|
      requires |inodes[i].addrs| == NDIRECT + 1
      requires tot > 0 ==> (off + tot) % BSIZE == 0
      requires Progress(sb, fs0, Abs(), i, off, src, tot)
      requires Accounts(sb, fs0, log0, logged, i, off, tot, t) && RootSeen(t, root0, inodes[i].addrs[NDIRECT])
      requires Logs(fs0, log0, Abs(), logged, i)
      modifies this`disk, this`inodes, this`owner, this`logged
      ensures Valid() && |inodes| == |old(inodes)| && |inodes[i].addrs| == NDIRECT + 1
      ensures Logs(fs0, log0, Abs(), logged, i)
      ensures !ok ==> Halted(sb, fs0, Abs(), i, off, src)
      ensures ok ==>
                && 0 < m && tot + m <= |src| && ((off + tot + m) % BSIZE == 0 || tot + m == |src|)
                && Progress(sb, fs0, Abs(), i, off, src, tot + m)
                && Accounts(sb, fs0, log0, logged, i, off, tot + m, t') && RootSeen(t', root0, inodes[i].addrs[NDIRECT])
    {
      hide RefAt, Inv, ByteAt, Wrote, Accounts, Allocated, RootSeen, NextTally, Extends, Filling, Missing, Progress,
        Halted, Shape, InBlock, Logs;
      InodeShape(sb, Abs(), i);
      ProgressStart(sb, fs0, Abs(), i, off, src, tot);
      ghost var at, fs, log, root := off + tot, Abs(), logged, inodes[i].addrs[NDIRECT];
      m := InBlock(off + tot, |src| - tot);
      InBlockEnds(off + tot, |src| - tot);
      ghost var bits, addr;
      t' := t;
      ok, bits, addr := WriteChunk(i, off + tot, src[tot..tot + m]);
      ProgressStep(sb, fs0, fs, Abs(), i, off, src, tot, m, ok);
      LogsTrans(fs0, log0, fs, log, Abs(), logged, i);
      if ok {
        TallyStep(sb, fs0, log0, log, logged, i, off, tot, m, t, bits, addr, root0, root, inodes[i].addrs[NDIRECT]);
        t' := NextTally(t, bits, addr, at / BSIZE >= NDIRECT, root, inodes[i].addrs[NDIRECT]);
      }
    }

    /** writei's loop. The tally accounts for every block it passes to log_write. */
    method WriteLoop(i: nat, src: seq<Byte>, off: nat) returns (ok: bool, ghost t: Tally)
      requires Valid() && i < |inodes| && off + |src| <= MAXFILE * BSIZE && off < MAXFILE * BSIZE
      modifies this`disk, this`inodes, this`owner, this`logged
      ensures Valid() && |inodes| == |old(inodes)|
      ensures ok ==> Progress(sb, old(Abs()), Abs(), i, off, src, |src|)
      ensures ok ==> Accounts(sb, old(Abs()), old(logged), logged, i, off, |src|, t)
      ensures !ok ==> Halted(sb, old(Abs()), Abs(), i, off, src)
      ensures Logs(old(Abs()), old(logged), Abs(), logged, i)
    {
      hide RefAt, Inv, Progress, Halted, Accounts, RootSeen, Shape, Logs;
      ghost var fs0, log0 := Abs(), logged;
      ProgressNone(sb, fs0, i, off, src);
      InodeShape(sb, fs0, i);
      TallyStart(sb, fs0, log0, i, off);
      ghost var root0 := inodes[i].addrs[NDIRECT];
      t := Tally({}, {}, {}, 0, false);
      var tot := 0;
      RootSeenStart(root0);
      LogsNothing(fs0, log0, i);
      while tot < |src|
        invariant 0 <= tot <= |src| && i < |inodes| == |old(inodes)| && |inodes[i].addrs| == NDIRECT + 1
        invariant Valid() && Progress(sb, fs0, Abs(), i, off, src, tot)
        invariant Accounts(sb, fs0, log0, logged, i, off, tot, t)
        invariant tot > 0 ==> (off + tot) % BSIZE == 0 || tot == |src|
        invariant RootSeen(t, root0, inodes[i].addrs[NDIRECT])
        invariant Logs(fs0, log0, Abs(), logged, i)
      {
        var m;
        ok, m, t := WriteTurn(i, src, off, tot, fs0, log0, root0, t);
        if !ok { return; }
        tot := tot + m;
      }
      return true, t;
    }

    /** writei of a regular file or directory: Some(-1) when it refuses, Some(n) when done, None
        when balloc panics. Done, the bytes are spliced into the file; no other file changes; and a
        write of at most MAX_CHUNK bytes has logged at most MAXOPBLOCKS blocks, `t`. */
    method Writei(i: nat, src: seq<Byte>, off: nat) returns (r: Option<int>, ghost t: set<nat>)
      requires Valid() && i < |inodes| && off < UINT_LIMIT && |src| < UINT_LIMIT
      modifies this`disk, this`inodes, this`owner, this`logged
      ensures Valid() && |inodes| == |old(inodes)| && FilesFit(inodes) && FilesFit(old(inodes))
      ensures r == Some(-1) <==> off > old(inodes)[i].size || off + |src| > MAXFILE * BSIZE
      ensures r == Some(-1) ==> Abs() == old(Abs()) && logged == old(logged)
      ensures r.Some? && r != Some(-1) ==>
                && r == Some(|src|)
                && Content(sb, Abs(), i) == Spliced(Content(sb, old(Abs()), i), off, src)
                && logged <= old(logged) + t && (|src| <= MAX_CHUNK ==> |t| <= MAXOPBLOCKS)
      ensures OthersSame(sb, old(Abs()), Abs(), i)
      ensures r != Some(-1) ==>
                && Filling(sb, old(Abs()), Abs(), i, Missing(sb, old(Abs()), i, off, |src|), r.Some?)
                && (r.None? <==> |FreeBlocks(sb, old(disk))| < |Missing(sb, old(Abs()), i, off, |src|)|)
      ensures off + |src| <= old(inodes)[i].size ==> r == Some(|src|)
      ensures Logged(sb, old(Abs()), Abs(), logged, i, r.Some?) && old(logged) <= logged
    {
      ghost var fs0 := Abs();
      SizesFit(sb, fs0);
      MissingNothing(sb, fs0, i, off);
      t := {};
      if off > inodes[i].size || (off + |src|) % UINT_LIMIT < off {
        return Some(-1), t;
      }
      if off + |src| > MAXFILE * BSIZE {
        return Some(-1), t;
      }
      if |src| == 0 {
        SplicedNothing(Content(sb, fs0, i), off);
        FillingExact(sb, fs0, fs0, i, Missing(sb, fs0, i, off, 0), true);
        return Some(0), t;
      }
      if off + |src| <= inodes[i].size {
        NothingMissing(sb, fs0, i, off, |src|);
      }
      hide RefAt, Inv, Content, Spliced, Filling, Missing, Logged;
      var ok;
      ok, t := WriteBody(i, src, off);
      FillingExact(sb, fs0, Abs(), i, Missing(sb, fs0, i, off, |src|), ok);
      return if ok then Some(|src|) else None, t;
    }

    /** writei past its checks: the loop, then the size. */
    method WriteBody(i: nat, src: seq<Byte>, off: nat) returns (ok: bool, ghost t: set<nat>)
      requires Valid() && i < |inodes| && FilesFit(inodes) && 0 < |src| && off <= inodes[i].size
      requires off + |src| <= MAXFILE * BSIZE
      modifies this`disk, this`inodes, this`owner, this`logged
      ensures Valid() && |inodes| == |old(inodes)| && FilesFit(inodes)
      ensures ok ==>
                && Content(sb, Abs(), i) == Spliced(Content(sb, old(Abs()), i), off, src)
                && logged <= old(logged) + t && (|src| <= MAX_CHUNK ==> |t| <= MAXOPBLOCKS)
      ensures OthersSame(sb, old(Abs()), Abs(), i)
      ensures Filling(sb, old(Abs()), Abs(), i, Missing(sb, old(Abs()), i, off, |src|), ok)
      ensures Logged(sb, old(Abs()), Abs(), logged, i, ok) && old(logged) <= logged
    {
      hide RefAt, Inv, Content, Wrote, Accounts, Spliced, Filling, Missing, Took, Progress, Halted, Shape, OthersSame,
        Logs, Logged;
      ghost var fs0 := Abs();
      InodeShape(sb, fs0, i);
      ghost var tally;
      ok, tally := WriteLoop(i, src, off);
      ghost var fs1 := Abs();
      SizesFit(sb, fs1);
      t := tally.data + tally.bits + tally.root + {sb.IBlock(i)};
      LogsFacts(sb, fs0, old(logged), fs1, logged, i);
      if !ok {
        HaltedFacts(sb, fs0, fs1, i, off, src);
        return;
      }
      ProgressDone(sb, fs0, fs1, i, off, src);
      WriteBound(sb, fs0, old(logged), logged, i, off, |src|, tally, sb.IBlock(i));
      WroteContent(sb, fs0, fs1, i, off, src);
      InodeShape(sb, fs1, i);
      TookResize(sb, fs1, i, off + |src|);
      if off + |src| > inodes[i].size {
        FillingThen(sb, fs0, fs1, fs1.(inodes := inodes[i := inodes[i].(size := off + |src|)]), i,
                    Missing(sb, fs0, i, off, |src|));
        inodes := inodes[i := inodes[i].(size := off + |src|)];
        ghost var log := logged;
        logged := logged + {sb.IBlock(i)};
        LoggedSize(sb, fs0, fs1, log, Abs(), i);
      } else {
        NothingMissing(sb, fs0, i, off, |src|);
        LoggedSame(sb, fs0, fs1, logged, i);
        assert inodes == inodes[i := inodes[i].(size := inodes[i].size)];
      }
    }

    /** The inode case of filewrite: chunks of at most MAX_CHUNK bytes, each its own transaction.
        The first k bytes are written and the file offset advances by k; k is all of them unless
        a chunk is refused. `ops` holds the blocks each transaction logged. */
    method Filewrite(i: nat, src: seq<Byte>, foff: nat)
      returns (r: Option<int>, off: nat, ghost k: nat, ghost ops: seq<set<nat>>)
      requires Valid() && i < |inodes| && foff < UINT_LIMIT && |src| < UINT_LIMIT
      modifies this`disk, this`inodes, this`owner, this`logged
      ensures Valid() && |inodes| == |old(inodes)| && OthersSame(sb, old(Abs()), Abs(), i)
      ensures WithinBudget(ops)
      ensures var room := Writable(old(inodes)[i].size, foff, |src|);
              && (r.None? <==> |FreeBlocks(sb, old(disk))| < |Missing(sb, old(Abs()), i, foff, room)|)
              && (r.Some? ==>
                    && k == room && off == foff + k && r == Some(if k == |src| then |src| else -1)
                    && WroteFile(sb, old(Abs()), Abs(), i, foff, src[..k])
                    && |FreeBlocks(sb, disk)| == |FreeBlocks(sb, old(disk))| - |Missing(sb, old(Abs()), i, foff, k)|
                    && Logged(sb, old(Abs()), Abs(), AllLogged(ops), i, true))
    {
      hide RefAt, Inv, Content, Spliced, OthersSame, WroteFile, FilesFit, WithinBudget, Filling, Missing, FreeBlocks,
        Shape, Writable, Logged, AllLogged;
      ghost var fs0, size := Abs(), inodes[i].size;
      WroteFileStart(sb, fs0, i, foff);
      InodeShape(sb, fs0, i);
      MissingNothing(sb, fs0, i, foff);
      off, k, ops := foff, 0, [];
      assert src[..0] == [];
      BudgetStart();
      LoggedNothing(sb, fs0, i);
      var done := 0;
      while done < |src|
        invariant 0 <= done == k <= |src| && off == foff + done < UINT_LIMIT
        invariant Valid() && i < |inodes| == |old(inodes)|
        invariant WithinBudget(ops)
        invariant WroteFile(sb, fs0, Abs(), i, foff, src[..done])
        invariant done == |src| || done % MAX_CHUNK == 0
        invariant done == 0 ==> inodes[i].size == size
        invariant done > 0 ==> foff <= size && foff + done <= inodes[i].size && foff + done <= MAXFILE * BSIZE
        invariant Filling(sb, fs0, Abs(), i, Missing(sb, fs0, i, foff, done), true)
        invariant Logged(sb, fs0, Abs(), AllLogged(ops), i, true)
      {
        var n1 := if |src| - done > MAX_CHUNK then MAX_CHUNK else |src| - done;
        ghost var fs := Abs();
        InodeShape(sb, fs, i);
        r := FileChunk(i, src, foff, done, n1, fs0);
        RoomStep(size, foff, |src|, done);
        if r == Some(-1) {
          WroteFileEnd(sb, fs0, Abs(), i, foff, src[..done]);
          FillingExact(sb, fs0, Abs(), i, Missing(sb, fs0, i, foff, done), true);
          return;
        }
        FillingStep(sb, fs0, fs, Abs(), i, foff, done, n1, Writable(size, foff, |src|), r.Some?);
        if r.None? {
          FillingExact(sb, fs0, Abs(), i, Missing(sb, fs0, i, foff, Writable(size, foff, |src|)), false);
          return;
        }
        BudgetStep(ops, logged);
        LoggedMore(sb, fs0, fs, Abs(), ops, logged, i);
        ops := ops + [logged];
        done := done + n1;
        off, k := foff + done, done;
      }
      RoomEnd(size, foff, |src|);
      WroteFileEnd(sb, fs0, Abs(), i, foff, src[..done]);
      FillingExact(sb, fs0, Abs(), i, Missing(sb, fs0, i, foff, done), true);
      return Some(|src|), off, k, ops;
    }

    /** One turn of filewrite's loop. */
    method FileChunk(i: nat, src: seq<Byte>, foff: nat, done: nat, n1: nat, ghost fs0: Fs) returns (r: Option<int>)
      requires Valid() && i < |inodes| && foff + done < UINT_LIMIT && 0 < n1 <= MAX_CHUNK && done + n1 <= |src|
      requires WroteFile(sb, fs0, Abs(), i, foff, src[..done])
      modifies this`disk, this`inodes, this`owner, this`logged
      ensures Valid() && |inodes| == |old(inodes)| && OthersSame(sb, fs0, Abs(), i)
      ensures r == Some(-1) <==> foff + done > old(inodes)[i].size || foff + done + n1 > MAXFILE * BSIZE
      ensures r == Some(-1) ==> Abs() == old(Abs())
      ensures r != Some(-1) ==>
                Filling(sb, old(Abs()), Abs(), i, Missing(sb, old(Abs()), i, foff + done, n1), r.Some?)
      ensures r.Some? && r != Some(-1) ==>
                && WroteFile(sb, fs0, Abs(), i, foff, src[..done + n1]) && |logged| <= MAXOPBLOCKS
                && foff + done + n1 < UINT_LIMIT && foff + done + n1 <= inodes[i].size
      ensures Logged(sb, old(Abs()), Abs(), logged, i, r.Some?)
    {
      hide RefAt, Inv, Content, Spliced, OthersSame, WroteFile, FilesFit, Filling, Missing, Shape, Logged;
      ghost var fs := Abs();
      InodeShape(sb, fs, i);
      WroteFileEnd(sb, fs0, fs, i, foff, src[..done]);
      r := WriteTransaction(i, src[done..done + n1], foff + done);
      OthersSameTrans(sb, fs0, fs, Abs(), i);
      if r.Some? && r != Some(-1) {
        WroteFileStep(sb, fs0, fs, Abs(), i, foff, src[..done], src[done..done + n1]);
        assert src[..done] + src[done..done + n1] == src[..done + n1];
      }
    }

    /** begin_op, writei of one chunk, end_op. */
    method WriteTransaction(i: nat, src: seq<Byte>, off: nat) returns (r: Option<int>)
      requires Valid() && i < |inodes| && off < UINT_LIMIT && |src| <= MAX_CHUNK
      modifies this`disk, this`inodes, this`owner, this`logged
      ensures Valid() && |inodes| == |old(inodes)| && FilesFit(inodes) && FilesFit(old(inodes))
      ensures OthersSame(sb, old(Abs()), Abs(), i)
      ensures r == Some(-1) <==> off > old(inodes)[i].size || off + |src| > MAXFILE * BSIZE
      ensures r == Some(-1) ==> Abs() == old(Abs())
      ensures r != Some(-1) ==> Filling(sb, old(Abs()), Abs(), i, Missing(sb, old(Abs()), i, off, |src|), r.Some?)
      ensures r.Some? && r != Some(-1) ==>
                && off <= |Content(sb, old(Abs()), i)| && off + |src| < UINT_LIMIT
                && Content(sb, Abs(), i) == Spliced(Content(sb, old(Abs()), i), off, src)
                && |logged| <= MAXOPBLOCKS && off + |src| <= inodes[i].size
      ensures Logged(sb, old(Abs()), Abs(), logged, i, r.Some?)
    {
      hide RefAt, Inv, Content, Spliced, OthersSame, Filling, Missing, Shape, FilesFit, FreeBlocks, Logged;
      InodeShape(sb, Abs(), i);
      SizesFit(sb, Abs());
      SizeFits(inodes, i);
      ContentLength(sb, Abs(), i);
      logged := {};
      ghost var t;
      r, t := Writei(i, src, off);
      if r.Some? && r != Some(-1) {
        WithinTally(logged, t);
        InodeShape(sb, Abs(), i);
        SizeFits(inodes, i);
        ContentLength(sb, Abs(), i);
        SplicedLength(Content(sb, old(Abs()), i), off, src);
      }
    }

    lemma ExtendsSelf()
      requires Valid()
      ensures Extends(sb, Abs(), Abs())
    {
      hide RefAt, Marked;
      forall i: nat, k: nat | i < |inodes| && k < SLOTS && RefAt(sb, Abs(), i, k) != 0
        ensures KeepsSlot(sb, Abs(), Abs(), i, k)
      {
        assert OwnerOk(sb, Abs(), RefAt(sb, Abs(), i, k));
      }
    }
  }

  /** balloc of block b, and b stored in entry e of the indirect block. */
  lemma EntryLinked(sb: Super, fs: Fs, i: nat, e: nat, b: nat)
    requires Inv(sb, fs) && i < |fs.inodes| && e < NINDIRECT && fs.inodes[i].addrs[NDIRECT] != 0
    requires RefAt(sb, fs, i, NDIRECT + 1 + e) == 0 && b < sb.size && !Marked(sb, fs.disk, b)
    ensures b != 0 && |Alloc(sb, fs.disk, b)| == sb.size
    ensures var fs' := LinkIndirect(fs.(disk := Alloc(sb, fs.disk, b)), i, e, b);
            && Inv(sb, fs') && Extends(sb, fs, fs') && RefAt(sb, fs', i, NDIRECT + 1 + e) == b
            && Filling(sb, fs, fs', i, {NDIRECT + 1 + e}, true)
  {
    var fs1 := fs.(disk := Alloc(sb, fs.disk, b));
    AllocKeeps(sb, fs, b);
    AllocSameEntry(sb, fs, i, e, b);
    RootIsSlot(sb, fs1, i, e);
    hide Alloc, Marked, RefAt, Inv, Extends, Filling, FreeBlocks;
    LinkIndirectKeeps(sb, fs1, i, e, b);
    ExtendsTrans(sb, fs, fs1, LinkIndirect(fs1, i, e, b));
    EntryInRange(sb, fs1, i, NDIRECT);
    DataTakesNone(sb, fs1.disk, fs.inodes[i].addrs[NDIRECT], SetWord(fs1.disk[fs.inodes[i].addrs[NDIRECT]], e, b));
    FillingOne(sb, fs, fs1, LinkIndirect(fs1, i, e, b), i, NDIRECT + 1 + e, b);
  }

  /** Both halves of bmap for entry e of the indirect block. */
  lemma EntryFilled(sb: Super, fs0: Fs, fs1: Fs, fs2: Fs, i: nat, e: nat, ok: bool)
    requires Shape(sb, fs0) && Shape(sb, fs1) && i < |fs0.inodes| == |fs1.inodes| && e < NINDIRECT
    requires if RefAt(sb, fs0, i, NDIRECT) == 0 then Filling(sb, fs0, fs1, i, {NDIRECT}, true) else fs1 == fs0
    requires RefAt(sb, fs0, i, NDIRECT) == 0 ==>
               RefAt(sb, fs0, i, NDIRECT + 1 + e) == 0 && RefAt(sb, fs1, i, NDIRECT + 1 + e) == 0
    requires if RefAt(sb, fs1, i, NDIRECT + 1 + e) == 0 then Filling(sb, fs1, fs2, i, {NDIRECT + 1 + e}, ok)
             else ok && fs2 == fs1
    ensures Filling(sb, fs0, fs2, i, Missing(sb, fs0, i, (NDIRECT + e) * BSIZE, 1), ok)
  {
    MissingOne(sb, fs0, i, NDIRECT + e);
    FillingNothing(sb, fs0, i);
    hide RefAt, Filling, Missing;
    if RefAt(sb, fs0, i, NDIRECT) == 0 {
      FillingTrans(sb, fs0, fs1, fs2, i, {NDIRECT}, {NDIRECT + 1 + e}, ok);
    }
  }

  lemma ZeroEntries(sb: Super, fs: Fs, i: nat, k: nat, b: Word32)
    requires Shape(sb, fs) && i < |fs.inodes| && k <= NDIRECT && b < sb.size && fs.disk[b] == ZERO_BLOCK
    ensures Shape(sb, LinkDirect(fs, i, k, b))
    ensures k == NDIRECT ==> forall l: nat :: NDIRECT < l < SLOTS ==> RefAt(sb, LinkDirect(fs, i, k, b), i, l) == 0
  {
    if k == NDIRECT {
      forall l: nat | NDIRECT < l < SLOTS
        ensures RefAt(sb, LinkDirect(fs, i, k, b), i, l) == 0
      {
        ZeroEntry(sb, fs, i, b, l);
      }
    }
  }

  lemma ZeroEntry(sb: Super, fs: Fs, i: nat, b: Word32, l: nat)
    requires Shape(sb, fs) && i < |fs.inodes| && b < sb.size && fs.disk[b] == ZERO_BLOCK && NDIRECT < l < SLOTS
    ensures Shape(sb, LinkDirect(fs, i, NDIRECT, b)) && RefAt(sb, LinkDirect(fs, i, NDIRECT, b), i, l) == 0
  {
    hide Word;
    ZeroBlockWords(l - NDIRECT - 1);
  }

  lemma LinkDirectIs(fs: Fs, i: nat, k: nat, b: Word32)
    requires i < |fs.inodes| && k < |fs.inodes[i].addrs|
    ensures LinkDirect(fs, i, k, b)
         == Fs(fs.disk, fs.inodes[i := fs.inodes[i].(addrs := fs.inodes[i].addrs[k := b])], fs.owner[b := (i, k)])
  {
  }

  /** A slot in use names a data block. */
  lemma EntryInRange(sb: Super, fs: Fs, i: nat, k: nat)
    requires Inv(sb, fs) && i < |fs.inodes| && k < SLOTS && RefAt(sb, fs, i, k) != 0
    ensures sb.datastart <= RefAt(sb, fs, i, k) < sb.size
  {
    hide RefAt, Marked;
    assert OwnerOk(sb, fs, RefAt(sb, fs, i, k));
  }

  /** Allocating a block elsewhere leaves a free entry of an indirect block free. */
  lemma AllocSameEntry(sb: Super, fs: Fs, i: nat, e: nat, b: nat)
    requires Inv(sb, fs) && i < |fs.inodes| && e < NINDIRECT && b < sb.size && !Marked(sb, fs.disk, b)
    requires fs.inodes[i].addrs[NDIRECT] != 0
    ensures var fs' := fs.(disk := Alloc(sb, fs.disk, b));
            Shape(sb, fs') && RefAt(sb, fs', i, NDIRECT + 1 + e) == RefAt(sb, fs, i, NDIRECT + 1 + e)
  {
    var fs' := fs.(disk := Alloc(sb, fs.disk, b));
    AllocKeeps(sb, fs, b);
    AllocMarks(sb, fs.disk, b);
    SameRef(sb, fs, fs', b, i, NDIRECT + 1 + e);
  }

  /** The bitmap blocks of these blocks. */
  ghost function BitmapOf(sb: Super, blocks: set<nat>): set<nat> {
    set b | b in blocks :: sb.BBlock(b)
  }

  ghost function BlocksOf(owner: map<nat, (nat, nat)>, i: nat): set<nat> {
    set b | b in owner && owner[b].0 == i
  }

  /** What itrunc of inode i passes to log_write: the bitmap block of every block it frees, and the
      block of the inode. */
  ghost function TruncLog(sb: Super, fs: Fs, i: nat): set<nat> {
    BitmapOf(sb, BlocksOf(fs.owner, i)) + {sb.IBlock(i)}
  }

  /** FreedOnly, with the bitmap block of every block freed so far logged, and nothing else. */
  ghost predicate FreedLog(sb: Super, fs0: Fs, log0: set<nat>, fs: Fs, log: set<nat>, i: nat) {
    && FreedOnly(sb, fs0, fs, i) && log == log0 + BitmapOf(sb, fs0.owner.Keys - fs.owner.Keys)
    && Covers(fs0.disk, fs.disk, log)
  }

  lemma FreedStep(sb: Super, fs0: Fs, log0: set<nat>, fs: Fs, log: set<nat>, fs': Fs, i: nat, b: nat)
    requires FreedLog(sb, fs0, log0, fs, log, i) && FreedOnly(sb, fs, fs', i)
    requires b in fs.owner && fs'.owner == fs.owner - {b} && Covers(fs.disk, fs'.disk, {sb.BBlock(b)})
    ensures FreedLog(sb, fs0, log0, fs', log + {sb.BBlock(b)}, i)
  {
    FreedOnlyTrans(sb, fs0, fs, fs', i);
    assert b in fs0.owner;
    hide FreedOnly;
    assert fs0.owner.Keys - fs'.owner.Keys == fs0.owner.Keys - fs.owner.Keys + {b};
    BitmapMore(sb, fs0.owner.Keys - fs.owner.Keys, b);
  }

  lemma UnmarkCovers(sb: Super, disk: seq<Block>, b: nat)
    requires sb.Valid() && |disk| == sb.size && b < sb.size
    ensures Covers(disk, Unmark(sb, disk, b), {sb.BBlock(b)})
  {
  }

  lemma BitmapMore(sb: Super, blocks: set<nat>, b: nat)
    ensures BitmapOf(sb, blocks + {b}) == BitmapOf(sb, blocks) + {sb.BBlock(b)}
  {
  }

  lemma FreedOf(sb: Super, fs0: Fs, log0: set<nat>, fs: Fs, log: set<nat>, i: nat)
    requires FreedLog(sb, fs0, log0, fs, log, i)
    ensures FreedOnly(sb, fs0, fs, i) && log == log0 + BitmapOf(sb, fs0.owner.Keys - fs.owner.Keys)
    ensures Covers(fs0.disk, fs.disk, log)
  {
  }

  lemma FreedAll(owner0: map<nat, (nat, nat)>, owner: map<nat, (nat, nat)>, i: nat)
    requires forall b :: b in owner <==> b in owner0 && owner0[b].0 != i
    ensures owner0.Keys - owner.Keys == BlocksOf(owner0, i)
  {
  }

  lemma StartTruncate(sb: Super, fs: Fs, i: nat, log: set<nat>)
    requires Inv(sb, fs) && i < |fs.inodes|
    ensures Truncating(sb, fs, i, 0) && FreedLog(sb, fs, log, fs, log, i)
  {
    hide RefAt, Marked;
    assert fs.owner.Keys - fs.owner.Keys == {};
  }

  /** Inside itrunc the inode's own slots are what addrs holds. */
  lemma TruncRef(sb: Super, fs: Fs, i: nat, k: nat, gone: nat)
    requires Truncating(sb, fs, i, gone) && k <= NDIRECT
    ensures i < |fs.inodes| && |fs.inodes[i].addrs| == NDIRECT + 1
    ensures RefAt(sb, fs, i, k) == fs.inodes[i].addrs[k]
  {
  }

  /** Inside itrunc's second loop the next entry is read from the indirect block; an empty entry
      may be passed over. */
  lemma TruncEntry(sb: Super, fs: Fs, i: nat, e: nat)
    requires Truncating(sb, fs, i, e) && e < NINDIRECT && fs.inodes[i].addrs[NDIRECT] != 0
    ensures fs.inodes[i].addrs[NDIRECT] < |fs.disk|
    ensures RefAt(sb, fs, i, NDIRECT + 1 + e) == Word(fs.disk[fs.inodes[i].addrs[NDIRECT]], e)
    ensures RefAt(sb, fs, i, NDIRECT + 1 + e) == 0 ==> Truncating(sb, fs, i, e + 1)
  {
    if RefAt(sb, fs, i, NDIRECT + 1 + e) == 0 {
      hide RefAt, Marked;
      forall b | b in fs.owner
        ensures fs.owner[b] != (i, NDIRECT + 1 + e)
      {
        assert OwnerOk(sb, fs, b);
      }
    }
  }

  /** Within one block the file is a slice of that block. */
  lemma BlockSlice(sb: Super, fs: Fs, i: nat, at: nat, m: nat)
    requires Inv(sb, fs) && i < |fs.inodes| && fs.inodes[i].size <= MAXFILE * BSIZE
    requires at + m <= fs.inodes[i].size && at < MAXFILE * BSIZE && at % BSIZE + m <= BSIZE && Allocated(sb, fs, i, at)
    ensures RefAt(sb, fs, i, SlotOf(at / BSIZE)) < |fs.disk|
    ensures Content(sb, fs, i)[at..at + m] == fs.disk[RefAt(sb, fs, i, SlotOf(at / BSIZE))][at % BSIZE..at % BSIZE + m]
  {
    var k := SlotOf(at / BSIZE);
    EntryInRange(sb, fs, i, k);
    hide RefAt, Inv;
    var b := RefAt(sb, fs, i, k);
    forall o | at <= o < at + m
      ensures Content(sb, fs, i)[o] == fs.disk[b][at % BSIZE + o - at]
    {
      SameBlock(at, o);
    }
  }

  lemma SameBlock(at: nat, o: nat)
    requires at <= o < at - at % BSIZE + BSIZE
    ensures o / BSIZE == at / BSIZE && o % BSIZE == at % BSIZE + (o - at)
  {
  }

  // ---------------------------------------------------------------- what writing does to bytes

  /** fs' is fs with the bytes of `piece` at position `at` of inode i, and every other byte of
      every allocated block as it was. */
  ghost predicate Wrote(sb: Super, fs: Fs, fs': Fs, i: nat, at: nat, piece: seq<Byte>) {
    && Shape(sb, fs) && Shape(sb, fs') && i < |fs.inodes| == |fs'.inodes| && at + |piece| <= MAXFILE * BSIZE
    && (forall j :: 0 <= j < |fs.inodes| ==> fs'.inodes[j].size == fs.inodes[j].size)
    && (forall j: nat, o: nat :: j < |fs.inodes| && o < MAXFILE * BSIZE && Allocated(sb, fs, j, o)
          && !(j == i && at <= o < at + |piece|)
          ==> SameByte(sb, fs, fs', j, o))
    && (forall o: nat :: at <= o < at + |piece| ==> Allocated(sb, fs', i, o) && ByteAt(sb, fs', i, o) == piece[o - at])
  }

  ghost predicate SameByte(sb: Super, fs: Fs, fs': Fs, j: nat, o: nat)
    requires Shape(sb, fs) && Shape(sb, fs') && j < |fs.inodes| == |fs'.inodes| && o < MAXFILE * BSIZE
  {
    Allocated(sb, fs', j, o) && ByteAt(sb, fs', j, o) == ByteAt(sb, fs, j, o)
  }

  /** Two writes in a row, the second where the first ended, are one write. */
  lemma WroteTrans(sb: Super, a: Fs, b: Fs, c: Fs, i: nat, at: nat, p: seq<Byte>, q: seq<Byte>)
    requires Wrote(sb, a, b, i, at, p) && Wrote(sb, b, c, i, at + |p|, q)
    ensures Wrote(sb, a, c, i, at, p + q)
  {
    hide Allocated, ByteAt, Shape;
    forall j: nat, o: nat | j < |a.inodes| && o < MAXFILE * BSIZE && Allocated(sb, a, j, o)
        && !(j == i && at <= o < at + |p + q|)
      ensures SameByte(sb, a, c, j, o)
    {
      assert SameByte(sb, a, b, j, o);
      assert SameByte(sb, b, c, j, o);
    }
    forall o: nat | at <= o < at + |p + q|
      ensures Allocated(sb, c, i, o) && ByteAt(sb, c, i, o) == (p + q)[o - at]
    {
      if o < at + |p| {
        assert SameByte(sb, b, c, i, o);
      }
    }
  }

  /** What Bmap does to the address of the indirect block. */
  lemma RootFacts(sb: Super, fs: Fs, fs': Fs, i: nat, bn: nat)
    requires Extends(sb, fs, fs') && i < |fs.inodes|
    ensures |fs.inodes[i].addrs| == NDIRECT + 1 && |fs'.inodes[i].addrs| == NDIRECT + 1
    ensures fs.inodes[i].addrs[NDIRECT] != 0 ==> fs'.inodes[i].addrs[NDIRECT] == fs.inodes[i].addrs[NDIRECT]
    ensures bn >= NDIRECT && bn < MAXFILE && RefAt(sb, fs', i, SlotOf(bn)) != 0 ==> fs'.inodes[i].addrs[NDIRECT] != 0
  {
    if fs.inodes[i].addrs[NDIRECT] != 0 {
      assert RefAt(sb, fs, i, NDIRECT) != 0;
      assert KeepsSlot(sb, fs, fs', i, NDIRECT);
    }
  }

  /** bmap and then the memmove: together they are a write of `piece`. */
  lemma ChunkWrote(sb: Super, fs0: Fs, fs1: Fs, fs2: Fs, i: nat, at: nat, piece: seq<Byte>, was: Block)
    requires Inv(sb, fs0) && Extends(sb, fs0, fs1) && i < |fs0.inodes|
    requires 0 < |piece| && at % BSIZE + |piece| <= BSIZE && at + |piece| <= MAXFILE * BSIZE
    requires SameRefs(sb, fs1, fs2) && Allocated(sb, fs1, i, at)
    requires RefAt(sb, fs1, i, SlotOf(at / BSIZE)) < sb.size
    requires was == fs1.disk[RefAt(sb, fs1, i, SlotOf(at / BSIZE))]
    requires fs2.disk[RefAt(sb, fs1, i, SlotOf(at / BSIZE))] == was[..at % BSIZE] + piece + was[at % BSIZE + |piece|..]
    requires forall j: nat, o: nat :: j < |fs1.inodes| && o < MAXFILE * BSIZE && !(j == i && o / BSIZE == at / BSIZE)
               ==> ByteAt(sb, fs2, j, o) == ByteAt(sb, fs1, j, o)
    ensures Wrote(sb, fs0, fs2, i, at, piece)
  {
    hide RefAt, Inv;
    var k := SlotOf(at / BSIZE);
    assert RefAt(sb, fs2, i, k) == RefAt(sb, fs1, i, k);
    forall j: nat, o: nat | j < |fs0.inodes| && o < MAXFILE * BSIZE && Allocated(sb, fs0, j, o)
        && !(j == i && at <= o < at + |piece|)
      ensures SameByte(sb, fs0, fs2, j, o)
    {
      ExtendsByte(sb, fs0, fs1, j, o);
      assert RefAt(sb, fs2, j, SlotOf(o / BSIZE)) == RefAt(sb, fs1, j, SlotOf(o / BSIZE));
    }
    forall o: nat | at <= o < at + |piece|
      ensures Allocated(sb, fs2, i, o) && ByteAt(sb, fs2, i, o) == piece[o - at]
    {
      SameBlock(at, o);
    }
  }

  // ---------------------------------------------------------------- blocks logged by one writei

  /** Data blocks, bitmap blocks and the indirect block logged; turns taken; whether the indirect
      block was allocated on the way. */
  datatype Tally = Tally(data: set<nat>, bits: set<nat>, root: set<nat>, turns: nat, newRoot: bool)

  ghost function NextTally(t: Tally, bits: set<nat>, addr: nat, indirect: bool, before: nat, after: nat): Tally {
    Tally(t.data + {addr}, t.bits + bits, if indirect then {after} else t.root, t.turns + 1,
          t.newRoot || (indirect && before == 0))
  }

  /** The address of the indirect block is `root`: unchanged, unless it was allocated on the way. */
  ghost predicate RootSeen(t: Tally, root0: nat, root: nat) {
    && (t.newRoot ==> root0 == 0 && root != 0)
    && (!t.newRoot ==> root == root0)
    && (t.root == {} || (root != 0 && t.root == {root}))
  }

  /** Everything logged since log0 is in the tally, and the tally is no larger than its turns and
      its allocations explain: each turn one data block, each allocation one bitmap block. */
  ghost predicate Accounts(sb: Super, fs0: Fs, log0: set<nat>, log: set<nat>, i: nat, off: nat, tot: nat, t: Tally) {
    && Shape(sb, fs0) && i < |fs0.inodes| && off < MAXFILE * BSIZE
    && log <= log0 + t.data + t.bits + t.root
    && Counted(t, Turns(off, tot), Allocated(sb, fs0, i, off))
  }

  /** How many blocks a write of tot bytes at off has touched. */
  ghost function Turns(off: nat, tot: nat): int {
    if tot == 0 then 0 else (off + tot - 1) / BSIZE - off / BSIZE + 1
  }

  ghost predicate Counted(t: Tally, turns: int, started: bool) {
    && t.turns == turns && |t.data| <= turns && |t.root| <= 1
    && (turns == 0 ==> t.bits == {} && !t.newRoot)
    && (turns > 0 ==> |t.bits| <= turns - (if started then 1 else 0) + (if t.newRoot then 1 else 0))
  }

  lemma CountedStep(t: Tally, turns: int, started: bool, bits: set<nat>, addr: nat, indirect: bool,
                    root0: nat, root: nat, root': nat)
    requires Counted(t, turns, started) && turns >= 0 && RootSeen(t, root0, root)
    requires |bits| <= (if turns == 0 && started then 0 else 1) + (if indirect && root == 0 then 1 else 0)
    requires (indirect ==> root' != 0) && (!indirect || root != 0 ==> root' == root)
    ensures var t' := NextTally(t, bits, addr, indirect, root, root');
            Counted(t', turns + 1, started) && RootSeen(t', root0, root')
  {
    UnionSize(t.data, {addr});
    UnionSize(t.bits, bits);
  }

  lemma TallyStart(sb: Super, fs0: Fs, log0: set<nat>, i: nat, off: nat)
    requires Shape(sb, fs0) && i < |fs0.inodes| && off < MAXFILE * BSIZE
    ensures Accounts(sb, fs0, log0, log0, i, off, 0, Tally({}, {}, {}, 0, false))
  {
  }

  lemma TurnCount(off: nat, tot: nat, m: nat)
    requires 0 < m <= BSIZE - (off + tot) % BSIZE && (tot > 0 ==> (off + tot) % BSIZE == 0)
    ensures Turns(off, tot + m) == Turns(off, tot) + 1
    ensures Turns(off, tot) >= 0 && (Turns(off, tot) == 0 <==> tot == 0)
  {
    SameBlock(off + tot, off + tot + m - 1);
  }

  lemma UnionSize(a: set<nat>, b: set<nat>)
    ensures |a + b| <= |a| + |b|
  {
    assert a + b == a + (b - a);
    assert |b| == |b - a| + |b * a| by { assert b == (b - a) + (b * a); }
  }

  /** writei's loop has written tot bytes of src and filled the slots they need. */
  ghost predicate Progress(sb: Super, fs0: Fs, fs: Fs, i: nat, off: nat, src: seq<Byte>, tot: nat) {
    && tot <= |src| && Wrote(sb, fs0, fs, i, off, src[..tot]) && (tot == 0 ==> fs == fs0)
    && Filling(sb, fs0, fs, i, Missing(sb, fs0, i, off, tot), true)
  }

  /** It ran out of blocks on the way. */
  ghost predicate Halted(sb: Super, fs0: Fs, fs: Fs, i: nat, off: nat, src: seq<Byte>) {
    && Shape(sb, fs0) && i < |fs0.inodes|
    && (exists k :: 0 <= k <= |src| && Wrote(sb, fs0, fs, i, off, src[..k]))
    && Filling(sb, fs0, fs, i, Missing(sb, fs0, i, off, |src|), false)
  }

  lemma ProgressNone(sb: Super, fs: Fs, i: nat, off: nat, src: seq<Byte>)
    requires Inv(sb, fs) && i < |fs.inodes| && off <= MAXFILE * BSIZE
    ensures Progress(sb, fs, fs, i, off, src, 0)
  {
    WroteNothing(sb, fs, i, off);
    MissingNothing(sb, fs, i, off);
    assert src[..0] == [];
  }

  lemma ProgressStart(sb: Super, fs0: Fs, fs: Fs, i: nat, off: nat, src: seq<Byte>, tot: nat)
    requires Progress(sb, fs0, fs, i, off, src, tot)
    ensures Shape(sb, fs0) && i < |fs0.inodes| && (tot == 0 ==> fs == fs0)
    ensures Filling(sb, fs0, fs, i, Missing(sb, fs0, i, off, tot), true)
    ensures tot <= |src| && Wrote(sb, fs0, fs, i, off, src[..tot])
  {
  }

  lemma ProgressDone(sb: Super, fs0: Fs, fs: Fs, i: nat, off: nat, src: seq<Byte>)
    requires Progress(sb, fs0, fs, i, off, src, |src|)
    ensures Wrote(sb, fs0, fs, i, off, src)
    ensures Shape(sb, fs0) && i < |fs0.inodes| && Filling(sb, fs0, fs, i, Missing(sb, fs0, i, off, |src|), true)
  {
    assert src[..|src|] == src;
  }

  lemma HaltedFacts(sb: Super, fs0: Fs, fs: Fs, i: nat, off: nat, src: seq<Byte>)
    requires Halted(sb, fs0, fs, i, off, src) && Inv(sb, fs0) && FilesFit(fs0.inodes) && FilesFit(fs.inodes)
    ensures Filling(sb, fs0, fs, i, Missing(sb, fs0, i, off, |src|), false) && OthersSame(sb, fs0, fs, i)
  {
    hide Inv, Wrote, Filling;
    var k :| 0 <= k <= |src| && Wrote(sb, fs0, fs, i, off, src[..k]);
    OthersKept(sb, fs0, fs, i, off, src[..k]);
  }

  lemma ProgressIs(sb: Super, fs0: Fs, fs: Fs, i: nat, off: nat, src: seq<Byte>, tot: nat)
    requires Shape(sb, fs0) && i < |fs0.inodes| && 0 < tot <= |src| && Wrote(sb, fs0, fs, i, off, src[..tot])
    requires Filling(sb, fs0, fs, i, Missing(sb, fs0, i, off, tot), true)
    ensures Progress(sb, fs0, fs, i, off, src, tot)
  {
    hide Wrote, Filling, Missing;
  }

  lemma ProgressStep(sb: Super, fs0: Fs, fs: Fs, fs': Fs, i: nat, off: nat, src: seq<Byte>, tot: nat, m: nat, ok: bool)
    requires Progress(sb, fs0, fs, i, off, src, tot) && 0 < m && tot + m <= |src| && Inv(sb, fs) && i < |fs.inodes|
    requires if ok then Wrote(sb, fs, fs', i, off + tot, src[tot..tot + m]) else Extends(sb, fs, fs')
    requires Filling(sb, fs, fs', i, Missing(sb, fs, i, off + tot, m), ok)
    ensures if ok then Progress(sb, fs0, fs', i, off, src, tot + m) else Halted(sb, fs0, fs', i, off, src)
  {
    hide Inv, Wrote, Extends, Filling, Missing, Shape, Progress;
    ProgressStart(sb, fs0, fs, i, off, src, tot);
    InodeShape(sb, fs, i);
    FillingStep(sb, fs0, fs, fs', i, off, tot, m, |src|, ok);
    if ok {
      assert src[..tot] + src[tot..tot + m] == src[..tot + m];
      WroteTrans(sb, fs0, fs, fs', i, off, src[..tot], src[tot..tot + m]);
      ProgressIs(sb, fs0, fs', i, off, src, tot + m);
    } else {
      ExtendsWrote(sb, fs0, fs, fs', i, off, src[..tot]);
    }
  }

  lemma InBlockEnds(at: nat, left: nat)
    requires left > 0
    ensures (at + InBlock(at, left)) % BSIZE == 0 || InBlock(at, left) == left
  {
  }

  /** What is left, up to the end of the block. */
  function InBlock(at: nat, left: nat): (m: nat)
    requires left > 0
    ensures 0 < m <= left && at % BSIZE + m <= BSIZE
  {
    if left < BSIZE - at % BSIZE then left else BSIZE - at % BSIZE
  }

  lemma TallyLogged(log0: set<nat>, log: set<nat>, log': set<nat>, t: Tally, bits: set<nat>, addr: nat, indirect: bool,
                    root: nat, root': nat)
    requires log <= log0 + t.data + t.bits + t.root && (t.root == {} || (root != 0 && t.root == {root}))
    requires log' <= log + bits + {addr} + (if indirect then {root'} else {})
    requires (!indirect || root != 0 ==> root' == root)
    ensures var t' := NextTally(t, bits, addr, indirect, root, root'); log' <= log0 + t'.data + t'.bits + t'.root
  {
  }

  lemma TallyStep(sb: Super, fs0: Fs, log0: set<nat>, log: set<nat>, log': set<nat>, i: nat, off: nat, tot: nat, m: nat,
                  t: Tally, bits: set<nat>, addr: nat, root0: nat, root: nat, root': nat)
    requires Accounts(sb, fs0, log0, log, i, off, tot, t) && RootSeen(t, root0, root)
    requires 0 < m <= BSIZE - (off + tot) % BSIZE && (tot > 0 ==> (off + tot) % BSIZE == 0)
    requires var indirect := (off + tot) / BSIZE >= NDIRECT;
             && |bits| <= (if tot == 0 && Allocated(sb, fs0, i, off) then 0 else 1)
                   + (if indirect && root == 0 then 1 else 0)
             && log' <= log + bits + {addr} + (if indirect then {root'} else {})
             && (indirect ==> root' != 0) && (!indirect || root != 0 ==> root' == root)
    ensures var t' := NextTally(t, bits, addr, (off + tot) / BSIZE >= NDIRECT, root, root');
            Accounts(sb, fs0, log0, log', i, off, tot + m, t') && RootSeen(t', root0, root')
  {
    hide Allocated, Shape, Turns, Counted, NextTally;
    var indirect := (off + tot) / BSIZE >= NDIRECT;
    TallyLogged(log0, log, log', t, bits, addr, indirect, root, root');
    TurnCount(off, tot, m);
    CountedStep(t, Turns(off, tot), Allocated(sb, fs0, i, off), bits, addr, indirect, root0, root, root');
  }

  /** The root of the indirect block is a slot of its own; without it there are no entries. */
  lemma RootIsSlot(sb: Super, fs: Fs, i: nat, e: nat)
    requires Inv(sb, fs) && i < |fs.inodes| && e < NINDIRECT
    ensures |fs.inodes[i].addrs| == NDIRECT + 1 && RefAt(sb, fs, i, NDIRECT) == fs.inodes[i].addrs[NDIRECT]
    ensures fs.inodes[i].addrs[NDIRECT] == 0 ==> RefAt(sb, fs, i, NDIRECT + 1 + e) == 0
  {
  }

  lemma InodeShape(sb: Super, fs: Fs, i: nat)
    requires Inv(sb, fs) && i < |fs.inodes|
    ensures Shape(sb, fs) && |fs.inodes[i].addrs| == NDIRECT + 1
  {
  }

  lemma RootSeenStart(root: nat)
    ensures RootSeen(Tally({}, {}, {}, 0, false), root, root)
  {
  }

  lemma WroteNothing(sb: Super, fs: Fs, i: nat, at: nat)
    requires Inv(sb, fs) && i < |fs.inodes| && at <= MAXFILE * BSIZE
    ensures Wrote(sb, fs, fs, i, at, [])
  {
    hide RefAt, ByteAt;
  }

  lemma ExtendsWrote(sb: Super, a: Fs, b: Fs, c: Fs, i: nat, at: nat, p: seq<Byte>)
    requires Wrote(sb, a, b, i, at, p) && Inv(sb, b) && Extends(sb, b, c)
    ensures Wrote(sb, a, c, i, at, p)
  {
    hide RefAt, ByteAt, Inv, Allocated;
    forall j: nat, o: nat | j < |a.inodes| && o < MAXFILE * BSIZE && Allocated(sb, a, j, o)
        && !(j == i && at <= o < at + |p|)
      ensures SameByte(sb, a, c, j, o)
    {
      assert SameByte(sb, a, b, j, o);
      ExtendsByte(sb, b, c, j, o);
    }
    forall o: nat | at <= o < at + |p|
      ensures Allocated(sb, c, i, o) && ByteAt(sb, c, i, o) == p[o - at]
    {
      ExtendsByte(sb, b, c, i, o);
    }
  }

  /** Every file but inode i reads the same in both. */
  ghost predicate OthersSame(sb: Super, fs: Fs, fs': Fs, i: nat) {
    && Shape(sb, fs) && Shape(sb, fs') && |fs'.inodes| == |fs.inodes| && FilesFit(fs.inodes) && FilesFit(fs'.inodes)
    && forall j: nat :: j < |fs.inodes| && j != i ==>
          fs'.inodes[j].size == fs.inodes[j].size && Content(sb, fs', j) == Content(sb, fs, j)
  }

  lemma OthersSameTrans(sb: Super, a: Fs, b: Fs, c: Fs, i: nat)
    requires OthersSame(sb, a, b, i) && OthersSame(sb, b, c, i)
    ensures OthersSame(sb, a, c, i)
  {
    hide Content;
  }

  /** A byte string with `src` written over it from position off on, longer if need be. */
  function Spliced(c: seq<Byte>, off: nat, src: seq<Byte>): seq<Byte>
    requires off <= |c|
  {
    c[..off] + src + if off + |src| < |c| then c[off + |src|..] else []
  }

  lemma SplicedNothing(c: seq<Byte>, off: nat)
    requires off <= |c|
    ensures Spliced(c, off, []) == c
  {
  }

  ghost predicate FilesFit(inodes: seq<Inode>) {
    forall i :: 0 <= i < |inodes| ==> inodes[i].size <= MAXFILE * BSIZE
  }

  lemma SizesFit(sb: Super, fs: Fs)
    requires Inv(sb, fs)
    ensures FilesFit(fs.inodes)
  {
    forall i | 0 <= i < |fs.inodes|
      ensures fs.inodes[i].size <= MAXFILE * BSIZE
    {
      assert SizeOk(sb, fs, i);
    }
  }

  /** Transaction size: at most 4 data blocks, the indirect block, the inode's block, and a bitmap
      block for each of at most 4 allocations. A write that touches 4 blocks starts inside an
      allocated one. */
  lemma WriteBound(sb: Super, fs0: Fs, log0: set<nat>, log: set<nat>, i: nat, off: nat, n: nat, t: Tally, iblock: nat)
    requires Inv(sb, fs0) && i < |fs0.inodes| && off <= fs0.inodes[i].size && n > 0
    requires Accounts(sb, fs0, log0, log, i, off, n, t)
    ensures log <= log0 + (t.data + t.bits + t.root + {iblock})
    ensures n <= MAX_CHUNK ==> |t.data + t.bits + t.root + {iblock}| <= MAXOPBLOCKS
  {
    if off % BSIZE != 0 {
      BelowSizeAllocated(sb, fs0, i, off);
    }
    hide Inv, Allocated;
    UnionSize(t.data, t.bits);
    UnionSize(t.data + t.bits, t.root);
    UnionSize(t.data + t.bits + t.root, {iblock});
    if n <= MAX_CHUNK {
      BlockSpan(off, n);
    }
  }

  lemma BlockSpan(off: nat, n: nat)
    requires 0 < n <= MAX_CHUNK
    ensures (off + n - 1) / BSIZE - off / BSIZE + 1 <= 4
    ensures off % BSIZE == 0 ==> (off + n - 1) / BSIZE - off / BSIZE + 1 <= 3
  {
  }

  /** After a write the file is the old one with the bytes spliced in, once the size is set. */
  lemma WroteContent(sb: Super, fs0: Fs, fs1: Fs, i: nat, off: nat, src: seq<Byte>)
    requires Inv(sb, fs0) && Inv(sb, fs1) && Wrote(sb, fs0, fs1, i, off, src) && FilesFit(fs0.inodes)
    requires FilesFit(fs1.inodes)
    requires off <= fs0.inodes[i].size
    ensures var size := if off + |src| > fs1.inodes[i].size then off + |src| else fs1.inodes[i].size;
            var fs2 := fs1.(inodes := fs1.inodes[i := fs1.inodes[i].(size := size)]);
            && Inv(sb, fs2) && FilesFit(fs2.inodes)
            && Content(sb, fs2, i) == Spliced(Content(sb, fs0, i), off, src)
            && OthersSame(sb, fs0, fs2, i)
  {
    var size := if off + |src| > fs1.inodes[i].size then off + |src| else fs1.inodes[i].size;
    var fs2 := fs1.(inodes := fs1.inodes[i := fs1.inodes[i].(size := size)]);
    ResizeKeeps(sb, fs0, fs1, i, off, src, size);
    OthersKept(sb, fs0, fs1, i, off, src);
    ResizeContent(sb, fs1, i, size);
    SplicedContent(sb, fs0, fs1, i, off, src, size);
    hide Inv, RefAt, ByteAt, Wrote, Spliced, Content;
  }

  /** Setting the size of one inode changes what is visible of it, and nothing of the others. */
  lemma ResizeContent(sb: Super, fs: Fs, i: nat, size: nat)
    requires Shape(sb, fs) && i < |fs.inodes| && FilesFit(fs.inodes) && size <= MAXFILE * BSIZE
    ensures var fs' := fs.(inodes := fs.inodes[i := fs.inodes[i].(size := size)]);
            && Shape(sb, fs') && FilesFit(fs'.inodes)
            && Content(sb, fs', i) == seq(size, o requires 0 <= o < size => ByteAt(sb, fs, i, o))
            && (forall j: nat :: j < |fs.inodes| && j != i ==> Content(sb, fs', j) == Content(sb, fs, j))
  {
    var fs' := fs.(inodes := fs.inodes[i := fs.inodes[i].(size := size)]);
    assert Shape(sb, fs');
    forall j: nat, o: nat | j < |fs.inodes| && o < MAXFILE * BSIZE
      ensures ByteAt(sb, fs', j, o) == ByteAt(sb, fs, j, o)
    {
      assert RefAt(sb, fs', j, SlotOf(o / BSIZE)) == RefAt(sb, fs, j, SlotOf(o / BSIZE));
    }
    hide ByteAt, RefAt;
    forall j: nat | j < |fs.inodes| && j != i
      ensures Content(sb, fs', j) == Content(sb, fs, j)
    {
    }
  }

  lemma SplicedContent(sb: Super, fs0: Fs, fs1: Fs, i: nat, off: nat, src: seq<Byte>, size: nat)
    requires Inv(sb, fs0) && Wrote(sb, fs0, fs1, i, off, src) && FilesFit(fs0.inodes) && off <= fs0.inodes[i].size
    requires size == if off + |src| > fs1.inodes[i].size then off + |src| else fs1.inodes[i].size
    ensures size <= MAXFILE * BSIZE
    ensures seq(size, o requires 0 <= o < size => ByteAt(sb, fs1, i, o)) == Spliced(Content(sb, fs0, i), off, src)
  {
    hide Inv, RefAt, ByteAt, Allocated;
    var c, want := Content(sb, fs0, i), Spliced(Content(sb, fs0, i), off, src);
    forall o: nat | o < size
      ensures ByteAt(sb, fs1, i, o) == want[o]
    {
      if o < off || off + |src| <= o {
        BelowSizeAllocated(sb, fs0, i, o);
        assert SameByte(sb, fs0, fs1, i, o);
      }
    }
  }

  lemma OthersKept(sb: Super, fs0: Fs, fs1: Fs, i: nat, off: nat, src: seq<Byte>)
    requires Inv(sb, fs0) && Wrote(sb, fs0, fs1, i, off, src) && FilesFit(fs0.inodes) && FilesFit(fs1.inodes)
    ensures OthersSame(sb, fs0, fs1, i)
  {
    hide Inv, RefAt, ByteAt, Allocated;
    forall j: nat | j < |fs0.inodes| && j != i
      ensures Content(sb, fs1, j) == Content(sb, fs0, j)
    {
      forall o: nat | o < fs0.inodes[j].size
        ensures ByteAt(sb, fs1, j, o) == ByteAt(sb, fs0, j, o)
      {
        BelowSizeAllocated(sb, fs0, j, o);
        assert SameByte(sb, fs0, fs1, j, o);
      }
    }
  }

  /** Every block below the new size has been allocated by the write or was before. */
  lemma ResizeKeeps(sb: Super, fs0: Fs, fs1: Fs, i: nat, off: nat, src: seq<Byte>, size: nat)
    requires Inv(sb, fs0) && Inv(sb, fs1) && Wrote(sb, fs0, fs1, i, off, src) && FilesFit(fs0.inodes)
    requires off <= fs0.inodes[i].size
        && size == if off + |src| > fs1.inodes[i].size then off + |src| else fs1.inodes[i].size
    ensures Inv(sb, fs1.(inodes := fs1.inodes[i := fs1.inodes[i].(size := size)]))
  {
    var fs2 := fs1.(inodes := fs1.inodes[i := fs1.inodes[i].(size := size)]);
    forall j: nat, k: nat | j < |fs1.inodes| && k < SLOTS
      ensures RefAt(sb, fs2, j, k) == RefAt(sb, fs1, j, k)
    {
    }
    forall j | 0 <= j < |fs1.inodes|
      ensures SizeOk(sb, fs2, j)
    {
      assert SizeOk(sb, fs1, j);
      hide RefAt;
      forall bn: nat | bn < MAXFILE && bn * BSIZE < fs2.inodes[j].size
        ensures RefAt(sb, fs2, j, SlotOf(bn)) != 0
      {
        if j == i && bn * BSIZE >= fs1.inodes[j].size {
          assert Allocated(sb, fs1, i, bn * BSIZE);
          assert bn * BSIZE / BSIZE == bn;
        }
        assert RefAt(sb, fs2, j, SlotOf(bn)) == RefAt(sb, fs1, j, SlotOf(bn));
      }
    }
    hide RefAt, Marked, SizeOk;
    SameBlocksOk(sb, fs1, fs2, 0);
  }

  /** Every block that changed is logged, and so is the block of inode i if its in-memory copy changed and
      the call came to its end; no other inode changed. */
  ghost predicate Logged(sb: Super, fs: Fs, fs': Fs, log: set<nat>, i: nat, ended: bool) {
    && Covers(fs.disk, fs'.disk, log)
    && i < |fs.inodes| == |fs'.inodes| && fs'.inodes == fs.inodes[i := fs'.inodes[i]]
    && (ended && fs'.inodes[i] != fs.inodes[i] ==> sb.IBlock(i) in log)
  }

  lemma LoggedNothing(sb: Super, fs: Fs, i: nat)
    requires i < |fs.inodes|
    ensures Logged(sb, fs, fs, AllLogged([]), i, true)
  {
  }

  lemma LogsFacts(sb: Super, fs: Fs, log0: set<nat>, fs': Fs, log: set<nat>, i: nat)
    requires Logs(fs, log0, fs', log, i)
    ensures Logged(sb, fs, fs', log, i, false) && log0 <= log
    ensures i < |fs.inodes| == |fs'.inodes| && fs'.inodes[i].size == fs.inodes[i].size
  {
  }

  lemma LoggedSize(sb: Super, fs: Fs, fs1: Fs, log: set<nat>, fs': Fs, i: nat)
    requires Logged(sb, fs, fs1, log, i, false) && i < |fs1.inodes| == |fs'.inodes|
    requires fs'.inodes == fs1.inodes[i := fs'.inodes[i]] && fs'.disk == fs1.disk
    ensures Logged(sb, fs, fs', log + {sb.IBlock(i)}, i, true)
  {
    assert fs.inodes[i := fs1.inodes[i]][i := fs'.inodes[i]] == fs.inodes[i := fs'.inodes[i]];
  }

  lemma LoggedSame(sb: Super, fs: Fs, fs': Fs, log: set<nat>, i: nat)
    requires Logged(sb, fs, fs', log, i, false) && i < |fs.inodes| && Filling(sb, fs, fs', i, {}, true)
    requires i < |fs'.inodes| && fs'.inodes[i].size == fs.inodes[i].size
    ensures Logged(sb, fs, fs', log, i, true)
  {
    SameInode(sb, fs, fs', i);
  }

  /** All that the transactions logged. */
  ghost function AllLogged(ops: seq<set<nat>>): set<nat> {
    if ops == [] then {} else AllLogged(ops[..|ops| - 1]) + ops[|ops| - 1]
  }

  lemma LoggedMore(sb: Super, fs: Fs, fs1: Fs, fs2: Fs, ops: seq<set<nat>>, log: set<nat>, i: nat)
    requires Logged(sb, fs, fs1, AllLogged(ops), i, true) && Logged(sb, fs1, fs2, log, i, true)
    ensures Logged(sb, fs, fs2, AllLogged(ops + [log]), i, true)
  {
    assert (ops + [log])[..|ops|] == ops;
    assert fs.inodes[i := fs1.inodes[i]][i := fs2.inodes[i]] == fs.inodes[i := fs2.inodes[i]];
  }

  /** Every transaction logged at most MAXOPBLOCKS blocks. */
  ghost predicate WithinBudget(ops: seq<set<nat>>) {
    forall k :: 0 <= k < |ops| ==> |ops[k]| <= MAXOPBLOCKS
  }

  lemma BudgetStart()
    ensures WithinBudget([])
  {
  }

  lemma BudgetStep(ops: seq<set<nat>>, s: set<nat>)
    requires WithinBudget(ops) && |s| <= MAXOPBLOCKS
    ensures WithinBudget(ops + [s])
  {
  }

  lemma WithinTally(a: set<nat>, t: set<nat>)
    requires a <= {} + t && |t| <= MAXOPBLOCKS
    ensures |a| <= MAXOPBLOCKS
  {
    assert t == a + (t - a);
  }

  lemma ContentLength(sb: Super, fs: Fs, i: nat)
    requires Shape(sb, fs) && i < |fs.inodes| && fs.inodes[i].size <= MAXFILE * BSIZE
    ensures |Content(sb, fs, i)| == fs.inodes[i].size
  {
  }

  /** fs' is fs with `src` written to file i from position off and every other file the same; with
      nothing written, it is fs. */
  ghost predicate WroteFile(sb: Super, fs: Fs, fs': Fs, i: nat, off: nat, src: seq<Byte>) {
    && OthersSame(sb, fs, fs', i) && i < |fs.inodes|
    && if src == [] then fs' == fs
       else off <= |Content(sb, fs, i)| && Content(sb, fs', i) == Spliced(Content(sb, fs, i), off, src)
  }

  lemma WroteFileEnd(sb: Super, fs: Fs, fs': Fs, i: nat, off: nat, src: seq<Byte>)
    requires WroteFile(sb, fs, fs', i, off, src)
    ensures OthersSame(sb, fs, fs', i)
  {
  }

  /** How many bytes filewrite gets in before a chunk is refused: none past the end of the file, all
      when they fit the largest file, else as many whole chunks as fit it. */
  function Writable(size: nat, foff: nat, n: nat): nat {
    if foff > size || foff > MAXFILE * BSIZE then 0
    else if foff + n <= MAXFILE * BSIZE then n
    else (MAXFILE * BSIZE - foff) / MAX_CHUNK * MAX_CHUNK
  }

  /** The next chunk is refused exactly when that many are written, and does not pass it else. */
  lemma RoomStep(size: nat, foff: nat, n: nat, done: nat)
    requires done < n && done % MAX_CHUNK == 0
    requires done > 0 ==> foff <= size && foff + done <= MAXFILE * BSIZE
    ensures var n1 := if n - done > MAX_CHUNK then MAX_CHUNK else n - done;
            if (done == 0 && foff > size) || foff + done + n1 > MAXFILE * BSIZE then Writable(size, foff, n) == done
            else done + n1 <= Writable(size, foff, n)
  {
    if foff <= size && foff + done <= MAXFILE * BSIZE < foff + n {
      WholeChunks(MAXFILE * BSIZE - foff, done);
    }
  }

  lemma WholeChunks(room: nat, done: nat)
    requires done % MAX_CHUNK == 0 && done <= room
    ensures if done + MAX_CHUNK > room then room / MAX_CHUNK * MAX_CHUNK == done
            else room / MAX_CHUNK * MAX_CHUNK >= done + MAX_CHUNK
  {
    assert MAX_CHUNK == 1536;
    var d, q := done / 1536, room / 1536;
    assert done == 1536 * d && room == 1536 * q + room % 1536;
  }

  lemma RoomEnd(size: nat, foff: nat, n: nat)
    requires n > 0 ==> foff <= size && foff + n <= MAXFILE * BSIZE
    ensures Writable(size, foff, n) == n
  {
  }

  lemma SizeFits(inodes: seq<Inode>, i: nat)
    requires FilesFit(inodes) && i < |inodes|
    ensures inodes[i].size <= MAXFILE * BSIZE
  {
  }

  lemma SplicedLength(c: seq<Byte>, off: nat, src: seq<Byte>)
    requires off <= |c|
    ensures |Spliced(c, off, src)| == if off + |src| < |c| then |c| else off + |src|
  {
  }

  lemma WroteFileStart(sb: Super, fs: Fs, i: nat, off: nat)
    requires Inv(sb, fs) && i < |fs.inodes|
    ensures WroteFile(sb, fs, fs, i, off, [])
  {
    SizesFit(sb, fs);
    hide Content;
  }

  lemma WroteFileStep(sb: Super, a: Fs, b: Fs, c: Fs, i: nat, off: nat, p: seq<Byte>, q: seq<Byte>)
    requires WroteFile(sb, a, b, i, off, p) && OthersSame(sb, b, c, i) && q != []
    requires off + |p| <= |Content(sb, b, i)| && Content(sb, c, i) == Spliced(Content(sb, b, i), off + |p|, q)
    ensures WroteFile(sb, a, c, i, off, p + q)
  {
    OthersSameTrans(sb, a, b, c, i);
    hide Content;
    if p == [] {
      assert p + q == q;
    } else {
      SplicedTwice(Content(sb, a, i), off, p, q);
    }
  }

  /** Splicing in two consecutive pieces is splicing in the whole. */
  lemma SplicedTwice(c: seq<Byte>, off: nat, p: seq<Byte>, q: seq<Byte>)
    requires off <= |c|
    ensures off + |p| <= |Spliced(c, off, p)| && Spliced(Spliced(c, off, p), off + |p|, q) == Spliced(c, off, p + q)
  {
  }
}
