/** Which file systems have room for itrunc in one transaction (xv6-public/fs.c lines 407-435 inside
    begin_op and end_op): it logs the inode's block and one bitmap block for each part of the bitmap
    that the file's blocks fall in. */
module TruncBudget {
  import opened Params
  import opened Blocks
  import opened Bitmap
  import opened Files
  import opened FileCode

  /** How many bitmap blocks speak of data blocks. */
  function DataBitmaps(sb: Super): nat
    requires sb.Valid()
  {
    if sb.datastart == sb.size then 0 else (sb.size - 1) / BPB - sb.datastart / BPB + 1
  }

  lemma {:induction false} RangeSize(s: set<nat>, lo: nat, n: nat)
    requires forall x :: x in s ==> lo <= x < lo + n
    ensures |s| <= n
  {
    if n == 0 {
      assert s == {};
    } else {
      RangeSize(s - {lo + n - 1}, lo, n - 1);
    }
  }

  /** itrunc never logs more than these and the inode's block. */
  lemma TruncWithin(sb: Super, fs: Fs, i: nat)
    requires Inv(sb, fs) && i < |fs.inodes|
    ensures |TruncLog(sb, fs, i)| <= DataBitmaps(sb) + 1
  {
    var maps, lo := BitmapOf(sb, BlocksOf(fs.owner, i)), FirstBitmap(sb);
    forall x | x in maps ensures lo <= x < lo + DataBitmaps(sb) {
      var b :| b in BlocksOf(fs.owner, i) && x == sb.BBlock(b);
      assert OwnerOk(sb, fs, b);
      BitmapRange(sb, b);
    }
    hide Inv, DataBitmaps, FirstBitmap;
    RangeSize(maps, lo, DataBitmaps(sb));
    UnionSize(maps, {sb.IBlock(i)});
  }

  function FirstBitmap(sb: Super): nat {
    sb.datastart / BPB + sb.bmapstart
  }

  lemma BitmapRange(sb: Super, b: nat)
    requires sb.Valid() && sb.datastart <= b < sb.size
    ensures FirstBitmap(sb) <= sb.BBlock(b) < FirstBitmap(sb) + DataBitmaps(sb)
  {
  }

  // ---------------------------------------------------------------- a file that needs them all

  /** A data block in the k-th of those parts of the bitmap. */
  function Spread(sb: Super, k: nat): nat {
    if k == 0 then sb.datastart else (sb.datastart / BPB + k) * BPB
  }

  lemma SpreadOk(sb: Super, k: nat)
    requires sb.Valid() && k < DataBitmaps(sb)
    ensures sb.datastart <= Spread(sb, k) < sb.size && sb.BBlock(Spread(sb, k)) == FirstBitmap(sb) + k
  {
  }

  function MarkFirst(sb: Super, disk: seq<Block>, n: nat): (d: seq<Block>)
    requires sb.Valid() && |disk| == sb.size && n <= sb.size
    ensures |d| == sb.size
  {
    if n == 0 then disk else Mark(sb, MarkFirst(sb, disk, n - 1), n - 1)
  }

  lemma {:induction false} FirstMarked(sb: Super, disk: seq<Block>, n: nat, c: nat)
    requires sb.Valid() && |disk| == sb.size && n <= sb.size && c < sb.size
    ensures Marked(sb, MarkFirst(sb, disk, n), c) <==> c < n || Marked(sb, disk, c)
  {
    if n > 0 {
      FirstMarked(sb, disk, n - 1, c);
      hide Marked, Mark;
      MarkedAfter(sb, MarkFirst(sb, disk, n - 1), n - 1, c);
    }
  }

  /** The first k spread blocks are allocated and are the first k direct blocks of inode 0. */
  ghost predicate Built(sb: Super, fs: Fs, k: nat) {
    Inv(sb, fs) && Slots(fs, k) && Marks(sb, fs) && Spreads(sb, fs.owner, k)
  }

  ghost predicate Slots(fs: Fs, k: nat) {
    && |fs.inodes| == 1 && |fs.inodes[0].addrs| == NDIRECT + 1
    && forall j :: k <= j <= NDIRECT ==> fs.inodes[0].addrs[j] == 0
  }

  ghost predicate Marks(sb: Super, fs: Fs) {
    && sb.Valid() && |fs.disk| == sb.size
    && forall c: nat :: c < sb.size ==> (Marked(sb, fs.disk, c) <==> c < sb.datastart || c in fs.owner)
  }

  ghost predicate Spreads(sb: Super, owner: map<nat, (nat, nat)>, k: nat) {
    && (forall j: nat :: j < k ==> Spread(sb, j) in owner)
    && (forall b :: b in owner ==> owner[b].0 == 0 && exists j: nat :: j < k && b == Spread(sb, j))
  }

  lemma NextFree(sb: Super, owner: map<nat, (nat, nat)>, k: nat)
    requires sb.Valid() && Spreads(sb, owner, k) && k < DataBitmaps(sb)
    ensures Spread(sb, k) !in owner && Spreads(sb, owner[Spread(sb, k) := (0, k)], k + 1)
  {
    SpreadOk(sb, k);
    forall j: nat | j < k ensures Spread(sb, k) != Spread(sb, j) {
      SpreadOk(sb, j);
    }
    hide Spread;
    var owner' := owner[Spread(sb, k) := (0, k)];
    forall b | b in owner' ensures exists j: nat :: j < k + 1 && b == Spread(sb, j) {
      if b != Spread(sb, k) {
        var j: nat :| j < k && b == Spread(sb, j);
      }
    }
  }

  lemma FreshMarks(sb: Super, c: nat)
    requires sb.Valid() && c < sb.size
    ensures Marked(sb, FreshDisk(sb), c) <==> c < sb.datastart
  {
    var zeros := seq(sb.size, _ => ZERO_BLOCK);
    FirstMarked(sb, zeros, sb.datastart, c);
    ZeroBits(c % BPB);
  }

  function FreshDisk(sb: Super): (d: seq<Block>)
    requires sb.Valid()
    ensures |d| == sb.size
  {
    MarkFirst(sb, seq(sb.size, _ => ZERO_BLOCK), sb.datastart)
  }

  lemma BuiltNone(sb: Super) returns (fs: Fs)
    requires sb.Valid()
    ensures Built(sb, fs, 0)
  {
    hide Marked, FreshDisk, Spread, OwnerOk, Inv;
    var disk := FreshDisk(sb);
    forall c: nat | c < sb.size ensures Marked(sb, disk, c) <==> c < sb.datastart {
      FreshMarks(sb, c);
    }
    var inodes := [Inode(0, seq(NDIRECT + 1, _ => 0))];
    EmptyOk(sb, disk, inodes);
    fs := Fs(disk, inodes, map[]);
  }

  lemma ZeroBits(j: nat)
    requires j < BPB
    ensures !BlockBit(ZERO_BLOCK, j)
  {
    NoBits(j % 8);
  }

  lemma {:induction false} NoBits(k: nat)
    ensures !BitOn(0, k)
  {
    if k > 0 {
      NoBits(k - 1);
    }
  }

  lemma BuildOne(sb: Super, fs: Fs, k: nat) returns (fs': Fs)
    requires sb.Valid() && Built(sb, fs, k) && k < NDIRECT && k < DataBitmaps(sb)
    ensures Built(sb, fs', k + 1)
  {
    var b := Spread(sb, k);
    SpreadOk(sb, k);
    NextFree(sb, fs.owner, k);
    var fs1 := TakeBlock(sb, fs, k, b);
    fs' := PutBlock(sb, fs1, k, b);
  }

  lemma TakeBlock(sb: Super, fs: Fs, k: nat, b: nat) returns (fs': Fs)
    requires Inv(sb, fs) && Slots(fs, k) && Marks(sb, fs) && sb.datastart <= b < sb.size && b !in fs.owner
    ensures Inv(sb, fs') && Slots(fs', k) && fs'.owner == fs.owner && Loose(sb, fs', b)
    ensures forall c: nat :: c < sb.size ==> (Marked(sb, fs'.disk, c) <==> c < sb.datastart || c == b || c in fs.owner)
  {
    AllocKeeps(sb, fs, b);
    AllocMarks(sb, fs.disk, b);
    hide Marked, Alloc, RefAt, Owns, SizeOk, OwnerOk, Extends;
    fs' := fs.(disk := Alloc(sb, fs.disk, b));
  }

  lemma PutBlock(sb: Super, fs: Fs, k: nat, b: nat) returns (fs': Fs)
    requires Inv(sb, fs) && Slots(fs, k) && Loose(sb, fs, b) && k < NDIRECT
    requires forall c: nat :: c < sb.size ==> (Marked(sb, fs.disk, c) <==> c < sb.datastart || c == b || c in fs.owner)
    ensures Inv(sb, fs') && Slots(fs', k + 1) && Marks(sb, fs') && fs'.owner == fs.owner[b := (0, k)]
  {
    assert RefAt(sb, fs, 0, k) == 0;
    hide Marked, RefAt, Owns, SizeOk, OwnerOk, Extends;
    LinkDirectKeeps(sb, fs, 0, k, b);
    fs' := LinkDirect(fs, 0, k, b);
  }

  lemma {:induction false} Build(sb: Super, k: nat) returns (fs: Fs)
    requires sb.Valid() && k <= NDIRECT && k <= DataBitmaps(sb)
    ensures Built(sb, fs, k)
  {
    hide Built;
    if k == 0 {
      fs := BuiltNone(sb);
    } else {
      fs := Build(sb, k - 1);
      fs := BuildOne(sb, fs, k - 1);
    }
  }

  lemma {:induction false} RangeIn(s: set<nat>, lo: nat, n: nat)
    requires forall x: nat :: lo <= x < lo + n ==> x in s
    ensures |s| >= n
  {
    if n > 0 {
      RangeIn(s - {lo + n - 1}, lo, n - 1);
    }
  }

  /** The file built of k blocks makes itrunc log k bitmap blocks besides the inode's block. */
  lemma BuiltLogs(sb: Super, fs: Fs, k: nat)
    requires sb.Valid() && Built(sb, fs, k) && k <= DataBitmaps(sb) && sb.inodestart < sb.bmapstart
    ensures |fs.inodes| == 1 && |TruncLog(sb, fs, 0)| > k
  {
    var maps, lo := BitmapOf(sb, BlocksOf(fs.owner, 0)), FirstBitmap(sb);
    assert |fs.inodes| == 1;
    hide Inv, Slots, Marks, BitmapOf, BlocksOf, FirstBitmap;
    forall x: nat | lo <= x < lo + k ensures x in maps {
      SpreadMap(sb, fs.owner, k, x - lo);
    }
    RangeIn(maps, lo, k);
    NotBitmap(sb, BlocksOf(fs.owner, 0));
  }

  lemma SpreadMap(sb: Super, owner: map<nat, (nat, nat)>, k: nat, j: nat)
    requires sb.Valid() && Spreads(sb, owner, k) && j < k <= DataBitmaps(sb)
    ensures FirstBitmap(sb) + j in BitmapOf(sb, BlocksOf(owner, 0))
  {
    SpreadOk(sb, j);
    hide Spread, DataBitmaps, FirstBitmap;
    assert Spread(sb, j) in BlocksOf(owner, 0);
  }

  lemma NotBitmap(sb: Super, blocks: set<nat>)
    requires sb.inodestart < sb.bmapstart
    ensures |BitmapOf(sb, blocks) + {sb.IBlock(0)}| == |BitmapOf(sb, blocks)| + 1
  {
    assert sb.IBlock(0) !in BitmapOf(sb, blocks);
  }

  ghost predicate TruncFits(sb: Super) {
    forall fs, i: nat :: Inv(sb, fs) && i < |fs.inodes| ==> |TruncLog(sb, fs, i)| <= MAXOPBLOCKS
  }

  /** Exactly: with the inodes before the bitmap, as mkfs lays them out, itrunc of every file stays
      within MAXOPBLOCKS if and only if fewer than MAXOPBLOCKS bitmap blocks speak of data blocks. */
  lemma TruncFitsExactly(sb: Super)
    requires sb.Valid() && sb.inodestart < sb.bmapstart
    ensures TruncFits(sb) <==> DataBitmaps(sb) < MAXOPBLOCKS
  {
    hide Inv, TruncLog, DataBitmaps;
    if DataBitmaps(sb) < MAXOPBLOCKS {
      forall fs, i: nat | Inv(sb, fs) && i < |fs.inodes| ensures |TruncLog(sb, fs, i)| <= MAXOPBLOCKS {
        TruncWithin(sb, fs, i);
      }
    } else {
      var fs := Build(sb, MAXOPBLOCKS);
      BuiltLogs(sb, fs, MAXOPBLOCKS);
    }
  }
}
