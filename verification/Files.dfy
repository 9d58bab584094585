/** Inodes, their block maps and their bytes (xv6-public/fs.c), as values: what the steps of
    balloc, bfree, bmap, itrunc, readi and writei keep true of the disk. `owner` records, for each
    block some inode refers to, the one slot that refers to it. */
module Files {
  import opened Blocks
  import opened Bitmap
  import opened Params

  const NDIRECT := 12
  const NINDIRECT := WORDS
  const MAXFILE := NDIRECT + NINDIRECT
  const SLOTS := NDIRECT + 1 + NINDIRECT
  const IPB := 8

  /** Superblock: bitmap and inode blocks lie below datastart. */
  datatype Super = Super(size: nat, inodestart: nat, bmapstart: nat, datastart: nat)
  {
    predicate Valid() {
      0 < datastart <= size <= UINT_LIMIT && bmapstart + (size - 1) / BPB < datastart
    }
    function BBlock(b: nat): nat { b / BPB + bmapstart }
    function IBlock(i: nat): nat { i / IPB + inodestart }
  }

  datatype Inode = Inode(size: nat, addrs: seq<Word32>)

  /** owner[b] == (i, k): slot k of inode i refers to block b. */
  datatype Fs = Fs(disk: seq<Block>, inodes: seq<Inode>, owner: map<nat, (nat, nat)>)

  // ---------------------------------------------------------------- bitmap

  predicate Marked(sb: Super, disk: seq<Block>, b: nat)
    requires sb.Valid() && |disk| == sb.size && b < sb.size
  {
    BlockBit(disk[sb.BBlock(b)], b % BPB)
  }

  function Mark(sb: Super, disk: seq<Block>, b: nat): seq<Block>
    requires sb.Valid() && |disk| == sb.size && b < sb.size
  {
    disk[sb.BBlock(b) := SetBlockBit(disk[sb.BBlock(b)], b % BPB)]
  }

  function Unmark(sb: Super, disk: seq<Block>, b: nat): seq<Block>
    requires sb.Valid() && |disk| == sb.size && b < sb.size
  {
    disk[sb.BBlock(b) := ClearBlockBit(disk[sb.BBlock(b)], b % BPB)]
  }

  lemma MarkedAfter(sb: Super, disk: seq<Block>, b: nat, c: nat)
    requires sb.Valid() && |disk| == sb.size && b < sb.size && c < sb.size
    ensures Marked(sb, Mark(sb, disk, b), c) <==> c == b || Marked(sb, disk, c)
    ensures Marked(sb, Unmark(sb, disk, b), c) <==> c != b && Marked(sb, disk, c)
  {
    hide BlockBit, SetBlockBit, ClearBlockBit;
    if sb.BBlock(b) == sb.BBlock(c) {
      BlockBits(disk[sb.BBlock(b)], b % BPB, c % BPB);
      assert b == b / BPB * BPB + b % BPB && c == c / BPB * BPB + c % BPB;
    }
  }

  /** Writing a data block touches no bitmap block. */
  lemma MarkedElsewhere(sb: Super, disk: seq<Block>, b: nat, x: Block, c: nat)
    requires sb.Valid() && |disk| == sb.size && sb.datastart <= b < sb.size && c < sb.size
    ensures Marked(sb, disk[b := x], c) <==> Marked(sb, disk, c)
  {
  }

  // ---------------------------------------------------------------- block maps

  /** Slots of an inode: the direct blocks, the indirect block, then its entries. */
  function Ref(disk: seq<Block>, ino: Inode, k: nat): Word32
    requires |ino.addrs| == NDIRECT + 1 && ino.addrs[NDIRECT] < |disk| && k < SLOTS
  {
    if k <= NDIRECT then ino.addrs[k]
    else if ino.addrs[NDIRECT] == 0 then 0
    else Word(disk[ino.addrs[NDIRECT]], k - NDIRECT - 1)
  }

  /** The slot that holds the address of file block bn. */
  function SlotOf(bn: nat): nat {
    if bn < NDIRECT then bn else bn + 1
  }

  ghost predicate Shape(sb: Super, fs: Fs) {
    && sb.Valid() && |fs.disk| == sb.size
    && forall i :: 0 <= i < |fs.inodes| ==> |fs.inodes[i].addrs| == NDIRECT + 1 && fs.inodes[i].addrs[NDIRECT] < sb.size
  }

  ghost function RefAt(sb: Super, fs: Fs, i: nat, k: nat): Word32
    requires Shape(sb, fs) && i < |fs.inodes| && k < SLOTS
  {
    Ref(fs.disk, fs.inodes[i], k)
  }

  ghost predicate OwnerOk(sb: Super, fs: Fs, b: nat)
    requires Shape(sb, fs) && b in fs.owner
  {
    var (i, k) := fs.owner[b];
    && sb.datastart <= b < sb.size && Marked(sb, fs.disk, b)
    && i < |fs.inodes| && k < SLOTS && RefAt(sb, fs, i, k) == b
  }

  /** A slot in use is known to be the owner of its block, so no two slots share one. Entries 0 to
      `gone` of the indirect block of inode `except` are exempt: itrunc frees those one by one. */
  ghost predicate Owns(sb: Super, fs: Fs, except: nat, gone: nat)
    requires Shape(sb, fs)
  {
    forall i: nat, k: nat :: i < |fs.inodes| && k < SLOTS && !(i == except && NDIRECT < k <= NDIRECT + gone) ==>
      RefAt(sb, fs, i, k) != 0 ==> RefAt(sb, fs, i, k) in fs.owner && fs.owner[RefAt(sb, fs, i, k)] == (i, k)
  }

  ghost predicate MetaMarked(sb: Super, disk: seq<Block>)
    requires sb.Valid() && |disk| == sb.size
  {
    forall b: nat :: b < sb.datastart ==> Marked(sb, disk, b)
  }

  ghost predicate BlocksOk(sb: Super, fs: Fs, except: nat, gone: nat) {
    && Shape(sb, fs)
    && MetaMarked(sb, fs.disk)
    && (forall b :: b in fs.owner ==> OwnerOk(sb, fs, b))
    && Owns(sb, fs, except, gone)
  }

  /** Every block below a file's size is allocated. */
  ghost predicate SizeOk(sb: Super, fs: Fs, i: nat)
    requires Shape(sb, fs) && i < |fs.inodes|
  {
    && fs.inodes[i].size <= MAXFILE * BSIZE
    && forall bn: nat :: bn < MAXFILE && bn * BSIZE < fs.inodes[i].size ==> RefAt(sb, fs, i, SlotOf(bn)) != 0
  }

  ghost predicate Inv(sb: Super, fs: Fs) {
    && BlocksOk(sb, fs, 0, 0)
    && forall i :: 0 <= i < |fs.inodes| ==> SizeOk(sb, fs, i)
  }

  /** A disk with only its metadata marked and inodes without blocks is a place to start. */
  lemma EmptyOk(sb: Super, disk: seq<Block>, inodes: seq<Inode>)
    requires sb.Valid() && |disk| == sb.size && MetaMarked(sb, disk)
    requires forall i :: 0 <= i < |inodes| ==> inodes[i] == Inode(0, seq(NDIRECT + 1, _ => 0))
    ensures Inv(sb, Fs(disk, inodes, map[]))
  {
    hide Marked;
    var fs := Fs(disk, inodes, map[]);
    assert Shape(sb, fs);
    forall i: nat, k: nat | i < |inodes| && k < SLOTS ensures RefAt(sb, fs, i, k) == 0 {
    }
  }

  /** Block ownership: the blocks two slots refer to are different, allocated data blocks. */
  lemma BlocksDistinct(sb: Super, fs: Fs, i: nat, k: nat, j: nat, l: nat)
    requires Inv(sb, fs) && i < |fs.inodes| && j < |fs.inodes| && k < SLOTS && l < SLOTS && (i, k) != (j, l)
    requires RefAt(sb, fs, i, k) != 0
    ensures RefAt(sb, fs, i, k) != RefAt(sb, fs, j, l)
    ensures sb.datastart <= RefAt(sb, fs, i, k) < sb.size && Marked(sb, fs.disk, RefAt(sb, fs, i, k))
  {
    assert OwnerOk(sb, fs, RefAt(sb, fs, i, k));
  }

  // ---------------------------------------------------------------- growth

  /** fs' has everything fs has: every slot in use still names the same block, every data block
      has the same contents, every size is the same. */
  ghost predicate Extends(sb: Super, fs: Fs, fs': Fs) {
    && Shape(sb, fs) && Shape(sb, fs') && |fs'.inodes| == |fs.inodes|
    && (forall i :: 0 <= i < |fs.inodes| ==> fs'.inodes[i].size == fs.inodes[i].size)
    && (forall i: nat, k: nat :: i < |fs.inodes| && k < SLOTS && RefAt(sb, fs, i, k) != 0 ==>
          KeepsSlot(sb, fs, fs', i, k))
  }

  ghost predicate KeepsSlot(sb: Super, fs: Fs, fs': Fs, i: nat, k: nat)
    requires Shape(sb, fs) && Shape(sb, fs') && |fs'.inodes| == |fs.inodes| && i < |fs.inodes| && k < SLOTS
  {
    var b := RefAt(sb, fs, i, k);
    RefAt(sb, fs', i, k) == b && b < sb.size && (k != NDIRECT ==> fs'.disk[b] == fs.disk[b])
  }

  lemma ExtendsTrans(sb: Super, a: Fs, b: Fs, c: Fs)
    requires Extends(sb, a, b) && Extends(sb, b, c)
    ensures Extends(sb, a, c)
  {
    forall i: nat, k: nat | i < |a.inodes| && k < SLOTS && RefAt(sb, a, i, k) != 0
      ensures KeepsSlot(sb, a, c, i, k)
    {
      assert KeepsSlot(sb, a, b, i, k);
      assert KeepsSlot(sb, b, c, i, k);
    }
  }

  /** balloc of a free block b. */
  function Alloc(sb: Super, disk: seq<Block>, b: nat): seq<Block>
    requires sb.Valid() && |disk| == sb.size && b < sb.size
  {
    Mark(sb, disk, b)[b := ZERO_BLOCK]
  }

  lemma AllocMarks(sb: Super, disk: seq<Block>, b: nat)
    requires sb.Valid() && |disk| == sb.size && b < sb.size && MetaMarked(sb, disk) && !Marked(sb, disk, b)
    ensures var d := Alloc(sb, disk, b);
            && sb.datastart <= b && d[b] == ZERO_BLOCK
            && (forall x: nat :: sb.datastart <= x < sb.size && x != b ==> d[x] == disk[x])
            && (forall c: nat :: c < sb.size ==> (Marked(sb, d, c) <==> c == b || Marked(sb, disk, c)))
  {
    hide Marked;
    assert sb.datastart <= b;
    var m := Mark(sb, disk, b);
    assert sb.BBlock(b) < sb.datastart;
    forall c: nat | c < sb.size
      ensures Marked(sb, Alloc(sb, disk, b), c) <==> c == b || Marked(sb, disk, c)
    {
      MarkedAfter(sb, disk, b, c);
      MarkedElsewhere(sb, m, b, ZERO_BLOCK, c);
    }
  }

  /** The root of an indirect block is an owned block. */
  lemma RootOwned(sb: Super, fs: Fs, i: nat)
    requires Shape(sb, fs) && Owns(sb, fs, 0, 0) && i < |fs.inodes| && fs.inodes[i].addrs[NDIRECT] != 0
    ensures fs.inodes[i].addrs[NDIRECT] in fs.owner && fs.owner[fs.inodes[i].addrs[NDIRECT]] == (i, NDIRECT)
  {
    assert RefAt(sb, fs, i, NDIRECT) != 0;
  }

  /** A slot's contents depend only on the inode and its indirect block. */
  lemma SameRef(sb: Super, fs: Fs, fs': Fs, b: nat, i: nat, k: nat)
    requires Shape(sb, fs) && Shape(sb, fs') && Owns(sb, fs, 0, 0) && i < |fs.inodes| && k < SLOTS
    requires forall x :: x in fs.owner ==> OwnerOk(sb, fs, x)
    requires |fs'.inodes| == |fs.inodes| && fs'.inodes[i].addrs == fs.inodes[i].addrs
    requires forall x: nat :: sb.datastart <= x < sb.size && x != b ==> fs'.disk[x] == fs.disk[x]
    requires b in fs.owner ==> fs.owner[b].1 != NDIRECT
    ensures RefAt(sb, fs', i, k) == RefAt(sb, fs, i, k)
  {
    if fs.inodes[i].addrs[NDIRECT] != 0 {
      RootOwned(sb, fs, i);
      assert OwnerOk(sb, fs, fs.inodes[i].addrs[NDIRECT]);
    }
  }

  /** Every slot of every inode refers to the same block in both. */
  ghost predicate SameRefs(sb: Super, fs: Fs, fs': Fs) {
    && Shape(sb, fs) && Shape(sb, fs') && |fs'.inodes| == |fs.inodes|
    && (forall i :: 0 <= i < |fs.inodes| ==> fs'.inodes[i].size == fs.inodes[i].size)
    && (forall i: nat, k: nat :: i < |fs.inodes| && k < SLOTS ==> RefAt(sb, fs', i, k) == RefAt(sb, fs, i, k))
  }

  lemma SameRefsInv(sb: Super, fs: Fs, fs': Fs)
    requires Inv(sb, fs) && SameRefs(sb, fs, fs') && fs'.owner == fs.owner
    requires forall c: nat :: c < sb.size && Marked(sb, fs.disk, c) ==> Marked(sb, fs'.disk, c)
    ensures Inv(sb, fs')
  {
    hide RefAt, Marked;
    forall x | x in fs'.owner
      ensures OwnerOk(sb, fs', x)
    {
      assert OwnerOk(sb, fs, x);
      var (i, k) := fs.owner[x];
      assert RefAt(sb, fs', i, k) == RefAt(sb, fs, i, k);
    }
    forall i | 0 <= i < |fs.inodes|
      ensures SizeOk(sb, fs', i)
    {
      assert SizeOk(sb, fs, i) && fs'.inodes[i].size == fs.inodes[i].size;
      forall bn: nat | bn < MAXFILE && bn * BSIZE < fs.inodes[i].size
        ensures RefAt(sb, fs', i, SlotOf(bn)) != 0
      {
        assert RefAt(sb, fs', i, SlotOf(bn)) == RefAt(sb, fs, i, SlotOf(bn));
      }
    }
  }

  /** With the same slots, a step extends if it rewrites at most block b, and b is no data block. */
  lemma SameRefsExtends(sb: Super, fs: Fs, fs': Fs, b: nat)
    requires Inv(sb, fs) && SameRefs(sb, fs, fs')
    requires forall x: nat :: sb.datastart <= x < sb.size && x != b ==> fs'.disk[x] == fs.disk[x]
    requires b in fs.owner ==> fs.owner[b].1 == NDIRECT
    ensures Extends(sb, fs, fs')
  {
    hide RefAt, Marked;
    forall i: nat, k: nat | i < |fs.inodes| && k < SLOTS && RefAt(sb, fs, i, k) != 0
      ensures KeepsSlot(sb, fs, fs', i, k)
    {
      assert OwnerOk(sb, fs, RefAt(sb, fs, i, k));
    }
  }

  /** Allocating a free block disturbs no inode. */
  lemma AllocKeeps(sb: Super, fs: Fs, b: nat)
    requires Inv(sb, fs) && b < sb.size && !Marked(sb, fs.disk, b)
    ensures var fs' := fs.(disk := Alloc(sb, fs.disk, b));
            && Inv(sb, fs') && Extends(sb, fs, fs') && SameRefs(sb, fs, fs')
            && sb.datastart <= b && b !in fs.owner && Marked(sb, fs'.disk, b) && fs'.disk[b] == ZERO_BLOCK
  {
    var fs' := fs.(disk := Alloc(sb, fs.disk, b));
    AllocMarks(sb, fs.disk, b);
    hide Marked, Alloc, Ref;
    forall x | x in fs.owner
      ensures x != b
    {
      assert OwnerOk(sb, fs, x);
    }
    forall i: nat, k: nat | i < |fs.inodes| && k < SLOTS
      ensures RefAt(sb, fs', i, k) == RefAt(sb, fs, i, k)
    {
      SameRef(sb, fs, fs', b, i, k);
    }
    hide RefAt, OwnerOk, Owns, SizeOk, Inv, Extends;
    SameRefsInv(sb, fs, fs');
    SameRefsExtends(sb, fs, fs', b);
  }

  // ---------------------------------------------------------------- linking a new block into a slot

  /** An allocated block that no slot refers to yet. */
  ghost predicate Loose(sb: Super, fs: Fs, b: nat) {
    Shape(sb, fs) && sb.datastart <= b < sb.size && b !in fs.owner && Marked(sb, fs.disk, b) && b < UINT_LIMIT
  }

  /** Slot (i, k), free before, now refers to b; every other slot is as it was. */
  ghost predicate OneNewRef(sb: Super, fs: Fs, fs': Fs, i: nat, k: nat, b: nat) {
    && Shape(sb, fs) && Shape(sb, fs') && |fs'.inodes| == |fs.inodes| && i < |fs.inodes| && k < SLOTS
    && (forall j :: 0 <= j < |fs.inodes| ==> fs'.inodes[j].size == fs.inodes[j].size)
    && RefAt(sb, fs, i, k) == 0 && RefAt(sb, fs', i, k) == b
    && fs'.owner == fs.owner[b := (i, k)]
    && (forall j: nat, l: nat :: j < |fs.inodes| && l < SLOTS && (j, l) != (i, k) ==>
          RefAt(sb, fs', j, l) == RefAt(sb, fs, j, l))
  }

  lemma NewRefInv(sb: Super, fs: Fs, fs': Fs, i: nat, k: nat, b: nat)
    requires Inv(sb, fs) && Loose(sb, fs, b) && OneNewRef(sb, fs, fs', i, k, b)
    requires forall c: nat :: c < sb.size ==> (Marked(sb, fs'.disk, c) <==> Marked(sb, fs.disk, c))
    ensures Inv(sb, fs')
  {
    hide RefAt, Marked;
    forall x | x in fs'.owner
      ensures OwnerOk(sb, fs', x)
    {
      if x != b {
        assert OwnerOk(sb, fs, x);
        var (j, l) := fs.owner[x];
        assert RefAt(sb, fs', j, l) == RefAt(sb, fs, j, l);
      }
    }
    forall j: nat, l: nat | j < |fs.inodes| && l < SLOTS && RefAt(sb, fs', j, l) != 0
      ensures RefAt(sb, fs', j, l) in fs'.owner && fs'.owner[RefAt(sb, fs', j, l)] == (j, l)
    {
      if (j, l) != (i, k) {
        assert RefAt(sb, fs', j, l) == RefAt(sb, fs, j, l);
      }
    }
    forall j | 0 <= j < |fs.inodes|
      ensures SizeOk(sb, fs', j)
    {
      assert SizeOk(sb, fs, j) && fs'.inodes[j].size == fs.inodes[j].size;
      forall bn: nat | bn < MAXFILE && bn * BSIZE < fs.inodes[j].size
        ensures RefAt(sb, fs', j, SlotOf(bn)) != 0
      {
        assert RefAt(sb, fs, j, SlotOf(bn)) != 0;
        assert (j, SlotOf(bn)) != (i, k) ==> RefAt(sb, fs', j, SlotOf(bn)) == RefAt(sb, fs, j, SlotOf(bn));
      }
    }
  }

  lemma NewRefExtends(sb: Super, fs: Fs, fs': Fs, i: nat, k: nat, b: nat, r: nat)
    requires Inv(sb, fs) && OneNewRef(sb, fs, fs', i, k, b)
    requires forall x: nat :: sb.datastart <= x < sb.size && x != r ==> fs'.disk[x] == fs.disk[x]
    requires r in fs.owner ==> fs.owner[r].1 == NDIRECT
    ensures Extends(sb, fs, fs')
  {
    hide RefAt, Marked;
    forall j: nat, l: nat | j < |fs.inodes| && l < SLOTS && RefAt(sb, fs, j, l) != 0
      ensures KeepsSlot(sb, fs, fs', j, l)
    {
      assert OwnerOk(sb, fs, RefAt(sb, fs, j, l));
      assert (j, l) != (i, k) ==> RefAt(sb, fs', j, l) == RefAt(sb, fs, j, l);
    }
  }

  /** bmap storing a new block in the inode: ip->addrs[k] = b. */
  function LinkDirect(fs: Fs, i: nat, k: nat, b: Word32): Fs
    requires i < |fs.inodes| && k < |fs.inodes[i].addrs|
  {
    fs.(inodes := fs.inodes[i := fs.inodes[i].(addrs := fs.inodes[i].addrs[k := b])], owner := fs.owner[b := (i, k)])
  }

  lemma LinkDirectKeeps(sb: Super, fs: Fs, i: nat, k: nat, b: Word32)
    requires Inv(sb, fs) && Loose(sb, fs, b) && i < |fs.inodes| && k <= NDIRECT && RefAt(sb, fs, i, k) == 0
    requires k == NDIRECT ==> fs.disk[b] == ZERO_BLOCK
    ensures Inv(sb, LinkDirect(fs, i, k, b)) && Extends(sb, fs, LinkDirect(fs, i, k, b))
    ensures OneNewRef(sb, fs, LinkDirect(fs, i, k, b), i, k, b)
  {
    hide Word, Marked, Owns, SizeOk, OwnerOk, MetaMarked;
    var fs' := LinkDirect(fs, i, k, b);
    assert OneNewRef(sb, fs, fs', i, k, b) by {
      forall j: nat, l: nat | j < |fs.inodes| && l < SLOTS && (j, l) != (i, k)
        ensures RefAt(sb, fs', j, l) == RefAt(sb, fs, j, l)
      {
        LinkDirectRef(sb, fs, i, k, b, j, l);
      }
    }
    assert RefAt(sb, fs', i, k) == b;
    hide *;
    NewRefInv(sb, fs, fs', i, k, b);
    NewRefExtends(sb, fs, fs', i, k, b, b);
  }

  lemma LinkDirectRef(sb: Super, fs: Fs, i: nat, k: nat, b: Word32, j: nat, l: nat)
    requires Shape(sb, fs) && b < sb.size && i < |fs.inodes| && k <= NDIRECT && RefAt(sb, fs, i, k) == 0
    requires k == NDIRECT ==> fs.disk[b] == ZERO_BLOCK
    requires j < |fs.inodes| && l < SLOTS && (j, l) != (i, k)
    ensures Shape(sb, LinkDirect(fs, i, k, b)) && RefAt(sb, LinkDirect(fs, i, k, b), j, l) == RefAt(sb, fs, j, l)
  {
    hide Word;
    if l > NDIRECT {
      ZeroBlockWords(l - NDIRECT - 1);
    }
  }

  /** bmap storing a new block in the indirect block: a[e] = b. */
  function LinkIndirect(fs: Fs, i: nat, e: nat, b: Word32): Fs
    requires i < |fs.inodes| && |fs.inodes[i].addrs| == NDIRECT + 1 && fs.inodes[i].addrs[NDIRECT] < |fs.disk|
    requires e < NINDIRECT
  {
    var r := fs.inodes[i].addrs[NDIRECT];
    fs.(disk := fs.disk[r := SetWord(fs.disk[r], e, b)], owner := fs.owner[b := (i, NDIRECT + 1 + e)])
  }

  lemma LinkIndirectKeeps(sb: Super, fs: Fs, i: nat, e: nat, b: Word32)
    requires Inv(sb, fs) && Loose(sb, fs, b) && i < |fs.inodes| && e < NINDIRECT
    requires fs.inodes[i].addrs[NDIRECT] != 0 && RefAt(sb, fs, i, NDIRECT + 1 + e) == 0
    ensures Inv(sb, LinkIndirect(fs, i, e, b)) && Extends(sb, fs, LinkIndirect(fs, i, e, b))
    ensures OneNewRef(sb, fs, LinkIndirect(fs, i, e, b), i, NDIRECT + 1 + e, b)
  {
    var r := fs.inodes[i].addrs[NDIRECT];
    var fs' := LinkIndirect(fs, i, e, b);
    RootOwned(sb, fs, i);
    assert OwnerOk(sb, fs, r);
    assert OneNewRef(sb, fs, fs', i, NDIRECT + 1 + e, b) by {
      hide Word, Marked, Owns, SizeOk, MetaMarked, RefAt;
      forall j: nat, l: nat | j < |fs.inodes| && l < SLOTS
        ensures RefAt(sb, fs', j, l) == if (j, l) == (i, NDIRECT + 1 + e) then b else RefAt(sb, fs, j, l)
      {
        LinkIndirectRef(sb, fs, i, e, b, j, l);
      }
    }
    hide Word, SetWord;
    forall c: nat | c < sb.size
      ensures Marked(sb, fs'.disk, c) <==> Marked(sb, fs.disk, c)
    {
      MarkedElsewhere(sb, fs.disk, r, fs'.disk[r], c);
    }
    hide *;
    NewRefInv(sb, fs, fs', i, NDIRECT + 1 + e, b);
    NewRefExtends(sb, fs, fs', i, NDIRECT + 1 + e, b, r);
  }

  lemma LinkIndirectRef(sb: Super, fs: Fs, i: nat, e: nat, b: Word32, j: nat, l: nat)
    requires Shape(sb, fs) && Owns(sb, fs, 0, 0) && i < |fs.inodes| && e < NINDIRECT && fs.inodes[i].addrs[NDIRECT] != 0
    requires j < |fs.inodes| && l < SLOTS
    ensures Shape(sb, LinkIndirect(fs, i, e, b))
    ensures RefAt(sb, LinkIndirect(fs, i, e, b), j, l) == if (j, l) == (i, NDIRECT + 1 + e) then b
        else RefAt(sb, fs, j, l)
  {
    RootOwned(sb, fs, i);
    WordOfSetWord(fs.disk[fs.inodes[i].addrs[NDIRECT]], e, b);
    if j != i && fs.inodes[j].addrs[NDIRECT] != 0 {
      RootOwned(sb, fs, j);
    }
    hide Word, SetWord, Owns;
  }

  // ---------------------------------------------------------------- bytes

  /** Byte o of inode i, 0 where no block is allocated. */
  ghost function ByteAt(sb: Super, fs: Fs, i: nat, o: nat): Byte
    requires Shape(sb, fs) && i < |fs.inodes| && o < MAXFILE * BSIZE
  {
    var b := RefAt(sb, fs, i, SlotOf(o / BSIZE));
    if b == 0 || b >= sb.size then 0 else fs.disk[b][o % BSIZE]
  }

  /** The file as its readers see it. */
  ghost function Content(sb: Super, fs: Fs, i: nat): seq<Byte>
    requires Shape(sb, fs) && i < |fs.inodes| && fs.inodes[i].size <= MAXFILE * BSIZE
  {
    seq(fs.inodes[i].size, o requires 0 <= o < fs.inodes[i].size => ByteAt(sb, fs, i, o))
  }

  ghost predicate Allocated(sb: Super, fs: Fs, i: nat, o: nat)
    requires Shape(sb, fs) && i < |fs.inodes| && o < MAXFILE * BSIZE
  {
    RefAt(sb, fs, i, SlotOf(o / BSIZE)) != 0
  }

  lemma BelowSizeAllocated(sb: Super, fs: Fs, i: nat, o: nat)
    requires Inv(sb, fs) && i < |fs.inodes| && o < MAXFILE * BSIZE && o / BSIZE * BSIZE < fs.inodes[i].size
    ensures Allocated(sb, fs, i, o)
  {
    assert SizeOk(sb, fs, i);
    hide RefAt, BlocksOk;
    assert o / BSIZE < MAXFILE;
  }

  /** Growth changes no byte of any allocated block. */
  lemma ExtendsByte(sb: Super, fs: Fs, fs': Fs, i: nat, o: nat)
    requires Inv(sb, fs) && Extends(sb, fs, fs') && i < |fs.inodes| && o < MAXFILE * BSIZE && Allocated(sb, fs, i, o)
    ensures Allocated(sb, fs', i, o) && ByteAt(sb, fs', i, o) == ByteAt(sb, fs, i, o)
  {
    hide RefAt, Inv;
    assert KeepsSlot(sb, fs, fs', i, SlotOf(o / BSIZE));
  }

  /** Growth changes no file. */
  lemma ExtendsContent(sb: Super, fs: Fs, fs': Fs, i: nat)
    requires Inv(sb, fs) && Extends(sb, fs, fs') && i < |fs.inodes|
    ensures fs'.inodes[i].size == fs.inodes[i].size <= MAXFILE * BSIZE
    ensures Content(sb, fs', i) == Content(sb, fs, i)
  {
    assert SizeOk(sb, fs, i);
    hide RefAt, BlocksOk, ByteAt, Allocated;
    forall o: nat | o < fs.inodes[i].size
      ensures ByteAt(sb, fs', i, o) == ByteAt(sb, fs, i, o)
    {
      BelowSizeAllocated(sb, fs, i, o);
      ExtendsByte(sb, fs, fs', i, o);
    }
  }

  /** writei storing contents x in an allocated data block of inode i: only the bytes of that block
      of that inode can change. */
  lemma WriteDataKeeps(sb: Super, fs: Fs, i: nat, bn: nat, x: Block)
    requires Inv(sb, fs) && i < |fs.inodes| && bn < MAXFILE && RefAt(sb, fs, i, SlotOf(bn)) != 0
    ensures var b := RefAt(sb, fs, i, SlotOf(bn));
            && sb.datastart <= b < sb.size
            && var fs' := fs.(disk := fs.disk[b := x]);
               && Inv(sb, fs') && SameRefs(sb, fs, fs')
               && (forall j: nat, o: nat :: j < |fs.inodes| && o < MAXFILE * BSIZE && !(j == i && o / BSIZE == bn)
                     ==> ByteAt(sb, fs', j, o) == ByteAt(sb, fs, j, o))
  {
    var k := SlotOf(bn);
    var b := RefAt(sb, fs, i, k);
    assert b in fs.owner && fs.owner[b] == (i, k);
    assert OwnerOk(sb, fs, b);
    var fs' := fs.(disk := fs.disk[b := x]);
    forall j: nat, l: nat | j < |fs.inodes| && l < SLOTS
      ensures RefAt(sb, fs', j, l) == RefAt(sb, fs, j, l)
    {
      SameRef(sb, fs, fs', b, j, l);
    }
    forall c: nat | c < sb.size
      ensures Marked(sb, fs'.disk, c) <==> Marked(sb, fs.disk, c)
    {
      MarkedElsewhere(sb, fs.disk, b, x, c);
    }
    hide RefAt, Marked;
    SameRefsInv(sb, fs, fs');
    forall j: nat, o: nat | j < |fs.inodes| && o < MAXFILE * BSIZE && !(j == i && o / BSIZE == bn)
      ensures ByteAt(sb, fs', j, o) == ByteAt(sb, fs, j, o)
    {
      var l := SlotOf(o / BSIZE);
      assert (j, l) != (i, k);
      assert RefAt(sb, fs', j, l) == RefAt(sb, fs, j, l);
    }
  }

  // ---------------------------------------------------------------- truncation

  /** The state inside itrunc of inode i: its size no longer counts, and the first `gone` entries
      of its indirect block are already freed. */
  ghost predicate Truncating(sb: Super, fs: Fs, i: nat, gone: nat) {
    && BlocksOk(sb, fs, i, gone) && i < |fs.inodes| && gone <= NINDIRECT
    && (forall b :: b in fs.owner ==> !(fs.owner[b].0 == i && NDIRECT < fs.owner[b].1 <= NDIRECT + gone))
    && forall j :: 0 <= j < |fs.inodes| && j != i ==> SizeOk(sb, fs, j)
  }

  /** Between fs and fs' only blocks of inode i were freed, each exactly when its owner entry went;
      every other inode keeps its slots and its data. */
  ghost predicate FreedOnly(sb: Super, fs: Fs, fs': Fs, i: nat) {
    && Shape(sb, fs) && Shape(sb, fs') && |fs'.inodes| == |fs.inodes| && i < |fs.inodes|
    && (forall j :: 0 <= j < |fs.inodes| && j != i ==> fs'.inodes[j] == fs.inodes[j])
    && (forall b :: b in fs'.owner ==> b in fs.owner && fs'.owner[b] == fs.owner[b])
    && (forall b :: b in fs.owner && fs.owner[b].0 != i ==> b in fs'.owner)
    && (forall b: nat :: b < sb.size ==>
          (Marked(sb, fs'.disk, b) <==> Marked(sb, fs.disk, b) && !(b in fs.owner && b !in fs'.owner)))
    && (forall b: nat :: sb.datastart <= b < sb.size ==> fs'.disk[b] == fs.disk[b])
  }

  lemma FreedOnlyTrans(sb: Super, a: Fs, b: Fs, c: Fs, i: nat)
    requires FreedOnly(sb, a, b, i) && FreedOnly(sb, b, c, i)
    ensures FreedOnly(sb, a, c, i)
  {
    hide Marked;
  }

  /** bfree of block b, its owner entry going with it, and addrs[k] of inode i cleared when k is one
      of the inode's own slots. */
  function Release(sb: Super, fs: Fs, i: nat, k: nat, b: nat): Fs
    requires sb.Valid() && |fs.disk| == sb.size && b < sb.size && i < |fs.inodes| && |fs.inodes[i].addrs| == NDIRECT + 1
  {
    fs.(disk := Unmark(sb, fs.disk, b),
        inodes := if k <= NDIRECT then fs.inodes[i := fs.inodes[i].(addrs := fs.inodes[i].addrs[k := 0])]
            else fs.inodes,
        owner := fs.owner - {b})
  }

  lemma UnmarkMarks(sb: Super, disk: seq<Block>, b: nat)
    requires sb.Valid() && |disk| == sb.size && b < sb.size
    ensures var d := Unmark(sb, disk, b);
            && |d| == |disk|
            && (forall c: nat :: c < sb.size ==> (Marked(sb, d, c) <==> c != b && Marked(sb, disk, c)))
            && (forall x: nat :: sb.datastart <= x < sb.size ==> d[x] == disk[x])
  {
    forall c: nat | c < sb.size
      ensures Marked(sb, Unmark(sb, disk, b), c) <==> c != b && Marked(sb, disk, c)
    {
      MarkedAfter(sb, disk, b, c);
    }
    hide Marked, ClearBlockBit;
  }

  lemma ReleaseMarks(sb: Super, fs: Fs, i: nat, k: nat, b: nat)
    requires Shape(sb, fs) && sb.datastart <= b < sb.size && i < |fs.inodes|
    ensures var fs' := Release(sb, fs, i, k, b);
            && Shape(sb, fs')
            && (forall c: nat :: c < sb.size ==> (Marked(sb, fs'.disk, c) <==> c != b && Marked(sb, fs.disk, c)))
            && (forall x: nat :: sb.datastart <= x < sb.size ==> fs'.disk[x] == fs.disk[x])
  {
    hide Marked, Unmark;
    UnmarkMarks(sb, fs.disk, b);
  }

  /** Which slots change when a block is released. */
  lemma ReleaseRefs(sb: Super, fs: Fs, i: nat, k: nat, gone: nat)
    requires Truncating(sb, fs, i, gone) && k < SLOTS && RefAt(sb, fs, i, k) != 0
    requires sb.datastart <= RefAt(sb, fs, i, k) < sb.size
    requires if k < NDIRECT then gone == 0 else if k == NDIRECT then gone == NINDIRECT else k == NDIRECT + 1 + gone
    ensures var fs' := Release(sb, fs, i, k, RefAt(sb, fs, i, k));
            && Shape(sb, fs')
            && (forall j: nat, l: nat :: j < |fs.inodes| && l < SLOTS ==>
                  RefAt(sb, fs', j, l) ==
                      if j == i && k <= NDIRECT && (l == k || (k == NDIRECT && l > NDIRECT)) then 0
                      else RefAt(sb, fs, j, l))
  {
    var b := RefAt(sb, fs, i, k);
    ReleaseMarks(sb, fs, i, k, b);
    var fs' := Release(sb, fs, i, k, b);
    forall j: nat, l: nat | j < |fs.inodes| && l < SLOTS
      ensures RefAt(sb, fs', j, l) ==
          if j == i && k <= NDIRECT && (l == k || (k == NDIRECT && l > NDIRECT)) then 0
          else RefAt(sb, fs, j, l)
    {
      var r := fs.inodes[j].addrs[NDIRECT];
      if r != 0 {
        assert RefAt(sb, fs, j, NDIRECT) == r;
        assert r in fs.owner;
        assert OwnerOk(sb, fs, r);
      }
    }
  }

  lemma ReleaseOwner(sb: Super, fs: Fs, fs': Fs, i: nat, k: nat, gone: nat, x: nat)
    requires Truncating(sb, fs, i, gone) && k < SLOTS && RefAt(sb, fs, i, k) != 0
    requires k == NDIRECT ==> gone == NINDIRECT
    requires Shape(sb, fs') && |fs'.inodes| == |fs.inodes|
    requires forall c: nat :: c < sb.size ==>
        (Marked(sb, fs'.disk, c) <==> c != RefAt(sb, fs, i, k) && Marked(sb, fs.disk, c))
    requires forall j: nat, l: nat :: j < |fs.inodes| && l < SLOTS ==>
               RefAt(sb, fs', j, l) ==
                   if j == i && k <= NDIRECT && (l == k || (k == NDIRECT && l > NDIRECT)) then 0
                   else RefAt(sb, fs, j, l)
    requires fs'.owner == fs.owner - {RefAt(sb, fs, i, k)} && x in fs'.owner
    ensures OwnerOk(sb, fs', x)
  {
    hide RefAt, Marked;
    assert OwnerOk(sb, fs, x);
    var (j, l) := fs.owner[x];
    assert RefAt(sb, fs', j, l) == RefAt(sb, fs, j, l);
  }

  lemma ReleaseOwns(sb: Super, fs: Fs, fs': Fs, i: nat, k: nat, gone: nat)
    requires Truncating(sb, fs, i, gone) && k < SLOTS && RefAt(sb, fs, i, k) != 0
    requires if k < NDIRECT then gone == 0 else if k == NDIRECT then gone == NINDIRECT else k == NDIRECT + 1 + gone
    requires Shape(sb, fs') && |fs'.inodes| == |fs.inodes|
    requires forall j: nat, l: nat :: j < |fs.inodes| && l < SLOTS ==>
               RefAt(sb, fs', j, l) ==
                   if j == i && k <= NDIRECT && (l == k || (k == NDIRECT && l > NDIRECT)) then 0
                   else RefAt(sb, fs, j, l)
    requires fs'.owner == fs.owner - {RefAt(sb, fs, i, k)}
    ensures Owns(sb, fs', i, if k > NDIRECT then gone + 1 else 0)
  {
    hide RefAt, Marked;
    var gone' := if k > NDIRECT then gone + 1 else 0;
    forall j: nat, l: nat | j < |fs.inodes| && l < SLOTS && !(j == i && NDIRECT < l <= NDIRECT + gone')
        && RefAt(sb, fs', j, l) != 0
      ensures RefAt(sb, fs', j, l) in fs'.owner && fs'.owner[RefAt(sb, fs', j, l)] == (j, l)
    {
      assert RefAt(sb, fs', j, l) == RefAt(sb, fs, j, l);
      assert (j, l) != (i, k);
    }
  }

  /** A block that inode i owns can be freed: it is marked, and the rest stays in order. For an
      entry of the indirect block, the entries before it must be gone already; for the indirect
      block itself, all of them. */
  lemma ReleaseKeeps(sb: Super, fs: Fs, i: nat, k: nat, gone: nat)
    requires Truncating(sb, fs, i, gone) && k < SLOTS && RefAt(sb, fs, i, k) != 0
    requires if k < NDIRECT then gone == 0 else if k == NDIRECT then gone == NINDIRECT else k == NDIRECT + 1 + gone
    ensures var b := RefAt(sb, fs, i, k);
            && sb.datastart <= b < sb.size && Marked(sb, fs.disk, b)
            && var fs' := Release(sb, fs, i, k, b);
               && Truncating(sb, fs', i, if k > NDIRECT then gone + 1 else 0)
               && FreedOnly(sb, fs, fs', i)
  {
    hide RefAt, Marked, Ref, FreedOnly;
    var b := RefAt(sb, fs, i, k);
    assert b in fs.owner && fs.owner[b] == (i, k);
    assert OwnerOk(sb, fs, b);
    assert sb.datastart <= b < sb.size && Marked(sb, fs.disk, b);
    var fs' := Release(sb, fs, i, k, b);
    ReleaseMarks(sb, fs, i, k, b);
    ReleaseRefs(sb, fs, i, k, gone);
    ReleaseFreedOnly(sb, fs, i, k);
    ReleaseOwns(sb, fs, fs', i, k, gone);
    assert forall x :: x in fs'.owner ==> OwnerOk(sb, fs', x) by {
      forall x | x in fs'.owner ensures OwnerOk(sb, fs', x) {
        ReleaseOwner(sb, fs, fs', i, k, gone, x);
      }
    }
    assert forall x :: x in fs'.owner ==>
           !(fs'.owner[x].0 == i && NDIRECT < fs'.owner[x].1 <= NDIRECT + if k > NDIRECT then gone + 1 else 0) by {
      forall x | x in fs'.owner
        ensures !(fs'.owner[x].0 == i && NDIRECT < fs'.owner[x].1 <= NDIRECT + if k > NDIRECT then gone + 1 else 0)
      {
        assert OwnerOk(sb, fs, x);
      }
    }
    hide OwnerOk, SizeOk, Owns;
    forall j | 0 <= j < |fs.inodes| && j != i
      ensures SizeOk(sb, fs', j)
    {
      ReleaseSize(sb, fs, fs', j);
    }
  }

  lemma ReleaseFreedOnly(sb: Super, fs: Fs, i: nat, k: nat)
    requires Shape(sb, fs) && i < |fs.inodes| && k < SLOTS && sb.datastart <= RefAt(sb, fs, i, k) < sb.size
    requires RefAt(sb, fs, i, k) in fs.owner && fs.owner[RefAt(sb, fs, i, k)] == (i, k)
    ensures FreedOnly(sb, fs, Release(sb, fs, i, k, RefAt(sb, fs, i, k)), i)
  {
    ReleaseMarks(sb, fs, i, k, RefAt(sb, fs, i, k));
    hide RefAt, Marked, Ref;
  }

  lemma ReleaseSize(sb: Super, fs: Fs, fs': Fs, j: nat)
    requires Shape(sb, fs) && Shape(sb, fs') && |fs'.inodes| == |fs.inodes| && j < |fs.inodes| && SizeOk(sb, fs, j)
    requires fs'.inodes[j] == fs.inodes[j]
    requires forall l: nat :: l < SLOTS ==> RefAt(sb, fs', j, l) == RefAt(sb, fs, j, l)
    ensures SizeOk(sb, fs', j)
  {
    hide RefAt;
    forall bn: nat | bn < MAXFILE && bn * BSIZE < fs.inodes[j].size
      ensures RefAt(sb, fs', j, SlotOf(bn)) != 0
    {
      assert RefAt(sb, fs', j, SlotOf(bn)) == RefAt(sb, fs, j, SlotOf(bn));
    }
  }

  /** itrunc done: the file is empty, its blocks and no others went back to the bitmap, and every
      other file is as it was. */
  lemma TruncateDone(sb: Super, fs0: Fs, fs: Fs, i: nat)
    requires Inv(sb, fs0) && FreedOnly(sb, fs0, fs, i) && Truncating(sb, fs, i, 0)
    requires forall k :: 0 <= k <= NDIRECT ==> fs.inodes[i].addrs[k] == 0
    ensures var fs' := fs.(inodes := fs.inodes[i := fs.inodes[i].(size := 0)]);
            && Inv(sb, fs')
            && (forall b :: b in fs'.owner <==> b in fs0.owner && fs0.owner[b].0 != i)
            && (forall b: nat :: b < sb.size ==>
                  (Marked(sb, fs'.disk, b) <==> Marked(sb, fs0.disk, b) && !(b in fs0.owner && fs0.owner[b].0 == i)))
            && Content(sb, fs', i) == []
            && (forall j: nat :: j < |fs0.inodes| && j != i ==>
                  && fs0.inodes[j].size <= MAXFILE * BSIZE && fs'.inodes[j] == fs0.inodes[j]
                  && Content(sb, fs', j) == Content(sb, fs0, j))
  {
    var fs' := fs.(inodes := fs.inodes[i := fs.inodes[i].(size := 0)]);
    forall k: nat | k < SLOTS
      ensures RefAt(sb, fs, i, k) == 0
    {
    }
    forall j: nat, k: nat | j < |fs.inodes| && k < SLOTS
      ensures RefAt(sb, fs', j, k) == RefAt(sb, fs, j, k)
    {
    }
    assert BlocksOk(sb, fs', 0, 0) by { SameBlocksOk(sb, fs, fs', i); }
    forall b | b in fs'.owner
      ensures b in fs0.owner && fs0.owner[b].0 != i
    {
      assert OwnerOk(sb, fs, b);
    }
    forall j: nat | j < |fs0.inodes| && j != i
      ensures fs0.inodes[j].size <= MAXFILE * BSIZE && Content(sb, fs', j) == Content(sb, fs0, j)
      ensures SizeOk(sb, fs', j)
    {
      assert SizeOk(sb, fs0, j) && SizeOk(sb, fs, j);
      OtherFileKept(sb, fs0, fs', j);
      hide RefAt, Content;
      ReleaseSize(sb, fs, fs', j);
    }
    hide RefAt, Marked, Owns, OwnerOk;
    assert SizeOk(sb, fs', i);
  }

  /** Ownership looks only at slots, not at sizes. */
  lemma SameBlocksOk(sb: Super, fs: Fs, fs': Fs, e: nat)
    requires BlocksOk(sb, fs, e, 0) && Shape(sb, fs') && |fs'.inodes| == |fs.inodes|
    requires fs'.disk == fs.disk && fs'.owner == fs.owner
    requires forall j: nat, k: nat :: j < |fs.inodes| && k < SLOTS ==> RefAt(sb, fs', j, k) == RefAt(sb, fs, j, k)
    ensures BlocksOk(sb, fs', 0, 0)
  {
    hide RefAt, Marked;
    forall x | x in fs'.owner
      ensures OwnerOk(sb, fs', x)
    {
      assert OwnerOk(sb, fs, x);
      var (j, l) := fs.owner[x];
      assert RefAt(sb, fs', j, l) == RefAt(sb, fs, j, l);
    }
    forall j: nat, l: nat | j < |fs.inodes| && l < SLOTS && RefAt(sb, fs', j, l) != 0
      ensures RefAt(sb, fs', j, l) in fs'.owner && fs'.owner[RefAt(sb, fs', j, l)] == (j, l)
    {
      assert RefAt(sb, fs', j, l) == RefAt(sb, fs, j, l);
    }
  }

  /** A file none of whose blocks changed reads the same. */
  lemma OtherFileKept(sb: Super, fs: Fs, fs': Fs, j: nat)
    requires Inv(sb, fs) && Shape(sb, fs') && j < |fs.inodes| == |fs'.inodes| && fs'.inodes[j] == fs.inodes[j]
    requires fs.inodes[j].size <= MAXFILE * BSIZE
    requires forall b: nat :: sb.datastart <= b < sb.size ==> fs'.disk[b] == fs.disk[b]
    ensures Content(sb, fs', j) == Content(sb, fs, j)
  {
    forall o: nat | o < fs.inodes[j].size
      ensures ByteAt(sb, fs', j, o) == ByteAt(sb, fs, j, o)
    {
      var k := SlotOf(o / BSIZE);
      if fs.inodes[j].addrs[NDIRECT] != 0 {
        RootOwned(sb, fs, j);
        assert OwnerOk(sb, fs, fs.inodes[j].addrs[NDIRECT]);
      }
      assert RefAt(sb, fs', j, k) == RefAt(sb, fs, j, k);
      if RefAt(sb, fs, j, k) != 0 {
        assert OwnerOk(sb, fs, RefAt(sb, fs, j, k));
      }
    }
  }
}
