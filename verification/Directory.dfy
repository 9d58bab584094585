/** Directories as files of 16-byte entries (xv6-public/fs.c): names of at most DIRSIZ bytes padded
    with NULs, entries with inode number 0 free. A directory stands for the finite map DirMap;
    lookup, link and clear are proved against it, and path splitting against the list of the
    non-empty components. Names are byte strings without NUL. */
module Directory {
  import opened Blocks
  import opened Files
  import opened FileCode
  import opened Options
  import opened Params
  import opened Space

  const DIRSIZ := 14
  const DESIZE := 16
  const SLASH: Byte := 47

  // ---------------------------------------------------------------- names

  ghost predicate IsName(name: seq<Byte>) {
    forall i :: 0 <= i < |name| ==> name[i] != 0
  }

  /** The part of a name that counts. */
  function Cut(name: seq<Byte>): seq<Byte> {
    if |name| <= DIRSIZ then name else name[..DIRSIZ]
  }

  /** A name field holds the bytes before its first NUL. */
  function FieldName(field: seq<Byte>): seq<Byte> {
    if field == [] || field[0] == 0 then [] else [field[0]] + FieldName(field[1..])
  }

  function Padded(name: seq<Byte>): seq<Byte> {
    Cut(name) + seq(DIRSIZ - |Cut(name)|, _ => 0)
  }

  lemma {:induction false} FieldPrefix(field: seq<Byte>, i: nat)
    requires i <= |field| && IsName(field[..i])
    ensures FieldName(field) == field[..i] + FieldName(field[i..])
  {
    if i > 0 {
      assert field[..i][0] == field[0] && field[1..][..i - 1] == field[..i][1..];
      FieldPrefix(field[1..], i - 1);
      assert field[1..][i - 1..] == field[i..];
      assert [field[0]] + field[..i][1..] == field[..i];
    } else {
      assert field[0..] == field;
    }
  }

  lemma FieldOfPadded(name: seq<Byte>)
    requires IsName(name)
    ensures FieldName(Padded(name)) == Cut(name)
  {
    var f, n := Padded(name), |Cut(name)|;
    assert f[..n] == Cut(name);
    FieldPrefix(f, n);
  }

  /** namecmp: strncmp over DIRSIZ bytes says equal exactly when the names that count are equal. */
  method Namecmp(name: seq<Byte>, field: seq<Byte>) returns (equal: bool)
    requires IsName(name) && |field| == DIRSIZ
    ensures equal <==> Cut(name) == FieldName(field)
  {
    var i := 0;
    while i < DIRSIZ && i < |name| && name[i] == field[i]
      invariant 0 <= i <= DIRSIZ && i <= |name|
      invariant name[..i] == field[..i]
    {
      i := i + 1;
    }
    FieldPrefix(field, i);
    if i == DIRSIZ {
      assert Cut(name) == name[..i] && field[i..] == [];
      return true;
    }
    var p: Byte := if i < |name| then name[i] else 0;
    var rest := field[i..];
    assert rest[0] == field[i];
    if p == field[i] {
      assert i == |name| && FieldName(rest) == [];
      return true;
    }
    assert Cut(name) != FieldName(field) by {
      if i < |name| {
        assert Cut(name)[i] == name[i];
        if field[i] != 0 {
          assert FieldName(field)[i] == field[i];
        } else {
          assert |FieldName(field)| == i;
        }
      } else {
        assert FieldName(rest)[0] == field[i];
        assert |FieldName(field)| > i == |Cut(name)|;
      }
    }
    return false;
  }

  /** strncpy of a name into a DIRSIZ-byte field. */
  method Strncpy(name: seq<Byte>) returns (field: seq<Byte>)
    ensures field == Padded(name)
  {
    field := [];
    while |field| < DIRSIZ && |field| < |name|
      invariant |field| <= DIRSIZ && |field| <= |name| && field == name[..|field|]
      decreases DIRSIZ - |field|
    {
      field := field + [name[|field|]];
    }
    assert field == Cut(name);
    while |field| < DIRSIZ
      invariant |Cut(name)| <= |field| <= DIRSIZ && field == Cut(name) + seq(|field| - |Cut(name)|, _ => 0)
      decreases DIRSIZ - |field|
    {
      field := field + [0];
    }
  }

  // ---------------------------------------------------------------- directories as maps

  function InumAt(c: seq<Byte>, e: nat): nat
    requires DESIZE * e + DESIZE <= |c|
  {
    var lo: int, hi: int := c[DESIZE * e], c[DESIZE * e + 1];
    lo + 0x100 * hi
  }

  function NameAt(c: seq<Byte>, e: nat): seq<Byte>
    requires DESIZE * e + DESIZE <= |c|
  {
    FieldName(c[DESIZE * e + 2..DESIZE * e + DESIZE])
  }

  /** The map that the first n entries stand for. */
  function DirMap(c: seq<Byte>, n: nat): map<seq<Byte>, nat>
    requires DESIZE * n <= |c|
  {
    if n == 0 then map[]
    else if InumAt(c, n - 1) == 0 then DirMap(c, n - 1)
    else DirMap(c, n - 1)[NameAt(c, n - 1) := InumAt(c, n - 1)]
  }

  /** No two live entries carry the same name. */
  ghost predicate DistinctNames(c: seq<Byte>) {
    forall d: nat, e: nat :: d < e && DESIZE * e + DESIZE <= |c| && InumAt(c, d) != 0 && InumAt(c, e) != 0
      ==> NameAt(c, d) != NameAt(c, e)
  }

  /** First live entry from e on with this name. */
  function FirstMatch(c: seq<Byte>, name: seq<Byte>, e: nat): (r: Option<nat>)
    requires DESIZE * e <= |c|
    ensures r.Some? ==> DESIZE * r.value + DESIZE <= |c|
    decreases |c| - DESIZE * e
  {
    if DESIZE * e + DESIZE > |c| then None
    else if InumAt(c, e) != 0 && NameAt(c, e) == name then Some(e)
    else FirstMatch(c, name, e + 1)
  }

  lemma {:induction false} MatchIs(c: seq<Byte>, name: seq<Byte>, e: nat)
    requires DESIZE * e <= |c| && FirstMatch(c, name, e).Some?
    ensures var d := FirstMatch(c, name, e).value; e <= d && InumAt(c, d) != 0 && NameAt(c, d) == name
    decreases |c| - DESIZE * e
  {
    if !(InumAt(c, e) != 0 && NameAt(c, e) == name) {
      MatchIs(c, name, e + 1);
    }
  }

  lemma {:induction false} NoMatch(c: seq<Byte>, name: seq<Byte>, e: nat, d: nat)
    requires DESIZE * e <= |c| && FirstMatch(c, name, e) == None
    requires e <= d && DESIZE * d + DESIZE <= |c| && InumAt(c, d) != 0
    ensures NameAt(c, d) != name
    decreases d - e
  {
    if e < d {
      NoMatch(c, name, e + 1, d);
    }
  }

  lemma {:induction false} DirMapHas(c: seq<Byte>, n: nat, name: seq<Byte>)
    requires DESIZE * n <= |c| && DistinctNames(c)
    ensures name in DirMap(c, n) <==> exists e: nat :: e < n && InumAt(c, e) != 0 && NameAt(c, e) == name
    ensures forall e: nat :: e < n && InumAt(c, e) != 0 && NameAt(c, e) == name ==>
        name in DirMap(c, n) && DirMap(c, n)[name] == InumAt(c, e)
  {
    if n > 0 {
      DirMapHas(c, n - 1, name);
    }
  }

  /** The first match is what the map holds. */
  lemma FirstMatchIsMap(c: seq<Byte>, name: seq<Byte>)
    requires |c| % DESIZE == 0 && DistinctNames(c)
    ensures var m := DirMap(c, |c| / DESIZE);
            match FirstMatch(c, name, 0)
            case Some(e) => name in m && m[name] == InumAt(c, e)
            case None => name !in m
  {
    DirMapHas(c, |c| / DESIZE, name);
    if FirstMatch(c, name, 0) == None {
      forall d: nat | DESIZE * d + DESIZE <= |c| && InumAt(c, d) != 0
        ensures NameAt(c, d) != name
      {
        NoMatch(c, name, 0, d);
      }
    } else {
      MatchIs(c, name, 0);
    }
  }

  // ---------------------------------------------------------------- changing one entry

  /** The bytes of an entry; a struct dirent keeps the low 16 bits of the inode number. */
  function Entry(name: seq<Byte>, inum: nat): seq<Byte> {
    var lo: Byte, hi: Byte := inum % 0x100, inum / 0x100 % 0x100;
    [lo, hi] + Padded(name)
  }

  const NO_ENTRY: seq<Byte> := [0, 0, 0, 0, 0, 0, 0, 0, 0, 0, 0, 0, 0, 0, 0, 0]

  ghost predicate OtherEntriesSame(c: seq<Byte>, c': seq<Byte>, e: nat) {
    |c| <= |c'|
    && forall d: nat :: d != e && DESIZE * d + DESIZE <= |c| ==>
          InumAt(c', d) == InumAt(c, d) && NameAt(c', d) == NameAt(c, d)
  }

  lemma SpliceElsewhere(c: seq<Byte>, e: nat, ent: seq<Byte>, d: nat)
    requires DESIZE * e <= |c| && |ent| == DESIZE && d != e && DESIZE * d + DESIZE <= |c|
    ensures var c' := Spliced(c, DESIZE * e, ent);
            DESIZE * d + DESIZE <= |c'| && c'[DESIZE * d..DESIZE * d + DESIZE] == c[DESIZE * d..DESIZE * d + DESIZE]
  {
    var c' := Spliced(c, DESIZE * e, ent);
    forall k | DESIZE * d <= k < DESIZE * d + DESIZE ensures k < |c'| && c'[k] == c[k] {
      assert d < e || DESIZE * e + DESIZE <= k;
    }
  }

  lemma EntryWritten(c: seq<Byte>, e: nat, ent: seq<Byte>)
    requires |c| % DESIZE == 0 && DESIZE * e <= |c| && |ent| == DESIZE
    ensures var c' := Spliced(c, DESIZE * e, ent);
            && |c'| == (if DESIZE * e == |c| then |c| + DESIZE else |c|)
            && c'[DESIZE * e..DESIZE * e + DESIZE] == ent
            && OtherEntriesSame(c, c', e)
  {
    var c' := Spliced(c, DESIZE * e, ent);
    forall d: nat | d != e && DESIZE * d + DESIZE <= |c|
      ensures InumAt(c', d) == InumAt(c, d) && NameAt(c', d) == NameAt(c, d)
    {
      SpliceElsewhere(c, e, ent, d);
      SliceEntry(c, d);
      SliceEntry(c', d);
    }
  }

  /** An entry is read from its own 16 bytes. */
  lemma SliceEntry(c: seq<Byte>, e: nat)
    requires DESIZE * e + DESIZE <= |c|
    ensures var w := c[DESIZE * e..DESIZE * e + DESIZE]; InumAt(w, 0) == InumAt(c, e) && NameAt(w, 0) == NameAt(c, e)
  {
    var w := c[DESIZE * e..DESIZE * e + DESIZE];
    assert w[0] == c[DESIZE * e] && w[1] == c[DESIZE * e + 1];
    assert w[2..DESIZE] == c[DESIZE * e + 2..DESIZE * e + DESIZE];
  }

  /** The value of an entry's bytes. */
  lemma EntryReads(name: seq<Byte>, inum: nat)
    requires IsName(name)
    ensures InumAt(Entry(name, inum), 0) == inum % 0x10000
    ensures NameAt(Entry(name, inum), 0) == Cut(name)
  {
    FieldOfPadded(name);
    assert Entry(name, inum)[2..DESIZE] == Padded(name);
  }

  /** First free entry from e on; past the last entry when there is none. */
  function FirstFree(c: seq<Byte>, e: nat): (r: nat)
    requires DESIZE * e <= |c| && |c| % DESIZE == 0
    ensures e <= r && DESIZE * r <= |c| && (DESIZE * r == |c| || InumAt(c, r) == 0)
    decreases |c| - DESIZE * e
  {
    if DESIZE * e == |c| || InumAt(c, e) == 0 then e else FirstFree(c, e + 1)
  }

  function Names(c: seq<Byte>): map<seq<Byte>, nat> {
    DirMap(c, |c| / DESIZE)
  }

  ghost predicate IsDirectory(c: seq<Byte>) {
    |c| % DESIZE == 0 && DistinctNames(c)
  }

  /** The directory after dirlink of a name it does not hold. */
  function Linked(c: seq<Byte>, name: seq<Byte>, inum: nat): seq<Byte>
    requires |c| % DESIZE == 0
  {
    Spliced(c, DESIZE * FirstFree(c, 0), Entry(name, inum))
  }

  /** The directory after the entry of a name, if there, is cleared. */
  function Cleared(c: seq<Byte>, name: seq<Byte>): seq<Byte> {
    match FirstMatch(c, Cut(name), 0)
    case None => c
    case Some(e) => Spliced(c, DESIZE * e, NO_ENTRY)
  }

  /** Writing entry e, free or new, with a name not in use. */
  lemma SetFree(c: seq<Byte>, c': seq<Byte>, e: nat)
    requires IsDirectory(c) && |c'| % DESIZE == 0 && OtherEntriesSame(c, c', e) && DESIZE * e + DESIZE <= |c'|
    requires |c'| == (if DESIZE * e == |c| then |c| + DESIZE else |c|)
    requires DESIZE * e == |c| || InumAt(c, e) == 0
    requires InumAt(c', e) != 0 ==> NameAt(c', e) !in Names(c)
    ensures IsDirectory(c')
    ensures Names(c') == if InumAt(c', e) == 0 then Names(c) else Names(c)[NameAt(c', e) := InumAt(c', e)]
  {
    DirMapHas(c, |c| / DESIZE, NameAt(c', e));
    forall a: nat, b: nat | a < b && DESIZE * b + DESIZE <= |c'| && InumAt(c', a) != 0 && InumAt(c', b) != 0
      ensures NameAt(c', a) != NameAt(c', b)
    {
      if a == e {
        assert InumAt(c, b) == InumAt(c', b) != 0;
      } else {
        assert InumAt(c, a) == InumAt(c', a) != 0;
      }
    }
    var m := if InumAt(c', e) == 0 then Names(c) else Names(c)[NameAt(c', e) := InumAt(c', e)];
    forall name: seq<Byte>
      ensures name in Names(c') <==> name in m
      ensures name in m ==> Names(c')[name] == m[name]
    {
      SetFreeAt(c, c', e, name);
    }
  }

  lemma SetFreeAt(c: seq<Byte>, c': seq<Byte>, e: nat, name: seq<Byte>)
    requires IsDirectory(c) && IsDirectory(c') && OtherEntriesSame(c, c', e) && DESIZE * e + DESIZE <= |c'|
    requires |c'| == (if DESIZE * e == |c| then |c| + DESIZE else |c|)
    requires DESIZE * e == |c| || InumAt(c, e) == 0
    requires InumAt(c', e) != 0 ==> NameAt(c', e) !in Names(c)
    ensures var m := if InumAt(c', e) == 0 then Names(c) else Names(c)[NameAt(c', e) := InumAt(c', e)];
            && (name in Names(c') <==> name in m)
            && (name in m ==> Names(c')[name] == m[name])
  {
    var n, n' := |c| / DESIZE, |c'| / DESIZE;
    DirMapHas(c, n, name);
    DirMapHas(c', n', name);
    if name in Names(c') {
      var d: nat :| d < n' && InumAt(c', d) != 0 && NameAt(c', d) == name;
      assert d != e ==> InumAt(c, d) == InumAt(c', d);
    }
    if name in Names(c) {
      var d: nat :| d < n && InumAt(c, d) != 0 && NameAt(c, d) == name;
      assert InumAt(c', d) == InumAt(c, d);
    }
  }

  /** Clearing live entry e. */
  lemma ClearLive(c: seq<Byte>, c': seq<Byte>, e: nat)
    requires IsDirectory(c) && |c'| == |c| && OtherEntriesSame(c, c', e) && DESIZE * e + DESIZE <= |c|
    requires InumAt(c, e) != 0 && InumAt(c', e) == 0
    ensures IsDirectory(c') && Names(c') == Names(c) - {NameAt(c, e)}
  {
    forall a: nat, b: nat | a < b && DESIZE * b + DESIZE <= |c'| && InumAt(c', a) != 0 && InumAt(c', b) != 0
      ensures NameAt(c', a) != NameAt(c', b)
    {
      assert InumAt(c, a) != 0 && InumAt(c, b) != 0;
    }
    var n := |c| / DESIZE;
    var m := Names(c) - {NameAt(c, e)};
    forall name: seq<Byte>
      ensures name in Names(c') <==> name in m
      ensures name in m ==> Names(c')[name] == m[name]
    {
      DirMapHas(c, n, name);
      DirMapHas(c', n, name);
      if name in Names(c') {
        var d: nat :| d < n && InumAt(c', d) != 0 && NameAt(c', d) == name;
        assert d != e && InumAt(c, d) == InumAt(c', d);
      }
      if name in m {
        var d: nat :| d < n && InumAt(c, d) != 0 && NameAt(c, d) == name;
        assert InumAt(c', d) == InumAt(c, d);
      }
    }
  }

  /** dirlink is map insertion; a number whose low 16 bits are 0 leaves the map as it was. */
  lemma LinkedMap(c: seq<Byte>, name: seq<Byte>, inum: nat)
    requires IsDirectory(c) && IsName(name) && Cut(name) !in Names(c)
    ensures IsDirectory(Linked(c, name, inum))
    ensures Names(Linked(c, name, inum)) == if inum % 0x10000 == 0 then Names(c)
        else Names(c)[Cut(name) := inum % 0x10000]
  {
    var e, c' := FirstFree(c, 0), Linked(c, name, inum);
    EntryWritten(c, e, Entry(name, inum));
    EntryReads(name, inum);
    SliceEntry(c', e);
    hide Spliced, Entry;
    SetFree(c, c', e);
  }

  /** Clearing an entry is map removal. */
  lemma ClearedMap(c: seq<Byte>, name: seq<Byte>)
    requires IsDirectory(c)
    ensures IsDirectory(Cleared(c, name)) && Names(Cleared(c, name)) == Names(c) - {Cut(name)}
  {
    hide Spliced, DirMap, DistinctNames, FirstMatch, NameAt, InumAt;
    FirstMatchIsMap(c, Cut(name));
    match FirstMatch(c, Cut(name), 0)
    case None =>
    case Some(e) =>
      var c' := Cleared(c, name);
      MatchIs(c, Cut(name), 0);
      EntryWritten(c, e, NO_ENTRY);
      SliceEntry(c', e);
      NothingThere();
      ClearLive(c, c', e);
  }

  lemma NothingThere()
    ensures InumAt(NO_ENTRY, 0) == 0
  {
  }

  // ---------------------------------------------------------------- runs

  const DOT: seq<Byte> := [46]
  const DOTDOT: seq<Byte> := [46, 46]

  /** The two names that unlink refuses. */
  predicate IsDot(name: seq<Byte>) {
    Cut(name) == DOT || Cut(name) == DOTDOT
  }

  datatype DirOp = Link(name: seq<Byte>, inum: nat) | Unlink(name: seq<Byte>)

  /** What one operation does to the bytes. */
  function Do(c: seq<Byte>, op: DirOp): seq<Byte>
    requires |c| % DESIZE == 0
  {
    match op
    case Link(name, inum) => if FirstMatch(c, Cut(name), 0).Some? then c else Linked(c, name, inum)
    case Unlink(name) => if IsDot(name) then c else Cleared(c, name)
  }

  /** What it does to the map. */
  function DoMap(m: map<seq<Byte>, nat>, op: DirOp): map<seq<Byte>, nat> {
    match op
    case Link(name, inum) => if Cut(name) in m || inum % 0x10000 == 0 then m else m[Cut(name) := inum % 0x10000]
    case Unlink(name) => if IsDot(name) then m else m - {Cut(name)}
  }

  lemma DoRefines(c: seq<Byte>, op: DirOp)
    requires IsDirectory(c) && IsName(op.name)
    ensures IsDirectory(Do(c, op)) && Names(Do(c, op)) == DoMap(Names(c), op)
  {
    FirstMatchIsMap(c, Cut(op.name));
    match op
    case Link(name, inum) =>
      if Cut(name) !in Names(c) {
        LinkedMap(c, name, inum);
      }
    case Unlink(name) =>
      ClearedMap(c, name);
  }

  ghost predicate NamesOk(ops: seq<DirOp>) {
    forall i :: 0 <= i < |ops| ==> IsName(ops[i].name)
  }

  function RunMap(m: map<seq<Byte>, nat>, ops: seq<DirOp>): map<seq<Byte>, nat> {
    if ops == [] then m else DoMap(RunMap(m, ops[..|ops| - 1]), ops[|ops| - 1])
  }

  /** A run as its directories: cs[i] before operation i. */
  ghost predicate IsDirRun(cs: seq<seq<Byte>>, ops: seq<DirOp>) {
    && |cs| == |ops| + 1
    && forall i :: 0 <= i < |ops| ==> |cs[i]| % DESIZE == 0 && cs[i + 1] == Do(cs[i], ops[i])
  }

  /** Through every run the names stay distinct and the bytes stand for the map of the run. */
  lemma {:induction false} EveryDirRun(cs: seq<seq<Byte>>, ops: seq<DirOp>)
    requires IsDirRun(cs, ops) && NamesOk(ops) && IsDirectory(cs[0])
    ensures IsDirectory(cs[|ops|]) && Names(cs[|ops|]) == RunMap(Names(cs[0]), ops)
  {
    if ops != [] {
      var n := |ops| - 1;
      EveryDirRun(cs[..n + 1], ops[..n]);
      DoRefines(cs[n], ops[n]);
      assert cs[n + 1] == Do(cs[n], ops[n]);
    }
  }

  // ---------------------------------------------------------------- the code

  /** Inode dp holds the directory bytes c. */
  ghost predicate DirectoryAt(sb: Super, fs: Fs, dp: nat, c: seq<Byte>) {
    && Inv(sb, fs) && dp < |fs.inodes| && fs.inodes[dp].size <= MAXFILE * BSIZE
    && c == Content(sb, fs, dp) && |c| == fs.inodes[dp].size
  }

  lemma DirectoryThere(sb: Super, fs: Fs, dp: nat)
    requires Inv(sb, fs) && dp < |fs.inodes|
    ensures fs.inodes[dp].size <= MAXFILE * BSIZE && DirectoryAt(sb, fs, dp, Content(sb, fs, dp))
    ensures OthersSame(sb, fs, fs, dp)
  {
    SizesFit(sb, fs);
    ContentLength(sb, fs, dp);
  }

  lemma DirectorySize(sb: Super, fs: Fs, dp: nat, c: seq<Byte>)
    requires DirectoryAt(sb, fs, dp, c)
    ensures dp < |fs.inodes| && |c| == fs.inodes[dp].size
  {
  }

  /** readi of one entry; false when there are not 16 bytes left, where every caller panics. */
  method ReadEntry(fs: FileSystem, dp: nat, off: nat, ghost e: nat, ghost c: seq<Byte>)
    returns (ok: bool, inum: nat, field: seq<Byte>)
    requires fs.Valid() && DirectoryAt(fs.sb, fs.Abs(), dp, c) && off == DESIZE * e && off < |c|
    modifies fs`disk, fs`inodes, fs`owner, fs`logged
    ensures fs.Valid() && fs.Abs() == old(fs.Abs()) && fs.logged == old(fs.logged)
    ensures ok <==> off + DESIZE <= |c|
    ensures ok ==> inum == InumAt(c, e) && |field| == DIRSIZ && FieldName(field) == NameAt(c, e)
  {
    hide Inv, Content, FieldName;
    var de := fs.Readi(dp, off, DESIZE);
    if |de.value| != DESIZE {
      return false, 0, [];
    }
    SliceEntry(c, e);
    return true, InumAt(de.value, 0), de.value[2..DESIZE];
  }

  /** The body of dirlookup's loop. */
  method Matches(fs: FileSystem, dp: nat, name: seq<Byte>, off: nat, ghost e: nat, ghost c: seq<Byte>)
    returns (ok: bool, same: bool, inum: nat)
    requires fs.Valid() && DirectoryAt(fs.sb, fs.Abs(), dp, c) && off == DESIZE * e && off < |c| && IsName(name)
    modifies fs`disk, fs`inodes, fs`owner, fs`logged
    ensures fs.Valid() && fs.Abs() == old(fs.Abs()) && fs.logged == old(fs.logged)
    ensures ok <==> off + DESIZE <= |c|
    ensures ok ==> inum == InumAt(c, e) && (same <==> inum != 0 && NameAt(c, e) == Cut(name))
  {
    hide Inv, DirectoryAt;
    var field;
    ok, inum, field := ReadEntry(fs, dp, off, e, c);
    same := false;
    if ok && inum != 0 {
      same := Namecmp(name, field);
    }
  }

  /** dirlookup: the first live entry with the name, at byte offset off. It panics, with ok false,
      when it gets to a last entry that is cut short. */
  method Dirlookup(fs: FileSystem, dp: nat, name: seq<Byte>, ghost c: seq<Byte>)
    returns (ok: bool, found: bool, inum: nat, off: nat)
    requires fs.Valid() && DirectoryAt(fs.sb, fs.Abs(), dp, c) && IsName(name)
    modifies fs`disk, fs`inodes, fs`owner, fs`logged
    ensures fs.Valid() && fs.Abs() == old(fs.Abs()) && fs.logged == old(fs.logged)
    ensures Found(c, Cut(name), ok, found, inum, off)
  {
    hide Inv, DirectoryAt, FirstMatch, NameAt, InumAt, FieldName, Cut, IsName, Found, NotBefore;
    ghost var key := Cut(name);
    DirectorySize(fs.sb, fs.Abs(), dp, c);
    ok, off := true, 0;
    ghost var e: nat := 0;
    NotBeforeStart(c, key);
    while off < fs.inodes[dp].size
      invariant fs.Valid() && fs.Abs() == old(fs.Abs()) && fs.logged == old(fs.logged)
      invariant off == DESIZE * e <= |c| && ok
      invariant NotBefore(c, key, e)
    {
      ok, found, inum := Matches(fs, dp, name, off, e, c);
      if !ok {
        found := false;
        NotBeforeEnd(c, key, e, inum, off);
        return;
      }
      NotBeforeStep(c, key, e);
      if found {
        return;
      }
      off := off + DESIZE;
      e := e + 1;
    }
    found, inum := false, 0;
    NotBeforeEnd(c, key, e, inum, off);
  }

  /** The outcome of a lookup: the first live entry with this name. */
  ghost predicate Found(c: seq<Byte>, name: seq<Byte>, ok: bool, found: bool, inum: nat, off: nat) {
    match FirstMatch(c, name, 0)
    case None => !found && (ok <==> |c| % DESIZE == 0)
    case Some(e) => ok && found && inum == InumAt(c, e) && off == DESIZE * e
  }

  /** A lookup agrees with the map for every name. */
  lemma LookupAgrees(c: seq<Byte>, name: seq<Byte>, ok: bool, found: bool, inum: nat, off: nat)
    requires IsDirectory(c) && Found(c, name, ok, found, inum, off)
    ensures ok && (found <==> name in Names(c))
    ensures found ==> Names(c)[name] == inum && off + DESIZE <= |c|
  {
    FirstMatchIsMap(c, name);
  }

  ghost predicate NotBefore(c: seq<Byte>, name: seq<Byte>, e: nat) {
    DESIZE * e <= |c| && FirstMatch(c, name, 0) == FirstMatch(c, name, e)
  }

  lemma NotBeforeStart(c: seq<Byte>, name: seq<Byte>)
    ensures NotBefore(c, name, 0)
  {
  }

  lemma NotBeforeStep(c: seq<Byte>, name: seq<Byte>, e: nat)
    requires NotBefore(c, name, e) && DESIZE * e + DESIZE <= |c|
    ensures if InumAt(c, e) != 0 && NameAt(c, e) == name
            then Found(c, name, true, true, InumAt(c, e), DESIZE * e) else NotBefore(c, name, e + 1)
  {
  }

  lemma NotBeforeEnd(c: seq<Byte>, name: seq<Byte>, e: nat, inum: nat, off: nat)
    requires NotBefore(c, name, e) && DESIZE * e <= |c| < DESIZE * e + DESIZE
    ensures Found(c, name, DESIZE * e == |c|, false, inum, off)
  {
  }

  /** When dirlink panics: the name is not there, and an entry is cut short, or writei refuses because
      the directory is as large as a file can be, or it needs more blocks than are free. */
  ghost predicate LinkPanics(sb: Super, fs: Fs, dp: nat, c: seq<Byte>, name: seq<Byte>)
    requires Shape(sb, fs) && dp < |fs.inodes|
  {
    && FirstMatch(c, Cut(name), 0).None?
    && (|c| % DESIZE != 0 ||
        var at := DESIZE * FirstFree(c, 0);
        at + DESIZE > MAXFILE * BSIZE || |FreeBlocks(sb, fs.disk)| < |Missing(sb, fs, dp, at, DESIZE)|)
  }

  /** dirlink: Some(-1) exactly when the name is present; None is a panic. */
  method Dirlink(fs: FileSystem, dp: nat, name: seq<Byte>, inum: Word32) returns (r: Option<int>)
    requires fs.Valid() && dp < |fs.inodes| && IsName(name)
    modifies fs`disk, fs`inodes, fs`owner, fs`logged
    ensures fs.Valid() && OthersSame(fs.sb, old(fs.Abs()), fs.Abs(), dp)
    ensures Logged(fs.sb, old(fs.Abs()), fs.Abs(), fs.logged, dp, r.Some?)
    ensures var c, c' := Content(fs.sb, old(fs.Abs()), dp), Content(fs.sb, fs.Abs(), dp);
            && (r == Some(-1) <==> FirstMatch(c, Cut(name), 0).Some?)
            && (r == Some(-1) ==> c' == c)
            && (r.None? <==> LinkPanics(fs.sb, old(fs.Abs()), dp, c, name))
            && (r.Some? && r != Some(-1) ==> r == Some(0) && |c| % DESIZE == 0 && c' == Do(c, Link(name, inum)))
  {
    DirectoryThere(fs.sb, fs.Abs(), dp);
    ghost var c := Content(fs.sb, fs.Abs(), dp);
    hide Inv, Content, FirstMatch, NameAt, InumAt, FieldName, Cut, FirstFree, Entry, Spliced, OthersSame, IsName,
      Missing, Filling, FreeBlocks;
    var ok, found, _, _ := Dirlookup(fs, dp, name, c);
    if !ok {
      return None;
    }
    if found {
      return Some(-1);
    }
    var off := FindFree(fs, dp, c);
    var de := MakeEntry(name, inum);
    ghost var t;
    r, t := fs.Writei(dp, de, off);
    if r == Some(DESIZE) {
      return Some(0);
    }
    return None;
  }

  method MakeEntry(name: seq<Byte>, inum: Word32) returns (de: seq<Byte>)
    ensures de == Entry(name, inum) && |de| == DESIZE
  {
    var field := Strncpy(name);
    var lo: Byte, hi: Byte := inum % 0x100, inum / 0x100 % 0x100;
    return [lo, hi] + field;
  }

  /** The scan of dirlink for an empty entry. */
  method FindFree(fs: FileSystem, dp: nat, ghost c: seq<Byte>) returns (off: nat)
    requires fs.Valid() && DirectoryAt(fs.sb, fs.Abs(), dp, c) && |c| % DESIZE == 0
    modifies fs`disk, fs`inodes, fs`owner, fs`logged
    ensures fs.Valid() && fs.Abs() == old(fs.Abs()) && fs.logged == old(fs.logged)
    ensures off == DESIZE * FirstFree(c, 0)
  {
    hide Inv, DirectoryAt, FirstFree, NameAt, InumAt, FieldName;
    DirectorySize(fs.sb, fs.Abs(), dp, c);
    off := 0;
    ghost var e: nat := 0;
    while off < fs.inodes[dp].size
      invariant fs.Valid() && fs.Abs() == old(fs.Abs()) && fs.logged == old(fs.logged)
      invariant off == DESIZE * e <= |c|
      invariant FirstFree(c, 0) == FirstFree(c, e)
    {
      FreeStep(c, e);
      var ok, inum, field := ReadEntry(fs, dp, off, e, c);
      if inum == 0 {
        return;
      }
      off := off + DESIZE;
      e := e + 1;
    }
    FreeStep(c, e);
  }

  lemma FreeStep(c: seq<Byte>, e: nat)
    requires DESIZE * e <= |c| && |c| % DESIZE == 0
    ensures FirstFree(c, e) == if DESIZE * e == |c| || InumAt(c, e) == 0 then e else FirstFree(c, e + 1)
  {
  }

  /** A directory with nothing behind its first two entries. */
  ghost predicate OnlyDots(c: seq<Byte>) {
    forall e: nat :: e >= 2 && DESIZE * e + DESIZE <= |c| ==> InumAt(c, e) == 0
  }

  /** isdirempty: None is its panic on an entry cut short. */
  method Isdirempty(fs: FileSystem, dp: nat, ghost c: seq<Byte>) returns (r: Option<bool>)
    requires fs.Valid() && DirectoryAt(fs.sb, fs.Abs(), dp, c)
    modifies fs`disk, fs`inodes, fs`owner, fs`logged
    ensures fs.Valid() && fs.Abs() == old(fs.Abs()) && fs.logged == old(fs.logged)
    ensures r.Some? ==> (r.value <==> OnlyDots(c))
    ensures r.None? <==> CutShort(c)
  {
    hide Inv, DirectoryAt, NameAt, InumAt, FieldName;
    DirectorySize(fs.sb, fs.Abs(), dp, c);
    var off := 2 * DESIZE;
    ghost var e: nat := 2;
    while off < fs.inodes[dp].size
      invariant fs.Valid() && fs.Abs() == old(fs.Abs()) && fs.logged == old(fs.logged)
      invariant off == DESIZE * e && e >= 2 && (e > 2 ==> off <= |c|)
      invariant forall d: nat :: 2 <= d < e && DESIZE * d + DESIZE <= |c| ==> InumAt(c, d) == 0
    {
      var ok, inum, field := ReadEntry(fs, dp, off, e, c);
      if !ok {
        return None;
      }
      if inum != 0 {
        return Some(false);
      }
      off := off + DESIZE;
      e := e + 1;
    }
    return Some(true);
  }

  /** The checks of unlink: Some(None) when it refuses, Some(Some(off)) for the entry to clear, None
      for a panic. `isDir` says which inodes are directories. */
  method UnlinkCheck(fs: FileSystem, dp: nat, name: seq<Byte>, isDir: nat -> bool, ghost c: seq<Byte>)
    returns (r: Option<Option<nat>>)
    requires fs.Valid() && DirectoryAt(fs.sb, fs.Abs(), dp, c) && IsName(name)
    modifies fs`disk, fs`inodes, fs`owner, fs`logged
    ensures fs.Valid() && fs.Abs() == old(fs.Abs()) && fs.logged == old(fs.logged) && FilesFit(fs.inodes)
    ensures r == Some(None) <==> Refused(fs.sb, fs.Abs(), c, name, isDir)
    ensures r == None <==> UnlinkPanics(fs.sb, fs.Abs(), c, name, isDir)
    ensures r.Some? && r.value.Some? ==>
              FirstMatch(c, Cut(name), 0).Some? && r.value.value == DESIZE * FirstMatch(c, Cut(name), 0).value
  {
    SizesFit(fs.sb, fs.Abs());
    hide Inv, Content, DirectoryAt, FirstMatch, NameAt, InumAt, FieldName, IsName, OnlyDots, IsDot, Cut;
    var dot := DotName(name);
    if dot {
      return Some(None);
    }
    var ok, found, inum, off := Dirlookup(fs, dp, name, c);
    if !ok {
      return None;
    }
    if !found {
      return Some(None);
    }
    if inum >= |fs.inodes| {
      return None;
    }
    if isDir(inum) {
      DirectoryThere(fs.sb, fs.Abs(), inum);
      var empty := Isdirempty(fs, inum, Content(fs.sb, fs.Abs(), inum));
      if empty.None? {
        return None;
      }
      if !empty.value {
        return Some(None);
      }
    }
    return Some(Some(off));
  }

  /** unlink from the lock on its directory to the cleared entry: Some(-1) for a dot name, for a name
      that is not there and for a directory that is not empty; None is a panic. */
  method ClearEntry(fs: FileSystem, dp: nat, name: seq<Byte>, isDir: nat -> bool) returns (r: Option<int>)
    requires fs.Valid() && dp < |fs.inodes| && IsName(name)
    modifies fs`disk, fs`inodes, fs`owner, fs`logged
    ensures fs.Valid() && OthersSame(fs.sb, old(fs.Abs()), fs.Abs(), dp) && FilesFit(old(fs.inodes))
    ensures Logged(fs.sb, old(fs.Abs()), fs.Abs(), fs.logged, dp, r.Some?)
    ensures var c, c' := Content(fs.sb, old(fs.Abs()), dp), Content(fs.sb, fs.Abs(), dp);
            && (r.Some? ==> r.value in {0, -1})
            && (r == Some(-1) <==> Refused(fs.sb, old(fs.Abs()), c, name, isDir))
            && (r == None <==> UnlinkPanics(fs.sb, old(fs.Abs()), c, name, isDir))
            && (r == Some(-1) ==> c' == c)
            && (r == Some(0) ==> FirstMatch(c, Cut(name), 0).Some? && c' == Cleared(c, name))
  {
    DirectoryThere(fs.sb, fs.Abs(), dp);
    ghost var c := Content(fs.sb, fs.Abs(), dp);
    hide Inv, Content, FirstMatch, NameAt, InumAt, FieldName, Spliced, OthersSame, IsName, OnlyDots, Cut, Refused,
      UnlinkPanics, Missing, Filling, FreeBlocks;
    var u := UnlinkCheck(fs, dp, name, isDir, c);
    if u.None? {
      return None;
    }
    if u.value.None? {
      return Some(-1);
    }
    ghost var t;
    r, t := fs.Writei(dp, NO_ENTRY, u.value.value);
    if r == Some(DESIZE) {
      return Some(0);
    }
    return None;
  }

  /** A cleared entry is what the run's Unlink does to the bytes. */
  lemma ClearedIsUnlink(sb: Super, fs: Fs, c: seq<Byte>, name: seq<Byte>, isDir: nat -> bool)
    requires Shape(sb, fs) && FilesFit(fs.inodes) && |c| % DESIZE == 0 && !Refused(sb, fs, c, name, isDir)
    ensures Cleared(c, name) == Do(c, Unlink(name))
  {
  }

  /** What unlink turns down. */
  ghost predicate Refused(sb: Super, fs: Fs, c: seq<Byte>, name: seq<Byte>, isDir: nat -> bool)
    requires Shape(sb, fs) && FilesFit(fs.inodes)
  {
    IsDot(name) ||
    match FirstMatch(c, Cut(name), 0)
    case None => |c| % DESIZE == 0
    case Some(e) =>
      var inum := InumAt(c, e);
      inum < |fs.inodes| && isDir(inum) && !OnlyDots(Content(sb, fs, inum))
  }

  /** Where unlink panics: an entry cut short, in the directory or in the directory to be unlinked, or
      a number that is no inode's. */
  ghost predicate UnlinkPanics(sb: Super, fs: Fs, c: seq<Byte>, name: seq<Byte>, isDir: nat -> bool)
    requires Shape(sb, fs) && FilesFit(fs.inodes)
  {
    && !IsDot(name)
    && match FirstMatch(c, Cut(name), 0)
       case None => |c| % DESIZE != 0
       case Some(e) =>
         var inum := InumAt(c, e);
         inum >= |fs.inodes| || (isDir(inum) && CutShort(Content(sb, fs, inum)))
  }

  /** Nothing behind the first two entries but an entry cut short. */
  ghost predicate CutShort(c: seq<Byte>) {
    OnlyDots(c) && |c| > 2 * DESIZE && |c| % DESIZE != 0
  }

  method DotName(name: seq<Byte>) returns (dot: bool)
    requires IsName(name)
    ensures dot <==> IsDot(name)
  {
    FieldOfPadded(DOT);
    FieldOfPadded(DOTDOT);
    dot := Namecmp(name, Padded(DOT));
    if !dot {
      dot := Namecmp(name, Padded(DOTDOT));
    }
  }

  // ---------------------------------------------------------------- paths

  /** The fields of a path between slashes. */
  function Fields(s: seq<Byte>): (r: seq<seq<Byte>>)
    ensures |r| > 0
  {
    if s == [] then [[]]
    else
      var rest := Fields(s[1..]);
      if s[0] == SLASH then [[]] + rest else [[s[0]] + rest[0]] + rest[1..]
  }

  function NonEmpty(fields: seq<seq<Byte>>): seq<seq<Byte>> {
    if fields == [] then []
    else if fields[0] == [] then NonEmpty(fields[1..])
    else [Cut(fields[0])] + NonEmpty(fields[1..])
  }

  /** The non-empty components of a path, each cut to DIRSIZ bytes. */
  function Components(path: seq<Byte>): seq<seq<Byte>> {
    NonEmpty(Fields(path))
  }

  lemma SkipSlash(s: seq<Byte>)
    requires s != [] && s[0] == SLASH
    ensures Components(s) == Components(s[1..])
  {
    var rest := Fields(s[1..]);
    assert ([[]] + rest)[1..] == rest;
  }

  ghost predicate NoSlash(s: seq<Byte>) {
    forall i :: 0 <= i < |s| ==> s[i] != SLASH
  }

  lemma {:induction false} FirstField(s: seq<Byte>, k: nat)
    requires k <= |s| && NoSlash(s[..k]) && (k < |s| ==> s[k] == SLASH)
    ensures Fields(s) == [s[..k]] + if k == |s| then [] else Fields(s[k + 1..])
  {
    if k == 0 {
      assert s[..0] == [];
    } else {
      assert s[..k][0] == s[0] && s[1..][..k - 1] == s[..k][1..];
      FirstField(s[1..], k - 1);
      assert s[..k] == [s[0]] + s[1..][..k - 1];
      if k < |s| {
        assert s[1..][k - 1 + 1..] == s[k + 1..];
      }
    }
  }

  /** A path that starts with a component of k bytes. */
  lemma FirstComponent(s: seq<Byte>, k: nat)
    requires 0 < k <= |s| && NoSlash(s[..k]) && (k < |s| ==> s[k] == SLASH)
    ensures Components(s) == [Cut(s[..k])] + Components(s[k..])
  {
    FirstField(s, k);
    if k == |s| {
      assert Fields(s)[1..] == [] && s[k..] == [];
      assert Fields(s[k..])[1..] == [];
    } else {
      SkipSlash(s[k..]);
      assert s[k..][1..] == s[k + 1..];
      assert Fields(s)[1..] == Fields(s[k + 1..]);
    }
  }

  /** A path has components exactly when it has a byte that is not a slash. */
  lemma {:induction false} SomeComponent(s: seq<Byte>)
    requires s != [] && s[0] != SLASH
    ensures Components(s) != []
  {
    assert Fields(s)[0] != [];
  }

  /** skipelem from position p: the component and the position after it and its slashes. */
  method Skipelem(path: seq<Byte>, p: nat) returns (r: Option<(seq<Byte>, nat)>)
    requires p <= |path|
    ensures r.None? ==> Components(path[p..]) == []
    ensures r.Some? ==>
              && p < r.value.1 <= |path|
              && Components(path[p..]) == [r.value.0] + Components(path[r.value.1..])
              && (r.value.1 == |path| <==> Components(path[r.value.1..]) == [])
  {
    var q := SkipSlashes(path, p);
    if q == |path| {
      return None;
    }
    hide Components, Cut;
    var e := ScanName(path, q);
    var name := if e - q >= DIRSIZ then path[q..q + DIRSIZ] else path[q..e];
    CutIs(path, q, e);
    var next := SkipSlashes(path, e);
    return Some((name, next));
  }

  lemma CutIs(path: seq<Byte>, q: nat, e: nat)
    requires q <= e <= |path|
    ensures Cut(path[q..e]) == if e - q >= DIRSIZ then path[q..q + DIRSIZ] else path[q..e]
  {
  }

  /** The loop over the bytes of a name. */
  method ScanName(path: seq<Byte>, q: nat) returns (e: nat)
    requires q < |path| && path[q] != SLASH
    ensures q < e <= |path| && Components(path[q..]) == [Cut(path[q..e])] + Components(path[e..])
  {
    hide Components, Cut;
    e := q;
    while e < |path| && path[e] != SLASH
      invariant q <= e <= |path| && NoSlash(path[q..e])
    {
      assert path[q..e + 1] == path[q..e] + [path[e]];
      e := e + 1;
    }
    var s := path[q..];
    assert s[..e - q] == path[q..e] && s[e - q..] == path[e..];
    FirstComponent(s, e - q);
  }

  method SkipSlashes(path: seq<Byte>, p: nat) returns (q: nat)
    requires p <= |path|
    ensures p <= q <= |path| && (q < |path| ==> path[q] != SLASH)
    ensures Components(path[p..]) == Components(path[q..])
    ensures q == |path| <==> Components(path[q..]) == []
  {
    q := p;
    while q < |path| && path[q] == SLASH
      invariant p <= q <= |path| && Components(path[p..]) == Components(path[q..])
    {
      SkipSlash(path[q..]);
      assert path[q..][1..] == path[q + 1..];
      q := q + 1;
    }
    if q < |path| {
      SomeComponent(path[q..]);
    } else {
      assert Fields(path[q..])[1..] == [];
    }
  }

  /** Skipelem until it gives nothing, as namex calls it: exactly the components, in order. */
  method AllElements(path: seq<Byte>) returns (names: seq<seq<Byte>>)
    ensures names == Components(path)
  {
    names := [];
    var p := 0;
    assert path[0..] == path;
    var r := Skipelem(path, p);
    while r.Some?
      invariant p <= |path| && Components(path) == names + Components(path[p..])
      invariant r.None? ==> Components(path[p..]) == []
      invariant r.Some? ==>
                  && p < r.value.1 <= |path|
                  && Components(path[p..]) == [r.value.0] + Components(path[r.value.1..])
      decreases |path| - p
    {
      names := names + [r.value.0];
      p := r.value.1;
      r := Skipelem(path, p);
    }
  }
}
