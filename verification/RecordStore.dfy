/** The append-only record store of the key-value server (KVS/greeter_async_server.cc): 53 bucket
    files of 512-byte records, a map from keys to record numbers, and the text files that carry this
    map over a restart. It refines a map from keys to values. */
module RecordStore {
  import opened Options
  import opened Substrings

  const TOTALFILES := 53
  const RECORD := 512
  const FIELD := 256

  // ---------------------------------------------------------------- text

  predicate Space(c: char) {
    c == ' ' || c == '\t' || c == '\n' || c == '\r' || c == 11 as char || c == 12 as char
  }

  predicate Digit(c: char) {
    '0' <= c <= '9'
  }

  function Decimal(n: nat): (r: string)
    ensures r != ""
  {
    var last := ('0' as int + n % 10) as char;
    if n < 10 then [last] else Decimal(n / 10) + [last]
  }

  /** The number that a string of digits stands for. */
  function Number(s: string): nat {
    if s == "" then 0 else 10 * Number(s[..|s| - 1]) + (if Digit(s[|s| - 1]) then s[|s| - 1] as int - '0' as int else 0)
  }

  lemma {:induction false} DecimalReads(n: nat)
    ensures Number(Decimal(n)) == n && forall i :: 0 <= i < |Decimal(n)| ==> Digit(Decimal(n)[i])
  {
    var d := Decimal(n);
    if n >= 10 {
      DecimalReads(n / 10);
      assert d[..|d| - 1] == Decimal(n / 10);
    } else {
      assert d[..0] == "";
    }
  }

  /** An input stream's extraction: the position after the white space from i on. */
  function SkipSpace(s: string, i: nat): (r: nat)
    requires i <= |s|
    ensures i <= r <= |s|
    decreases |s| - i
  {
    if i < |s| && Space(s[i]) then SkipSpace(s, i + 1) else i
  }

  /** The end of the run of characters from i on that are not white space. */
  function WordEnd(s: string, i: nat): (r: nat)
    requires i <= |s|
    ensures i <= r <= |s|
    decreases |s| - i
  {
    if i < |s| && !Space(s[i]) then WordEnd(s, i + 1) else i
  }

  function DigitsEnd(s: string, i: nat): (r: nat)
    requires i <= |s|
    ensures i <= r <= |s|
    decreases |s| - i
  {
    if i < |s| && Digit(s[i]) then DigitsEnd(s, i + 1) else i
  }

  datatype Got<+T> = Got(value: T, next: nat)

  /** >> into a string: the next word. */
  function GetWord(s: string, i: nat): (r: Option<Got<string>>)
    requires i <= |s|
    ensures r.Some? ==> i < r.value.next <= |s|
  {
    var a := SkipSpace(s, i);
    var b := WordEnd(s, a);
    if a == b then None else Some(Got(s[a..b], b))
  }

  /** >> into an int: the next number, written without a sign. */
  function GetInt(s: string, i: nat): (r: Option<Got<nat>>)
    requires i <= |s|
    ensures r.Some? ==> i < r.value.next <= |s|
  {
    var a := SkipSpace(s, i);
    var b := DigitsEnd(s, a);
    if a == b then None else Some(Got(Number(s[a..b]), b))
  }

  // ---------------------------------------------------------------- the context files

  datatype Entry = Entry(key: string, place: int)

  function EntryText(e: Entry): string
    requires e.place >= 0
  {
    e.key + " " + Decimal(e.place) + "\n"
  }

  ghost predicate PlacesOk(es: seq<Entry>) {
    forall i :: 0 <= i < |es| ==> es[i].place >= 0
  }

  function ContextText(es: seq<Entry>): string
    requires forall i :: 0 <= i < |es| ==> es[i].place >= 0
  {
    if es == [] then "" else EntryText(es[0]) + ContextText(es[1..])
  }

  /** The pairs that a loop of >> key >> offset reads from position i on. */
  function ReadEntries(s: string, i: nat): seq<Entry>
    requires i <= |s|
    decreases |s| - i
  {
    match GetWord(s, i)
    case None => []
    case Some(k) =>
      match GetInt(s, k.next)
      case None => []
      case Some(n) => [Entry(k.value, n.value)] + ReadEntries(s, n.next)
  }

  function NumbersText(ns: seq<nat>): string {
    if ns == [] then "" else Decimal(ns[0]) + "\n" + NumbersText(ns[1..])
  }

  function ReadNumbers(s: string, i: nat): seq<nat>
    requires i <= |s|
    decreases |s| - i
  {
    match GetInt(s, i)
    case None => []
    case Some(n) => [n.value] + ReadNumbers(s, n.next)
  }

  /** A key that survives the text file. */
  ghost predicate KeyText(k: string) {
    k != "" && forall i :: 0 <= i < |k| ==> !Space(k[i])
  }

  lemma {:induction false} WordEndIs(s: string, i: nat, e: nat)
    requires i <= e <= |s| && (forall k :: i <= k < e ==> !Space(s[k])) && (e < |s| ==> Space(s[e]))
    ensures WordEnd(s, i) == e
    decreases e - i
  {
    if i < e {
      WordEndIs(s, i + 1, e);
    }
  }

  lemma {:induction false} DigitsEndIs(s: string, i: nat, e: nat)
    requires i <= e <= |s| && (forall k :: i <= k < e ==> Digit(s[k])) && (e < |s| ==> !Digit(s[e]))
    ensures DigitsEnd(s, i) == e
    decreases e - i
  {
    if i < e {
      DigitsEndIs(s, i + 1, e);
    }
  }

  /** A word, at i or after one character of white space. */
  lemma WordReads(s: string, i: nat, k: string)
    requires KeyText(k) && At(s, i, k) && i + |k| < |s| && Space(s[i + |k|])
    ensures GetWord(s, i) == Some(Got(k, i + |k|))
    ensures i > 0 && Space(s[i - 1]) ==> GetWord(s, i - 1) == Some(Got(k, i + |k|))
  {
    forall j | i <= j < i + |k| ensures !Space(s[j]) {
      AtChar(s, i, k, j - i);
    }
    WordEndIs(s, i, i + |k|);
  }

  lemma NumberReads(s: string, i: nat, n: nat)
    requires At(s, i, Decimal(n)) && i + |Decimal(n)| < |s| && s[i + |Decimal(n)|] == '\n'
    ensures GetInt(s, i) == Some(Got(n, i + |Decimal(n)|))
    ensures i > 0 && Space(s[i - 1]) ==> GetInt(s, i - 1) == Some(Got(n, i + |Decimal(n)|))
  {
    DecimalReads(n);
    var d := Decimal(n);
    forall j | i <= j < i + |d| ensures Digit(s[j]) {
      AtChar(s, i, d, j - i);
    }
    DigitsEndIs(s, i, i + |d|);
    assert s[i..i + |d|] == d;
  }

  lemma EntryReads(s: string, i: nat, e: Entry)
    requires e.place >= 0 && KeyText(e.key) && At(s, i, EntryText(e))
    ensures var a := i + |e.key|; var b := a + 1 + |Decimal(e.place)|;
            && b < |s| && s[b] == '\n' && b + 1 == i + |EntryText(e)|
            && GetWord(s, i) == Some(Got(e.key, a)) && GetInt(s, a) == Some(Got(e.place, b))
            && (i > 0 && Space(s[i - 1]) ==> GetWord(s, i - 1) == Some(Got(e.key, a)))
  {
    hide At, GetWord, GetInt, KeyText, Decimal;
    var d := Decimal(e.place);
    AtParts(s, i, e.key + " " + d, "\n");
    AtParts(s, i, e.key + " ", d);
    AtParts(s, i, e.key, " ");
    AtChar(s, i + |e.key|, " ", 0);
    AtChar(s, i + |e.key + " " + d|, "\n", 0);
    WordReads(s, i, e.key);
    NumberReads(s, i + |e.key| + 1, e.place);
  }

  lemma NothingLeft(s: string, i: nat)
    requires i <= |s| && (i == |s| || (i + 1 == |s| && Space(s[i])))
    ensures GetWord(s, i) == None && GetInt(s, i) == None && ReadEntries(s, i) == [] && ReadNumbers(s, i) == []
  {
  }

  /** The reader gives back what the writer wrote, from the start of a line or the end of the last. */
  lemma {:induction false} ContextReads(s: string, i: nat, es: seq<Entry>)
    requires PlacesOk(es) && KeysOk(es) && At(s, i, ContextText(es)) && i + |ContextText(es)| == |s|
    ensures ReadEntries(s, i) == es && (i > 0 && Space(s[i - 1]) ==> ReadEntries(s, i - 1) == es)
    decreases es
  {
    hide EntryText, ContextText, At, ReadEntries, GetWord, GetInt, KeyText;
    if es == [] {
      NoContext(s, i);
    } else {
      var e := es[0];
      ContextSplit(s, i, es);
      EntryReads(s, i, e);
      var a, j := i + |e.key|, i + |EntryText(e)|;
      ContextReads(s, j, es[1..]);
      EntriesStep(s, i, e, a, j - 1);
      if i > 0 && Space(s[i - 1]) {
        EntriesStep(s, i - 1, e, a, j - 1);
      }
      assert es == [e] + es[1..];
    }
  }

  lemma NoContext(s: string, i: nat)
    requires i <= |s| && i + |ContextText([])| == |s|
    ensures ReadEntries(s, i) == [] && (i > 0 && Space(s[i - 1]) ==> ReadEntries(s, i - 1) == [])
  {
    NothingLeft(s, i);
    if i > 0 && Space(s[i - 1]) {
      NothingLeft(s, i - 1);
    }
  }

  lemma ContextSplit(s: string, i: nat, es: seq<Entry>)
    requires PlacesOk(es) && es != [] && At(s, i, ContextText(es))
    ensures At(s, i, EntryText(es[0])) && At(s, i + |EntryText(es[0])|, ContextText(es[1..]))
    ensures |ContextText(es)| == |EntryText(es[0])| + |ContextText(es[1..])|
  {
    ContextIs(es);
    hide EntryText, ContextText, At;
    AtParts(s, i, EntryText(es[0]), ContextText(es[1..]));
  }

  lemma ContextIs(es: seq<Entry>)
    requires PlacesOk(es) && es != []
    ensures ContextText(es) == EntryText(es[0]) + ContextText(es[1..])
  {
    hide EntryText;
  }

  lemma EntriesStep(s: string, i: nat, e: Entry, a: nat, b: nat)
    requires i <= |s| && GetWord(s, i) == Some(Got(e.key, a)) && GetInt(s, a) == Some(Got(e.place, b))
    ensures ReadEntries(s, i) == [e] + ReadEntries(s, b)
  {
  }

  lemma EntriesStop(s: string, i: nat)
    requires i <= |s| && (GetWord(s, i).None? || GetInt(s, GetWord(s, i).value.next).None?)
    ensures ReadEntries(s, i) == []
  {
    hide GetWord, GetInt;
  }

  lemma {:induction false} NumbersRead(s: string, i: nat, ns: seq<nat>)
    requires At(s, i, NumbersText(ns)) && i + |NumbersText(ns)| == |s|
    ensures ReadNumbers(s, i) == ns && (i > 0 && Space(s[i - 1]) ==> ReadNumbers(s, i - 1) == ns)
    decreases ns
  {
    hide NumbersText, At, ReadNumbers, GetInt, Decimal;
    if ns == [] {
      NoNumbers(s, i);
    } else {
      var e := i + |Decimal(ns[0])|;
      NumbersSplit(s, i, ns);
      NumberReads(s, i, ns[0]);
      NumbersRead(s, e + 1, ns[1..]);
      NumbersStep(s, i, ns[0], e);
      if i > 0 && Space(s[i - 1]) {
        NumbersStep(s, i - 1, ns[0], e);
      }
      assert ns == [ns[0]] + ns[1..];
    }
  }

  lemma NoNumbers(s: string, i: nat)
    requires i <= |s| && i + |NumbersText([])| == |s|
    ensures ReadNumbers(s, i) == [] && (i > 0 && Space(s[i - 1]) ==> ReadNumbers(s, i - 1) == [])
  {
    NothingLeft(s, i);
    if i > 0 && Space(s[i - 1]) {
      NothingLeft(s, i - 1);
    }
  }

  lemma NumbersSplit(s: string, i: nat, ns: seq<nat>)
    requires ns != [] && At(s, i, NumbersText(ns))
    ensures var d := Decimal(ns[0]);
            && At(s, i, d) && i + |d| < |s| && s[i + |d|] == '\n' && At(s, i + |d| + 1, NumbersText(ns[1..]))
            && |NumbersText(ns)| == |d| + 1 + |NumbersText(ns[1..])|
  {
    var d := Decimal(ns[0]);
    assert NumbersText(ns) == d + "\n" + NumbersText(ns[1..]);
    hide NumbersText, At, Decimal;
    AtParts(s, i, d + "\n", NumbersText(ns[1..]));
    AtParts(s, i, d, "\n");
    AtChar(s, i + |d|, "\n", 0);
    assert i + |d| + 1 <= |s| by {
      AtFits(s, i + |d|, "\n");
    }
  }

  lemma AtFits(s: string, i: nat, p: string)
    requires At(s, i, p)
    ensures i + |p| <= |s|
  {
  }

  lemma NumbersStep(s: string, i: nat, n: nat, e: nat)
    requires i <= |s| && GetInt(s, i) == Some(Got(n, e))
    ensures ReadNumbers(s, i) == [n] + ReadNumbers(s, e)
  {
  }

  lemma NumbersStop(s: string, i: nat)
    requires i <= |s| && GetInt(s, i).None?
    ensures ReadNumbers(s, i) == []
  {
  }

  /** One more of the numbers goes into the array. */
  lemma NumberRead(all: seq<nat>, n: nat, x: nat, rest: seq<nat>, was: seq<nat>)
    requires n <= |all| && all[n..] == [x] + rest && |all| <= |was|
    ensures n < |all| && all[n + 1..] == rest
    ensures (all[..n] + was[n..])[n := x] == all[..n + 1] + was[n + 1..]
  {
    assert all[n] == all[n..][0] == x;
    assert all[n + 1..] == all[n..][1..];
  }

  lemma {:induction false} ContextGrows(es: seq<Entry>, e: Entry)
    requires PlacesOk(es) && e.place >= 0
    ensures PlacesOk(es + [e]) && ContextText(es + [e]) == ContextText(es) + EntryText(e)
    decreases es
  {
    if es == [] {
      assert [] + [e] == [e] && [e][1..] == [];
    } else {
      ContextGrows(es[1..], e);
      hide EntryText;
      assert (es + [e])[1..] == es[1..] + [e];
      assert EntryText(es[0]) + (ContextText(es[1..]) + EntryText(e)) ==
             EntryText(es[0]) + ContextText(es[1..]) + EntryText(e);
    }
  }

  lemma {:induction false} NumbersGrow(ns: seq<nat>, n: nat)
    ensures NumbersText(ns + [n]) == NumbersText(ns) + Decimal(n) + "\n"
    decreases ns
  {
    if ns == [] {
      assert [] + [n] == [n] && [n][1..] == [];
    } else {
      NumbersGrow(ns[1..], n);
      hide Decimal;
      assert (ns + [n])[1..] == ns[1..] + [n];
      assert Decimal(ns[0]) + "\n" + (NumbersText(ns[1..]) + Decimal(n) + "\n") ==
             Decimal(ns[0]) + "\n" + NumbersText(ns[1..]) + Decimal(n) + "\n";
    }
  }

  /** The map that assignments in this order make. */
  function MapOf(es: seq<Entry>): map<string, int> {
    if es == [] then map[] else MapOf(es[..|es| - 1])[es[|es| - 1].key := es[|es| - 1].place]
  }

  // ---------------------------------------------------------------- records

  function Bucket(key: string): (b: nat)
    ensures b < TOTALFILES
  {
    if key != "" && 'A' <= key[0] <= 'Z' then key[0] as int - 'A' as int
    else if key != "" && 'a' <= key[0] <= 'z' then key[0] as int - 'a' as int + 26
    else 52
  }

  function Padded(s: string): (r: string)
    requires |s| < FIELD
    ensures |r| == FIELD
  {
    s + seq(FIELD - |s|, _ => ' ')
  }

  /** The C string that starts with these characters. */
  function CString(s: string): string {
    if s == "" || s[0] == 0 as char then "" else [s[0]] + CString(s[1..])
  }

  /** trim: what stands before the first space, or everything. */
  function Trim(s: string): string {
    if s == "" || s[0] == ' ' then "" else [s[0]] + Trim(s[1..])
  }

  /** What stands before the first space or NUL of a value, or all of it. */
  function Shown(v: string): string {
    if v == "" || v[0] == ' ' || v[0] == 0 as char then "" else [v[0]] + Shown(v[1..])
  }

  lemma {:induction false} ValueReads(v: string, tail: string)
    requires tail != "" && tail[0] == ' '
    ensures Trim(CString(v + tail)) == Shown(v)
    decreases v
  {
    if v == "" {
      assert v + tail == tail;
    } else {
      assert (v + tail)[1..] == v[1..] + tail;
      ValueReads(v[1..], tail);
    }
  }

  /** Whatever follows the field in memory, a get shows the value up to its first space or NUL. */
  lemma FieldReads(v: string, junk: string)
    requires |v| < FIELD
    ensures Trim(CString(Padded(v) + junk)) == Shown(v)
  {
    var tail := seq(FIELD - |v|, _ => ' ') + junk;
    assert Padded(v) + junk == v + tail;
    ValueReads(v, tail);
  }

  /** So a value comes back as it was put exactly when it has no space and no NUL. */
  lemma {:induction false} ShownWhole(v: string)
    ensures Shown(v) == v <==> forall i :: 0 <= i < |v| ==> v[i] != ' ' && v[i] != 0 as char
    decreases v
  {
    if v != "" && v[0] != ' ' && v[0] != 0 as char {
      ShownWhole(v[1..]);
      assert v == [v[0]] + v[1..];
      assert forall i :: 0 <= i < |v[1..]| ==> v[1..][i] == v[i + 1];
      assert forall i :: 0 < i < |v| ==> v[i] == v[1..][i - 1];
    }
  }

  ghost predicate LocationsOk(m: map<string, int>) {
    forall k :: k in m ==> m[k] >= 0
  }

  ghost predicate KeysOk(es: seq<Entry>) {
    forall i :: 0 <= i < |es| ==> KeyText(es[i].key)
  }

  ghost predicate AllWords(keys: set<string>) {
    forall k :: k in keys ==> KeyText(k)
  }

  /** The loop of contexttofile over the map, in whatever order. */
  method ContextOf(m: map<string, int>) returns (text: string, ghost es: seq<Entry>)
    requires LocationsOk(m)
    ensures PlacesOk(es) && text == ContextText(es) && MapOf(es) == m && (AllWords(m.Keys) ==> KeysOk(es))
  {
    es, text := [], "";
    var rest := m.Keys;
    assert (map k | k in m && k !in rest :: m[k]) == map[];
    while rest != {}
      invariant rest <= m.Keys && PlacesOk(es) && text == ContextText(es) && (AllWords(m.Keys) ==> KeysOk(es))
      invariant MapOf(es) == map k | k in m && k !in rest :: m[k]
      decreases rest
    {
      var k :| k in rest;
      var e := Entry(k, m[k]);
      hide ContextText, EntryText, KeyText;
      ContextGrows(es, e);
      text := text + EntryText(e);
      MapGrows(es, e);
      es := es + [e];
      rest := rest - {k};
    }
  }

  /** The loop of >> key >> offset. */
  method LoadMap(text: string) returns (m: map<string, int>)
    ensures m == MapOf(ReadEntries(text, 0))
  {
    hide GetWord, GetInt, ReadEntries, MapOf;
    m := map[];
    ghost var done: seq<Entry> := [];
    var i := 0;
    var key := GetWord(text, i);
    LoadStart(text);
    while key.Some?
      invariant i <= |text| && key == GetWord(text, i)
      invariant ReadEntries(text, 0) == done + ReadEntries(text, i) && m == MapOf(done)
      decreases |text| - i
    {
      LoadStep(text, i, done);
      var offset := GetInt(text, key.value.next);
      if offset.None? {
        return;
      }
      var e := Entry(key.value.value, offset.value.value);
      m := m[e.key := e.place];
      done := done + [e];
      i := offset.value.next;
      key := GetWord(text, i);
    }
    LoadStep(text, i, done);
  }

  lemma LoadStart(text: string)
    ensures ReadEntries(text, 0) == [] + ReadEntries(text, 0) && MapOf([]) == map[]
  {
  }

  /** What one turn of the loop reads. */
  lemma LoadStep(text: string, i: nat, done: seq<Entry>)
    requires i <= |text|
    ensures GetWord(text, i).None? ==> done + ReadEntries(text, i) == done
    ensures GetWord(text, i).Some? && GetInt(text, GetWord(text, i).value.next).None? ==>
        done + ReadEntries(text, i) == done
    ensures GetWord(text, i).Some? && GetInt(text, GetWord(text, i).value.next).Some? ==>
              var k, n := GetWord(text, i).value, GetInt(text, GetWord(text, i).value.next).value;
              var e := Entry(k.value, n.value);
              && done + ReadEntries(text, i) == done + [e] + ReadEntries(text, n.next)
              && MapOf(done + [e]) == MapOf(done)[e.key := e.place]
  {
    hide GetWord, GetInt, ReadEntries, MapOf;
    if GetWord(text, i).Some? && GetInt(text, GetWord(text, i).value.next).Some? {
      var k, n := GetWord(text, i).value, GetInt(text, GetWord(text, i).value.next).value;
      var e := Entry(k.value, n.value);
      MapGrows(done, e);
      EntriesStep(text, i, e, k.next, n.next);
      assert done + ([e] + ReadEntries(text, n.next)) == done + [e] + ReadEntries(text, n.next);
    } else {
      EntriesStop(text, i);
    }
  }

  lemma MapGrows(es: seq<Entry>, e: Entry)
    ensures MapOf(es + [e]) == MapOf(es)[e.key := e.place]
  {
    assert (es + [e])[..|es|] == es;
  }

  // ---------------------------------------------------------------- the store

  class Store {
    /** The bucket files, and the two text files. */
    var files: seq<string>
    var filecontext: string
    var fileoffset: string
    /** The server's memory. */
    var filelocationmap: map<string, int>
    var fileoffsets: seq<nat>

    ghost var contents: map<string, string>

    /** Record n of a file holds this value. */
    static ghost predicate Holds(file: string, n: int, v: string) {
      |v| < FIELD && 0 <= n && RECORD * n + RECORD <= |file|
          && file[RECORD * n + FIELD..RECORD * n + RECORD] == Padded(v)
    }

    ghost predicate FilesOk()
      reads this
    {
      |files| == TOTALFILES && |fileoffsets| == TOTALFILES &&
      forall b :: 0 <= b < TOTALFILES ==> |files[b]| == RECORD * fileoffsets[b]
    }

    ghost predicate KeyOk(k: string)
      reads this
      requires |files| == TOTALFILES
    {
      k in contents && k in filelocationmap && Holds(files[Bucket(k)], filelocationmap[k], contents[k])
    }

    ghost predicate Valid()
      reads this
    {
      FilesOk() && filelocationmap.Keys == contents.Keys && forall k :: k in contents ==> KeyOk(k)
    }

    constructor ()
      ensures Valid() && contents == map[]
    {
      files, filecontext, fileoffset := seq(TOTALFILES, _ => ""), "", "";
      filelocationmap, fileoffsets, contents := map[], seq(TOTALFILES, _ => 0), map[];
    }

    method Putkey(key: string, value: string)
      requires Valid() && |key| < FIELD && |value| < FIELD
      modifies this`files, this`filelocationmap, this`fileoffsets, this`contents
      ensures Valid() && contents == old(contents)[key := value]
    {
      var b := Bucket(key);
      var record := Padded(key) + Padded(value);
      ghost var was := files;
      files := files[b := files[b] + record];
      filelocationmap := filelocationmap[key := fileoffsets[b]];
      fileoffsets := fileoffsets[b := fileoffsets[b] + 1];
      contents := contents[key := value];
      forall k | k in contents ensures KeyOk(k) {
        if k == key {
          Appended(was[b], record, value);
        } else {
          assert old(KeyOk(k));
          StillHolds(was[Bucket(k)], record, filelocationmap[k], contents[k]);
        }
      }
    }

    /** `junk` is what lies behind the buffer in memory. */
    method Getkey(key: string, junk: string) returns (r: string)
      requires Valid()
      ensures r == if key in contents then Shown(contents[key]) else "-1"
    {
      if key !in filelocationmap {
        return "-1";
      }
      assert KeyOk(key);
      var valueindex := filelocationmap[key] * RECORD + FIELD;
      var valuebuffer := files[Bucket(key)][valueindex..valueindex + FIELD];
      FieldReads(contents[key], junk);
      return Trim(CString(valuebuffer + junk));
    }

    method Deletekey(key: string) returns (r: int)
      requires Valid()
      modifies this`filelocationmap, this`contents
      ensures Valid() && contents == old(contents) - {key} && r == if key in old(contents) then 1 else 0
    {
      if key in filelocationmap {
        filelocationmap := filelocationmap - {key};
        contents := contents - {key};
        r := 1;
      } else {
        r := 0;
      }
      assert forall k :: k in contents ==> old(KeyOk(k));
    }

    /** contexttofile: the map, one line a key, and the counters. */
    method Contexttofile() returns (ghost es: seq<Entry>)
      requires Valid()
      modifies this`filecontext, this`fileoffset
      ensures Valid() && PlacesOk(es) && filecontext == ContextText(es) && MapOf(es) == filelocationmap
      ensures AllWords(filelocationmap.Keys) ==> KeysOk(es)
      ensures fileoffset == NumbersText(fileoffsets)
    {
      assert LocationsOk(filelocationmap) by {
        assert forall k :: k in filelocationmap ==> KeyOk(k);
      }
      var text;
      text, es := ContextOf(filelocationmap);
      filecontext := text;
      SaveOffsets();
    }

    method SaveOffsets()
      requires Valid()
      modifies this`fileoffset
      ensures Valid() && fileoffset == NumbersText(fileoffsets)
    {
      fileoffset := "";
      var i := 0;
      while i < TOTALFILES
        invariant 0 <= i <= TOTALFILES && Valid() && fileoffset == NumbersText(fileoffsets[..i])
      {
        NumbersGrow(fileoffsets[..i], fileoffsets[i]);
        assert fileoffsets[..i + 1] == fileoffsets[..i] + [fileoffsets[i]];
        fileoffset := fileoffset + Decimal(fileoffsets[i]) + "\n";
        i := i + 1;
      }
      assert fileoffsets[..i] == fileoffsets;
    }

    /** initializefileinfo in a new process: the two read loops. Counters that the file does not
        mention stay 0; more than TOTALFILES would not fit the array. */
    method Initializefileinfo()
      requires filelocationmap == map[] && fileoffsets == seq(TOTALFILES, _ => 0)
      requires |ReadNumbers(fileoffset, 0)| <= TOTALFILES
      modifies this`filelocationmap, this`fileoffsets
      ensures filelocationmap == MapOf(ReadEntries(filecontext, 0))
      ensures var all := ReadNumbers(fileoffset, 0); fileoffsets == all + seq(TOTALFILES - |all|, _ => 0)
    {
      var m := LoadMap(filecontext);
      filelocationmap := m;
      LoadOffsets();
    }

    method LoadOffsets()
      requires |ReadNumbers(fileoffset, 0)| <= |fileoffsets| == TOTALFILES
      modifies this`fileoffsets
      ensures var all := ReadNumbers(fileoffset, 0); fileoffsets == all + old(fileoffsets)[|all|..]
    {
      hide GetInt, ReadNumbers;
      ghost var all := ReadNumbers(fileoffset, 0);
      var i, n := 0, 0;
      var o := GetInt(fileoffset, i);
      while o.Some?
        invariant i <= |fileoffset| && o == GetInt(fileoffset, i) && 0 <= n <= |all|
        invariant all[n..] == ReadNumbers(fileoffset, i)
        invariant fileoffsets == all[..n] + old(fileoffsets)[n..]
        decreases |fileoffset| - i
      {
        NumbersStep(fileoffset, i, o.value.value, o.value.next);
        NumberRead(all, n, o.value.value, ReadNumbers(fileoffset, o.value.next), old(fileoffsets));
        fileoffsets := fileoffsets[n := o.value.value];
        n := n + 1;
        i := o.value.next;
        o := GetInt(fileoffset, i);
      }
      NumbersStop(fileoffset, i);
      assert n == |all| && all[..n] == all;
    }

    /** The server saves its context and ends; a new one loads it. The files stay. Nothing is lost
        exactly when every key is a word. */
    method Restart()
      requires Valid()
      modifies this`filecontext, this`fileoffset, this`filelocationmap, this`fileoffsets
      ensures contents == old(contents) && fileoffsets == old(fileoffsets)
      ensures filelocationmap == old(filelocationmap) <==> AllWords(contents.Keys)
      ensures AllWords(contents.Keys) ==> Valid()
      ensures forall k :: k in contents && !KeyText(k) ==> k !in filelocationmap
    {
      hide ReadEntries, ReadNumbers, MapOf, ContextText, NumbersText, KeysOk, PlacesOk, KeyText;
      assert |fileoffsets| == TOTALFILES && filelocationmap.Keys == contents.Keys;
      hide Valid;
      ghost var es := Contexttofile();
      OffsetsRead(fileoffset, fileoffsets);
      if AllWords(contents.Keys) {
        SavedReads(filecontext, es);
      }
      LoadedKeys(filecontext);
      filelocationmap := map[];
      fileoffsets := seq(TOTALFILES, _ => 0);
      Initializefileinfo();
      if AllWords(contents.Keys) {
        SameValid();
      }
    }

    /** Valid depends on the files, the map, the counters and the contents. */
    twostate lemma SameValid()
      requires old(Valid()) && files == old(files) && contents == old(contents)
      requires filelocationmap == old(filelocationmap) && fileoffsets == old(fileoffsets)
      ensures Valid()
    {
      assert forall k :: k in contents ==> old(KeyOk(k));
    }
  }

  lemma SavedReads(context: string, es: seq<Entry>)
    requires PlacesOk(es) && KeysOk(es) && context == ContextText(es)
    ensures ReadEntries(context, 0) == es
  {
    assert context[0..0 + |context|] == context;
    ContextReads(context, 0, es);
  }

  lemma OffsetsRead(offsets: string, ns: seq<nat>)
    requires offsets == NumbersText(ns)
    ensures ReadNumbers(offsets, 0) == ns
  {
    assert offsets[0..0 + |offsets|] == offsets;
    NumbersRead(offsets, 0, ns);
  }

  lemma {:induction false} WordChars(s: string, i: nat, k: nat)
    requires i <= |s| && i <= k < WordEnd(s, i)
    ensures !Space(s[k])
    decreases k - i
  {
    if i < k {
      WordChars(s, i + 1, k);
    }
  }

  lemma WordIsKey(s: string, i: nat)
    requires i <= |s| && GetWord(s, i).Some?
    ensures KeyText(GetWord(s, i).value.value)
  {
    var a := SkipSpace(s, i);
    var b := WordEnd(s, a);
    forall k | a <= k < b ensures !Space(s[k]) {
      WordChars(s, a, k);
    }
  }

  lemma {:induction false} ReadKeys(s: string, i: nat)
    requires i <= |s|
    ensures KeysOk(ReadEntries(s, i))
    decreases |s| - i
  {
    hide GetWord, GetInt, KeyText;
    if GetWord(s, i).Some? && GetInt(s, GetWord(s, i).value.next).Some? {
      WordIsKey(s, i);
      ReadKeys(s, GetInt(s, GetWord(s, i).value.next).value.next);
    }
  }

  lemma {:induction false} MapKeys(es: seq<Entry>)
    requires KeysOk(es)
    ensures AllWords(MapOf(es).Keys)
    decreases |es|
  {
    hide KeyText;
    if es != [] {
      MapKeys(es[..|es| - 1]);
    }
  }

  /** Only words come back from the context file. */
  lemma LoadedKeys(context: string)
    ensures AllWords(MapOf(ReadEntries(context, 0)).Keys)
  {
    ReadKeys(context, 0);
    MapKeys(ReadEntries(context, 0));
  }

  /** A value with a space is cut at the next get. */
  lemma SpacedValueCut()
    ensures Shown("a b") == "a"
  {
    var v := "a b";
    assert v[1..] == " b";
  }

  /** A key with a space is lost at the next start. */
  lemma SpacedKeyLost()
    ensures ReadEntries(ContextText([Entry("a b", 0)]), 0) == []
  {
    var es := [Entry("a b", 0)];
    assert Decimal(0) == "0" && es[1..] == [];
    assert ContextText(es) == "a b 0\n";
    var s := "a b 0\n";
    assert WordEnd(s, 0) == 1 && SkipSpace(s, 1) == 2 && DigitsEnd(s, 2) == 2;
  }

  // ---------------------------------------------------------------- whole runs

  datatype Op = PutOp(key: string, value: string) | DelOp(key: string) | GetOp(key: string) | RestartOp

  ghost predicate OpOk(op: Op) {
    op.PutOp? ==> |op.key| < FIELD && |op.value| < FIELD
  }

  /** What a map of keys to values would answer: the value as far as it is shown, -1 for a key that
      is not there. */
  function Replay(ops: seq<Op>): (map<string, string>, seq<string>) {
    if ops == [] then (map[], [])
    else
      var (m, answers) := Replay(ops[..|ops| - 1]);
      match ops[|ops| - 1]
      case PutOp(k, v) => (m[k := v], answers)
      case DelOp(k) => (m - {k}, answers)
      case GetOp(k) => (m, answers + [if k in m then Shown(m[k]) else "-1"])
      case RestartOp => (m, answers)
  }

  /** Every restart finds keys that are words. */
  ghost predicate RestartsOk(ops: seq<Op>) {
    forall i :: 0 <= i < |ops| && ops[i].RestartOp? ==> AllWords(Replay(ops[..i]).0.Keys)
  }

  /** Every run of puts, deletes, gets and restarts gives the answers of the map, whatever lies in
      memory behind the read buffer at each get. */
  method Run(ops: seq<Op>, junk: nat -> string) returns (answers: seq<string>)
    requires (forall i :: 0 <= i < |ops| ==> OpOk(ops[i])) && RestartsOk(ops)
    ensures answers == Replay(ops).1
  {
    var store := new Store();
    answers := [];
    var i := 0;
    while i < |ops|
      invariant 0 <= i <= |ops| && store.Valid() && (store.contents, answers) == Replay(ops[..i])
    {
      hide Store.Valid, AllWords;
      assert ops[..i + 1][..i] == ops[..i];
      match ops[i] {
        case PutOp(k, v) => store.Putkey(k, v);
        case DelOp(k) => var _ := store.Deletekey(k);
        case GetOp(k) =>
          var a := store.Getkey(k, junk(i));
          answers := answers + [a];
        case RestartOp => store.Restart();
      }
      i := i + 1;
    }
    assert ops[..i] == ops;
  }

  lemma Appended(file: string, record: string, v: string)
    requires |file| % RECORD == 0 && |v| < FIELD && |record| == RECORD && record[FIELD..] == Padded(v)
    ensures Store.Holds(file + record, |file| / RECORD, v)
  {
    var n := |file| / RECORD;
    assert RECORD * n == |file|;
    assert (file + record)[RECORD * n + FIELD..RECORD * n + RECORD] == record[FIELD..];
  }

  lemma StillHolds(file: string, record: string, n: int, v: string)
    requires Store.Holds(file, n, v)
    ensures Store.Holds(file + record, n, v)
  {
    assert (file + record)[RECORD * n + FIELD..RECORD * n + RECORD] == file[RECORD * n + FIELD..RECORD * n + RECORD];
  }
}
