/** The grammar of the shell's command lines (xv6-public/sh.c lines 328-446), apart from the routines
    that parse it: words and redirections in any order, pipelines, background commands, lists and
    parentheses. The parser accepts exactly the lines of the grammar and gives each its meaning, and
    every line of the grammar can be written with any white space. */
module ShellGrammar {
  import opened Options
  import opened Shell
  import opened Substrings

  // ---------------------------------------------------------------- tokens

  /** A symbol, with '+' for >>, or a word. */
  datatype Tx = Sym(c: char) | Wd(w: string)

  /** All the tokens from position i on. */
  function Lex(s: string, i: nat): seq<Tx>
    requires i <= |s|
    decreases |s| - i
  {
    var t := GetToken(s, i);
    if t.kind == NUL then []
    else [if t.kind == WORD then Wd(s[t.span.q..t.span.eq]) else Sym(t.kind)] + Lex(s, t.next)
  }

  predicate StartsWith(ts: seq<Tx>, cs: string) {
    ts != [] && ts[0].Sym? && ts[0].c in cs
  }

  lemma SkipTwice(s: string, i: nat)
    requires i <= |s|
    ensures Skip(s, Skip(s, i)) == Skip(s, i) && GetToken(s, Skip(s, i)) == GetToken(s, i)
    ensures Lex(s, Skip(s, i)) == Lex(s, i)
  {
  }

  /** Looking at the next character is looking at the next token. */
  lemma PeekLex(s: string, i: nat)
    requires i <= |s|
    ensures Peek(s, i, "<>") <==> StartsWith(Lex(s, i), "<>+")
    ensures Peek(s, i, "|)&;") <==> StartsWith(Lex(s, i), "|)&;")
    ensures Peek(s, i, "(") <==> StartsWith(Lex(s, i), "(")
    ensures Peek(s, i, ")") <==> StartsWith(Lex(s, i), ")")
    ensures Peek(s, i, "|") <==> StartsWith(Lex(s, i), "|")
    ensures Peek(s, i, "&") <==> StartsWith(Lex(s, i), "&")
    ensures Peek(s, i, ";") <==> StartsWith(Lex(s, i), ";")
  {
  }

  // ---------------------------------------------------------------- the grammar

  /** A word, or a redirection: < or > or >>, and its file. */
  datatype Item = Word(w: string) | To(kind: char, file: string)

  datatype Unit = Simple(items: seq<Item>) | Group(line: Line, rds: seq<Item>)

  datatype Pipeline = One(unit: Unit) | Bar(unit: Unit, more: Pipeline)

  /** A pipeline, its ampersands, and perhaps a semicolon and more. */
  datatype Line = Last(p: Pipeline, amps: nat) | Semi(p: Pipeline, amps: nat, more: Line)

  /** The words in order, and the redirections in order: output or input, and the file. */
  function WordsOf(items: seq<Item>): seq<string> {
    if items == [] then []
    else WordOf(items[0]) + WordsOf(items[1..])
  }

  function WordOf(x: Item): seq<string> {
    if x.Word? then [x.w] else []
  }

  function FilesOf(items: seq<Item>): seq<(bool, string)> {
    if items == [] then []
    else FileOf(items[0]) + FilesOf(items[1..])
  }

  function FileOf(x: Item): seq<(bool, string)> {
    if x.To? then [(x.kind != '<', x.file)] else []
  }

  predicate ItemsOk(items: seq<Item>) {
    forall k :: 0 <= k < |items| && items[k].To? ==> items[k].kind in "<>+"
  }

  predicate OnlyFiles(items: seq<Item>) {
    forall k :: 0 <= k < |items| ==> items[k].To?
  }

  /** At most nine words a command, and only redirections behind a parenthesis. */
  predicate UnitOk(u: Unit)
    decreases u
  {
    match u
    case Simple(items) => ItemsOk(items) && |WordsOf(items)| < MAXARGS
    case Group(l, rds) => LineOk(l) && ItemsOk(rds) && OnlyFiles(rds)
  }

  predicate PipelineOk(p: Pipeline)
    decreases p
  {
    UnitOk(p.unit) && (p.Bar? ==> PipelineOk(p.more))
  }

  predicate LineOk(l: Line)
    decreases l
  {
    PipelineOk(l.p) && (l.Semi? ==> LineOk(l.more))
  }

  // ---------------------------------------------------------------- how it is written

  function ItemToks(x: Item): seq<Tx> {
    if x.Word? then [Wd(x.w)] else [Sym(x.kind), Wd(x.file)]
  }

  function ItemsToks(items: seq<Item>): seq<Tx> {
    if items == [] then [] else ItemToks(items[0]) + ItemsToks(items[1..])
  }

  function UnitToks(u: Unit): seq<Tx>
    decreases u
  {
    match u
    case Simple(items) => ItemsToks(items)
    case Group(l, rds) => [Sym('(')] + (LineToks(l) + ([Sym(')')] + ItemsToks(rds)))
  }

  function PipelineToks(p: Pipeline): seq<Tx>
    decreases p
  {
    if p.One? then UnitToks(p.unit) else UnitToks(p.unit) + ([Sym('|')] + PipelineToks(p.more))
  }

  function Amps(n: nat): seq<Tx> {
    if n == 0 then [] else [Sym('&')] + Amps(n - 1)
  }

  function LineToks(l: Line): seq<Tx>
    decreases l
  {
    if l.Last? then PipelineToks(l.p) + Amps(l.amps)
    else PipelineToks(l.p) + (Amps(l.amps) + ([Sym(';')] + LineToks(l.more)))
  }

  // ---------------------------------------------------------------- what it means

  /** A command with redirections around it, the last one outermost. */
  function Around(t: Tree, files: seq<(bool, string)>): Tree {
    if files == [] then t
    else RedirTree(Around(t, files[..|files| - 1]), files[|files| - 1].1, files[|files| - 1].0)
  }

  function UnitTree(u: Unit): Tree
    decreases u
  {
    match u
    case Simple(items) => Around(ExecTree(WordsOf(items)), FilesOf(items))
    case Group(l, rds) => Around(LineTree(l), FilesOf(rds))
  }

  function PipelineTree(p: Pipeline): Tree
    decreases p
  {
    if p.One? then UnitTree(p.unit) else PipeTree(UnitTree(p.unit), PipelineTree(p.more))
  }

  function InBack(t: Tree, n: nat): Tree {
    if n == 0 then t else BackTree(InBack(t, n - 1))
  }

  function LineTree(l: Line): Tree
    decreases l
  {
    var first := InBack(PipelineTree(l.p), l.amps);
    if l.Last? then first else ListTree(first, LineTree(l.more))
  }

  // ---------------------------------------------------------------- redirections

  /** The redirections of a command as text. */
  function FilesRead(s: string, rds: seq<Rd>): seq<(bool, string)> {
    seq(|rds|, k requires 0 <= k < |rds| => (rds[k].out, Text(s, rds[k].file)))
  }

  lemma {:induction false} WrapLast(c: Cmd, rds: seq<Rd>, r: Rd)
    ensures Wrap(c, rds + [r]) == Redir(Wrap(c, rds), r.file, r.out)
    decreases rds
  {
    if rds == [] {
      assert (rds + [r])[1..] == [];
    } else {
      WrapLast(Redir(c, rds[0].file, rds[0].out), rds[1..], r);
      assert (rds + [r])[1..] == rds[1..] + [r];
    }
  }

  lemma {:induction false} WrapTree(s: string, c: Cmd, rds: seq<Rd>)
    ensures TreeOf(s, Wrap(c, rds)) == Around(TreeOf(s, c), FilesRead(s, rds))
    decreases |rds|
  {
    if rds != [] {
      var most, r := rds[..|rds| - 1], rds[|rds| - 1];
      assert most + [r] == rds;
      WrapLast(c, most, r);
      WrapTree(s, c, most);
      assert FilesRead(s, rds)[..|rds| - 1] == FilesRead(s, most);
    }
  }

  lemma WrapNone(c: Cmd)
    ensures Wrap(c, []) == c
  {
  }

  // ---------------------------------------------------------------- the parser accepts the grammar

  lemma LexHead(s: string, i: nat, x: Tx, ts: seq<Tx>)
    requires i <= |s| && Lex(s, i) == [x] + ts
    ensures var t := GetToken(s, i);
            && t.kind != NUL && Lex(s, t.next) == ts
            && (if x.Wd? then t.kind == WORD && Text(s, t.span) == x.w else t.kind == x.c && t.kind != WORD)
  {
    var t := GetToken(s, i);
    assert Lex(s, i)[0] == x && Lex(s, i)[1..] == ts;
    assert Lex(s, i)[1..] == Lex(s, t.next);
  }

  lemma ItemsFirst(a: seq<Item>, b: seq<Item>)
    requires a != []
    ensures a + b != [] && (a + b)[0] == a[0] && (a + b)[1..] == a[1..] + b
  {
  }

  lemma WordsAt(a: seq<Item>)
    requires a != []
    ensures WordsOf(a) == WordOf(a[0]) + WordsOf(a[1..])
  {
  }

  lemma FilesAt(a: seq<Item>)
    requires a != []
    ensures FilesOf(a) == FileOf(a[0]) + FilesOf(a[1..])
  {
  }

  lemma Regroup<T>(a: seq<T>, b: seq<T>, c: seq<T>, d: seq<T>)
    ensures a + (b + (c + d)) == (a + (b + c)) + d
  {
  }

  lemma {:induction false} ToksSplit(a: seq<Item>, b: seq<Item>)
    ensures ItemsToks(a + b) == ItemsToks(a) + ItemsToks(b)
    decreases a
  {
    if a == [] {
      assert a + b == b;
    } else {
      hide ItemToks;
      ToksSplit(a[1..], b);
      ItemsFirst(a, b);
      assert ItemsToks(a + b) == ItemToks(a[0]) + (ItemsToks(a[1..]) + ItemsToks(b));
    }
  }

  lemma {:induction false} WordsSplit(a: seq<Item>, b: seq<Item>)
    ensures WordsOf(a + b) == WordsOf(a) + WordsOf(b)
    decreases a
  {
    hide WordsOf, WordOf;
    if a == [] {
      assert a + b == b;
      NoItems([]);
    } else {
      WordsSplit(a[1..], b);
      ItemsFirst(a, b);
      WordsAt(a);
      WordsAt(a + b);
      assert WordsOf(a + b) == WordOf(a[0]) + (WordsOf(a[1..]) + WordsOf(b));
    }
  }

  lemma {:induction false} FilesSplit(a: seq<Item>, b: seq<Item>)
    ensures FilesOf(a + b) == FilesOf(a) + FilesOf(b)
    decreases a
  {
    hide FilesOf, FileOf;
    if a == [] {
      assert a + b == b;
      NoItems([]);
    } else {
      FilesSplit(a[1..], b);
      ItemsFirst(a, b);
      FilesAt(a);
      FilesAt(a + b);
      assert FilesOf(a + b) == FileOf(a[0]) + (FilesOf(a[1..]) + FilesOf(b));
    }
  }

  lemma ItemsSplit(a: seq<Item>, b: seq<Item>)
    ensures ItemsToks(a + b) == ItemsToks(a) + ItemsToks(b)
    ensures WordsOf(a + b) == WordsOf(a) + WordsOf(b) && FilesOf(a + b) == FilesOf(a) + FilesOf(b)
  {
    ToksSplit(a, b);
    WordsSplit(a, b);
    FilesSplit(a, b);
  }

  lemma {:induction false} OnlyFilesWords(items: seq<Item>)
    requires OnlyFiles(items)
    ensures WordsOf(items) == []
    decreases items
  {
    if items != [] {
      OnlyFilesWords(items[1..]);
    }
  }

  /** Redirections parse to their files, in order. */
  lemma {:induction false} RedirsOf(s: string, i: nat, items: seq<Item>, rest: seq<Tx>)
    requires i <= |s| && Lex(s, i) == ItemsToks(items) + rest && ItemsOk(items) && OnlyFiles(items)
    requires !StartsWith(rest, "<>+")
    ensures Redirs(s, i).Some? && Lex(s, Redirs(s, i).value.1) == rest
    ensures FilesRead(s, Redirs(s, i).value.0) == FilesOf(items)
    decreases items
  {
    hide GetToken, Lex, Text, Redirs, FilesRead;
    if items == [] {
      assert ItemsToks(items) + rest == rest;
      NoRedirs(s, i);
    } else {
      var x, more := items[0], ItemsToks(items[1..]) + rest;
      assert Lex(s, i) == [Sym(x.kind)] + ([Wd(x.file)] + more);
      RedirsStep(s, i, x, more);
      hide FilesOf, ItemsToks;
      RedirsOf(s, GetToken(s, GetToken(s, i).next).next, items[1..], rest);
      FilesFirst(items);
    }
  }

  lemma FilesFirst(items: seq<Item>)
    requires items != [] && items[0].To?
    ensures FilesOf(items) == [(items[0].kind != '<', items[0].file)] + FilesOf(items[1..])
  {
  }

  lemma NoRedirs(s: string, i: nat)
    requires i <= |s| && !StartsWith(Lex(s, i), "<>+")
    ensures Redirs(s, i).Some? && Lex(s, Redirs(s, i).value.1) == Lex(s, i) && FilesRead(s, Redirs(s, i).value.0) == []
  {
    PeekLex(s, i);
    SkipTwice(s, i);
  }

  lemma RedirsStep(s: string, i: nat, x: Item, more: seq<Tx>)
    requires i <= |s| && x.To? && x.kind in "<>+" && Lex(s, i) == [Sym(x.kind)] + ([Wd(x.file)] + more)
    ensures var j := GetToken(s, GetToken(s, i).next).next;
            && i < j <= |s| && Lex(s, j) == more
            && (Redirs(s, j).Some? ==>
                  && Redirs(s, i).Some? && Redirs(s, i).value.1 == Redirs(s, j).value.1
                  && FilesRead(s, Redirs(s, i).value.0)
                  == [(x.kind != '<', x.file)] + FilesRead(s, Redirs(s, j).value.0))
  {
    hide Lex, Text, FilesRead, Skip, Peek;
    PeekLex(s, i);
    LexHead(s, i, Sym(x.kind), [Wd(x.file)] + more);
    var t := GetToken(s, i);
    LexHead(s, t.next, Wd(x.file), more);
    var f := GetToken(s, t.next);
    hide GetToken;
    if Redirs(s, f.next).Some? {
      var r, rds := Rd(f.span, t.kind != '<'), Redirs(s, f.next).value.0;
      assert Redirs(s, i).value.0 == [r] + rds;
      FilesReadFirst(s, r, rds);
    }
  }

  lemma FilesReadFirst(s: string, r: Rd, rds: seq<Rd>)
    ensures FilesRead(s, [r] + rds) == [(r.out, Text(s, r.file))] + FilesRead(s, rds)
  {
    hide Text;
  }

  /** How many redirections come first. */
  function Lead(items: seq<Item>): (k: nat)
    ensures k <= |items| && OnlyFiles(items[..k]) && (k < |items| ==> items[k].Word?)
  {
    if items == [] || items[0].Word? then 0 else
      var k := Lead(items[1..]);
      assert items[..1 + k] == [items[0]] + items[1..][..k];
      1 + k
  }

  predicate Stops(ts: seq<Tx>) {
    ts == [] || StartsWith(ts, "|)&;")
  }

  lemma {:induction false} TextsMore(s: string, words: seq<Span>, sp: Span)
    ensures Texts(s, words + [sp]) == Texts(s, words) + [Text(s, sp)]
    decreases words
  {
    if words == [] {
      assert (words + [sp])[1..] == [];
    } else {
      TextsMore(s, words[1..], sp);
      assert (words + [sp])[1..] == words[1..] + [sp];
    }
  }

  lemma FilesReadMore(s: string, a: seq<Rd>, b: seq<Rd>)
    ensures FilesRead(s, a + b) == FilesRead(s, a) + FilesRead(s, b)
  {
  }

  /** What parseexec's loop has collected. */
  ghost function Collected(s: string, words: seq<Span>, rds: seq<Rd>, items: seq<Item>): Tree {
    Around(ExecTree(Texts(s, words) + WordsOf(items)), FilesRead(s, rds) + FilesOf(items))
  }

  lemma CollectedDone(s: string, words: seq<Span>, rds: seq<Rd>)
    ensures TreeOf(s, Wrap(Exec(words), rds)) == Collected(s, words, rds, [])
  {
    WrapTree(s, Exec(words), rds);
    assert Texts(s, words) + [] == Texts(s, words) && FilesRead(s, rds) + [] == FilesRead(s, rds);
  }

  lemma ArgsDone(s: string, i: nat, rest: seq<Tx>, words: seq<Span>, rds: seq<Rd>)
    requires i <= |s| && Lex(s, i) == rest && Stops(rest)
    ensures var r := Args(s, i, words, rds);
            r.Some? && Lex(s, r.value.1) == rest && r.value.0 == Wrap(Exec(words), rds)
  {
    PeekLex(s, i);
    SkipTwice(s, i);
  }

  /** Words and redirections in any order, collected in order. */
  lemma {:induction false} ArgsOf(s: string, i: nat, items: seq<Item>, rest: seq<Tx>, words: seq<Span>, rds: seq<Rd>)
    requires i <= |s| && Lex(s, i) == ItemsToks(items) + rest && ItemsOk(items) && Lead(items) == 0 && Stops(rest)
    requires |words| + |WordsOf(items)| < MAXARGS
    ensures var r := Args(s, i, words, rds);
            r.Some? && Lex(s, r.value.1) == rest && TreeOf(s, r.value.0) == Collected(s, words, rds, items)
    decreases |items|
  {
    hide GetToken, Lex, Text, TreeOf, Collected, Redirs, Args, Around, FilesRead, WordsOf, FilesOf, ItemsToks, Lead;
    if items == [] {
      NoItems(rest);
      ArgsDone(s, i, rest, words, rds);
      CollectedDone(s, words, rds);
    } else {
      LeadWord(items);
      var k := Lead(items[1..]);
      var mids, tail := items[1..][..k], items[1..][k..];
      assert items[1..] == mids + tail;
      LeadRest(items, k);
      FirstWordIs(items, mids, tail);
      var after := ItemsToks(tail) + rest;
      assert [Wd(items[0].w)] + (ItemsToks(mids) + ItemsToks(tail)) + rest
          == [Wd(items[0].w)] + (ItemsToks(mids) + after);
      LexHead(s, i, Wd(items[0].w), ItemsToks(mids) + after);
      var t := GetToken(s, i);
      TokenNext(s, i);
      TailStarts(tail, rest);
      RedirsOf(s, t.next, mids, after);
      var more := Redirs(s, t.next).value;
      ArgsStep(s, i, items[0].w, ItemsToks(mids) + after, words, rds);
      ArgsOf(s, more.1, tail, rest, words + [t.span], rds + more.0);
      CollectedStep(s, words, rds, t.span, more.0, items, mids, tail);
    }
  }

  lemma NoItems(rest: seq<Tx>)
    ensures ItemsToks([]) + rest == rest && WordsOf([]) == [] && FilesOf([]) == []
  {
  }

  lemma LeadWord(items: seq<Item>)
    requires items != [] && Lead(items) == 0
    ensures items[0].Word?
  {
  }

  lemma TokenNext(s: string, m: nat)
    requires m <= |s|
    ensures GetToken(s, m).next <= |s|
  {
  }

  /** One turn of the loop. */
  lemma ArgsStep(s: string, i: nat, w: string, toks: seq<Tx>, words: seq<Span>, rds: seq<Rd>)
    requires i <= |s| && Lex(s, i) == [Wd(w)] + toks && |words| + 1 < MAXARGS
    requires GetToken(s, i).next <= |s| && Redirs(s, GetToken(s, i).next).Some?
    ensures var t := GetToken(s, i);
            var more := Redirs(s, t.next).value;
            more.1 <= |s| && Args(s, i, words, rds) == Args(s, more.1, words + [t.span], rds + more.0)
  {
    hide GetToken, Skip, Peek, Lex, Text, Redirs;
    LexHead(s, i, Wd(w), toks);
    PeekLex(s, i);
  }

  lemma LeadRest(items: seq<Item>, k: nat)
    requires items != [] && k == Lead(items[1..])
    ensures Lead(items[1..][k..]) == 0 && (ItemsOk(items) ==> ItemsOk(items[1..][..k]) && ItemsOk(items[1..][k..]))
  {
  }

  lemma TailStarts(tail: seq<Item>, rest: seq<Tx>)
    requires Lead(tail) == 0 && Stops(rest)
    ensures !StartsWith(ItemsToks(tail) + rest, "<>+")
  {
    if tail == [] {
      assert ItemsToks(tail) + rest == rest;
    } else {
      assert (ItemsToks(tail) + rest)[0] == Wd(tail[0].w);
    }
  }

  lemma CollectedStep(s: string, words: seq<Span>, rds: seq<Rd>, sp: Span, more: seq<Rd>, items: seq<Item>,
                      mids: seq<Item>, tail: seq<Item>)
    requires items != [] && items[0] == Word(Text(s, sp)) && items[1..] == mids + tail && OnlyFiles(mids)
    requires FilesRead(s, more) == FilesOf(mids)
    ensures Collected(s, words + [sp], rds + more, tail) == Collected(s, words, rds, items)
  {
    hide Texts, FilesRead, Around, WordsOf, FilesOf, Text, ItemsToks;
    FirstWordIs(items, mids, tail);
    TextsMore(s, words, sp);
    FilesReadMore(s, rds, more);
    assert Texts(s, words) + [Text(s, sp)] + WordsOf(tail) == Texts(s, words) + ([Text(s, sp)] + WordsOf(tail));
    assert FilesRead(s, rds) + FilesOf(mids) + FilesOf(tail) == FilesRead(s, rds) + (FilesOf(mids) + FilesOf(tail));
  }

  lemma FirstWordIs(items: seq<Item>, mids: seq<Item>, tail: seq<Item>)
    requires items != [] && items[0].Word? && items[1..] == mids + tail && OnlyFiles(mids)
    ensures WordsOf(items) == [items[0].w] + WordsOf(tail) && FilesOf(items) == FilesOf(mids) + FilesOf(tail)
    ensures ItemsToks(items) == [Wd(items[0].w)] + (ItemsToks(mids) + ItemsToks(tail))
  {
    WordsSplit(mids, tail);
    FilesSplit(mids, tail);
    ToksSplit(mids, tail);
    OnlyFilesWords(mids);
  }

  /** A parser's answer: the tree, and the tokens it has left. */
  ghost predicate Parsed(s: string, r: Option<(Cmd, nat)>, t: Tree, rest: seq<Tx>) {
    r.Some? && r.value.1 <= |s| && TreeOf(s, r.value.0) == t && Lex(s, r.value.1) == rest
  }

  lemma SimpleOf(s: string, i: nat, items: seq<Item>, rest: seq<Tx>)
    requires i <= |s| && Lex(s, i) == ItemsToks(items) + rest && UnitOk(Simple(items)) && Stops(rest)
    ensures Parsed(s, ParseExec(s, i), UnitTree(Simple(items)), rest)
  {
    hide GetToken, Lex, Text, TreeOf, Redirs, Args, Around, FilesRead, WordsOf, FilesOf, ItemsToks, Lead, Collected;
    var k := Lead(items);
    var mids, tail := items[..k], items[k..];
    LeadSplit(items, k);
    OnlyFilesWords(mids);
    var after := ItemsToks(tail) + rest;
    assert ItemsToks(mids) + ItemsToks(tail) + rest == ItemsToks(mids) + after;
    PeekLex(s, i);
    NoParen(items, rest);
    TailStarts(tail, rest);
    RedirsOf(s, i, mids, after);
    var more := Redirs(s, i).value;
    assert [] + WordsOf(tail) == WordsOf(tail);
    ArgsOf(s, more.1, tail, rest, [], more.0);
    CollectedStart(s, more.0, mids, tail, items);
  }

  lemma LeadSplit(items: seq<Item>, k: nat)
    requires k == Lead(items)
    ensures items == items[..k] + items[k..] && Lead(items[k..]) == 0 && OnlyFiles(items[..k])
    ensures ItemsToks(items) == ItemsToks(items[..k]) + ItemsToks(items[k..])
    ensures WordsOf(items) == WordsOf(items[..k]) + WordsOf(items[k..])
    ensures FilesOf(items) == FilesOf(items[..k]) + FilesOf(items[k..])
    ensures ItemsOk(items) ==> ItemsOk(items[..k]) && ItemsOk(items[k..])
  {
    assert items == items[..k] + items[k..];
    hide ItemsToks, WordsOf, FilesOf;
    ItemsSplit(items[..k], items[k..]);
  }

  lemma CollectedStart(s: string, rds: seq<Rd>, mids: seq<Item>, tail: seq<Item>, items: seq<Item>)
    requires FilesRead(s, rds) == FilesOf(mids) && WordsOf(mids) == []
    requires WordsOf(items) == WordsOf(mids) + WordsOf(tail) && FilesOf(items) == FilesOf(mids) + FilesOf(tail)
    ensures Collected(s, [], rds, tail) == UnitTree(Simple(items))
  {
    hide FilesRead, WordsOf, FilesOf, Around;
    assert [] + WordsOf(tail) == WordsOf(tail);
  }

  lemma NoParen(items: seq<Item>, rest: seq<Tx>)
    requires ItemsOk(items) && Stops(rest)
    ensures !StartsWith(ItemsToks(items) + rest, "(")
  {
    if items == [] {
      assert ItemsToks(items) + rest == rest;
    }
  }

  lemma GroupOf(s: string, i: nat, l: Line, rds: seq<Item>, rest: seq<Tx>)
    requires i <= |s| && Lex(s, i) == UnitToks(Group(l, rds)) + rest && UnitOk(Group(l, rds)) && Stops(rest)
    requires i <= GetToken(s, i).next
    requires Parsed(s, ParseLine(s, GetToken(s, i).next), LineTree(l), [Sym(')')] + (ItemsToks(rds) + rest))
    ensures Parsed(s, ParseExec(s, i), UnitTree(Group(l, rds)), rest)
  {
    hide GetToken, Skip, Peek, Lex, Text, TreeOf, Redirs, ParseLine, LineToks;
    PeekLex(s, i);
    assert (UnitToks(Group(l, rds)) + rest)[0] == Sym('(');
    var line := ParseLine(s, GetToken(s, i).next).value;
    PeekLex(s, line.1);
    LexHead(s, line.1, Sym(')'), ItemsToks(rds) + rest);
    RedirsOf(s, GetToken(s, line.1).next, rds, rest);
    WrapTree(s, line.0, Redirs(s, GetToken(s, line.1).next).value.0);
  }

  /** After the opening parenthesis comes the line. */
  lemma GroupOpens(s: string, i: nat, l: Line, rds: seq<Item>, rest: seq<Tx>)
    requires i <= |s| && Lex(s, i) == UnitToks(Group(l, rds)) + rest
    ensures Lex(s, GetToken(s, i).next) == LineToks(l) + ([Sym(')')] + (ItemsToks(rds) + rest))
  {
    hide GetToken, Lex, Text, LineToks;
    var after := LineToks(l) + ([Sym(')')] + (ItemsToks(rds) + rest));
    assert UnitToks(Group(l, rds)) + rest == [Sym('(')] + after;
    LexHead(s, i, Sym('('), after);
  }

  lemma {:induction false} UnitOf(s: string, i: nat, u: Unit, rest: seq<Tx>)
    requires i <= |s| && Lex(s, i) == UnitToks(u) + rest && UnitOk(u) && Stops(rest)
    ensures Parsed(s, ParseExec(s, i), UnitTree(u), rest)
    decreases u
  {
    hide GetToken, Lex, Parsed, ParseExec, ParseLine, LineToks, ItemsToks;
    match u
    case Simple(items) => SimpleOf(s, i, items, rest);
    case Group(l, rds) =>
      GroupOpens(s, i, l, rds, rest);
      LineOf(s, GetToken(s, i).next, l, [Sym(')')] + (ItemsToks(rds) + rest));
      GroupOf(s, i, l, rds, rest);
  }

  predicate PipeStops(ts: seq<Tx>) {
    ts == [] || StartsWith(ts, ")&;")
  }

  predicate LineStops(ts: seq<Tx>) {
    ts == [] || StartsWith(ts, ")")
  }

  lemma OneOf(s: string, i: nat, u: Unit, rest: seq<Tx>)
    requires i <= |s| && Parsed(s, ParseExec(s, i), UnitTree(u), rest) && PipeStops(rest)
    ensures Parsed(s, ParsePipe(s, i), UnitTree(u), rest)
  {
    hide GetToken, Skip, Peek, Lex, TreeOf, ParseExec;
    PeekLex(s, ParseExec(s, i).value.1);
    SkipTwice(s, ParseExec(s, i).value.1);
  }

  lemma BarOf(s: string, i: nat, u: Unit, p: Pipeline, toks: seq<Tx>, rest: seq<Tx>)
    requires i <= |s| && Parsed(s, ParseExec(s, i), UnitTree(u), [Sym('|')] + toks)
    requires var j := GetToken(s, ParseExec(s, i).value.1).next;
             Lex(s, j) == toks ==> Parsed(s, ParsePipe(s, j), PipelineTree(p), rest)
    ensures Parsed(s, ParsePipe(s, i), PipeTree(UnitTree(u), PipelineTree(p)), rest)
  {
    hide GetToken, Skip, Peek, Lex, ParseExec;
    var m := ParseExec(s, i).value.1;
    PeekLex(s, m);
    LexHead(s, m, Sym('|'), toks);
  }

  lemma {:induction false} PipelineOf(s: string, i: nat, p: Pipeline, rest: seq<Tx>)
    requires i <= |s| && Lex(s, i) == PipelineToks(p) + rest && PipelineOk(p) && PipeStops(rest)
    ensures Parsed(s, ParsePipe(s, i), PipelineTree(p), rest)
    decreases p
  {
    hide GetToken, Lex, ParseExec, ParsePipe, UnitToks, UnitTree;
    match p
    case One(u) =>
      UnitOf(s, i, u, rest);
      hide Parsed;
      OneOf(s, i, u, rest);
    case Bar(u, more) =>
      var toks := PipelineToks(more) + rest;
      assert PipelineToks(p) + rest == UnitToks(u) + ([Sym('|')] + toks);
      UnitOf(s, i, u, [Sym('|')] + toks);
      var j := GetToken(s, ParseExec(s, i).value.1).next;
      TokenNext(s, ParseExec(s, i).value.1);
      if Lex(s, j) == toks {
        PipelineOf(s, j, more, rest);
      }
      hide Parsed;
      BarOf(s, i, u, more, toks, rest);
  }

  lemma {:induction false} AmpsOf(s: string, i: nat, c: Cmd, n: nat, rest: seq<Tx>)
    requires i <= |s| && Lex(s, i) == Amps(n) + rest && !StartsWith(rest, "&")
    ensures TreeOf(s, Backs(s, i, c).0) == InBack(TreeOf(s, c), n) && Lex(s, Backs(s, i, c).1) == rest
    decreases n
  {
    hide GetToken, Skip, Peek, Lex;
    PeekLex(s, i);
    if n == 0 {
      assert Amps(n) + rest == rest;
      SkipTwice(s, i);
    } else {
      assert Lex(s, i) == [Sym('&')] + (Amps(n - 1) + rest);
      LexHead(s, i, Sym('&'), Amps(n - 1) + rest);
      AmpsOf(s, GetToken(s, i).next, Back(c), n - 1, rest);
      InBackMore(TreeOf(s, c), n);
    }
  }

  lemma {:induction false} InBackMore(t: Tree, n: nat)
    requires n > 0
    ensures InBack(BackTree(t), n - 1) == InBack(t, n)
  {
    if n > 1 {
      InBackMore(t, n - 1);
    }
  }

  lemma LastOf(s: string, i: nat, l: Line, rest: seq<Tx>)
    requires i <= |s| && l.Last? && LineStops(rest)
    requires Parsed(s, ParsePipe(s, i), PipelineTree(l.p), Amps(l.amps) + rest)
    ensures Parsed(s, ParseLine(s, i), LineTree(l), rest)
  {
    hide GetToken, Skip, Peek, Lex, ParsePipe, Backs, PipelineTree;
    var p := ParsePipe(s, i).value;
    AmpsOf(s, p.1, p.0, l.amps, rest);
    var j := Backs(s, p.1, p.0).1;
    PeekLex(s, j);
    SkipTwice(s, j);
  }

  lemma SemiOf(s: string, i: nat, l: Line, toks: seq<Tx>, rest: seq<Tx>)
    requires i <= |s| && l.Semi?
    requires Parsed(s, ParsePipe(s, i), PipelineTree(l.p), Amps(l.amps) + ([Sym(';')] + toks))
    requires var p := ParsePipe(s, i).value;
             var j := GetToken(s, Backs(s, p.1, p.0).1).next;
             Lex(s, j) == toks ==> Parsed(s, ParseLine(s, j), LineTree(l.more), rest)
    ensures Parsed(s, ParseLine(s, i), LineTree(l), rest)
  {
    hide GetToken, Skip, Peek, Lex, ParsePipe, Backs, PipelineTree;
    var p := ParsePipe(s, i).value;
    AmpsOf(s, p.1, p.0, l.amps, [Sym(';')] + toks);
    var m := Backs(s, p.1, p.0).1;
    PeekLex(s, m);
    LexHead(s, m, Sym(';'), toks);
  }

  /** Whatever is written as the grammar has it parses to its meaning. */
  lemma {:induction false} LineOf(s: string, i: nat, l: Line, rest: seq<Tx>)
    requires i <= |s| && Lex(s, i) == LineToks(l) + rest && LineOk(l) && LineStops(rest)
    ensures Parsed(s, ParseLine(s, i), LineTree(l), rest)
    decreases l
  {
    hide GetToken, Lex, ParsePipe, ParseLine, PipelineToks, PipelineTree, Amps, LineTree;
    var toks := if l.Last? then rest else LineToks(l.more) + rest;
    var after := if l.Last? then Amps(l.amps) + rest else Amps(l.amps) + ([Sym(';')] + toks);
    assert LineToks(l) + rest == PipelineToks(l.p) + after;
    AmpsStart(l.amps, if l.Last? then rest else [Sym(';')] + toks);
    PipelineOf(s, i, l.p, after);
    var p := ParsePipe(s, i).value;
    if l.Last? {
      hide Parsed;
      LastOf(s, i, l, rest);
    } else {
      var m := Backs(s, p.1, p.0).1;
      TokenNext(s, m);
      var j := GetToken(s, m).next;
      if Lex(s, j) == toks {
        LineOf(s, j, l.more, rest);
      }
      hide Parsed;
      SemiOf(s, i, l, toks, rest);
    }
  }

  lemma AmpsStart(n: nat, rest: seq<Tx>)
    requires rest == [] || StartsWith(rest, ");")
    ensures PipeStops(Amps(n) + rest)
  {
    if n == 0 {
      assert Amps(n) + rest == rest;
    }
  }

  // ---------------------------------------------------------------- and nothing else

  function TokenText(s: string, t: Token): Tx {
    if t.kind == WORD then Wd(Text(s, t.span)) else Sym(t.kind)
  }

  lemma LexStep(s: string, i: nat)
    requires i <= |s|
    ensures var t := GetToken(s, i);
            t.next <= |s| && Lex(s, i) == if t.kind == NUL then [] else [TokenText(s, t)] + Lex(s, t.next)
  {
  }

  lemma {:induction false} RedirsBack(s: string, i: nat) returns (items: seq<Item>)
    requires i <= |s| && Redirs(s, i).Some?
    ensures ItemsOk(items) && OnlyFiles(items) && FilesRead(s, Redirs(s, i).value.0) == FilesOf(items)
    ensures Lex(s, i) == ItemsToks(items) + Lex(s, Redirs(s, i).value.1)
    decreases |s| - i
  {
    hide Lex, Text, FilesRead, GetToken, Peek, Skip, Redirs, FilesOf, ItemsToks;
    PeekLex(s, i);
    if !Peek(s, i, "<>") {
      items := [];
      NoRedirs(s, i);
      NoItems(Lex(s, i));
    } else {
      var x, j := OneBack(s, i);
      RedirsStep(s, i, x, Lex(s, j));
      var rest := RedirsBack(s, j);
      items := [x] + rest;
      assert items[1..] == rest;
      FilesFirst(items);
      ItemFirst(items);
      assert [Sym(x.kind)] + ([Wd(x.file)] + (ItemsToks(rest) + Lex(s, Redirs(s, i).value.1)))
          == ItemsToks(items) + Lex(s, Redirs(s, i).value.1);
    }
  }

  lemma ItemFirst(items: seq<Item>)
    requires items != [] && items[0].To?
    ensures ItemsToks(items) == [Sym(items[0].kind), Wd(items[0].file)] + ItemsToks(items[1..])
  {
  }

  /** The redirection that stands first, and the position behind it. */
  lemma OneBack(s: string, i: nat) returns (x: Item, j: nat)
    requires i <= |s| && Redirs(s, i).Some? && Peek(s, i, "<>")
    ensures x.To? && x.kind in "<>+" && i < j <= |s| && j == GetToken(s, GetToken(s, i).next).next
    ensures Redirs(s, j).Some? && Lex(s, i) == [Sym(x.kind)] + ([Wd(x.file)] + Lex(s, j))
  {
    hide Lex, Text, FilesRead, Skip;
    PeekLex(s, i);
    LexStep(s, i);
    var t := GetToken(s, i);
    LexStep(s, t.next);
    var f := GetToken(s, t.next);
    x, j := To(t.kind, Text(s, f.span)), f.next;
  }

  /** parseexec's loop, once: it stops, or takes a word and the redirections behind it. */
  lemma ArgsCase(s: string, i: nat, words: seq<Span>, rds: seq<Rd>)
    requires i <= |s| && Args(s, i, words, rds).Some? && !Stops(Lex(s, i))
    ensures var t := GetToken(s, i);
            && i < t.next <= |s| && Lex(s, i) == [Wd(Text(s, t.span))] + Lex(s, t.next)
            && |words| + 1 < MAXARGS && Redirs(s, t.next).Some?
            && var more := Redirs(s, t.next).value;
            i < more.1 <= |s| && Args(s, i, words, rds) == Args(s, more.1, words + [t.span], rds + more.0)
  {
    hide Lex, Text, Redirs, Skip, GetToken, Peek;
    PeekLex(s, i);
    LexStep(s, i);
  }

  lemma {:induction false} ArgsBack(s: string, i: nat, words: seq<Span>, rds: seq<Rd>) returns (items: seq<Item>)
    requires i <= |s| && Args(s, i, words, rds).Some? && |words| < MAXARGS
    ensures ItemsOk(items) && |words| + |WordsOf(items)| < MAXARGS
    ensures var r := Args(s, i, words, rds).value;
            Lex(s, i) == ItemsToks(items) + Lex(s, r.1) && TreeOf(s, r.0) == Collected(s, words, rds, items)
    decreases |s| - i
  {
    hide Lex, Text, Redirs, TreeOf, Collected, Skip, Stops, GetToken, Peek, Args, ItemsToks, WordsOf,
      FilesOf, FilesRead;
    if Stops(Lex(s, i)) {
      items := [];
      NoItems(Lex(s, i));
      CollectedDone(s, words, rds);
      ArgsDone(s, i, Lex(s, i), words, rds);
    } else {
      ArgsCase(s, i, words, rds);
      var t := GetToken(s, i);
      var more := Redirs(s, t.next).value;
      var mids := RedirsBack(s, t.next);
      var tail := ArgsBack(s, more.1, words + [t.span], rds + more.0);
      items := [Word(Text(s, t.span))] + (mids + tail);
      assert items[1..] == mids + tail;
      FirstWordIs(items, mids, tail);
      CollectedStep(s, words, rds, t.span, more.0, items, mids, tail);
      Regroup([Wd(Text(s, t.span))], ItemsToks(mids), ItemsToks(tail), Lex(s, Args(s, i, words, rds).value.1));
    }
  }

  /** The outcome of a parser, back in the grammar. */
  ghost predicate From(s: string, i: nat, r: (Cmd, nat), toks: seq<Tx>, t: Tree) {
    i <= |s| && r.1 <= |s| && Lex(s, i) == toks + Lex(s, r.1) && TreeOf(s, r.0) == t
  }

  lemma SimpleBack(s: string, i: nat) returns (items: seq<Item>)
    requires i <= |s| && ParseExec(s, i).Some? && !Peek(s, i, "(")
    ensures UnitOk(Simple(items))
    ensures From(s, i, ParseExec(s, i).value, ItemsToks(items), UnitTree(Simple(items)))
  {
    hide Lex, Text, Redirs, TreeOf, Collected, Args, Peek, FilesRead, Around, ItemsToks, WordsOf, FilesOf;
    var more := Redirs(s, i).value;
    var mids := RedirsBack(s, i);
    var tail := ArgsBack(s, more.1, [], more.0);
    items := mids + tail;
    ItemsSplit(mids, tail);
    OnlyFilesWords(mids);
    CollectedStart(s, more.0, mids, tail, items);
    assert [] + WordsOf(tail) == WordsOf(tail);
    var end := ParseExec(s, i).value.1;
    assert ItemsToks(mids) + (ItemsToks(tail) + Lex(s, end)) == ItemsToks(items) + Lex(s, end);
  }

  lemma {:induction false} UnitBack(s: string, i: nat) returns (u: Unit)
    requires i <= |s| && ParseExec(s, i).Some?
    ensures UnitOk(u) && From(s, i, ParseExec(s, i).value, UnitToks(u), UnitTree(u))
    decreases |s| - i, 1
  {
    hide Lex, Text, Redirs, TreeOf, Args, FilesRead, Around;
    if !Peek(s, i, "(") {
      var items := SimpleBack(s, i);
      u := Simple(items);
    } else {
      PeekLex(s, i);
      LexStep(s, i);
      var t := GetToken(s, i);
      var l := LineBack(s, t.next);
      var line := ParseLine(s, t.next).value;
      PeekLex(s, line.1);
      LexStep(s, line.1);
      var j := GetToken(s, line.1).next;
      var rds := RedirsBack(s, j);
      u := Group(l, rds);
      WrapTree(s, line.0, Redirs(s, j).value.0);
      hide GetToken, Peek, Skip, ParseExec, ParseLine, ItemsToks, LineToks, LineTree, LineOk, FilesOf;
      GroupToks(l, rds, Lex(s, Redirs(s, j).value.1));
      assert Lex(s, i) == [Sym('(')] + (LineToks(l) + ([Sym(')')] + (ItemsToks(rds) + Lex(s, Redirs(s, j).value.1))));
    }
  }

  lemma GroupToks(l: Line, rds: seq<Item>, rest: seq<Tx>)
    ensures UnitToks(Group(l, rds)) + rest == [Sym('(')] + (LineToks(l) + ([Sym(')')] + (ItemsToks(rds) + rest)))
  {
    hide LineToks, ItemsToks;
  }

  /** parsepipe, once. */
  lemma PipeStep(s: string, i: nat)
    requires i <= |s| && ParsePipe(s, i).Some?
    ensures ParseExec(s, i).Some?
    ensures var left, all := ParseExec(s, i).value, ParsePipe(s, i).value;
            if StartsWith(Lex(s, left.1), "|") then
              var j := GetToken(s, left.1).next;
              && i < j <= |s| && Lex(s, left.1) == [Sym('|')] + Lex(s, j) && ParsePipe(s, j).Some?
              && all == (Pipe(left.0, ParsePipe(s, j).value.0), ParsePipe(s, j).value.1)
            else all.0 == left.0 && Lex(s, all.1) == Lex(s, left.1)
  {
    hide Lex, ParseExec, Text;
    var m := ParseExec(s, i).value.1;
    PeekLex(s, m);
    SkipTwice(s, m);
    LexStep(s, m);
  }

  lemma {:induction false} PipelineBack(s: string, i: nat) returns (p: Pipeline)
    requires i <= |s| && ParsePipe(s, i).Some?
    ensures PipelineOk(p) && From(s, i, ParsePipe(s, i).value, PipelineToks(p), PipelineTree(p))
    decreases |s| - i, 2
  {
    hide Lex, UnitToks, UnitTree, UnitOk, ParseExec, ParsePipe, GetToken;
    PipeStep(s, i);
    var u := UnitBack(s, i);
    var left := ParseExec(s, i).value;
    if !StartsWith(Lex(s, left.1), "|") {
      p := One(u);
    } else {
      var j := GetToken(s, left.1).next;
      var more := PipelineBack(s, j);
      p := Bar(u, more);
      var end := Lex(s, ParsePipe(s, i).value.1);
      assert UnitToks(u) + ([Sym('|')] + (PipelineToks(more) + end)) == PipelineToks(p) + end;
    }
  }

  lemma {:induction false} AmpsBack(s: string, i: nat, c: Cmd) returns (n: nat)
    requires i <= |s|
    ensures Lex(s, i) == Amps(n) + Lex(s, Backs(s, i, c).1) && TreeOf(s, Backs(s, i, c).0) == InBack(TreeOf(s, c), n)
    decreases |s| - i
  {
    hide Lex, Text, Skip, InBack, TreeOf, Peek, GetToken, Backs, Amps;
    BacksStep(s, i, c);
    if !Peek(s, i, "&") {
      n := 0;
      NoneBack(TreeOf(s, c));
      AmpsFirst(0);
    } else {
      var m := AmpsBack(s, GetToken(s, i).next, Back(c));
      n := m + 1;
      InBackMore(TreeOf(s, c), n);
      TreeOfBack(s, c);
      AmpsFirst(n);
      var end := Lex(s, Backs(s, i, c).1);
      assert [Sym('&')] + (Amps(m) + end) == Amps(n) + end;
    }
  }

  /** parseline's loop, once. */
  lemma BacksStep(s: string, i: nat, c: Cmd)
    requires i <= |s|
    ensures var t := GetToken(s, i);
            if Peek(s, i, "&") then
              && i < t.next <= |s| && Lex(s, i) == [Sym('&')] + Lex(s, t.next)
              && Backs(s, i, c) == Backs(s, t.next, Back(c))
            else Backs(s, i, c).0 == c && Lex(s, Backs(s, i, c).1) == Lex(s, i)
  {
    hide Lex, Text, Skip;
    PeekLex(s, i);
    SkipTwice(s, i);
    LexStep(s, i);
  }

  lemma AmpsFirst(n: nat)
    ensures Amps(n) == if n == 0 then [] else [Sym('&')] + Amps(n - 1)
  {
  }

  lemma NoneBack(t: Tree)
    ensures InBack(t, 0) == t
  {
  }

  lemma TreeOfBack(s: string, c: Cmd)
    ensures TreeOf(s, Back(c)) == BackTree(TreeOf(s, c))
  {
  }

  /** parseline, once. */
  lemma LineStep(s: string, i: nat)
    requires i <= |s| && ParseLine(s, i).Some?
    ensures ParsePipe(s, i).Some?
    ensures var p, all := ParsePipe(s, i).value, ParseLine(s, i).value;
            var b := Backs(s, p.1, p.0);
            if StartsWith(Lex(s, b.1), ";") then
              var j := GetToken(s, b.1).next;
              && i < j <= |s| && Lex(s, b.1) == [Sym(';')] + Lex(s, j) && ParseLine(s, j).Some?
              && all == (List(b.0, ParseLine(s, j).value.0), ParseLine(s, j).value.1)
            else all.0 == b.0 && Lex(s, all.1) == Lex(s, b.1)
  {
    hide Lex, ParsePipe, Backs, Text;
    var p := ParsePipe(s, i).value;
    var m := Backs(s, p.1, p.0).1;
    PeekLex(s, m);
    SkipTwice(s, m);
    LexStep(s, m);
  }

  /** Whatever the parser accepts is written as the grammar has it, and means what the parser made of it. */
  lemma {:induction false} LineBack(s: string, i: nat) returns (l: Line)
    requires i <= |s| && ParseLine(s, i).Some?
    ensures LineOk(l) && From(s, i, ParseLine(s, i).value, LineToks(l), LineTree(l))
    decreases |s| - i, 3
  {
    hide Lex, PipelineToks, PipelineTree, PipelineOk, Amps, InBack, ParsePipe, ParseLine, Backs, GetToken;
    LineStep(s, i);
    var p := PipelineBack(s, i);
    var q := ParsePipe(s, i).value;
    var n := AmpsBack(s, q.1, q.0);
    var b := Backs(s, q.1, q.0);
    var end := Lex(s, ParseLine(s, i).value.1);
    if !StartsWith(Lex(s, b.1), ";") {
      l := Last(p, n);
      assert PipelineToks(p) + (Amps(n) + end) == LineToks(l) + end;
    } else {
      var j := GetToken(s, b.1).next;
      var more := LineBack(s, j);
      l := Semi(p, n, more);
      SemiToks(l, end);
    }
  }

  lemma SemiToks(l: Line, rest: seq<Tx>)
    requires l.Semi?
    ensures LineToks(l) + rest == PipelineToks(l.p) + (Amps(l.amps) + ([Sym(';')] + (LineToks(l.more) + rest)))
  {
    hide PipelineToks, Amps;
  }

  lemma LexEnds(s: string, i: nat)
    requires i <= |s|
    ensures Lex(s, i) == [] <==> Skip(s, i) == |s|
  {
  }

  /** Exactly: a line parses, to this tree, if and only if its tokens are those of a line of the grammar
      that means this tree. */
  lemma AcceptsExactly(s: string, t: Tree)
    ensures ParseCmd(s).Some? && TreeOf(s, ParseCmd(s).value) == t
       <==> exists l :: LineOk(l) && LineToks(l) == Lex(s, 0) && LineTree(l) == t
  {
    hide Lex, LineToks, LineOk, LineTree, TreeOf, ParseLine, Skip;
    if ParseCmd(s).Some? && TreeOf(s, ParseCmd(s).value) == t {
      var l := LineBack(s, 0);
      LexEnds(s, ParseLine(s, 0).value.1);
      assert LineToks(l) + [] == LineToks(l);
    }
    if l :| LineOk(l) && LineToks(l) == Lex(s, 0) && LineTree(l) == t {
      LineParses(s, l);
    }
  }

  lemma LineParses(s: string, l: Line)
    requires LineOk(l) && LineToks(l) == Lex(s, 0)
    ensures ParseCmd(s).Some? && TreeOf(s, ParseCmd(s).value) == LineTree(l)
  {
    hide Lex, LineToks, LineOk, LineTree, TreeOf, ParseLine, Skip;
    assert LineToks(l) + [] == LineToks(l);
    LineOf(s, 0, l, []);
    LexEnds(s, ParseLine(s, 0).value.1);
  }

  // ---------------------------------------------------------------- writing tokens down

  function Spell(x: Tx): string {
    if x.Wd? then x.w else if x.c == '+' then ">>" else [x.c]
  }

  predicate Blank(g: string) {
    forall k :: 0 <= k < |g| ==> White(g[k])
  }

  /** Tokens with white space before, between and after them. */
  function Render(ts: seq<Tx>, gaps: seq<string>): string
    requires |gaps| == |ts| + 1
  {
    if ts == [] then gaps[0] else gaps[0] + (Spell(ts[0]) + Render(ts[1..], gaps[1..]))
  }

  /** Tokens that would run together: two words, or > before another > or >>. */
  predicate Clash(a: Tx, b: Tx) {
    (a.Wd? && b.Wd?) || (a == Sym('>') && (b == Sym('>') || b == Sym('+')))
  }

  ghost predicate TokenOk(x: Tx) {
    if x.Wd? then WordText(x.w) else x.c == '+' || Symbol(x.c)
  }

  ghost predicate Legal(ts: seq<Tx>, gaps: seq<string>) {
    && |gaps| == |ts| + 1
    && (forall k :: 0 <= k < |gaps| ==> Blank(gaps[k]))
    && (forall k :: 0 <= k < |ts| ==> TokenOk(ts[k]))
    && (forall k :: 0 < k < |ts| && Clash(ts[k - 1], ts[k]) ==> gaps[k] != "")
  }

  lemma {:induction false} SkipGap(s: string, i: nat, g: string)
    requires At(s, i, g) && Blank(g) && (i + |g| < |s| ==> !White(s[i + |g|]))
    ensures Skip(s, i) == i + |g|
    decreases |g|
  {
    if g != "" {
      AtChar(s, i, g, 0);
      assert g == g[..1] + g[1..];
      AtParts(s, i, g[..1], g[1..]);
      SkipGap(s, i + 1, g[1..]);
    }
  }

  lemma SpellStarts(x: Tx)
    requires TokenOk(x)
    ensures Spell(x) != "" && !White(Spell(x)[0])
    ensures x.Wd? ==> WordChar(Spell(x)[0])
    ensures x.Sym? ==> Symbol(Spell(x)[0]) && Spell(x)[0] == if x.c == '+' then '>' else x.c
  {
  }

  /** What comes next in the text: nothing, white space, or the first character of the next token. */
  lemma NextChar(s: string, i: nat, ts: seq<Tx>, gaps: seq<string>)
    requires Legal(ts, gaps) && At(s, i, Render(ts, gaps)) && i + |Render(ts, gaps)| == |s|
    ensures i < |s| ==> White(s[i]) || (ts != [] && gaps[0] == "" && s[i] == Spell(ts[0])[0] && Spell(ts[0]) != "")
  {
    if i < |s| {
      AtChar(s, i, Render(ts, gaps), 0);
      if ts != [] {
        SpellStarts(ts[0]);
      }
    }
  }

  lemma LegalRest(ts: seq<Tx>, gaps: seq<string>)
    requires Legal(ts, gaps) && ts != []
    ensures Legal(ts[1..], gaps[1..]) && TokenOk(ts[0]) && Blank(gaps[0])
    ensures |gaps| == |ts| + 1 && (|ts| > 1 && Clash(ts[0], ts[1]) ==> gaps[1] != "")
  {
  }

  /** The token that stands at q, with the rest of the text behind it. */
  lemma TokenAt(s: string, i: nat, q: nat, ts: seq<Tx>, gaps: seq<string>)
    requires i <= |s| && q == Skip(s, i) < |s| && Legal(ts, gaps) && ts != [] && At(s, q, Spell(ts[0]))
    requires var e := q + |Spell(ts[0])|;
             At(s, e, Render(ts[1..], gaps[1..])) && e + |Render(ts[1..], gaps[1..])| == |s|
    ensures var e := q + |Spell(ts[0])|;
            GetToken(s, i) == Token(if ts[0].Wd? then WORD else ts[0].c, Span(q, e), Skip(s, e))
  {
    hide Render, Legal, At, Skip, GetToken;
    var x, e := ts[0], q + |Spell(ts[0])|;
    LegalRest(ts, gaps);
    SpellStarts(x);
    NextChar(s, e, ts[1..], gaps[1..]);
    if |ts| > 1 {
      LegalRest(ts[1..], gaps[1..]);
      SpellStarts(ts[1]);
    }
    if x.Wd? {
      SkipTwice(s, i);
      WordToken(s, q, x.w);
      TokenSkips(s, i);
    } else {
      SymbolToken(s, i, x.c);
    }
  }

  lemma TokenSkips(s: string, i: nat)
    requires i <= |s| && Skip(s, Skip(s, i)) == Skip(s, i)
    ensures GetToken(s, i) == GetToken(s, Skip(s, i))
  {
  }

  lemma SymbolToken(s: string, i: nat, c: char)
    requires i <= |s| && Skip(s, i) < |s| && TokenOk(Sym(c)) && At(s, Skip(s, i), Spell(Sym(c)))
    requires var e := Skip(s, i) + |Spell(Sym(c))|; c == '>' && e < |s| ==> s[e] != '>'
    ensures var q := Skip(s, i);
            var e := q + |Spell(Sym(c))|;
            GetToken(s, i) == Token(c, Span(q, e), Skip(s, e))
  {
    hide Skip, At;
    AtChar(s, Skip(s, i), Spell(Sym(c)), 0);
    if c == '+' {
      AtChar(s, Skip(s, i), Spell(Sym(c)), 1);
    }
  }

  /** The first gap, the first token and the rest of the text. */
  lemma RenderSplits(s: string, i: nat, ts: seq<Tx>, gaps: seq<string>)
    requires Legal(ts, gaps) && ts != [] && At(s, i, Render(ts, gaps)) && i + |Render(ts, gaps)| == |s|
    ensures var q := i + |gaps[0]|;
            && q == Skip(s, i) < |s| && At(s, q, Spell(ts[0])) && Legal(ts[1..], gaps[1..]) && TokenOk(ts[0])
            && var e := q + |Spell(ts[0])|;
            e <= |s| && At(s, e, Render(ts[1..], gaps[1..])) && e + |Render(ts[1..], gaps[1..])| == |s|
  {
    hide Spell, Legal, Skip, At;
    LegalRest(ts, gaps);
    SpellStarts(ts[0]);
    var rest := Render(ts[1..], gaps[1..]);
    AtParts(s, i, gaps[0], Spell(ts[0]) + rest);
    var q := i + |gaps[0]|;
    AtParts(s, q, Spell(ts[0]), rest);
    AtChar(s, q, Spell(ts[0]), 0);
    SkipGap(s, i, gaps[0]);
  }

  lemma RenderNothing(s: string, i: nat, gaps: seq<string>)
    requires Legal([], gaps) && At(s, i, Render([], gaps)) && i + |Render([], gaps)| == |s|
    ensures Lex(s, i) == []
  {
    hide Lex, Skip;
    SkipGap(s, i, gaps[0]);
    LexEnds(s, i);
  }

  /** However it is spaced, the text has these tokens. */
  lemma {:induction false} LexRender(s: string, i: nat, ts: seq<Tx>, gaps: seq<string>)
    requires Legal(ts, gaps) && At(s, i, Render(ts, gaps)) && i + |Render(ts, gaps)| == |s|
    ensures Lex(s, i) == ts
    decreases ts
  {
    hide GetToken, Spell, Lex, Legal, Render, At, Skip;
    if ts == [] {
      RenderNothing(s, i, gaps);
    } else {
      LegalRest(ts, gaps);
      RenderSplits(s, i, ts, gaps);
      var q := i + |gaps[0]|;
      var e := q + |Spell(ts[0])|;
      TokenAt(s, i, q, ts, gaps);
      LexRender(s, e, ts[1..], gaps[1..]);
      SkipTwice(s, e);
      LexStep(s, i);
      TokenIs(s, i, q, ts[0]);
      assert [ts[0]] + ts[1..] == ts;
    }
  }

  lemma TokenIs(s: string, i: nat, q: nat, x: Tx)
    requires i <= |s| && TokenOk(x) && At(s, q, Spell(x)) && GetToken(s, i).span == Span(q, q + |Spell(x)|)
    requires GetToken(s, i).kind == if x.Wd? then WORD else x.c
    ensures TokenText(s, GetToken(s, i)) == x && GetToken(s, i).kind != NUL
  {
    hide GetToken;
  }

  /** Every line of the grammar, written with any white space that keeps its tokens apart, is parsed to
      its meaning: redirections before, between and behind the words, pipelines and lists without
      parentheses. */
  lemma RenderParses(l: Line, gaps: seq<string>)
    requires LineOk(l) && Legal(LineToks(l), gaps)
    ensures var s := Render(LineToks(l), gaps);
            ParseCmd(s).Some? && TreeOf(s, ParseCmd(s).value) == LineTree(l)
  {
    var s := Render(LineToks(l), gaps);
    assert s[0..0 + |s|] == s;
    hide LineToks, Legal, Render, LineTree, ParseCmd;
    LexRender(s, 0, LineToks(l), gaps);
    LineParses(s, l);
  }
}
