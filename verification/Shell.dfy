/** The shell's parser (xv6-public/sh.c) over a line without NULs: tokens are spans of the line. The
    functions here say what each routine computes; ShellCode holds the loops. A fully parenthesised
    printer is the parser's inverse. */
module Shell {
  import opened Options
  import opened Substrings

  /** What the lexer says: nothing left, a symbol, >> or a word. */
  const NUL := 0 as char
  const APPEND := '+'
  const WORD := 'a'
  const MAXARGS := 10

  predicate White(c: char) {
    c == ' ' || c == '\t' || c == '\r' || c == '\n' || c == 11 as char
  }

  predicate Symbol(c: char) {
    c == '<' || c == '|' || c == '>' || c == '&' || c == ';' || c == '(' || c == ')'
  }

  predicate WordChar(c: char) {
    !White(c) && !Symbol(c)
  }

  /** The file name or argument between positions q and eq. */
  datatype Span = Span(q: nat, eq: nat)

  datatype Cmd =
    | Exec(words: seq<Span>)
    | Redir(cmd: Cmd, file: Span, out: bool)
    | Pipe(left: Cmd, right: Cmd)
    | List(left: Cmd, right: Cmd)
    | Back(cmd: Cmd)

  // ---------------------------------------------------------------- tokens

  /** The first position from i on that is not white space. */
  function Skip(s: string, i: nat): (r: nat)
    requires i <= |s|
    ensures i <= r <= |s| && (r < |s| ==> !White(s[r]))
    decreases |s| - i
  {
    if i < |s| && White(s[i]) then Skip(s, i + 1) else i
  }

  function WordEnd(s: string, i: nat): (r: nat)
    requires i <= |s|
    ensures i <= r <= |s| && (r < |s| ==> !WordChar(s[r]))
    decreases |s| - i
  {
    if i < |s| && WordChar(s[i]) then WordEnd(s, i + 1) else i
  }

  datatype Token = Token(kind: char, span: Span, next: nat)

  /** gettoken. */
  function GetToken(s: string, i: nat): (t: Token)
    requires i <= |s|
    ensures i <= t.span.q <= t.span.eq <= t.next <= |s| && (t.kind == NUL <==> t.span.q == |s|)
    ensures t.kind != NUL ==> i < t.next
    ensures t.kind == WORD <==> t.span.q < |s| && WordChar(s[t.span.q])
  {
    var q := Skip(s, i);
    if q == |s| then Token(NUL, Span(q, q), q)
    else if s[q] == '>' && q + 1 < |s| && s[q + 1] == '>' then Token(APPEND, Span(q, q + 2), Skip(s, q + 2))
    else if Symbol(s[q]) then Token(s[q], Span(q, q + 1), Skip(s, q + 1))
    else Token(WORD, Span(q, WordEnd(s, q)), Skip(s, WordEnd(s, q)))
  }

  /** peek: is the next character one of these. */
  predicate Peek(s: string, i: nat, toks: string)
    requires i <= |s|
  {
    Skip(s, i) < |s| && s[Skip(s, i)] in toks
  }

  // ---------------------------------------------------------------- the grammar

  datatype Rd = Rd(file: Span, out: bool)

  /** parseredirs: the redirections from i on, and the position after them; None where it panics. */
  function Redirs(s: string, i: nat): (r: Option<(seq<Rd>, nat)>)
    requires i <= |s|
    ensures r.Some? ==> i <= r.value.1 <= |s|
    decreases |s| - i
  {
    if !Peek(s, i, "<>") then Some(([], Skip(s, i)))
    else
      var t := GetToken(s, i);
      var f := GetToken(s, t.next);
      if f.kind != WORD then None
      else
        match Redirs(s, f.next)
        case None => None
        case Some(rest) => Some(([Rd(f.span, t.kind != '<')] + rest.0, rest.1))
  }

  function Wrap(cmd: Cmd, rds: seq<Rd>): Cmd
    decreases rds
  {
    if rds == [] then cmd else Wrap(Redir(cmd, rds[0].file, rds[0].out), rds[1..])
  }

  /** parseexec's loop: words and redirections collected so far. */
  function Args(s: string, i: nat, words: seq<Span>, rds: seq<Rd>): (r: Option<(Cmd, nat)>)
    requires i <= |s|
    ensures r.Some? ==> i <= r.value.1 <= |s|
    decreases |s| - i
  {
    if Peek(s, i, "|)&;") then Some((Wrap(Exec(words), rds), Skip(s, i)))
    else
      var t := GetToken(s, i);
      if t.kind == NUL then Some((Wrap(Exec(words), rds), t.next))
      else if t.kind != WORD || |words| + 1 >= MAXARGS then None
      else
        match Redirs(s, t.next)
        case None => None
        case Some(more) => Args(s, more.1, words + [t.span], rds + more.0)
  }

  function ParseExec(s: string, i: nat): (r: Option<(Cmd, nat)>)
    requires i <= |s|
    ensures r.Some? ==> i <= r.value.1 <= |s|
    decreases |s| - i, 1
  {
    if Peek(s, i, "(") then ParseBlock(s, i)
    else
      match Redirs(s, i)
      case None => None
      case Some(more) => Args(s, more.1, [], more.0)
  }

  function ParseBlock(s: string, i: nat): (r: Option<(Cmd, nat)>)
    requires i <= |s|
    ensures r.Some? ==> i <= r.value.1 <= |s|
    decreases |s| - i, 0
  {
    if !Peek(s, i, "(") then None
    else
      match ParseLine(s, GetToken(s, i).next)
      case None => None
      case Some(line) =>
        if !Peek(s, line.1, ")") then None
        else
          match Redirs(s, GetToken(s, line.1).next)
          case None => None
          case Some(more) => Some((Wrap(line.0, more.0), more.1))
  }

  function ParsePipe(s: string, i: nat): (r: Option<(Cmd, nat)>)
    requires i <= |s|
    ensures r.Some? ==> i <= r.value.1 <= |s|
    decreases |s| - i, 2
  {
    match ParseExec(s, i)
    case None => None
    case Some(left) =>
      if !Peek(s, left.1, "|") then Some((left.0, Skip(s, left.1)))
      else
        match ParsePipe(s, GetToken(s, left.1).next)
        case None => None
        case Some(right) => Some((Pipe(left.0, right.0), right.1))
  }

  /** The ampersands after a pipeline. */
  function Backs(s: string, i: nat, cmd: Cmd): (r: (Cmd, nat))
    requires i <= |s|
    ensures i <= r.1 <= |s|
    decreases |s| - i
  {
    if Peek(s, i, "&") then Backs(s, GetToken(s, i).next, Back(cmd)) else (cmd, Skip(s, i))
  }

  function ParseLine(s: string, i: nat): (r: Option<(Cmd, nat)>)
    requires i <= |s|
    ensures r.Some? ==> i <= r.value.1 <= |s|
    decreases |s| - i, 3
  {
    match ParsePipe(s, i)
    case None => None
    case Some(p) =>
      var (cmd, j) := Backs(s, p.1, p.0);
      if !Peek(s, j, ";") then Some((cmd, Skip(s, j)))
      else
        match ParseLine(s, GetToken(s, j).next)
        case None => None
        case Some(right) => Some((List(cmd, right.0), right.1))
  }

  /** parsecmd before nulterminate: None where the shell panics. */
  function ParseCmd(s: string): Option<Cmd> {
    match ParseLine(s, 0)
    case None => None
    case Some(r) => if Skip(s, r.1) == |s| then Some(r.0) else None
  }

  // ---------------------------------------------------------------- tokens are whole words

  /** The span is a maximal word. */
  ghost predicate IsWord(s: string, sp: Span) {
    && sp.q < sp.eq <= |s|
    && (forall k :: sp.q <= k < sp.eq ==> WordChar(s[k]))
    && (sp.eq < |s| ==> !WordChar(s[sp.eq]))
  }

  ghost predicate AllWords(s: string, words: seq<Span>) {
    forall i :: 0 <= i < |words| ==> IsWord(s, words[i])
  }

  ghost predicate WordsOk(s: string, cmd: Cmd) {
    match cmd
    case Exec(words) => AllWords(s, words)
    case Redir(c, file, _) => WordsOk(s, c) && IsWord(s, file)
    case Pipe(l, r) => WordsOk(s, l) && WordsOk(s, r)
    case List(l, r) => WordsOk(s, l) && WordsOk(s, r)
    case Back(c) => WordsOk(s, c)
  }

  lemma {:induction false} WordEndChars(s: string, i: nat, k: nat)
    requires i <= |s| && i <= k < WordEnd(s, i)
    ensures WordChar(s[k])
    decreases k - i
  {
    if i < k {
      WordEndChars(s, i + 1, k);
    }
  }

  lemma TokenIsWord(s: string, i: nat)
    requires i <= |s| && GetToken(s, i).kind == WORD
    ensures IsWord(s, GetToken(s, i).span)
  {
    var sp := GetToken(s, i).span;
    forall k | sp.q <= k < sp.eq ensures WordChar(s[k]) {
      WordEndChars(s, sp.q, k);
    }
  }

  ghost predicate FilesOk(s: string, rds: seq<Rd>) {
    forall i :: 0 <= i < |rds| ==> IsWord(s, rds[i].file)
  }

  lemma {:induction false} RedirsWords(s: string, i: nat)
    requires i <= |s|
    ensures Redirs(s, i).Some? ==> FilesOk(s, Redirs(s, i).value.0)
    decreases |s| - i
  {
    if Peek(s, i, "<>") {
      var f := GetToken(s, GetToken(s, i).next);
      if f.kind == WORD {
        TokenIsWord(s, GetToken(s, i).next);
        RedirsWords(s, f.next);
      }
    }
  }

  lemma {:induction false} WrapWords(s: string, cmd: Cmd, rds: seq<Rd>)
    requires WordsOk(s, cmd) && FilesOk(s, rds)
    ensures WordsOk(s, Wrap(cmd, rds))
    decreases rds
  {
    if rds != [] {
      assert IsWord(s, rds[0].file);
      WrapWords(s, Redir(cmd, rds[0].file, rds[0].out), rds[1..]);
    }
  }

  lemma {:induction false} ArgsWords(s: string, i: nat, words: seq<Span>, rds: seq<Rd>)
    requires i <= |s| && AllWords(s, words) && FilesOk(s, rds)
    ensures Args(s, i, words, rds).Some? ==> WordsOk(s, Args(s, i, words, rds).value.0)
    decreases |s| - i
  {
    WrapWords(s, Exec(words), rds);
    if !Peek(s, i, "|)&;") {
      var t := GetToken(s, i);
      if t.kind == WORD && |words| + 1 < MAXARGS {
        TokenIsWord(s, i);
        RedirsWords(s, t.next);
        if Redirs(s, t.next).Some? {
          var more := Redirs(s, t.next).value;
          ArgsWords(s, more.1, words + [t.span], rds + more.0);
        }
      }
    }
  }

  lemma {:induction false} BacksWords(s: string, i: nat, cmd: Cmd)
    requires i <= |s| && WordsOk(s, cmd)
    ensures WordsOk(s, Backs(s, i, cmd).0)
    decreases |s| - i
  {
    if Peek(s, i, "&") {
      BacksWords(s, GetToken(s, i).next, Back(cmd));
    }
  }

  lemma {:induction false} ParseExecWords(s: string, i: nat)
    requires i <= |s|
    ensures ParseExec(s, i).Some? ==> WordsOk(s, ParseExec(s, i).value.0)
    decreases |s| - i, 1
  {
    if Peek(s, i, "(") {
      var j := GetToken(s, i).next;
      ParseLineWords(s, j);
      if ParseLine(s, j).Some? && Peek(s, ParseLine(s, j).value.1, ")") {
        var k := GetToken(s, ParseLine(s, j).value.1).next;
        RedirsWords(s, k);
        if Redirs(s, k).Some? {
          WrapWords(s, ParseLine(s, j).value.0, Redirs(s, k).value.0);
        }
      }
    } else {
      RedirsWords(s, i);
      if Redirs(s, i).Some? {
        ArgsWords(s, Redirs(s, i).value.1, [], Redirs(s, i).value.0);
      }
    }
  }

  lemma {:induction false} ParsePipeWords(s: string, i: nat)
    requires i <= |s|
    ensures ParsePipe(s, i).Some? ==> WordsOk(s, ParsePipe(s, i).value.0)
    decreases |s| - i, 2
  {
    ParseExecWords(s, i);
    if ParseExec(s, i).Some? && Peek(s, ParseExec(s, i).value.1, "|") {
      ParsePipeWords(s, GetToken(s, ParseExec(s, i).value.1).next);
    }
  }

  /** For every line, every token of the parse is a maximal word. */
  lemma {:induction false} ParseLineWords(s: string, i: nat)
    requires i <= |s|
    ensures ParseLine(s, i).Some? ==> WordsOk(s, ParseLine(s, i).value.0)
    decreases |s| - i, 3
  {
    ParsePipeWords(s, i);
    if ParsePipe(s, i).Some? {
      var p := ParsePipe(s, i).value;
      BacksWords(s, p.1, p.0);
      var j := Backs(s, p.1, p.0).1;
      if Peek(s, j, ";") {
        ParseLineWords(s, GetToken(s, j).next);
      }
    }
  }

  // ---------------------------------------------------------------- nulterminate

  datatype Tree =
    | ExecTree(words: seq<string>)
    | RedirTree(cmd: Tree, file: string, out: bool)
    | PipeTree(left: Tree, right: Tree)
    | ListTree(left: Tree, right: Tree)
    | BackTree(cmd: Tree)

  function Text(s: string, sp: Span): string {
    if sp.q <= sp.eq <= |s| then s[sp.q..sp.eq] else ""
  }

  function Texts(s: string, words: seq<Span>): seq<string> {
    if words == [] then [] else [Text(s, words[0])] + Texts(s, words[1..])
  }

  /** The command with its tokens as text. */
  function TreeOf(s: string, cmd: Cmd): Tree {
    match cmd
    case Exec(words) => ExecTree(Texts(s, words))
    case Redir(c, file, out) => RedirTree(TreeOf(s, c), Text(s, file), out)
    case Pipe(l, r) => PipeTree(TreeOf(s, l), TreeOf(s, r))
    case List(l, r) => ListTree(TreeOf(s, l), TreeOf(s, r))
    case Back(c) => BackTree(TreeOf(s, c))
  }

  /** The C string at position q. */
  function CString(buf: string, q: nat): string
    decreases |buf| - q
  {
    if q < |buf| && buf[q] != NUL then [buf[q]] + CString(buf, q + 1) else ""
  }

  function CStrings(buf: string, words: seq<Span>): seq<string> {
    if words == [] then [] else [CString(buf, words[0].q)] + CStrings(buf, words[1..])
  }

  /** The command as runcmd reads it, each token a C string in the buffer. */
  function Read(buf: string, cmd: Cmd): Tree {
    match cmd
    case Exec(words) => ExecTree(CStrings(buf, words))
    case Redir(c, file, out) => RedirTree(Read(buf, c), CString(buf, file.q), out)
    case Pipe(l, r) => PipeTree(Read(buf, l), Read(buf, r))
    case List(l, r) => ListTree(Read(buf, l), Read(buf, r))
    case Back(c) => BackTree(Read(buf, c))
  }

  ghost function Ends(cmd: Cmd): set<nat> {
    match cmd
    case Exec(words) => set i | 0 <= i < |words| :: words[i].eq
    case Redir(c, file, _) => Ends(c) + {file.eq}
    case Pipe(l, r) => Ends(l) + Ends(r)
    case List(l, r) => Ends(l) + Ends(r)
    case Back(c) => Ends(c)
  }

  /** buf is the line with its NUL, and further NULs at the given places. */
  ghost predicate Cut(s: string, ends: set<nat>, buf: string) {
    && |buf| == |s| + 1
    && forall k :: 0 <= k < |buf| ==> buf[k] == if k == |s| || k in ends then NUL else s[k]
  }

  /** No end of a token lies inside a token. */
  lemma {:induction false} EndsOutside(s: string, cmd: Cmd, e: nat)
    requires WordsOk(s, cmd) && e in Ends(cmd)
    ensures e <= |s| && (e < |s| ==> !WordChar(s[e]))
    decreases cmd
  {
    match cmd
    case Exec(words) =>
      var i :| 0 <= i < |words| && words[i].eq == e;
      assert IsWord(s, words[i]);
    case Redir(c, file, _) =>
      if e in Ends(c) {
        EndsOutside(s, c, e);
      }
    case Pipe(l, r) =>
      if e in Ends(l) {
        EndsOutside(s, l, e);
      } else {
        EndsOutside(s, r, e);
      }
    case List(l, r) =>
      if e in Ends(l) {
        EndsOutside(s, l, e);
      } else {
        EndsOutside(s, r, e);
      }
    case Back(c) => EndsOutside(s, c, e);
  }

  ghost predicate Outside(s: string, ends: set<nat>) {
    forall e :: e in ends ==> e <= |s| && (e < |s| ==> !WordChar(s[e]))
  }

  ghost predicate NoNul(s: string) {
    forall k :: 0 <= k < |s| ==> s[k] != NUL
  }

  lemma {:induction false} WordReads(s: string, ends: set<nat>, buf: string, sp: Span, q: nat)
    requires NoNul(s) && Cut(s, ends, buf) && Outside(s, ends) && IsWord(s, sp) && sp.eq in ends && sp.q <= q <= sp.eq
    ensures CString(buf, q) == s[q..sp.eq]
    decreases sp.eq - q
  {
    if q < sp.eq {
      WordReads(s, ends, buf, sp, q + 1);
      assert q !in ends && buf[q] == s[q];
    }
  }

  lemma {:induction false} WordsRead(s: string, ends: set<nat>, buf: string, words: seq<Span>)
    requires NoNul(s) && Cut(s, ends, buf) && Outside(s, ends) && AllWords(s, words)
    requires forall i :: 0 <= i < |words| ==> words[i].eq in ends
    ensures CStrings(buf, words) == Texts(s, words)
    decreases words
  {
    if words != [] {
      assert IsWord(s, words[0]);
      WordReads(s, ends, buf, words[0], words[0].q);
      WordsRead(s, ends, buf, words[1..]);
    }
  }

  lemma {:induction false} CmdReads(s: string, ends: set<nat>, buf: string, cmd: Cmd)
    requires NoNul(s) && Cut(s, ends, buf) && Outside(s, ends) && WordsOk(s, cmd) && Ends(cmd) <= ends
    ensures Read(buf, cmd) == TreeOf(s, cmd)
    decreases cmd
  {
    match cmd
    case Exec(words) =>
      assert forall i :: 0 <= i < |words| ==> words[i].eq in Ends(cmd);
      WordsRead(s, ends, buf, words);
    case Redir(c, file, _) =>
      assert file.eq in Ends(cmd);
      CmdReads(s, ends, buf, c);
      WordReads(s, ends, buf, file, file.q);
    case Pipe(l, r) =>
      CmdReads(s, ends, buf, l);
      CmdReads(s, ends, buf, r);
    case List(l, r) =>
      CmdReads(s, ends, buf, l);
      CmdReads(s, ends, buf, r);
    case Back(c) => CmdReads(s, ends, buf, c);
  }

  /** For every line that parses: once the ends are NULs, every token reads back as itself. */
  lemma EveryTokenReads(s: string, buf: string)
    requires NoNul(s) && ParseCmd(s).Some? && Cut(s, Ends(ParseCmd(s).value), buf)
    ensures Read(buf, ParseCmd(s).value) == TreeOf(s, ParseCmd(s).value)
  {
    var cmd := ParseCmd(s).value;
    ParseLineWords(s, 0);
    forall e | e in Ends(cmd) ensures e <= |s| && (e < |s| ==> !WordChar(s[e])) {
      EndsOutside(s, cmd, e);
    }
    CmdReads(s, Ends(cmd), buf, cmd);
  }

  // ---------------------------------------------------------------- printing

  ghost predicate WordText(w: string) {
    w != "" && forall k :: 0 <= k < |w| ==> WordChar(w[k])
  }

  /** Commands that can be written down: at most nine words a command, each a word. */
  ghost predicate Printable(t: Tree) {
    match t
    case ExecTree(ws) => |ws| < MAXARGS && forall i :: 0 <= i < |ws| ==> WordText(ws[i])
    case RedirTree(c, file, _) => Printable(c) && WordText(file)
    case PipeTree(l, r) => Printable(l) && Printable(r)
    case ListTree(l, r) => Printable(l) && Printable(r)
    case BackTree(c) => Printable(c)
  }

  function Words(ws: seq<string>): string {
    if ws == [] then "" else if |ws| == 1 then ws[0] else ws[0] + " " + Words(ws[1..])
  }

  function Block(t: Tree): string
    decreases t, 1
  {
    "(" + Print(t) + ")"
  }

  /** The command with every part in parentheses. */
  function Print(t: Tree): string
    decreases t, 0
  {
    match t
    case ExecTree(ws) => Words(ws)
    case RedirTree(c, file, out) => Block(c) + (if out then ">" else "<") + file
    case PipeTree(l, r) => Block(l) + "|" + Block(r)
    case ListTree(l, r) => Block(l) + ";" + Block(r)
    case BackTree(c) => Block(c) + "&"
  }

  function SpansOf(ws: seq<string>, i: nat): seq<Span> {
    if ws == [] then [] else [Span(i, i + |ws[0]|)] + SpansOf(ws[1..], i + |ws[0]| + 1)
  }

  /** The command that the printed form stands for when it starts at position i. */
  function CmdOf(t: Tree, i: nat): Cmd {
    match t
    case ExecTree(ws) => Exec(SpansOf(ws, i))
    case RedirTree(c, file, out) => var f := i + |Print(c)| + 3; Redir(CmdOf(c, i + 1), Span(f, f + |file|), out)
    case PipeTree(l, r) => Pipe(CmdOf(l, i + 1), CmdOf(r, i + |Print(l)| + 4))
    case ListTree(l, r) => List(CmdOf(l, i + 1), CmdOf(r, i + |Print(l)| + 4))
    case BackTree(c) => Back(CmdOf(c, i + 1))
  }

  /** The tokens of printed words are those words. */
  lemma {:induction false} TextsOf(s: string, i: nat, ws: seq<string>)
    requires At(s, i, Words(ws))
    ensures Texts(s, SpansOf(ws, i)) == ws
    decreases ws
  {
    if |ws| == 1 {
      assert SpansOf(ws, i)[1..] == [];
    } else if |ws| > 1 {
      AtParts(s, i, ws[0] + " ", Words(ws[1..]));
      AtParts(s, i, ws[0], " ");
      TextsOf(s, i + |ws[0]| + 1, ws[1..]);
      assert SpansOf(ws, i)[1..] == SpansOf(ws[1..], i + |ws[0]| + 1);
    }
  }

  lemma BlockParts(s: string, i: nat, t: Tree)
    requires At(s, i, Block(t))
    ensures s[i] == '(' && At(s, i + 1, Print(t)) && i + 1 + |Print(t)| < |s| && s[i + 1 + |Print(t)|] == ')'
  {
    assert Block(t) == "(" + (Print(t) + ")");
    AtParts(s, i, "(", Print(t) + ")");
    AtParts(s, i + 1, Print(t), ")");
    AtChar(s, i, Block(t), 0);
    AtChar(s, i, Block(t), 1 + |Print(t)|);
  }

  lemma BlockLength(t: Tree)
    ensures |Block(t)| == |Print(t)| + 2
  {
    hide Print;
  }

  lemma TwoBlocks(s: string, i: nat, l: Tree, sym: string, r: Tree)
    requires |sym| == 1 && At(s, i, Block(l) + sym + Block(r))
    ensures At(s, i, Block(l)) && At(s, i + 1, Print(l)) && At(s, i + |Print(l)| + 3, Block(r))
    ensures At(s, i + |Print(l)| + 4, Print(r))
    ensures s[i + |Print(l)| + 2] == sym[0]
  {
    hide Print, At, Block;
    BlockLength(l);
    AtParts(s, i, Block(l) + sym, Block(r));
    AtParts(s, i, Block(l), sym);
    BlockParts(s, i, l);
    BlockParts(s, i + |Print(l)| + 3, r);
    AtChar(s, i + |Block(l)|, sym, 0);
  }

  lemma BlockThen(s: string, i: nat, t: Tree, rest: string)
    requires At(s, i, Block(t) + rest)
    ensures At(s, i, Block(t)) && At(s, i + 1, Print(t)) && At(s, i + |Print(t)| + 2, rest)
  {
    hide Print, At, Block;
    BlockLength(t);
    AtParts(s, i, Block(t), rest);
    BlockParts(s, i, t);
  }

  /** The parts of a printed command. */
  lemma PrintIs(t: Tree)
    ensures t.ExecTree? ==> Print(t) == Words(t.words)
    ensures t.RedirTree? ==>
        Print(t) == Block(t.cmd) + ((if t.out then ">" else "<") + t.file)
        && |Print(t)| == |Print(t.cmd)| + 3 + |t.file|
    ensures t.PipeTree? ==>
        Print(t) == Block(t.left) + "|" + Block(t.right) && |Print(t)| == |Print(t.left)| + 5 + |Print(t.right)|
    ensures t.ListTree? ==>
        Print(t) == Block(t.left) + ";" + Block(t.right) && |Print(t)| == |Print(t.left)| + 5 + |Print(t.right)|
    ensures t.BackTree? ==> Print(t) == Block(t.cmd) + "&" && |Print(t)| == |Print(t.cmd)| + 3
    ensures !t.ExecTree? ==> Print(t) != "" && Print(t)[0] == '('
  {
  }

  lemma TextAt(s: string, i: nat, w: string)
    requires At(s, i, w)
    ensures Text(s, Span(i, i + |w|)) == w
  {
  }

  /** The tokens of the printed form are its words. */
  lemma {:induction false} TreeOfCmdOf(s: string, i: nat, t: Tree)
    requires At(s, i, Print(t))
    ensures TreeOf(s, CmdOf(t, i)) == t
    decreases t
  {
    hide Print, Block, At, Text, Words;
    PrintIs(t);
    match t
    case ExecTree(ws) => TextsOf(s, i, ws);
    case RedirTree(c, file, out) =>
      var arrow := if out then ">" else "<";
      BlockThen(s, i, c, arrow + file);
      AtParts(s, i + |Print(c)| + 2, arrow, file);
      TextAt(s, i + |Print(c)| + 3, file);
      TreeOfCmdOf(s, i + 1, c);
    case PipeTree(l, r) =>
      TwoBlocks(s, i, l, "|", r);
      TreeOfCmdOf(s, i + 1, l);
      TreeOfCmdOf(s, i + |Print(l)| + 4, r);
    case ListTree(l, r) =>
      TwoBlocks(s, i, l, ";", r);
      TreeOfCmdOf(s, i + 1, l);
      TreeOfCmdOf(s, i + |Print(l)| + 4, r);
    case BackTree(c) =>
      BlockThen(s, i, c, "&");
      TreeOfCmdOf(s, i + 1, c);
  }

  // ---------------------------------------------------------------- parsing what was printed

  /** No white space here. */
  ghost predicate Tight(s: string, j: nat) {
    j < |s| ==> !White(s[j])
  }

  /** A part ends here: at the end of the line or at a closing parenthesis. */
  ghost predicate Closed(s: string, j: nat) {
    j == |s| || (j < |s| && s[j] == ')')
  }

  lemma SymbolToken(s: string, i: nat)
    requires i < |s| && Symbol(s[i]) && Tight(s, i + 1) && (s[i] == '>' && i + 1 < |s| ==> s[i + 1] != '>')
    ensures Skip(s, i) == i && GetToken(s, i) == Token(s[i], Span(i, i + 1), i + 1)
  {
  }

  lemma {:induction false} WordEndIs(s: string, i: nat, e: nat)
    requires i <= e <= |s| && (forall k :: i <= k < e ==> WordChar(s[k])) && (e < |s| ==> !WordChar(s[e]))
    ensures WordEnd(s, i) == e
    decreases e - i
  {
    if i < e {
      WordEndIs(s, i + 1, e);
    }
  }

  lemma WordToken(s: string, i: nat, w: string)
    requires At(s, i, w) && WordText(w) && (i + |w| < |s| ==> !WordChar(s[i + |w|]))
    ensures Skip(s, i) == i && GetToken(s, i) == Token(WORD, Span(i, i + |w|), Skip(s, i + |w|)) && WordChar(s[i])
  {
    forall k | i <= k < i + |w| ensures WordChar(s[k]) {
      AtChar(s, i, w, k - i);
    }
    WordEndIs(s, i, i + |w|);
  }

  lemma NoRedir(s: string, j: nat)
    requires j <= |s| && Tight(s, j) && (j < |s| ==> s[j] != '<' && s[j] != '>')
    ensures Redirs(s, j) == Some(([], j))
  {
  }

  lemma OneRedir(s: string, j: nat, file: string, out: bool)
    requires At(s, j, (if out then ">" else "<") + file) && WordText(file) && Closed(s, j + 1 + |file|)
    ensures Redirs(s, j) == Some(([Rd(Span(j + 1, j + 1 + |file|), out)], j + 1 + |file|))
  {
    AtParts(s, j, if out then ">" else "<", file);
    AtChar(s, j, (if out then ">" else "<") + file, 0);
    WordToken(s, j + 1, file);
    SymbolToken(s, j);
    NoRedir(s, j + 1 + |file|);
    var one := [Rd(Span(j + 1, j + 1 + |file|), out)];
    assert one + [] == one;
  }

  /** One more word. */
  lemma ArgsStep(s: string, i: nat, w: string, j: nat, done: seq<Span>)
    requires At(s, i, w) && WordText(w) && (i + |w| < |s| ==> !WordChar(s[i + |w|])) && |done| + 1 < MAXARGS
    requires i + |w| <= |s| && j == Skip(s, i + |w|) && (j < |s| ==> s[j] != '<' && s[j] != '>')
    ensures Args(s, i, done, []) == Args(s, j, done + [Span(i, i + |w|)], [])
  {
    hide At, WordText;
    WordToken(s, i, w);
    NoRedir(s, j);
    var none: seq<Rd> := [];
    assert none + [] == [];
  }

  /** The words of a command. */
  lemma {:induction false} ArgsOf(s: string, i: nat, ws: seq<string>, done: seq<Span>)
    requires At(s, i, Words(ws)) && Closed(s, i + |Words(ws)|) && |done| + |ws| < MAXARGS
    requires forall k :: 0 <= k < |ws| ==> WordText(ws[k])
    ensures Args(s, i, done, []) == Some((Exec(done + SpansOf(ws, i)), i + |Words(ws)|))
    decreases ws
  {
    hide At, WordText, Args, Words, Closed, SpansOf;
    if ws == [] {
      ArgsEnd(s, i, done);
    } else {
      FirstWord(s, i, ws);
      var j, sp := if |ws| == 1 then i + |ws[0]| else i + |ws[0]| + 1, Span(i, i + |ws[0]|);
      FirstWordNext(s, i, ws, j);
      ArgsStep(s, i, ws[0], j, done);
      ArgsOf(s, j, ws[1..], done + [sp]);
      SpansStep(ws, i, j, done);
    }
  }

  lemma SpansStep(ws: seq<string>, i: nat, j: nat, done: seq<Span>)
    requires ws != [] && j == if |ws| == 1 then i + |ws[0]| else i + |ws[0]| + 1
    ensures done + [Span(i, i + |ws[0]|)] + SpansOf(ws[1..], j) == done + SpansOf(ws, i)
  {
  }

  lemma FirstWordNext(s: string, i: nat, ws: seq<string>, j: nat)
    requires ws != [] && At(s, i, Words(ws)) && Closed(s, i + |Words(ws)|)
    requires forall k :: 0 <= k < |ws| ==> WordText(ws[k])
    requires j == if |ws| == 1 then i + |ws[0]| else i + |ws[0]| + 1
    ensures i + |ws[0]| <= |s| && j == Skip(s, i + |ws[0]|) && (j < |s| ==> s[j] != '<' && s[j] != '>')
    ensures At(s, j, Words(ws[1..])) && j + |Words(ws[1..])| == i + |Words(ws)|
  {
    FirstWord(s, i, ws);
    if |ws| == 1 {
      assert ws[1..] == [];
    }
  }

  lemma ArgsEnd(s: string, i: nat, done: seq<Span>)
    requires At(s, i, Words([])) && Closed(s, i + |Words([])|)
    ensures Args(s, i, done, []) == Some((Exec(done + SpansOf([], i)), i + |Words([])|))
  {
    assert done + [] == done;
  }

  /** After the first word comes the end, or a space and the next word. */
  lemma FirstWord(s: string, i: nat, ws: seq<string>)
    requires ws != [] && At(s, i, Words(ws)) && Closed(s, i + |Words(ws)|)
    requires forall k :: 0 <= k < |ws| ==> WordText(ws[k])
    ensures At(s, i, ws[0]) && (i + |ws[0]| < |s| ==> !WordChar(s[i + |ws[0]|]))
    ensures |ws| == 1 ==> Closed(s, i + |ws[0]|) && Skip(s, i + |ws[0]|) == i + |ws[0]|
    ensures |ws| > 1 ==>
              && At(s, i + |ws[0]| + 1, Words(ws[1..])) && i + |ws[0]| + 1 < |s| && WordChar(s[i + |ws[0]| + 1])
              && Skip(s, i + |ws[0]|) == i + |ws[0]| + 1 && i + |Words(ws)| == i + |ws[0]| + 1 + |Words(ws[1..])|
  {
    if |ws| > 1 {
      assert Words(ws[1..]) != "" && WordChar(Words(ws[1..])[0]) by {
        assert WordText(ws[1]) && Words(ws[1..])[0] == ws[1][0];
      }
      hide At, WordText;
      AtParts(s, i, ws[0] + " ", Words(ws[1..]));
      AtParts(s, i, ws[0], " ");
      AtChar(s, i + |ws[0]|, " ", 0);
      AtChar(s, i + |ws[0]| + 1, Words(ws[1..]), 0);
    }
  }

  /** A printed command starts with no white space, and is not empty where a part must follow. */
  lemma StartsTight(s: string, i: nat, t: Tree)
    requires At(s, i, Print(t)) && Closed(s, i + |Print(t)|) && Printable(t)
    ensures Tight(s, i)
  {
    match t
    case ExecTree(ws) =>
      if ws != [] {
        FirstWord(s, i, ws);
        WordToken(s, i, ws[0]);
      }
    case _ =>
      assert Print(t)[0] == '(';
      AtChar(s, i, Print(t), 0);
  }

  /** A command ends the line it is on. */
  lemma LineEnds(s: string, i: nat, c: Cmd, e: nat)
    requires i <= |s| && ParseExec(s, i) == Some((c, e)) && Closed(s, e)
    ensures ParsePipe(s, i) == Some((c, e)) && ParseLine(s, i) == Some((c, e))
  {
  }

  /** A block and what its redirections make of it. */
  lemma BlockParses(s: string, i: nat, c: Cmd, k: nat, rds: seq<Rd>, e: nat)
    requires i < |s| && s[i] == '(' && Tight(s, i + 1) && ParseLine(s, i + 1) == Some((c, k))
    requires k < |s| && s[k] == ')' && Tight(s, k + 1) && Redirs(s, k + 1) == Some((rds, e))
    ensures ParseExec(s, i) == Some((Wrap(c, rds), e))
  {
    hide Redirs, Wrap, ParseLine;
    SymbolToken(s, i);
    SymbolToken(s, k);
  }

  /** A printed block that no redirection follows. */
  lemma BareBlock(s: string, i: nat, t: Tree, c: Cmd)
    requires At(s, i, Block(t)) && Printable(t) && Tight(s, i + |Print(t)| + 2)
    requires i + |Print(t)| + 2 < |s| ==> s[i + |Print(t)| + 2] != '<' && s[i + |Print(t)| + 2] != '>'
    requires i < |s| && ParseLine(s, i + 1) == Some((c, i + 1 + |Print(t)|))
    ensures ParseExec(s, i) == Some((c, i + |Print(t)| + 2))
  {
    hide Print, Block, At, Printable, ParseLine, ParseExec, Redirs;
    BlockParts(s, i, t);
    StartsTight(s, i + 1, t);
    NoRedir(s, i + |Print(t)| + 2);
    BlockParses(s, i, c, i + 1 + |Print(t)|, [], i + |Print(t)| + 2);
  }

  lemma PipeParses(s: string, i: nat, l: Cmd, m: nat, r: Cmd, e: nat)
    requires i <= |s| && ParseExec(s, i) == Some((l, m)) && m < |s| && s[m] == '|' && Tight(s, m + 1)
    requires ParseExec(s, m + 1) == Some((r, e)) && Closed(s, e)
    ensures ParseLine(s, i) == Some((Pipe(l, r), e))
  {
    hide ParseExec;
    SymbolToken(s, m);
    LineEnds(s, m + 1, r, e);
    assert ParsePipe(s, i) == Some((Pipe(l, r), e));
  }

  lemma ListParses(s: string, i: nat, l: Cmd, m: nat, r: Cmd, e: nat)
    requires i <= |s| && ParseExec(s, i) == Some((l, m)) && m < |s| && s[m] == ';' && Tight(s, m + 1)
    requires ParseLine(s, m + 1) == Some((r, e))
    ensures ParseLine(s, i) == Some((List(l, r), e))
  {
    hide ParseExec;
    SymbolToken(s, m);
    assert ParsePipe(s, i) == Some((l, m));
  }

  lemma BackParses(s: string, i: nat, c: Cmd, m: nat)
    requires i <= |s| && ParseExec(s, i) == Some((c, m)) && m < |s| && s[m] == '&' && Closed(s, m + 1)
    ensures ParseLine(s, i) == Some((Back(c), m + 1))
  {
    hide ParseExec;
    SymbolToken(s, m);
    assert ParsePipe(s, i) == Some((c, m));
    assert Backs(s, m + 1, Back(c)) == (Back(c), m + 1);
  }

  lemma ExecOf(s: string, i: nat, ws: seq<string>)
    requires At(s, i, Words(ws)) && Closed(s, i + |Words(ws)|) && Printable(ExecTree(ws))
    ensures ParseLine(s, i) == Some((Exec(SpansOf(ws, i)), i + |Words(ws)|))
  {
    hide Words, SpansOf, At, Args, Redirs, ParseLine, WordText;
    ExecStart(s, i, ws);
    NoRedir(s, i);
    ArgsOf(s, i, ws, []);
    assert [] + SpansOf(ws, i) == SpansOf(ws, i);
    assert ParseExec(s, i) == Some((Exec(SpansOf(ws, i)), i + |Words(ws)|));
    LineEnds(s, i, Exec(SpansOf(ws, i)), i + |Words(ws)|);
  }

  /** A printed command of words starts with a word, or is nothing. */
  lemma ExecStart(s: string, i: nat, ws: seq<string>)
    requires At(s, i, Words(ws)) && Closed(s, i + |Words(ws)|) && Printable(ExecTree(ws))
    ensures i <= |s| && Skip(s, i) == i && (i < |s| ==> WordChar(s[i]) || s[i] == ')')
  {
    hide At, WordText;
    if ws == [] {
      NoWords(s, i);
    } else {
      FirstWord(s, i, ws);
      WordToken(s, i, ws[0]);
    }
  }

  lemma NoWords(s: string, i: nat)
    requires At(s, i, Words([])) && Closed(s, i + |Words([])|)
    ensures i <= |s| && Skip(s, i) == i && (i < |s| ==> s[i] == ')')
  {
  }

  lemma ExecTreeOf(s: string, i: nat, t: Tree)
    requires t.ExecTree? && At(s, i, Print(t)) && Closed(s, i + |Print(t)|) && Printable(t)
    ensures i <= |s| && ParseLine(s, i) == Some((CmdOf(t, i), i + |Print(t)|))
  {
    hide ParseLine, Words, SpansOf;
    ExecOf(s, i, t.words);
  }

  lemma RedirOf(s: string, i: nat, c: Tree, file: string, out: bool)
    requires At(s, i, Block(c)) && At(s, i + |Print(c)| + 2, (if out then ">" else "<") + file) && Printable(c)
    requires WordText(file)
    requires Closed(s, i + |Print(c)| + 3 + |file|)
    requires i < |s| && ParseLine(s, i + 1) == Some((CmdOf(c, i + 1), i + 1 + |Print(c)|))
    ensures ParseLine(s, i) == Some((CmdOf(RedirTree(c, file, out), i), i + |Print(c)| + 3 + |file|))
  {
    hide Print, Block, At, Printable, ParseLine, ParseExec, Redirs;
    var j := i + |Print(c)| + 2;
    BlockParts(s, i, c);
    StartsTight(s, i + 1, c);
    AtChar(s, j, (if out then ">" else "<") + file, 0);
    OneRedir(s, j, file, out);
    var rds := [Rd(Span(j + 1, j + 1 + |file|), out)];
    BlockParses(s, i, CmdOf(c, i + 1), i + 1 + |Print(c)|, rds, j + 1 + |file|);
    assert rds[1..] == [];
    LineEnds(s, i, Wrap(CmdOf(c, i + 1), rds), j + 1 + |file|);
  }

  /** Two blocks with a symbol between them, each parsed. */
  lemma BlocksOf(s: string, i: nat, l: Tree, sym: string, r: Tree)
    requires sym == "|" || sym == ";"
    requires At(s, i, Block(l) + sym + Block(r)) && Printable(l) && Printable(r)
    requires Closed(s, i + |Print(l)| + |Print(r)| + 5)
    requires i + |Print(l)| + |Print(r)| + 5 <= |s|
    requires ParseLine(s, i + 1) == Some((CmdOf(l, i + 1), i + 1 + |Print(l)|))
    requires ParseLine(s, i + |Print(l)| + 4) == Some((CmdOf(r, i + |Print(l)| + 4), i + |Print(l)| + 4 + |Print(r)|))
    ensures var m := i + |Print(l)| + 2;
            && m < |s| && s[m] == sym[0] && Tight(s, m + 1)
            && ParseExec(s, i) == Some((CmdOf(l, i + 1), m))
            && ParseExec(s, m + 1) == Some((CmdOf(r, m + 2), m + 1 + |Print(r)| + 2))
  {
    hide Print, Block, At, Printable, ParseLine, ParseExec;
    TwoBlocks(s, i, l, sym, r);
    var m := i + |Print(l)| + 2;
    BlockParts(s, m + 1, r);
    BareBlock(s, i, l, CmdOf(l, i + 1));
    BareBlock(s, m + 1, r, CmdOf(r, m + 2));
  }

  /** Where the two parts of a pipe or a list stand. */
  lemma PartsOf(s: string, i: nat, t: Tree)
    requires At(s, i, Print(t)) && (t.PipeTree? || t.ListTree?) && Printable(t)
    ensures Printable(t.left) && Printable(t.right)
    ensures var sym, l, r := (if t.PipeTree? then "|" else ";"), t.left, t.right;
            && At(s, i, Block(l) + sym + Block(r)) && |Print(t)| == |Print(l)| + |Print(r)| + 5
            && At(s, i + 1, Print(l)) && Closed(s, i + 1 + |Print(l)|)
            && At(s, i + |Print(l)| + 4, Print(r)) && Closed(s, i + |Print(l)| + 4 + |Print(r)|)
            && i + |Print(t)| <= |s|
  {
    assert i + |Print(t)| <= |s|;
    hide Print, Block, At;
    PrintIs(t);
    TwoBlocks(s, i, t.left, if t.PipeTree? then "|" else ";", t.right);
    BlockParts(s, i, t.left);
    BlockParts(s, i + |Print(t.left)| + 3, t.right);
  }

  /** Where the block of a redirection or a background command stands. */
  lemma PartOf(s: string, i: nat, t: Tree)
    requires At(s, i, Print(t)) && (t.RedirTree? || t.BackTree?) && Printable(t)
    ensures Printable(t.cmd) && (t.RedirTree? ==> WordText(t.file))
    ensures var rest := if t.RedirTree? then (if t.out then ">" else "<") + t.file else "&";
            && i < |s| && At(s, i, Block(t.cmd)) && |Print(t)| == |Print(t.cmd)| + 2 + |rest|
            && At(s, i + 1, Print(t.cmd)) && Closed(s, i + 1 + |Print(t.cmd)|)
            && At(s, i + |Print(t.cmd)| + 2, rest)
  {
    hide Print, Block;
    PrintIs(t);
    var rest := if t.RedirTree? then (if t.out then ">" else "<") + t.file else "&";
    BlockThen(s, i, t.cmd, rest);
    BlockParts(s, i, t.cmd);
  }

  lemma BackOf(s: string, i: nat, c: Tree)
    requires At(s, i, Block(c)) && At(s, i + |Print(c)| + 2, "&") && Printable(c) && Closed(s, i + |Print(c)| + 3)
    requires i < |s| && ParseLine(s, i + 1) == Some((CmdOf(c, i + 1), i + 1 + |Print(c)|))
    ensures ParseLine(s, i) == Some((CmdOf(BackTree(c), i), i + |Print(c)| + 3))
  {
    hide Print, Block, At, ParseLine, ParseExec;
    AtChar(s, i + |Print(c)| + 2, "&", 0);
    BareBlock(s, i, c, CmdOf(c, i + 1));
    BackParses(s, i, CmdOf(c, i + 1), i + |Print(c)| + 2);
  }

  lemma TwoOf(s: string, i: nat, t: Tree)
    requires (t.PipeTree? || t.ListTree?) && At(s, i, Print(t)) && Closed(s, i + |Print(t)|) && Printable(t)
    requires var l := t.left; i + 1 <= |s| && ParseLine(s, i + 1) == Some((CmdOf(l, i + 1), i + 1 + |Print(l)|))
    requires var l, r := t.left, t.right; var k := i + |Print(l)| + 4;
             k <= |s| && ParseLine(s, k) == Some((CmdOf(r, k), k + |Print(r)|))
    ensures ParseLine(s, i) == Some((CmdOf(t, i), i + |Print(t)|))
  {
    hide Print, Block, At, ParseLine, ParseExec;
    PartsOf(s, i, t);
    var l, r := t.left, t.right;
    var m := i + |Print(l)| + 2;
    var e := m + 1 + |Print(r)| + 2;
    BlocksOf(s, i, l, if t.PipeTree? then "|" else ";", r);
    if t.PipeTree? {
      PipeParses(s, i, CmdOf(l, i + 1), m, CmdOf(r, m + 2), e);
    } else {
      LineEnds(s, m + 1, CmdOf(r, m + 2), e);
      ListParses(s, i, CmdOf(l, i + 1), m, CmdOf(r, m + 2), e);
    }
  }

  lemma OneOf(s: string, i: nat, t: Tree)
    requires (t.RedirTree? || t.BackTree?) && At(s, i, Print(t)) && Closed(s, i + |Print(t)|) && Printable(t)
    requires i + 1 <= |s| && ParseLine(s, i + 1) == Some((CmdOf(t.cmd, i + 1), i + 1 + |Print(t.cmd)|))
    ensures ParseLine(s, i) == Some((CmdOf(t, i), i + |Print(t)|))
  {
    hide Print, Block, At, ParseLine, CmdOf, Printable, WordText;
    PartOf(s, i, t);
    match t
    case RedirTree(c, file, out) => RedirOf(s, i, c, file, out);
    case BackTree(c) => BackOf(s, i, c);
  }

  /** Where the first part of a command stands. */
  lemma FirstPart(s: string, i: nat, t: Tree)
    requires !t.ExecTree? && At(s, i, Print(t)) && Printable(t)
    ensures var c := if t.RedirTree? || t.BackTree? then t.cmd else t.left;
            i < |s| && c < t && At(s, i + 1, Print(c)) && Closed(s, i + 1 + |Print(c)|) && Printable(c)
  {
    hide Print, Block, Printable, Closed, WordText;
    if t.RedirTree? || t.BackTree? {
      PartOf(s, i, t);
    } else {
      PartsOf(s, i, t);
    }
  }

  /** Parsing the printed form, wherever it stands, gives the command back. */
  lemma {:induction false} LineOf(s: string, i: nat, t: Tree)
    requires At(s, i, Print(t)) && Closed(s, i + |Print(t)|) && Printable(t)
    ensures i <= |s| && ParseLine(s, i) == Some((CmdOf(t, i), i + |Print(t)|))
    decreases t
  {
    hide Print, Block, At, ParseLine, Closed, Printable, CmdOf;
    if t.ExecTree? {
      ExecTreeOf(s, i, t);
    } else if t.RedirTree? || t.BackTree? {
      FirstPart(s, i, t);
      LineOf(s, i + 1, t.cmd);
      OneOf(s, i, t);
    } else {
      PartsOf(s, i, t);
      LineOf(s, i + 1, t.left);
      LineOf(s, i + |Print(t.left)| + 4, t.right);
      TwoOf(s, i, t);
    }
  }

  /** The shell reads back every command it could have been given. */
  lemma ParsePrint(t: Tree)
    requires Printable(t)
    ensures ParseCmd(Print(t)).Some? && TreeOf(Print(t), ParseCmd(Print(t)).value) == t
  {
    var s := Print(t);
    assert s[0..0 + |s|] == s;
    LineOf(s, 0, t);
    TreeOfCmdOf(s, 0, t);
  }
}
