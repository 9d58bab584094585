/** The loops of the shell's parser (xv6-public/sh.c): the lexer walks the line, the parser advances
    its position, and nulterminate writes the buffer the tokens point into. */
module ShellCode {
  import opened Shell
  import opened Options

  method SkipWhite(s: string, i: nat) returns (j: nat)
    requires i <= |s|
    ensures j == Skip(s, i)
  {
    j := i;
    while j < |s| && White(s[j])
      invariant i <= j <= |s| && Skip(s, i) == Skip(s, j)
    {
      j := j + 1;
    }
  }

  method Gettoken(s: string, ps: nat) returns (t: Token)
    requires ps <= |s|
    ensures t == GetToken(s, ps)
  {
    var q := SkipWhite(s, ps);
    var i, ret := q, if q < |s| then s[q] else NUL;
    if q == |s| {
    } else if s[q] == '|' || s[q] == '(' || s[q] == ')' || s[q] == ';' || s[q] == '&' || s[q] == '<' {
      i := i + 1;
    } else if s[q] == '>' {
      i := i + 1;
      if i < |s| && s[i] == '>' {
        ret := APPEND;
        i := i + 1;
      }
    } else {
      ret := WORD;
      while i < |s| && !White(s[i]) && !Symbol(s[i])
        invariant q <= i <= |s| && WordEnd(s, q) == WordEnd(s, i)
      {
        i := i + 1;
      }
    }
    if q == |s| {
      ret := NUL;
    }
    var next := SkipWhite(s, i);
    return Token(ret, Span(q, i), next);
  }

  method PeekAt(s: string, ps: nat, toks: string) returns (found: bool, i: nat)
    requires ps <= |s|
    ensures i == Skip(s, ps) && found == Peek(s, ps, toks) && GetToken(s, i) == GetToken(s, ps) && Skip(s, i) == i
  {
    i := SkipWhite(s, ps);
    found := i < |s| && s[i] in toks;
  }

  /** The redirections that parseredirs wraps around its command, first one innermost. */
  method Parseredirs(s: string, ps: nat) returns (r: Option<(seq<Rd>, nat)>)
    requires ps <= |s|
    ensures r == Redirs(s, ps)
  {
    var rds, i := [], ps;
    var more, j := PeekAt(s, i, "<>");
    AfterNone(Redirs(s, i));
    while more
      invariant i <= j <= |s| && ps <= i && j == Skip(s, i) && more == Peek(s, i, "<>")
      invariant GetToken(s, j) == GetToken(s, i)
      invariant Redirs(s, ps) == After(rds, Redirs(s, i))
      decreases |s| - i
    {
      var tok := Gettoken(s, j);
      var f := Gettoken(s, tok.next);
      if f.kind != WORD {
        return None;
      }
      AfterOne(rds, Rd(f.span, tok.kind != '<'), Redirs(s, f.next));
      rds := rds + [Rd(f.span, tok.kind != '<')];
      i := f.next;
      more, j := PeekAt(s, i, "<>");
    }
    assert rds + [] == rds;
    return Some((rds, j));
  }

  ghost function After(rds: seq<Rd>, r: Option<(seq<Rd>, nat)>): Option<(seq<Rd>, nat)> {
    match r
    case None => None
    case Some(more) => Some((rds + more.0, more.1))
  }

  lemma AfterNone(r: Option<(seq<Rd>, nat)>)
    ensures After([], r) == r
  {
    if r.Some? {
      assert [] + r.value.0 == r.value.0;
    }
  }

  lemma AfterOne(rds: seq<Rd>, x: Rd, r: Option<(seq<Rd>, nat)>)
    ensures After(rds, After([x], r)) == After(rds + [x], r)
  {
    if r.Some? {
      assert rds + ([x] + r.value.0) == rds + [x] + r.value.0;
    }
  }

  method Parseexec(s: string, ps: nat) returns (r: Option<(Cmd, nat)>)
    requires ps <= |s|
    ensures r == ParseExec(s, ps)
    decreases |s| - ps, 1
  {
    var open, i := PeekAt(s, ps, "(");
    if open {
      r := Parseblock(s, ps);
      return;
    }
    r := ParseWords(s, ps);
  }

  /** parseexec's loop over words and redirections. */
  method ParseWords(s: string, ps: nat) returns (r: Option<(Cmd, nat)>)
    requires ps <= |s| && !Peek(s, ps, "(")
    ensures r == ParseExec(s, ps)
  {
    var first := Parseredirs(s, ps);
    if first.None? {
      return None;
    }
    var rds, start := first.value.0, first.value.1;
    ghost var rds0 := rds;
    var words, i := [], start;
    var stop, j := PeekAt(s, i, "|)&;");
    while !stop
      invariant start <= i <= j <= |s| && j == Skip(s, i) && stop == Peek(s, i, "|)&;")
          && GetToken(s, j) == GetToken(s, i)
      invariant Args(s, start, [], rds0) == Args(s, i, words, rds)
      decreases |s| - i
    {
      var t := Gettoken(s, j);
      if t.kind == NUL {
        return Some((Wrap(Exec(words), rds), t.next));
      }
      if t.kind != WORD {
        return None;
      }
      if |words| + 1 >= MAXARGS {
        return None;
      }
      var more := Parseredirs(s, t.next);
      if more.None? {
        return None;
      }
      words, rds, i := words + [t.span], rds + more.value.0, more.value.1;
      stop, j := PeekAt(s, i, "|)&;");
    }
    return Some((Wrap(Exec(words), rds), j));
  }

  method Parseblock(s: string, ps: nat) returns (r: Option<(Cmd, nat)>)
    requires ps <= |s|
    ensures r == ParseBlock(s, ps)
    decreases |s| - ps, 0
  {
    var there, at := PeekAt(s, ps, "(");
    if !there {
      return None;
    }
    var open := Gettoken(s, at);
    var line := Parseline(s, open.next);
    if line.None? {
      return None;
    }
    var close, i := PeekAt(s, line.value.1, ")");
    if !close {
      return None;
    }
    var t := Gettoken(s, i);
    var more := Parseredirs(s, t.next);
    if more.None? {
      return None;
    }
    return Some((Wrap(line.value.0, more.value.0), more.value.1));
  }

  method Parsepipe(s: string, ps: nat) returns (r: Option<(Cmd, nat)>)
    requires ps <= |s|
    ensures r == ParsePipe(s, ps)
    decreases |s| - ps, 2
  {
    var left := Parseexec(s, ps);
    if left.None? {
      return None;
    }
    var bar, i := PeekAt(s, left.value.1, "|");
    if !bar {
      return Some((left.value.0, i));
    }
    var t := Gettoken(s, i);
    var right := Parsepipe(s, t.next);
    if right.None? {
      return None;
    }
    return Some((Pipe(left.value.0, right.value.0), right.value.1));
  }

  method Parseline(s: string, ps: nat) returns (r: Option<(Cmd, nat)>)
    requires ps <= |s|
    ensures r == ParseLine(s, ps)
    decreases |s| - ps, 3
  {
    var p := Parsepipe(s, ps);
    if p.None? {
      return None;
    }
    var cmd, i := ParseBacks(s, p.value.1, p.value.0);
    var semi, j := PeekAt(s, i, ";");
    if !semi {
      return Some((cmd, j));
    }
    var t := Gettoken(s, j);
    var right := Parseline(s, t.next);
    if right.None? {
      return None;
    }
    return Some((List(cmd, right.value.0), right.value.1));
  }

  /** parseline's loop over ampersands. */
  method ParseBacks(s: string, ps: nat, c: Cmd) returns (cmd: Cmd, i: nat)
    requires ps <= |s|
    ensures (cmd, i) == Backs(s, ps, c)
  {
    cmd := c;
    var k := ps;
    var amp;
    amp, i := PeekAt(s, k, "&");
    while amp
      invariant ps <= k <= i <= |s| && i == Skip(s, k) && amp == Peek(s, k, "&") && GetToken(s, i) == GetToken(s, k)
      invariant Backs(s, ps, c) == Backs(s, k, cmd)
      decreases |s| - k
    {
      var t := Gettoken(s, i);
      cmd, k := Back(cmd), t.next;
      amp, i := PeekAt(s, k, "&");
    }
  }

  /** nulterminate: a NUL at the end of every token and nowhere else. */
  method Nulterminate(buf: array<char>, cmd: Cmd)
    requires forall e :: e in Ends(cmd) ==> e < buf.Length
    modifies buf
    ensures forall k :: 0 <= k < buf.Length ==> buf[k] == if k in Ends(cmd) then NUL else old(buf[k])
    decreases cmd
  {
    match cmd
    case Exec(words) =>
      assert forall i :: 0 <= i < |words| ==> words[i].eq in Ends(cmd);
      NulWords(buf, words);
    case Redir(c, file, _) =>
      assert file.eq in Ends(cmd) && Ends(c) <= Ends(cmd);
      Nulterminate(buf, c);
      buf[file.eq] := NUL;
    case Pipe(l, r) =>
      assert Ends(l) <= Ends(cmd) && Ends(r) <= Ends(cmd);
      Nulterminate(buf, l);
      Nulterminate(buf, r);
    case List(l, r) =>
      assert Ends(l) <= Ends(cmd) && Ends(r) <= Ends(cmd);
      Nulterminate(buf, l);
      Nulterminate(buf, r);
    case Back(c) =>
      assert Ends(c) <= Ends(cmd);
      Nulterminate(buf, c);
  }

  method NulWords(buf: array<char>, words: seq<Span>)
    requires forall i :: 0 <= i < |words| ==> words[i].eq < buf.Length
    modifies buf
    ensures forall k :: 0 <= k < buf.Length ==> buf[k] == if k in Ends(Exec(words)) then NUL else old(buf[k])
  {
    var i := 0;
    while i < |words|
      invariant 0 <= i <= |words|
      invariant forall k :: 0 <= k < buf.Length ==>
          buf[k] == if k in (set j | 0 <= j < i :: words[j].eq) then NUL else old(buf[k])
    {
      buf[words[i].eq] := NUL;
      i := i + 1;
    }
  }

  /** parsecmd on a buffer that holds a line of n characters and its NUL: None where it panics;
      otherwise every token of the command reads back from the buffer as it stood in the line. */
  method Parsecmd(buf: array<char>, n: nat) returns (r: Option<Cmd>)
    requires buf.Length == n + 1 && buf[n] == NUL && NoNul(buf[..n])
    modifies buf
    ensures r == ParseCmd(old(buf[..n]))
    ensures r.Some? ==> Read(buf[..], r.value) == TreeOf(old(buf[..n]), r.value)
  {
    var s := buf[..n];
    var line := Parseline(s, 0);
    if line.None? {
      return None;
    }
    var _, i := PeekAt(s, line.value.1, "");
    if i != |s| {
      return None;
    }
    var cmd := line.value.0;
    ParseLineWords(s, 0);
    forall e | e in Ends(cmd) ensures e < buf.Length {
      EndsOutside(s, cmd, e);
    }
    Nulterminate(buf, cmd);
    assert Cut(s, Ends(cmd), buf[..]);
    EveryTokenReads(s, buf[..]);
    return Some(cmd);
  }
}
