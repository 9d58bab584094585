/** The regular expression matcher of grep (xv6-public/grep.c), loops and recursion as in the source,
    against a meaning without backtracking: a text matches when it begins with segments that fit the
    items of the pattern one by one. Strings are without NULs. */
module Matcher {

  /** A character, any number of them, or the end of the text. */
  datatype Item = One(c: char) | Star(c: char) | End

  /** What a pattern consists of. */
  function Items(re: string): seq<Item> {
    if re == "" then []
    else if |re| > 1 && re[1] == '*' then [Star(re[0])] + Items(re[2..])
    else if re == "$" then [End]
    else [One(re[0])] + Items(re[1..])
  }

  predicate Fit(c: char, ch: char) {
    c == '.' || c == ch
  }

  ghost predicate AllFit(c: char, seg: string) {
    forall i :: 0 <= i < |seg| ==> Fit(c, seg[i])
  }

  ghost predicate Fits(item: Item, seg: string) {
    match item
    case One(c) => |seg| == 1 && Fit(c, seg[0])
    case Star(c) => AllFit(c, seg)
    case End => seg == ""
  }

  function Concat(segs: seq<string>): string {
    if segs == [] then "" else segs[0] + Concat(segs[1..])
  }

  ghost predicate AllFits(items: seq<Item>, segs: seq<string>) {
    |segs| == |items| && forall i :: 0 <= i < |items| ==> Fits(items[i], segs[i])
  }

  /** The segments begin the text; with an End they are all of it. */
  ghost predicate Splits(items: seq<Item>, text: string, segs: seq<string>) {
    AllFits(items, segs) && Concat(segs) <= text && (End in items ==> Concat(segs) == text)
  }

  /** The text begins with something the items stand for. */
  ghost predicate Accepts(items: seq<Item>, text: string) {
    exists segs :: Splits(items, text, segs)
  }

  // ---------------------------------------------------------------- one item at a time

  lemma AcceptsNone(text: string)
    ensures Accepts([], text)
  {
    assert Splits([], text, []);
  }

  lemma AcceptsEnd(text: string)
    ensures Accepts([End], text) <==> text == ""
  {
    if text == "" {
      assert [""][1..] == [] && Concat([""]) == "";
      assert Splits([End], text, [""]);
    }
    if Accepts([End], text) {
      var segs :| Splits([End], text, segs);
      assert Fits(End, segs[0]) && segs[1..] == [];
      assert End in [End] && Concat(segs) == "";
    }
  }

  /** A first segment can be taken off. */
  lemma SplitFirst(item: Item, rest: seq<Item>, text: string, segs: seq<string>)
    requires Splits([item] + rest, text, segs) && item != End
    ensures segs != [] && Fits(item, segs[0]) && segs[0] <= text && Splits(rest, text[|segs[0]|..], segs[1..])
  {
    var items, seg := [item] + rest, segs[0];
    assert Fits(items[0], segs[0]);
    assert Concat(segs) == seg + Concat(segs[1..]);
    forall i | 0 <= i < |rest| ensures Fits(rest[i], segs[1..][i]) {
      assert Fits(items[i + 1], segs[i + 1]);
    }
    assert End in rest ==> End in items;
    assert Concat(segs)[|seg|..] == Concat(segs[1..]);
  }

  /** And put back on. */
  lemma JoinFirst(item: Item, rest: seq<Item>, text: string, seg: string, segs: seq<string>)
    requires Fits(item, seg) && item != End && seg <= text && Splits(rest, text[|seg|..], segs)
    ensures Splits([item] + rest, text, [seg] + segs)
  {
    var items, all := [item] + rest, [seg] + segs;
    assert all[1..] == segs;
    assert text == seg + text[|seg|..];
  }

  lemma AcceptsOne(c: char, rest: seq<Item>, text: string)
    ensures Accepts([One(c)] + rest, text) <==> text != "" && Fit(c, text[0]) && Accepts(rest, text[1..])
  {
    if Accepts([One(c)] + rest, text) {
      var segs :| Splits([One(c)] + rest, text, segs);
      SplitFirst(One(c), rest, text, segs);
      assert Splits(rest, text[1..], segs[1..]);
    }
    if text != "" && Fit(c, text[0]) && Accepts(rest, text[1..]) {
      var segs :| Splits(rest, text[1..], segs);
      assert text[..1] <= text && Fits(One(c), text[..1]);
      JoinFirst(One(c), rest, text, text[..1], segs);
    }
  }

  /** After k characters that fit, the rest of the pattern accepts the rest of the text. */
  ghost predicate StarAt(c: char, rest: seq<Item>, text: string, k: nat) {
    k <= |text| && AllFit(c, text[..k]) && Accepts(rest, text[k..])
  }

  lemma AcceptsStar(c: char, rest: seq<Item>, text: string)
    ensures Accepts([Star(c)] + rest, text) <==> exists k: nat :: StarAt(c, rest, text, k)
  {
    if Accepts([Star(c)] + rest, text) {
      var segs :| Splits([Star(c)] + rest, text, segs);
      SplitFirst(Star(c), rest, text, segs);
      assert text[..|segs[0]|] == segs[0];
      assert StarAt(c, rest, text, |segs[0]|);
    }
    if exists k: nat :: StarAt(c, rest, text, k) {
      var k: nat :| StarAt(c, rest, text, k);
      var segs :| Splits(rest, text[k..], segs);
      JoinFirst(Star(c), rest, text, text[..k], segs);
    }
  }

  // ---------------------------------------------------------------- the code

  /** matchhere: the text begins with what the pattern stands for. */
  method Matchhere(re: string, text: string) returns (r: bool)
    ensures r <==> Accepts(Items(re), text)
    decreases |re|, 0
  {
    if re == "" {
      AcceptsNone(text);
      return true;
    }
    if |re| > 1 && re[1] == '*' {
      r := Matchstar(re[0], re[2..], text);
      return;
    }
    if re[0] == '$' && |re| == 1 {
      AcceptsEnd(text);
      return text == "";
    }
    AcceptsOne(re[0], Items(re[1..]), text);
    if text != "" && (re[0] == '.' || re[0] == text[0]) {
      r := Matchhere(re[1..], text[1..]);
      return;
    }
    return false;
  }

  /** matchstar: the same for c* and the pattern after it. */
  method Matchstar(c: char, re: string, text: string) returns (r: bool)
    ensures r <==> Accepts([Star(c)] + Items(re), text)
    decreases |re|, 1
  {
    ghost var rest := Items(re);
    AcceptsStar(c, rest, text);
    var i := 0;
    assert text[..0] == "";
    while true
      invariant 0 <= i <= |text| && AllFit(c, text[..i])
      invariant forall k: nat :: k < i ==> !StarAt(c, rest, text, k)
      decreases |text| - i
    {
      var here := Matchhere(re, text[i..]);
      if here {
        assert StarAt(c, rest, text, i);
        return true;
      }
      if i == |text| || !(text[i] == c || c == '.') {
        NoLonger(c, rest, text, i);
        return false;
      }
      assert text[..i + 1] == text[..i] + [text[i]];
      i := i + 1;
    }
  }

  /** Past a character that does not fit, no more can fit. */
  lemma NoLonger(c: char, rest: seq<Item>, text: string, i: nat)
    requires i <= |text| && (i < |text| ==> !Fit(c, text[i])) && forall k: nat :: k < i ==> !StarAt(c, rest, text, k)
    requires !Accepts(rest, text[i..])
    ensures !exists k: nat :: StarAt(c, rest, text, k)
  {
    forall k: nat ensures !StarAt(c, rest, text, k) {
      if k > i && k <= |text| {
        assert text[..k][i] == text[i];
      }
    }
  }

  /** match: the pattern is found at the start of the text after ^, else anywhere in it. */
  method Match(re: string, text: string) returns (r: bool)
    ensures re != "" && re[0] == '^' ==> (r <==> Accepts(Items(re[1..]), text))
    ensures re == "" || re[0] != '^' ==> (r <==> exists i: nat :: i <= |text| && Accepts(Items(re), text[i..]))
  {
    if re != "" && re[0] == '^' {
      r := Matchhere(re[1..], text);
      return;
    }
    var i := 0;
    while true
      invariant 0 <= i <= |text| && forall k: nat :: k < i ==> !Accepts(Items(re), text[k..])
      decreases |text| - i
    {
      r := Matchhere(re, text[i..]);
      if r || i == |text| {
        return;
      }
      i := i + 1;
    }
  }
}
