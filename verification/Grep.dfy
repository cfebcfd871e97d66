/** The pattern matcher of grep.c, against the language that a pattern denotes. Strings are without their final NUL. */
module Grep {
  /** What a pattern is made of: one character, or any number of them; '.' stands for every character. */
  datatype Item = One(c: char) | Many(c: char)

  /** The items of a pattern without a leading '^', and whether it ends with '$'. */
  datatype Pattern = Pattern(items: seq<Item>, toEnd: bool)

  function Parse(re: string): Pattern {
    if re == [] then Pattern([], false)
    else if |re| >= 2 && re[1] == '*' then
      var p := Parse(re[2..]);
      p.(items := [Many(re[0])] + p.items)
    else if re == "$" then Pattern([], true)
    else
      var p := Parse(re[1..]);
      p.(items := [One(re[0])] + p.items)
  }

  predicate Fits(c: char, x: char) {
    c == '.' || c == x
  }

  /** The language of a sequence of items. */
  ghost predicate In(s: string, items: seq<Item>)
    decreases |items|
  {
    if items == [] then s == []
    else
      match items[0]
      case One(c) => s != [] && Fits(c, s[0]) && In(s[1..], items[1..])
      case Many(c) => exists k: nat :: k <= |s| && AllFit(c, s[..k]) && In(s[k..], items[1..])
  }

  predicate AllFit(c: char, s: string) {
    forall i :: 0 <= i < |s| ==> Fits(c, s[i])
  }

  /** Some beginning of the text is in the language; all of the text, if the pattern runs to the end. */
  ghost predicate Begins(text: string, p: Pattern) {
    exists j: nat :: j <= |text| && (p.toEnd ==> j == |text|) && In(text[..j], p.items)
  }

  /** The text splits into a prefix, a part in the language and a suffix; '^' wants no prefix and a final '$' no
      suffix. */
  ghost predicate Splits(text: string, re: string) {
    if re != [] && re[0] == '^' then Begins(text, Parse(re[1..]))
    else exists i: nat :: i <= |text| && Begins(text[i..], Parse(re))
  }

  /** match */
  method Match(re: string, text: string) returns (b: bool)
    ensures b <==> Splits(text, re)
  {
    if re != [] && re[0] == '^' {
      b := MatchHere(re[1..], text);
      return;
    }
    var i := 0;
    while true
      invariant i <= |text| && forall k: nat :: k < i ==> !Begins(text[k..], Parse(re))
      decreases |text| - i
    {
      var here := MatchHere(re, text[i..]);
      if here {
        return true;
      }
      if i == |text| {
        return false;
      }
      i := i + 1;
    }
  }

  /** matchhere */
  method MatchHere(re: string, text: string) returns (b: bool)
    ensures b <==> Begins(text, Parse(re))
    decreases |re|, 0
  {
    if re == [] {
      assert In(text[..0], []);
      return true;
    }
    if |re| >= 2 && re[1] == '*' {
      b := MatchStar(re[0], re[2..], text);
      return;
    }
    if re[0] == '$' && |re| == 1 {
      EndOnly(text);
      return text == [];
    }
    OneBegins(text, re[0], Parse(re[1..]));
    if text != [] && (re[0] == '.' || re[0] == text[0]) {
      b := MatchHere(re[1..], text[1..]);
      return;
    }
    b := false;
  }

  /** matchstar: c*re at the beginning of text */
  method MatchStar(c: char, re: string, text: string) returns (b: bool)
    ensures b <==> Begins(text, Starred(c, Parse(re)))
    decreases |re|, 1
  {
    StarBegins(text, c, Parse(re));
    var i := 0;
    while true
      invariant i <= |text| && AllFit(c, text[..i]) && forall k: nat :: k < i ==> !Begins(text[k..], Parse(re))
      decreases |text| - i
    {
      var here := MatchHere(re, text[i..]);
      if here {
        return true;
      }
      if i == |text| || !(text[i] == c || c == '.') {
        NoMoreFit(c, text, i);
        return false;
      }
      i := i + 1;
    }
  }

  function Starred(c: char, p: Pattern): Pattern {
    p.(items := [Many(c)] + p.items)
  }

  lemma EndOnly(text: string)
    ensures Begins(text, Pattern([], true)) <==> text == []
  {
    assert text[..|text|] == text;
  }

  lemma OneBegins(text: string, c: char, p: Pattern)
    ensures Begins(text, p.(items := [One(c)] + p.items)) <==> text != [] && Fits(c, text[0]) && Begins(text[1..], p)
  {
    var q := p.(items := [One(c)] + p.items);
    assert q.items[1..] == p.items;
    if Begins(text, q) {
      var j: nat :| j <= |text| && (p.toEnd ==> j == |text|) && In(text[..j], q.items);
      assert text[..j][1..] == text[1..][..j - 1];
    }
    if text != [] && Fits(c, text[0]) && Begins(text[1..], p) {
      var j: nat :| j <= |text[1..]| && (p.toEnd ==> j == |text[1..]|) && In(text[1..][..j], p.items);
      assert text[..j + 1][1..] == text[1..][..j];
      assert In(text[..j + 1], q.items);
    }
  }

  /** Zero or more characters that fit, and then the rest of the pattern. */
  lemma StarBegins(text: string, c: char, p: Pattern)
    ensures Begins(text, Starred(c, p)) <==>
              exists k: nat :: k <= |text| && AllFit(c, text[..k]) && Begins(text[k..], p)
  {
    var q := Starred(c, p);
    assert q.items[1..] == p.items;
    if Begins(text, q) {
      var j: nat :| j <= |text| && (p.toEnd ==> j == |text|) && In(text[..j], q.items);
      var k: nat :| k <= j && AllFit(c, text[..j][..k]) && In(text[..j][k..], p.items);
      assert text[..j][..k] == text[..k] && text[..j][k..] == text[k..][..j - k];
      assert Begins(text[k..], p);
    }
    forall k: nat | k <= |text| && AllFit(c, text[..k]) && Begins(text[k..], p)
      ensures Begins(text, q)
    {
      var j: nat :| j <= |text[k..]| && (p.toEnd ==> j == |text[k..]|) && In(text[k..][..j], p.items);
      assert text[..k + j][..k] == text[..k] && text[..k + j][k..] == text[k..][..j];
      assert In(text[..k + j], q.items);
    }
  }

  lemma NoMoreFit(c: char, text: string, i: nat)
    requires i <= |text| && (i == |text| || !Fits(c, text[i]))
    ensures forall k: nat :: i < k <= |text| ==> !AllFit(c, text[..k])
  {
  }
}
