/** The regular expressions of grep: literal characters, '.', and starred single characters between the anchors ^ and $.
    A string stands for the characters before the terminating zero. */
module GrepMatch {

  // ----- what a pattern denotes -----

  datatype Item = One(c: char) | Star(c: char)

  /** The items of a pattern (without its leading ^) and whether it ends in the anchor $. A star after a character makes a
      starred item whatever the character is; $ is an anchor only as the last character; everything else is an item. */
  datatype Pattern = Pattern(items: seq<Item>, toEnd: bool)

  function Parse(re: string): Pattern {
    if re == "" then Pattern([], false)
    else if |re| >= 2 && re[1] == '*' then
      var p := Parse(re[2..]);
      Pattern([Star(re[0])] + p.items, p.toEnd)
    else if re == "$" then Pattern([], true)
    else
      var p := Parse(re[1..]);
      Pattern([One(re[0])] + p.items, p.toEnd)
  }

  predicate Fits(c: char, x: char) {
    c == '.' || c == x
  }

  /** The strings that a sequence of items denotes: one character for a plain item, any number for a starred one. */
  ghost predicate InLanguage(items: seq<Item>, s: string)
    decreases |items|
  {
    if items == [] then s == ""
    else match items[0]
      case One(c) => s != "" && Fits(c, s[0]) && InLanguage(items[1..], s[1..])
      case Star(c) => exists k :: 0 <= k <= |s| && AllFit(c, s[..k]) && InLanguage(items[1..], s[k..])
  }

  predicate AllFit(c: char, s: string) {
    forall i :: 0 <= i < |s| ==> Fits(c, s[i])
  }

  /** Some start of `text` is in the pattern's language; with an end anchor, all of `text` is. */
  ghost predicate Here(p: Pattern, text: string) {
    exists j :: 0 <= j <= |text| && InLanguage(p.items, text[..j]) && (p.toEnd ==> j == |text|)
  }

  /** Some part of `text` is in the language of `re`, at the start and at the end of `text` if the anchors say so. */
  ghost predicate Matches(re: string, text: string) {
    if re != "" && re[0] == '^' then Here(Parse(re[1..]), text)
    else exists i :: 0 <= i <= |text| && Here(Parse(re), text[i..])
  }

  // ----- one item -----

  lemma HereNone(p: Pattern, text: string)
    requires p.items == []
    ensures Here(p, text) <==> !p.toEnd || text == ""
  {
    if !p.toEnd || text == "" {
      assert InLanguage(p.items, text[..0]);
    }
  }

  lemma HereOne(c: char, p: Pattern, text: string)
    ensures Here(Pattern([One(c)] + p.items, p.toEnd), text) <==> text != "" && Fits(c, text[0]) && Here(p, text[1..])
  {
    var items := [One(c)] + p.items;
    assert items[1..] == p.items;
    if Here(Pattern(items, p.toEnd), text) {
      var j :| 0 <= j <= |text| && InLanguage(items, text[..j]) && (p.toEnd ==> j == |text|);
      assert text[..j][1..] == text[1..][..j - 1];
    }
    if text != "" && Fits(c, text[0]) && Here(p, text[1..]) {
      var j :| 0 <= j <= |text[1..]| && InLanguage(p.items, text[1..][..j]) && (p.toEnd ==> j == |text[1..]|);
      assert text[..j + 1][1..] == text[1..][..j];
      assert InLanguage(items, text[..j + 1]);
    }
  }

  /** A starred character takes some of the characters that fit it, and the rest of the pattern goes on from there. */
  lemma HereStar(c: char, p: Pattern, text: string)
    ensures Here(Pattern([Star(c)] + p.items, p.toEnd), text)
        <==> exists k :: 0 <= k <= |text| && AllFit(c, text[..k]) && Here(p, text[k..])
  {
    var items := [Star(c)] + p.items;
    assert items[1..] == p.items;
    if Here(Pattern(items, p.toEnd), text) {
      var j :| 0 <= j <= |text| && InLanguage(items, text[..j]) && (p.toEnd ==> j == |text|);
      var k :| 0 <= k <= j && AllFit(c, text[..j][..k]) && InLanguage(p.items, text[..j][k..]);
      assert text[..j][..k] == text[..k] && text[..j][k..] == text[k..][..j - k];
      assert Here(p, text[k..]);
    }
    if k :| 0 <= k <= |text| && AllFit(c, text[..k]) && Here(p, text[k..]) {
      var j :| 0 <= j <= |text[k..]| && InLanguage(p.items, text[k..][..j]) && (p.toEnd ==> j == |text[k..]|);
      assert text[..k + j][..k] == text[..k] && text[..k + j][k..] == text[k..][..j];
      assert InLanguage(items, text[..k + j]);
    }
  }

  // ----- the matcher -----

  /** Searches for `re` anywhere in `text`, the empty string at its end included. */
  method Match(re: string, text: string) returns (found: bool)
    ensures found <==> Matches(re, text)
  {
    if re != "" && re[0] == '^' {
      found := MatchHere(re[1..], text);
      return;
    }
    var i := 0;
    while true
      invariant 0 <= i <= |text|
      invariant forall k :: 0 <= k < i ==> !Here(Parse(re), text[k..])
      decreases |text| - i
    {
      var here := MatchHere(re, text[i..]);
      if here {
        return true;
      }
      if i == |text| {
        return false;
      }
      i := i + 1;
    }
  }

  /** Searches for `re` at the beginning of `text`. */
  method MatchHere(re: string, text: string) returns (found: bool)
    ensures found <==> Here(Parse(re), text)
    decreases |re|, 1
  {
    if re == "" {
      HereNone(Parse(re), text);
      return true;
    }
    if |re| >= 2 && re[1] == '*' {
      HereStar(re[0], Parse(re[2..]), text);
      found := MatchStar(re[0], re[2..], text);
      return;
    }
    if re[0] == '$' && |re| == 1 {
      HereNone(Parse(re), text);
      return text == "";
    }
    HereOne(re[0], Parse(re[1..]), text);
    if text != "" && (re[0] == '.' || re[0] == text[0]) {
      found := MatchHere(re[1..], text[1..]);
      return;
    }
    found := false;
  }

  /** Searches for any number of `c` followed by `re` at the beginning of `text`. */
  method MatchStar(c: char, re: string, text: string) returns (found: bool)
    ensures found <==> exists k :: 0 <= k <= |text| && AllFit(c, text[..k]) && Here(Parse(re), text[k..])
    decreases |re|, 2
  {
    var i := 0;
    while true
      invariant 0 <= i <= |text| && AllFit(c, text[..i])
      invariant forall k :: 0 <= k < i ==> !Here(Parse(re), text[k..])
      decreases |text| - i
    {
      var here := MatchHere(re, text[i..]);
      if here {
        return true;
      }
      if i == |text| || !(text[i] == c || c == '.') {
        forall k | i < k <= |text|
          ensures !AllFit(c, text[..k])
        {
          assert !Fits(c, text[..k][i]);
        }
        return false;
      }
      assert text[..i + 1] == text[..i] + [text[i]];
      i := i + 1;
    }
  }
}
