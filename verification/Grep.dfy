/**
 The matcher of grep.c. A C string is a sequence of characters without its terminating NUL, and
 At reads that NUL one past the end. The functions mirror the control flow of the code; the
 methods are the code's loops; Matches is what a pattern means, said without either.
 */
module Grep {

  const NUL: char := '\0'

  function At(s: string, i: nat): char {
    if i < |s| then s[i] else NUL
  }

  /** A C string holds no NUL before its end. */
  predicate CString(s: string) {
    forall i | 0 <= i < |s| :: s[i] != NUL
  }

  // ---- what a pattern means ----

  /** One character of a pattern; '.' stands for any character. */
  predicate Accepts(c: char, t: char) {
    c == '.' || c == t
  }

  /** A pattern is a list of items: a character, a starred character, or the end of the text. */
  datatype Item = One(c: char) | Star(c: char) | End

  /** How matchhere divides a pattern: a following * binds first, and a $ is an anchor only at the very end. */
  function Items(re: string): (items: seq<Item>)
    decreases |re|
  {
    if re == "" then []
    else if At(re, 1) == '*' then [Star(re[0])] + Items(re[2..])
    else if re == "$" then [End]
    else [One(re[0])] + Items(re[1..])
  }

  /** The strings an item stands for. */
  predicate Denotes(item: Item, s: string) {
    match item
    case One(c) => |s| == 1 && Accepts(c, s[0])
    case Star(c) => forall i | 0 <= i < |s| :: Accepts(c, s[i])
    case End => s == ""
  }

  function Concat(pieces: seq<string>): string {
    if pieces == [] then "" else pieces[0] + Concat(pieces[1..])
  }

  /** s is one piece after another, each belonging to the item in its place. */
  ghost predicate InLanguage(items: seq<Item>, s: string) {
    exists pieces: seq<string> :: Splits(items, pieces, s)
  }

  ghost predicate Splits(items: seq<Item>, pieces: seq<string>, s: string) {
    |pieces| == |items| && Concat(pieces) == s && forall i | 0 <= i < |items| :: Denotes(items[i], pieces[i])
  }

  predicate AnchoredAtEnd(items: seq<Item>) {
    exists i | 0 <= i < |items| :: items[i] == End
  }

  /** Some prefix of text is in the language, the whole of it if the pattern ends in an anchor. */
  ghost predicate MatchesPrefix(items: seq<Item>, text: string) {
    exists k | 0 <= k <= |text| :: InLanguage(items, text[..k]) && (AnchoredAtEnd(items) ==> k == |text|)
  }

  /** The meaning of match: a substring, a prefix under a leading ^, a suffix under a final $. */
  ghost predicate Matches(re: string, text: string) {
    if At(re, 0) == '^' then MatchesPrefix(Items(re[1..]), text)
    else exists i | 0 <= i <= |text| :: MatchesPrefix(Items(re), text[i..])
  }

  // ---- what the code computes ----

  function MatchHere(re: string, text: string): bool
    decreases |re|, 0, |text|
  {
    if re == "" then true
    else if At(re, 1) == '*' then MatchStar(re[0], re[2..], text)
    else if re[0] == '$' && |re| == 1 then text == ""
    else if text != "" && Accepts(re[0], text[0]) then MatchHere(re[1..], text[1..])
    else false
  }

  /** Some number of leading characters that c accepts can be skipped so that re matches what follows. */
  function MatchStar(c: char, re: string, text: string): bool
    decreases |re|, 1, |text|
  {
    MatchHere(re, text) || (text != "" && Accepts(c, text[0]) && MatchStar(c, re, text[1..]))
  }

  // ---- the code's loops compute these functions ----

  method MatchStarLoop(c: char, re: string, text: string) returns (r: bool)
    requires CString(re) && CString(text)
    ensures r == MatchStar(c, re, text)
    decreases |re|, 1
  {
    var t := 0;
    while true
      invariant 0 <= t <= |text|
      invariant MatchStar(c, re, text) == MatchStar(c, re, text[t..])
      decreases |text| - t
    {
      var here := MatchHereCode(re, text[t..]);
      if here {
        return true;
      }
      // go on past one more character that c accepts
      if At(text, t) != NUL && (text[t] == c || c == '.') {
        assert text[t..][1..] == text[t + 1..];
        t := t + 1;
      } else {
        return false;
      }
    }
  }

  method MatchHereCode(re: string, text: string) returns (r: bool)
    requires CString(re) && CString(text)
    ensures r == MatchHere(re, text)
    decreases |re|, 0
  {
    if At(re, 0) == NUL {
      return true;
    }
    if At(re, 1) == '*' {
      assert CString(re[2..]);
      r := MatchStarLoop(re[0], re[2..], text);
      return;
    }
    if re[0] == '$' && At(re, 1) == NUL {
      return At(text, 0) == NUL;
    }
    if At(text, 0) != NUL && (re[0] == '.' || re[0] == text[0]) {
      r := MatchHereCode(re[1..], text[1..]);
      return;
    }
    r := false;
  }

  /** Some suffix of text matches re at its beginning. */
  ghost predicate SomewhereFrom(re: string, text: string, t: nat) {
    exists i | t <= i <= |text| :: MatchHere(re, text[i..])
  }

  /** match is sound and complete. */
  method Match(re: string, text: string) returns (r: bool)
    requires CString(re) && CString(text)
    ensures r <==> Matches(re, text)
  {
    if At(re, 0) == '^' {
      r := MatchHereCode(re[1..], text);
      MatchHereMeans(re[1..], text);
      return;
    }
    var t := 0;
    while true
      invariant 0 <= t <= |text|
      invariant SomewhereFrom(re, text, 0) <==> SomewhereFrom(re, text, t)
      decreases |text| - t
    {
      r := MatchHereCode(re, text[t..]);
      if r {
        assert SomewhereFrom(re, text, t);
        SomewhereMeans(re, text);
        return;
      }
      // the empty suffix has been tried as well
      if At(text, t) == NUL {
        SomewhereMeans(re, text);
        return;
      }
      assert SomewhereFrom(re, text, t) <==> SomewhereFrom(re, text, t + 1);
      t := t + 1;
    }
  }

  // ---- the functions compute the meaning ----

  lemma ConcatCons(p: string, rest: seq<string>)
    ensures Concat([p] + rest) == p + Concat(rest)
  {
    assert ([p] + rest)[1..] == rest;
  }

  /** A first piece and a rest. */
  lemma LanguageCons(item: Item, items: seq<Item>, s: string)
    ensures InLanguage([item] + items, s) <==>
            exists k | 0 <= k <= |s| :: Denotes(item, s[..k]) && InLanguage(items, s[k..])
  {
    hide Denotes;
    if InLanguage([item] + items, s) {
      var pieces :| Splits([item] + items, pieces, s);
      FirstPiece(item, items, pieces, s);
      var k := |pieces[0]|;
      assert Splits(items, pieces[1..], s[k..]);
    }
    forall k | 0 <= k <= |s| && Denotes(item, s[..k]) && InLanguage(items, s[k..])
      ensures InLanguage([item] + items, s)
    {
      var rest :| Splits(items, rest, s[k..]);
      AddPiece(item, items, rest, s, k);
    }
  }

  lemma FirstPiece(item: Item, items: seq<Item>, pieces: seq<string>, s: string)
    requires Splits([item] + items, pieces, s)
    ensures var k := |pieces[0]|;
            k <= |s| && s[..k] == pieces[0] && Denotes(item, s[..k]) && Splits(items, pieces[1..], s[k..])
  {
    hide Denotes;
    var rest := pieces[1..];
    var all := [item] + items;
    assert s == pieces[0] + Concat(rest);
    assert all[0] == item;
    forall i | 0 <= i < |items| ensures Denotes(items[i], rest[i]) {
      assert items[i] == all[i + 1] && rest[i] == pieces[i + 1];
    }
  }

  lemma AddPiece(item: Item, items: seq<Item>, rest: seq<string>, s: string, k: nat)
    requires k <= |s| && Denotes(item, s[..k]) && Splits(items, rest, s[k..])
    ensures Splits([item] + items, [s[..k]] + rest, s)
  {
    hide Denotes;
    ConcatCons(s[..k], rest);
    assert s == s[..k] + s[k..];
  }

  lemma LanguageNil(s: string)
    ensures InLanguage([], s) <==> s == ""
  {
    assert s == "" ==> Splits([], [], s);
  }

  /** Matching a prefix, one item at a time. */
  lemma PrefixCons(item: Item, items: seq<Item>, text: string)
    requires item != End
    ensures MatchesPrefix([item] + items, text) <==>
            exists k | 0 <= k <= |text| :: Denotes(item, text[..k]) && MatchesPrefix(items, text[k..])
  {
    hide MatchesPrefix, Denotes;
    if MatchesPrefix([item] + items, text) {
      var k := PrefixSplit(item, items, text);
    }
    forall k | 0 <= k <= |text| && Denotes(item, text[..k]) && MatchesPrefix(items, text[k..])
      ensures MatchesPrefix([item] + items, text)
    {
      PrefixJoin(item, items, text, k);
    }
  }

  lemma PrefixSplit(item: Item, items: seq<Item>, text: string) returns (k: nat)
    requires item != End && MatchesPrefix([item] + items, text)
    ensures k <= |text| && Denotes(item, text[..k]) && MatchesPrefix(items, text[k..])
  {
    hide InLanguage, Denotes;
    AnchorCons(item, items);
    var n :| 0 <= n <= |text| && InLanguage([item] + items, text[..n]) && (AnchoredAtEnd(items) ==> n == |text|);
    LanguageCons(item, items, text[..n]);
    k :| k <= n && Denotes(item, text[..n][..k]) && InLanguage(items, text[..n][k..]);
    assert text[..n][..k] == text[..k] && text[..n][k..] == text[k..][..n - k];
  }

  lemma PrefixJoin(item: Item, items: seq<Item>, text: string, k: nat)
    requires item != End && k <= |text| && Denotes(item, text[..k]) && MatchesPrefix(items, text[k..])
    ensures MatchesPrefix([item] + items, text)
  {
    hide InLanguage, Denotes;
    AnchorCons(item, items);
    var m :| 0 <= m <= |text| - k && InLanguage(items, text[k..][..m]) && (AnchoredAtEnd(items) ==> m == |text| - k);
    var n := k + m;
    assert text[..n][..k] == text[..k] && text[..n][k..] == text[k..][..m];
    LanguageCons(item, items, text[..n]);
  }

  lemma AnchorCons(item: Item, items: seq<Item>)
    requires item != End
    ensures AnchoredAtEnd([item] + items) <==> AnchoredAtEnd(items)
  {
    var all := [item] + items;
    if AnchoredAtEnd(all) {
      var i :| 0 <= i < |all| && all[i] == End;
      assert items[i - 1] == End;
    }
    if AnchoredAtEnd(items) {
      var i :| 0 <= i < |items| && items[i] == End;
      assert all[i + 1] == End;
    }
  }

  /** matchhere decides whether a prefix of the text is in the pattern's language. */
  lemma {:induction false} MatchHereMeans(re: string, text: string)
    ensures MatchHere(re, text) <==> MatchesPrefix(Items(re), text)
    decreases |re|, 0, |text|
  {
    if re == "" {
      LanguageNil(text[..0]);
      assert text[..0] == "";
    } else if At(re, 1) == '*' {
      MatchStarMeans(re[0], re[2..], text);
      PrefixCons(Star(re[0]), Items(re[2..]), text);
    } else if re == "$" {
      EndMeans(text);
    } else {
      PrefixCons(One(re[0]), Items(re[1..]), text);
      if text != "" {
        MatchHereMeans(re[1..], text[1..]);
        assert Denotes(One(re[0]), text[..1]) <==> Accepts(re[0], text[0]);
      }
    }
  }

  lemma EndMeans(text: string)
    ensures MatchesPrefix([End], text) <==> text == ""
  {
    LanguageCons(End, [], text);
    assert [End] + [] == [End];
    forall k | 0 <= k <= |text| ensures InLanguage([End], text[..k]) <==> k == 0 {
      LanguageCons(End, [], text[..k]);
      forall j | 0 <= j <= k ensures Denotes(End, text[..k][..j]) && InLanguage([], text[..k][j..]) <==> j == 0 && k == 0 {
        LanguageNil(text[..k][j..]);
      }
      if k == 0 {
        assert Denotes(End, text[..k][..0]) && InLanguage([], text[..k][0..]);
      }
    }
    assert AnchoredAtEnd([End]) by { assert [End][0] == End; }
    if text == "" {
      assert InLanguage([End], text[..0]);
    }
  }

  lemma {:induction false} MatchStarMeans(c: char, re: string, text: string)
    ensures MatchStar(c, re, text) <==>
            exists k | 0 <= k <= |text| :: Denotes(Star(c), text[..k]) && MatchesPrefix(Items(re), text[k..])
    decreases |re|, 1, |text|
  {
    MatchHereMeans(re, text);
    assert text[0..] == text;
    if MatchHere(re, text) {
      assert Denotes(Star(c), text[..0]) && MatchesPrefix(Items(re), text[0..]);
    } else if text != "" {
      MatchStarMeans(c, re, text[1..]);
      if MatchStar(c, re, text) {
        var k :| 0 <= k <= |text| - 1 && Denotes(Star(c), text[1..][..k]) && MatchesPrefix(Items(re), text[1..][k..]);
        assert text[..k + 1] == [text[0]] + text[1..][..k];
        assert text[k + 1..] == text[1..][k..];
        assert Denotes(Star(c), text[..k + 1]) && MatchesPrefix(Items(re), text[k + 1..]);
      }
      if exists k | 0 <= k <= |text| :: Denotes(Star(c), text[..k]) && MatchesPrefix(Items(re), text[k..]) {
        var k :| 0 <= k <= |text| && Denotes(Star(c), text[..k]) && MatchesPrefix(Items(re), text[k..]);
        assert k > 0;
        assert text[..k][0] == text[0];
        assert text[1..][..k - 1] == text[..k][1..];
        assert text[k..] == text[1..][k - 1..];
        assert Denotes(Star(c), text[1..][..k - 1]) && MatchesPrefix(Items(re), text[1..][k - 1..]);
      }
    }
  }

  lemma SomewhereMeans(re: string, text: string)
    requires At(re, 0) != '^'
    ensures SomewhereFrom(re, text, 0) <==> Matches(re, text)
  {
    forall i | 0 <= i <= |text| ensures MatchHere(re, text[i..]) <==> MatchesPrefix(Items(re), text[i..]) {
      MatchHereMeans(re, text[i..]);
    }
  }
}
