/** The pattern matcher of grep: literal characters, `.`, `c*`, a leading `^` and a trailing `$`. */
module Regexp {
  // ---- What patterns mean --------------------------------------------------------------------

  datatype Item = One(c: char) | Star(c: char) | End

  predicate Fits(c: char, x: char) {
    c == '.' || c == x
  }

  /** A pattern, `^` apart, as a list of items. */
  function Items(re: string): (items: seq<Item>)
    ensures |items| <= |re|
  {
    if re == "" then []
    else if |re| >= 2 && re[1] == '*' then [Star(re[0])] + Items(re[2..])
    else if re == "$" then [End]
    else [One(re[0])] + Items(re[1..])
  }

  /** The item covers text[a..b]. */
  predicate Covers(item: Item, text: string, a: nat, b: nat)
    requires a <= b <= |text|
  {
    match item
    case One(c) => b == a + 1 && Fits(c, text[a])
    case Star(c) => forall i :: a <= i < b ==> Fits(c, text[i])
    case End => a == b == |text|
  }

  /** Item k covers the stretch between cuts k and k + 1. */
  predicate Stretch(items: seq<Item>, text: string, cuts: seq<nat>, k: nat) {
    && k < |items| && k + 1 < |cuts|
    && cuts[k] <= cuts[k + 1] <= |text| && Covers(items[k], text, cuts[k], cuts[k + 1])
  }

  /** The cuts divide a prefix of the text into one stretch per item. */
  predicate Divides(items: seq<Item>, text: string, cuts: seq<nat>) {
    && |cuts| == |items| + 1 && cuts[0] == 0
    && forall k: nat :: k < |items| ==> Stretch(items, text, cuts, k)
  }

  /** Some prefix of the text divides into stretches that the items cover, in order. */
  ghost predicate MatchesHere(items: seq<Item>, text: string) {
    exists cuts :: Divides(items, text, cuts)
  }

  /** The pattern occurs in the text, at the start if it is anchored. */
  ghost predicate Matches(re: string, text: string) {
    if re != "" && re[0] == '^' then MatchesHere(Items(re[1..]), text)
    else exists i: nat :: i <= |text| && MatchesHere(Items(re), text[i..])
  }

  // ---- One item at a time --------------------------------------------------------------------

  lemma MatchesNothing(text: string)
    ensures MatchesHere([], text)
  {
    assert Divides([], text, [0]);
  }

  /** The first item covers the first n characters and the rest matches from there. */
  lemma MatchesCons(item: Item, items: seq<Item>, text: string, n: nat)
    requires n <= |text| && Covers(item, text, 0, n) && MatchesHere(items, text[n..])
    ensures MatchesHere([item] + items, text)
  {
    var cuts :| Divides(items, text[n..], cuts);
    var all := [0] + seq(|cuts|, i requires 0 <= i < |cuts| => cuts[i] + n);
    forall k: nat | k < |items| + 1
      ensures Stretch([item] + items, text, all, k)
    {
      if k > 0 {
        assert Stretch(items, text[n..], cuts, k - 1);
        Shifted(items[k - 1], text, n, cuts[k - 1], cuts[k]);
      }
    }
    assert Divides([item] + items, text, all);
  }

  /** Covering is the same counted from n. */
  lemma Shifted(item: Item, text: string, n: nat, a: nat, b: nat)
    requires n <= |text| && a <= b <= |text| - n
    ensures Covers(item, text[n..], a, b) <==> Covers(item, text, a + n, b + n)
  {
  }

  lemma MatchesHead(item: Item, items: seq<Item>, text: string) returns (n: nat)
    requires MatchesHere([item] + items, text)
    ensures n <= |text| && Covers(item, text, 0, n) && MatchesHere(items, text[n..])
  {
    var all := [item] + items;
    var cuts :| Divides(all, text, cuts);
    assert Stretch(all, text, cuts, 0);
    n := cuts[1];
    CutsAbove(all, text, cuts);
    var rest: seq<nat> := seq(|items| + 1, i requires 0 <= i < |items| + 1 => cuts[i + 1] - n);
    forall k: nat | k < |items|
      ensures Stretch(items, text[n..], rest, k)
    {
      assert Stretch(all, text, cuts, k + 1);
      Shifted(items[k], text, n, rest[k], rest[k + 1]);
    }
    assert Divides(items, text[n..], rest);
  }

  lemma CutsAbove(items: seq<Item>, text: string, cuts: seq<nat>)
    requires Divides(items, text, cuts) && |items| >= 1
    ensures forall k :: 1 <= k < |cuts| ==> cuts[1] <= cuts[k]
  {
    for k := 1 to |cuts|
      invariant forall j :: 1 <= j <= k && j < |cuts| ==> cuts[1] <= cuts[j]
    {
      if k + 1 < |cuts| {
        assert Stretch(items, text, cuts, k);
      }
    }
  }

  lemma MatchesOne(c: char, items: seq<Item>, text: string)
    ensures MatchesHere([One(c)] + items, text) <==> text != "" && Fits(c, text[0]) && MatchesHere(items, text[1..])
  {
    if MatchesHere([One(c)] + items, text) {
      var n := MatchesHead(One(c), items, text);
    }
    if text != "" && Fits(c, text[0]) && MatchesHere(items, text[1..]) {
      MatchesCons(One(c), items, text, 1);
    }
  }

  lemma MatchesEnd(text: string)
    ensures MatchesHere([End], text) <==> text == ""
  {
    assert [End] == [End] + [];
    if MatchesHere([End], text) {
      var n := MatchesHead(End, [], text);
    }
    if text == "" {
      MatchesNothing(text[0..]);
      MatchesCons(End, [], text, 0);
    }
  }

  /** The star covers n characters and the rest matches from there. */
  ghost predicate StarAt(c: char, items: seq<Item>, text: string, n: nat) {
    n <= |text| && (forall i :: 0 <= i < n ==> Fits(c, text[i])) && MatchesHere(items, text[n..])
  }

  ghost predicate SomeStar(c: char, items: seq<Item>, text: string) {
    exists n: nat :: StarAt(c, items, text, n)
  }

  lemma MatchesStar(c: char, items: seq<Item>, text: string)
    ensures MatchesHere([Star(c)] + items, text) <==> SomeStar(c, items, text)
  {
    if MatchesHere([Star(c)] + items, text) {
      var n := MatchesHead(Star(c), items, text);
      assert StarAt(c, items, text, n);
    }
    if SomeStar(c, items, text) {
      var n: nat :| StarAt(c, items, text, n);
      MatchesCons(Star(c), items, text, n);
    }
  }

  // ---- The matcher --------------------------------------------------------------------

  /** match: whether the pattern occurs in the text. */
  method Match(re: string, text: string) returns (r: bool)
    ensures r <==> Matches(re, text)
  {
    if re != "" && re[0] == '^' {
      r := Matchhere(re[1..], text);
      return;
    }
    var i := 0;
    while true
      invariant 0 <= i <= |text|
      invariant forall j: nat :: j < i ==> !MatchesHere(Items(re), text[j..])
      decreases |text| - i
    {
      r := Matchhere(re, text[i..]);
      if r {
        return;
      }
      if i == |text| {
        return false;
      }
      i := i + 1;
    }
  }

  /** matchhere: whether the pattern matches at the start of the text. */
  method Matchhere(re: string, text: string) returns (r: bool)
    ensures r <==> MatchesHere(Items(re), text)
    decreases |re|, 0
  {
    if re == "" {
      MatchesNothing(text);
      return true;
    }
    if |re| >= 2 && re[1] == '*' {
      MatchesStar(re[0], Items(re[2..]), text);
      r := Matchstar(re[0], re[2..], text);
      return;
    }
    if re == "$" {
      MatchesEnd(text);
      return text == "";
    }
    MatchesOne(re[0], Items(re[1..]), text);
    if text != "" && (re[0] == '.' || re[0] == text[0]) {
      r := Matchhere(re[1..], text[1..]);
      return;
    }
    r := false;
  }

  /** matchstar: whether any number of c and then the pattern match at the start of the text. */
  method Matchstar(c: char, re: string, text: string) returns (r: bool)
    ensures r <==> SomeStar(c, Items(re), text)
    decreases |re|, 1
  {
    var i := 0;
    while true
      invariant 0 <= i <= |text|
      invariant forall j :: 0 <= j < i ==> Fits(c, text[j])
      invariant forall n: nat :: n < i ==> !StarAt(c, Items(re), text, n)
      decreases |text| - i
    {
      var here := Matchhere(re, text[i..]);
      if here {
        assert StarAt(c, Items(re), text, i);
        return true;
      }
      if i == |text| || !(text[i] == c || c == '.') {
        return false;
      }
      i := i + 1;
    }
  }

  // ---- Plain patterns --------------------------------------------------------------------

  /** No star, dollar or hat: characters and dots only. */
  predicate Plain(re: string) {
    forall k :: 0 <= k < |re| ==> re[k] != '*' && re[k] != '$' && re[k] != '^'
  }

  lemma {:induction false} PlainHere(re: string, text: string)
    requires Plain(re)
    ensures MatchesHere(Items(re), text) <==>
      |re| <= |text| && forall k :: 0 <= k < |re| ==> re[k] == '.' || re[k] == text[k]
  {
    if re == "" {
      MatchesNothing(text);
    } else {
      MatchesOne(re[0], Items(re[1..]), text);
      if text != "" {
        PlainHere(re[1..], text[1..]);
        assert forall k :: 1 <= k < |re| && k < |text| ==> re[k] == re[1..][k - 1] && text[k] == text[1..][k - 1];
      }
    }
  }

  /** The plain pattern occurs at i. */
  predicate OccursAt(re: string, text: string, i: nat) {
    i + |re| <= |text| && forall k :: 0 <= k < |re| ==> re[k] == '.' || re[k] == text[i + k]
  }

  /** A pattern of characters and dots matches exactly the texts in which it occurs, dots standing for anything. */
  lemma PlainMatches(re: string, text: string)
    requires Plain(re)
    ensures Matches(re, text) <==> exists i: nat :: OccursAt(re, text, i)
  {
    forall i: nat | i <= |text|
      ensures MatchesHere(Items(re), text[i..]) <==> OccursAt(re, text, i)
    {
      PlainHere(re, text[i..]);
    }
    if i: nat :| OccursAt(re, text, i) {
      assert MatchesHere(Items(re), text[i..]);
    }
  }

  /** Between a hat and a dollar a starred character matches exactly the texts made of it. */
  lemma StarMatches(c: char, text: string)
    ensures Matches(['^', c, '*', '$'], text) <==> c == '.' || forall i :: 0 <= i < |text| ==> text[i] == c
  {
    var re := [c, '*', '$'];
    assert ['^', c, '*', '$'][1..] == re && re[2..] == "$";
    assert Items("$") == [End] && Items(re) == [Star(c)] + [End];
    MatchesStar(c, [End], text);
    forall n: nat | n <= |text|
      ensures MatchesHere([End], text[n..]) <==> n == |text|
    {
      MatchesEnd(text[n..]);
    }
    if c == '.' || forall i :: 0 <= i < |text| ==> text[i] == c {
      assert StarAt(c, [End], text, |text|);
    }
  }
}
