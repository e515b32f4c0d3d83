/** The pattern matcher of grep.c. A char* is the rest of its string; a string holds no NUL, so its end is where the C
    string's NUL is. */
module Grep {
  // ---------- what a pattern means ----------

  /** An item of a pattern: a character, any character, a run of them ('.' stands for any), or the end of the text. */
  datatype Item = Lit(c: char) | Any | Star(c: char) | End

  function Parse(re: string): (items: seq<Item>) {
    if re == [] then []
    else if |re| > 1 && re[1] == '*' then [Star(re[0])] + Parse(re[2..])
    else if re == "$" then [End]
    else [if re[0] == '.' then Any else Lit(re[0])] + Parse(re[1..])
  }

  /** The item stands for text[a..b]. */
  predicate Covers(it: Item, text: string, a: nat, b: nat) {
    && a <= b <= |text|
    && match it
       case Lit(c) => b == a + 1 && text[a] == c
       case Any => b == a + 1
       case Star(c) => c == '.' || forall k | a <= k < b :: text[k] == c
       case End => a == |text|
  }

  /** The text can be cut so that each item stands for one piece, from the start on. */
  predicate Cut(items: seq<Item>, text: string, cuts: seq<nat>) {
    && |cuts| == |items| + 1 && cuts[0] == 0 && cuts[|items|] <= |text|
    && forall i | 0 <= i < |items| :: Covers(items[i], text, cuts[i], cuts[i + 1])
  }

  ghost predicate Accepts(items: seq<Item>, text: string) {
    exists cuts :: Cut(items, text, cuts)
  }

  /** What match should say: the pattern holds at some place, or at the start if it is anchored. */
  ghost predicate Matches(re: string, text: string) {
    if re != [] && re[0] == '^' then Accepts(Parse(re[1..]), text)
    else exists k :: MatchesAt(re, text, k)
  }

  ghost predicate MatchesAt(re: string, text: string, k: nat) {
    k <= |text| && Accepts(Parse(re), text[k..])
  }

  // ---------- one item at a time ----------

  lemma AcceptsNone(text: string)
    ensures Accepts([], text)
  {
    assert Cut([], text, [0]);
  }

  lemma CoversShift(it: Item, text: string, s: nat, a: nat, b: nat)
    requires s <= |text|
    ensures Covers(it, text[s..], a, b) <==> Covers(it, text, a + s, b + s)
  {
    if it.Star? && a <= b <= |text| - s && it.c != '.' {
      if Covers(it, text[s..], a, b) {
        forall k | a + s <= k < b + s ensures text[k] == it.c { assert text[s..][k - s] == it.c; }
      }
    }
  }

  lemma AcceptsFirst(it: Item, rest: seq<Item>, text: string, b: nat)
    requires Covers(it, text, 0, b) && Accepts(rest, text[b..])
    ensures Accepts([it] + rest, text)
  {
    var items := [it] + rest;
    var cuts :| Cut(rest, text[b..], cuts);
    var all: seq<nat> := [0] + seq(|cuts|, i requires 0 <= i < |cuts| => cuts[i] + b);
    forall i | 0 <= i < |items| ensures Covers(items[i], text, all[i], all[i + 1]) {
      if i > 0 {
        assert Covers(rest[i - 1], text[b..], cuts[i - 1], cuts[i]);
        CoversShift(rest[i - 1], text, b, cuts[i - 1], cuts[i]);
      }
    }
    assert Cut(items, text, all);
  }

  lemma {:induction false} CutsAscend(items: seq<Item>, text: string, cuts: seq<nat>, i: nat)
    requires Cut(items, text, cuts) && 0 < i <= |items|
    ensures cuts[1] <= cuts[i] <= |text|
    decreases i
  {
    assert Covers(items[i - 1], text, cuts[i - 1], cuts[i]);
    if i == 1 {
    } else {
      CutsAscend(items, text, cuts, i - 1);
    }
  }

  lemma AcceptsRest(it: Item, rest: seq<Item>, text: string) returns (b: nat)
    requires Accepts([it] + rest, text)
    ensures Covers(it, text, 0, b) && Accepts(rest, text[b..])
  {
    var items := [it] + rest;
    var cuts :| Cut(items, text, cuts);
    assert Covers(items[0], text, cuts[0], cuts[1]);
    b := cuts[1];
    forall i | 0 < i <= |items| ensures b <= cuts[i] { CutsAscend(items, text, cuts, i); }
    var less: seq<nat> := seq(|rest| + 1, i requires 0 <= i < |rest| + 1 => cuts[i + 1] - b);
    forall i | 0 <= i < |rest| ensures Covers(rest[i], text[b..], less[i], less[i + 1]) {
      assert Covers(items[i + 1], text, cuts[i + 1], cuts[i + 2]);
      CoversShift(rest[i], text, b, less[i], less[i + 1]);
    }
    assert Cut(rest, text[b..], less);
  }

  /** An item for one character. */
  lemma AcceptsChar(it: Item, rest: seq<Item>, text: string)
    requires it.Lit? || it.Any?
    ensures Accepts([it] + rest, text) <==> text != [] && (it.Any? || text[0] == it.c) && Accepts(rest, text[1..])
  {
    if Accepts([it] + rest, text) {
      var _ := AcceptsRest(it, rest, text);
    }
    if text != [] && (it.Any? || text[0] == it.c) && Accepts(rest, text[1..]) {
      AcceptsFirst(it, rest, text, 1);
    }
  }

  lemma AcceptsEnd(text: string)
    ensures Accepts([End], text) <==> text == []
  {
    if Accepts([End], text) {
      assert [End] == [End] + [];
      var _ := AcceptsRest(End, [], text);
    }
    if text == [] { assert Cut([End], text, [0, 0]); }
  }

  /** A run of c that ends at i, none of whose places the rest holds at. */
  lemma RejectsStar(c: char, rest: seq<Item>, text: string, i: nat)
    requires i <= |text| && (i == |text| || (text[i] != c && c != '.'))
    requires forall b: nat | b <= i :: !Accepts(rest, text[b..])
    ensures !Accepts([Star(c)] + rest, text)
  {
    if Accepts([Star(c)] + rest, text) {
      var _ := AcceptsRest(Star(c), rest, text);
    }
  }

  // ---------- the code ----------

  /** matchhere: the pattern holds at the start of the text. */
  method MatchHere(re: string, text: string) returns (r: bool)
    ensures r <==> Accepts(Parse(re), text)
    decreases |re|, 0
  {
    if re == [] {
      AcceptsNone(text);
      return true;
    }
    if |re| > 1 && re[1] == '*' {
      r := MatchStar(re[0], re[2..], text);
      return;
    }
    if re == "$" {
      AcceptsEnd(text);
      return text == [];
    }
    AcceptsChar(if re[0] == '.' then Any else Lit(re[0]), Parse(re[1..]), text);
    if text != [] && (re[0] == '.' || re[0] == text[0]) {
      r := MatchHere(re[1..], text[1..]);
      return;
    }
    return false;
  }

  /** matchstar: c* and then the pattern hold at the start of the text. */
  method MatchStar(c: char, re: string, text: string) returns (r: bool)
    ensures r <==> Accepts([Star(c)] + Parse(re), text)
    decreases |re|, 1
  {
    var i := 0;
    while true
      invariant 0 <= i <= |text| && Covers(Star(c), text, 0, i)
      invariant forall b: nat | b < i :: !Accepts(Parse(re), text[b..])
      decreases |text| - i
    {
      var here := MatchHere(re, text[i..]);
      if here {
        AcceptsFirst(Star(c), Parse(re), text, i);
        return true;
      }
      if !(i < |text| && (text[i] == c || c == '.')) {
        RejectsStar(c, Parse(re), text, i);
        return false;
      }
      i := i + 1;
    }
  }

  /** match: the pattern holds somewhere in the text. */
  method Match(re: string, text: string) returns (r: bool)
    ensures r <==> Matches(re, text)
  {
    if re != [] && re[0] == '^' {
      r := MatchHere(re[1..], text);
      return;
    }
    var i := 0;
    while true
      invariant 0 <= i <= |text| && forall k: nat | k < i :: !MatchesAt(re, text, k)
      decreases |text| - i
    {
      var here := MatchHere(re, text[i..]);
      if here {
        assert MatchesAt(re, text, i);
        return true;
      }
      if i == |text| { return false; }
      i := i + 1;
    }
  }
}
