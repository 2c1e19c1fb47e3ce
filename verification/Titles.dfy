/** Title normalisation and word-set similarity of the incident tracker. */
module Titles {

  // Python's whitespace, within Latin-1.
  predicate IsSpace(c: char) {
    var n := c as int;
    9 <= n <= 13 || 28 <= n <= 32 || n == 133 || n == 160
  }

  function Lower(c: char): char {
    if 'A' <= c <= 'Z' then c - 'A' + 'a' else c
  }

  function LowerAll(s: string): string {
    seq(|s|, i requires 0 <= i < |s| => Lower(s[i]))
  }

  function StripLeft(s: string): string {
    if s != "" && IsSpace(s[0]) then StripLeft(s[1..]) else s
  }

  function StripRight(s: string): string {
    if s != "" && IsSpace(s[|s| - 1]) then StripRight(s[..|s| - 1]) else s
  }

  function Normalize(title: string): string {
    LowerAll(StripRight(StripLeft(title)))
  }

  function WordsFrom(s: string, word: string): set<string> {
    var done := if word == "" then {} else {word};
    if s == "" then done
    else if IsSpace(s[0]) then done + WordsFrom(s[1..], "")
    else WordsFrom(s[1..], word + [s[0]])
  }

  function WordSet(s: string): set<string> {
    WordsFrom(s, "")
  }

  lemma NonEmptyUnion(a: set<string>, b: set<string>)
    requires a != {}
    ensures |a + b| > 0
  {
  }

  /** A space anywhere separates words, */
  lemma {:induction false} WordsSplit(a: string, c: char, b: string, word: string)
    requires IsSpace(c)
    ensures WordsFrom(a + [c] + b, word) == WordsFrom(a, word) + WordSet(b)
    decreases |a|
  {
    var s := a + [c] + b;
    if a == "" {
      assert s[0] == c && s[1..] == b;
    } else {
      assert s[0] == a[0] && s[1..] == a[1..] + [c] + b;
      WordsSplit(a[1..], c, b, if IsSpace(a[0]) then "" else word + [a[0]]);
    }
  }

  /** and a stretch without one is one word. */
  lemma {:induction false} OneWord(s: string, word: string)
    requires forall i :: 0 <= i < |s| ==> !IsSpace(s[i])
    ensures WordsFrom(s, word) == if word + s == "" then {} else {word + s}
    decreases |s|
  {
    if s == "" {
      assert word + s == word;
    } else {
      assert word + [s[0]] + s[1..] == word + s;
      OneWord(s[1..], word + [s[0]]);
    }
  }

  predicate AllSpace(s: string) {
    forall i :: 0 <= i < |s| ==> IsSpace(s[i])
  }

  predicate Trimmed(s: string) {
    s == "" || (!IsSpace(s[0]) && !IsSpace(s[|s| - 1]))
  }

  lemma {:induction false} StripLeftIs(l: string, s: string)
    requires AllSpace(l) && (s == "" || !IsSpace(s[0]))
    ensures StripLeft(l + s) == s
  {
    if l == "" {
      assert l + s == s;
    } else {
      assert (l + s)[0] == l[0] && (l + s)[1..] == l[1..] + s;
      StripLeftIs(l[1..], s);
    }
  }

  lemma {:induction false} StripRightIs(s: string, r: string)
    requires AllSpace(r) && (s == "" || !IsSpace(s[|s| - 1]))
    ensures StripRight(s + r) == s
    decreases |r|
  {
    if r == "" {
      assert s + r == s;
    } else {
      var n := |r| - 1;
      assert (s + r)[|s + r| - 1] == r[n] && (s + r)[..|s + r| - 1] == s + r[..n];
      StripRightIs(s, r[..n]);
    }
  }

  /** Normalising takes off the space at both ends, nothing else, and lowers the letters. */
  lemma {:induction false} NormalizeIs(l: string, s: string, r: string)
    requires AllSpace(l) && AllSpace(r) && Trimmed(s)
    ensures Normalize(l + s + r) == LowerAll(s)
  {
    if s == "" {
      assert l + s + r == (l + r) + "";
      StripLeftIs(l + r, "");
    } else {
      assert l + s + r == l + (s + r);
      StripLeftIs(l, s + r);
      StripRightIs(s, r);
    }
  }

  /** Lowering moves the 26 capitals 32 up and leaves every other character. */
  lemma LowerMoves(c: char)
    ensures 65 <= c as int <= 90 ==> Lower(c) as int == c as int + 32
    ensures !(65 <= c as int <= 90) ==> Lower(c) == c
  {
  }

  /** |a ∩ b| / |a ∪ b|, and 0 when either is empty. */
  function Jaccard(a: set<string>, b: set<string>): real {
    if a == {} || b == {} then 0.0
    else
      NonEmptyUnion(a, b);
      (|a * b| as real) / (|a + b| as real)
  }

  lemma JaccardSymmetric(a: set<string>, b: set<string>)
    ensures Jaccard(a, b) == Jaccard(b, a)
  {
    assert a * b == b * a && a + b == b + a;
  }

  lemma PartOfUnion(a: set<string>, b: set<string>)
    ensures |a * b| <= |a + b| && (|a * b| == |a + b| <==> a == b) && (|a * b| == 0 <==> a !! b)
  {
    var rest := (a + b) - (a * b);
    assert a + b == a * b + rest && a * b !! rest;
    if |a * b| == |a + b| {
      assert rest == {};
      assert a * b == a + b;
      assert forall x :: x in a ==> x in b;
      assert forall x :: x in b ==> x in a;
    }
    if a == b {
      assert a * b == a && a + b == a;
    }
  }

  lemma ShareOf(part: nat, whole: nat)
    requires part <= whole && whole > 0
    ensures var share := (part as real) / (whole as real);
            && 0.0 <= share <= 1.0 && share * (whole as real) == part as real
            && (share == 0.0 <==> part == 0) && (share == 1.0 <==> part == whole)
  {
    var share := (part as real) / (whole as real);
    assert share * (whole as real) == part as real;
  }

  /** Similarity as a share of the words of both: from 0 for titles without a common word to 1
      for titles of the same words. */
  lemma JaccardMeasures(a: set<string>, b: set<string>)
    ensures 0.0 <= Jaccard(a, b) <= 1.0
    ensures Jaccard(a, b) == 0.0 <==> a !! b
    ensures Jaccard(a, b) == 1.0 <==> a == b != {}
    ensures a != {} && b != {} ==> Jaccard(a, b) * (|a + b| as real) == |a * b| as real
  {
    if a != {} && b != {} {
      NonEmptyUnion(a, b);
      PartOfUnion(a, b);
      ShareOf(|a * b|, |a + b|);
      if a * b == {} {
        assert a !! b;
      }
    }
  }

  lemma JaccardOfSelf(a: set<string>)
    requires a != {}
    ensures Jaccard(a, a) == 1.0
  {
    assert a * a == a && a + a == a;
  }

  lemma {:induction false} WordsOfNonBlank(s: string, word: string)
    requires word != "" || exists i :: 0 <= i < |s| && !IsSpace(s[i])
    ensures WordsFrom(s, word) != {}
    decreases |s|
  {
    if s == "" {
    } else {
      if !IsSpace(s[0]) {
        WordsOfNonBlank(s[1..], word + [s[0]]);
      } else if word == "" {
        var i :| 0 <= i < |s| && !IsSpace(s[i]);
        assert s[1..][i - 1] == s[i];
        WordsOfNonBlank(s[1..], "");
      }
    }
  }

  lemma {:induction false} StripLeftStops(s: string)
    ensures StripLeft(s) != "" ==> !IsSpace(StripLeft(s)[0])
  {
    if s != "" && IsSpace(s[0]) {
      StripLeftStops(s[1..]);
    }
  }

  lemma {:induction false} StripRightIsPrefix(s: string)
    ensures StripRight(s) <= s
    decreases |s|
  {
    if s != "" && IsSpace(s[|s| - 1]) {
      StripRightIsPrefix(s[..|s| - 1]);
    }
  }

  /** A title that is not blank has a word, so it is similar to itself. */
  lemma {:induction false} NonBlankTitleHasWords(title: string)
    requires Normalize(title) != ""
    ensures WordSet(Normalize(title)) != {}
    ensures Jaccard(WordSet(Normalize(title)), WordSet(Normalize(title))) == 1.0
  {
    StripLeftStops(title);
    StripRightIsPrefix(StripLeft(title));
    assert !IsSpace(Normalize(title)[0]);
    WordsOfNonBlank(Normalize(title), "");
    JaccardOfSelf(WordSet(Normalize(title)));
  }
}
