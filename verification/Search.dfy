/** Substring search on sequences, as `find` and `rfind` do it. */
module Search {

  predicate OccursAt<T(==)>(s: seq<T>, t: seq<T>, i: int) {
    0 <= i && i + |t| <= |s| && s[i..i + |t|] == t
  }

  /** The first occurrence of t in s at or after index i, or -1. */
  function FindFrom<T(==)>(s: seq<T>, t: seq<T>, i: nat): (r: int)
    ensures r < 0 ==> r == -1 && forall j :: i <= j ==> !OccursAt(s, t, j)
    ensures r >= 0 ==> i <= r && OccursAt(s, t, r) && forall j :: i <= j < r ==> !OccursAt(s, t, j)
    decreases |s| - i
  {
    if i + |t| > |s| then -1
    else if OccursAt(s, t, i) then i
    else FindFrom(s, t, i + 1)
  }

  function Find<T(==)>(s: seq<T>, t: seq<T>): (r: int)
    ensures r < 0 ==> r == -1 && forall j :: !OccursAt(s, t, j)
    ensures r >= 0 ==> OccursAt(s, t, r) && forall j :: j < r ==> !OccursAt(s, t, j)
  {
    FindFrom(s, t, 0)
  }

  /** The last occurrence of t in s at or before index i, or -1. */
  function FindLastUpTo<T(==)>(s: seq<T>, t: seq<T>, i: int): (r: int)
    ensures r < 0 ==> r == -1 && forall j :: j <= i ==> !OccursAt(s, t, j)
    ensures r >= 0 ==> r <= i && OccursAt(s, t, r) && forall j :: r < j <= i ==> !OccursAt(s, t, j)
    decreases i
  {
    if i < 0 then -1
    else if OccursAt(s, t, i) then i
    else FindLastUpTo(s, t, i - 1)
  }

  function FindLast<T(==)>(s: seq<T>, t: seq<T>): (r: int)
    ensures r < 0 ==> r == -1 && forall j :: !OccursAt(s, t, j)
    ensures r >= 0 ==> OccursAt(s, t, r) && forall j :: j > r ==> !OccursAt(s, t, j)
  {
    FindLastUpTo(s, t, |s|)
  }

  lemma OccursReads<T>(s: seq<T>, t: seq<T>, i: nat, d: nat)
    requires OccursAt(s, t, i) && d < |t|
    ensures s[i + d] == t[d]
  {
  }

  /** The search result is determined by being the least occurrence. */
  lemma FindIs<T>(s: seq<T>, t: seq<T>, i: int)
    requires OccursAt(s, t, i) && forall j :: j < i ==> !OccursAt(s, t, j)
    ensures Find(s, t) == i
  {
  }

  lemma OccursInPrefix<T>(a: seq<T>, b: seq<T>, t: seq<T>, i: int)
    requires i + |t| <= |a|
    ensures OccursAt(a + b, t, i) <==> OccursAt(a, t, i)
  {
  }

  lemma OccursInSuffix<T>(a: seq<T>, b: seq<T>, t: seq<T>, i: int)
    requires 0 <= i
    ensures OccursAt(a + b, t, |a| + i) <==> OccursAt(b, t, i)
  {
  }

  /** What was found stays found when more arrives behind it. */
  lemma FindAppend<T>(a: seq<T>, b: seq<T>, t: seq<T>)
    requires Find(a, t) >= 0
    ensures Find(a + b, t) == Find(a, t)
  {
    var i := Find(a, t);
    OccursInPrefix(a, b, t, i);
    forall j | j < i
      ensures !OccursAt(a + b, t, j)
    {
      OccursInPrefix(a, b, t, j);
    }
    FindIs(a + b, t, i);
  }

  /** A stretch that does not hold the first element of t only shifts the search. */
  lemma FindSkip<T>(w: seq<T>, s: seq<T>, t: seq<T>)
    requires t != [] && t[0] !in w
    ensures Find(w + s, t) == if Find(s, t) < 0 then -1 else |w| + Find(s, t)
  {
    forall j | 0 <= j < |w|
      ensures !OccursAt(w + s, t, j)
    {
      if j + |t| <= |w + s| {
        assert (w + s)[j..j + |t|][0] == w[j];
      }
    }
    forall j | |w| <= j
      ensures OccursAt(w + s, t, j) <==> OccursAt(s, t, j - |w|)
    {
      OccursInSuffix(w, s, t, j - |w|);
    }
    if Find(s, t) >= 0 {
      assert OccursAt(w + s, t, |w| + Find(s, t));
    }
  }

  lemma SlicesOfConcat<T>(w: seq<T>, s: seq<T>, end: nat)
    requires end <= |s|
    ensures (w + s)[|w| + end..] == s[end..]
    ensures (w + s)[..|w| + end] == w + s[..end]
  {
  }
}
