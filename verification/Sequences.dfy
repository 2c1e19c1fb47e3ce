/** Sequences as several modules use them: without repeats, or as bounded deques. */
module Sequences {

  predicate NoRepeats<T(==)>(s: seq<T>) {
    forall i, j :: 0 <= i < j < |s| ==> s[i] != s[j]
  }

  predicate Increasing(at: seq<nat>) {
    forall i, j :: 0 <= i < j < |at| ==> at[i] < at[j]
  }

  /** `part` consists of the elements of `whole` at the increasing indices `at`. */
  predicate Picks<T(==)>(part: seq<T>, whole: seq<T>, at: seq<nat>) {
    && |part| == |at| && Increasing(at)
    && forall i :: 0 <= i < |at| ==> at[i] < |whole| && part[i] == whole[at[i]]
  }

  lemma PickNext<T>(part: seq<T>, whole: seq<T>, at: seq<nat>, x: T)
    requires Picks(part, whole, at)
    ensures Picks(part, whole + [x], at) && Picks(part + [x], whole + [x], at + [|whole|])
  {
  }

  // ---- A deque of bounded length that pushes out its oldest elements ----

  function Push<T>(q: seq<T>, x: T, cap: nat): seq<T> {
    if |q| < cap then q + [x] else (q + [x])[|q| + 1 - cap..]
  }

  function Overflow<T>(q: seq<T>, x: T, cap: nat): seq<T> {
    if |q| < cap then [] else (q + [x])[..|q| + 1 - cap]
  }

  lemma PushKeepsAll<T>(q: seq<T>, x: T, cap: nat)
    requires |q| <= cap
    ensures Overflow(q, x, cap) + Push(q, x, cap) == q + [x]
    ensures |Push(q, x, cap)| == if |q| < cap then |q| + 1 else cap
    ensures Overflow(q, x, cap) == [] <==> |q| < cap
  {
  }

  /** The last elements, as many as there is room for. */
  function Newest<T>(x: seq<T>, cap: nat): seq<T> {
    if |x| <= cap then x else x[|x| - cap..]
  }

  lemma PushIsNewest<T>(q: seq<T>, x: T, cap: nat)
    requires |q| <= cap
    ensures Push(q, x, cap) == Newest(q + [x], cap)
  {
  }

  /** A deque filled by pushing holds the newest of all that was pushed. */
  lemma PushOntoNewest<T>(all: seq<T>, x: T, cap: nat)
    ensures Push(Newest(all, cap), x, cap) == Newest(all + [x], cap)
  {
    if |all| > cap {
      assert Newest(all, cap) + [x] == (all + [x])[|all| - cap..];
    }
  }

  lemma PushCounts<T>(q: seq<T>, x: T, cap: nat, e: T)
    requires |q| <= cap
    ensures multiset(Overflow(q, x, cap))[e] + multiset(Push(q, x, cap))[e] == multiset(q)[e] + multiset{x}[e]
  {
    PushKeepsAll(q, x, cap);
    var out, kept := Overflow(q, x, cap), Push(q, x, cap);
    assert multiset(out + kept)[e] == multiset(out)[e] + multiset(kept)[e];
    assert multiset(q + [x])[e] == multiset(q)[e] + multiset([x])[e];
  }

  lemma HeadCounts<T>(s: seq<T>, e: T)
    requires s != []
    ensures multiset(s)[e] == multiset{s[0]}[e] + multiset(s[1..])[e]
  {
    assert s == [s[0]] + s[1..];
    assert multiset([s[0]] + s[1..])[e] == multiset([s[0]])[e] + multiset(s[1..])[e];
  }
}
