/** The loop of c2sim.c that pushes LSP-mel values apart.

    Whenever a value is not more than ROUND above its lower neighbour, the loop moves
    the pair apart by HALF on each side, restarts its own counter, and goes on.  It is a
    chip-firing game on a path: a push at pair i widens that pair and narrows both
    neighbouring pairs.  A `plan` counts the pushes at each pair.  The loop turns out to
    perform the least plan that can possibly succeed, which determines its result
    whatever order the pushes come in, and bounds their number. */
module MelSeparation {

  const ROUND := 25.0

  // MEL_ROUND/2 is an integer division.
  const HALF := 12.0

  // Is value i more than ROUND above the value below it?
  predicate Apart(m: seq<real>, i: nat)
    requires 1 <= i < |m|
  {
    m[i] > m[i - 1] + ROUND
  }

  /** The number of pushes a plan makes at pair i; pairs outside the vector get none. */
  function At(k: seq<nat>, i: int): nat {
    if 0 <= i < |k| then k[i] else 0
  }

  // The distance a value travels in the given number of pushes.
  function Travel(pushes: nat): real {
    12.0 * (pushes as real)
  }

  /** The vector after the pushes of plan k, in whatever order. */
  function Pushed(m: seq<real>, k: seq<nat>): seq<real> {
    seq(|m|, i requires 0 <= i < |m| => m[i] + Travel(At(k, i)) - Travel(At(k, i + 1)))
  }

  /** The restarted counter never returns to pair 1, so pair 1 is pushed at most once. */
  function FirstPush(m: seq<real>): nat {
    if |m| >= 2 && !Apart(m, 1) then 1 else 0
  }

  /** Plan k treats pair 1 as the loop does and leaves every later pair apart. */
  ghost predicate Settles(m: seq<real>, k: seq<nat>) {
    && |k| == |m|
    && At(k, 0) == 0
    && At(k, 1) == FirstPush(m)
    && forall i :: 2 <= i < |m| ==> Apart(Pushed(m, k), i)
  }

  ghost predicate Below(k: seq<nat>, q: seq<nat>) {
    |k| == |q| && forall i :: 0 <= i < |k| ==> k[i] <= q[i]
  }

  ghost predicate LeastPlan(m: seq<real>, k: seq<nat>) {
    Settles(m, k) && forall q :: Settles(m, q) ==> Below(k, q)
  }

  function Total(k: seq<nat>): nat {
    if k == [] then 0 else Total(k[..|k| - 1]) + k[|k| - 1]
  }

  function Sum(m: seq<real>): real {
    if m == [] then 0.0 else Sum(m[..|m| - 1]) + m[|m| - 1]
  }

  // ---- Counting in pushes ----

  /** By how many pushes, counted at its neighbours, plan k widens pair i. */
  function Bend(k: seq<nat>, i: nat): int {
    2 * At(k, i) - At(k, i - 1) - At(k, i + 1)
  }

  /** How many such pushes pair i lacks in m. */
  function Lack(m: seq<real>, i: nat): int
    requires 1 <= i < |m|
  {
    ((ROUND - (m[i] - m[i - 1])) / 12.0).Floor + 1
  }

  /** Plan k leaves pair i apart exactly when it makes up for what the pair lacks. */
  lemma ApartIffMadeUp(m: seq<real>, k: seq<nat>, i: nat)
    requires |k| == |m| && 1 <= i < |m|
    ensures Apart(Pushed(m, k), i) <==> Bend(k, i) >= Lack(m, i)
  {
  }

  // ---- One push ----

  function PushAt(p: seq<real>, i: nat): seq<real>
    requires 1 <= i < |p|
  {
    p[i := p[i] + HALF][i - 1 := p[i - 1] - HALF]
  }

  /** A pair that still needs a push has had fewer pushes than in any successful plan. */
  lemma PushIsForced(m: seq<real>, k: seq<nat>, q: seq<nat>, i: nat)
    requires Settles(m, q) && Below(k, q) && At(k, 1) == FirstPush(m)
    requires 2 <= i < |m| && !Apart(Pushed(m, k), i)
    ensures k[i] < q[i]
  {
    ApartIffMadeUp(m, k, i);
    ApartIffMadeUp(m, q, i);
    assert Apart(Pushed(m, q), i);
    assert At(k, i - 1) <= At(q, i - 1) && At(k, i + 1) <= At(q, i + 1);
  }

  lemma PushedOnce(m: seq<real>, k: seq<nat>, i: nat)
    requires |k| == |m| && 1 <= i < |m|
    ensures Pushed(m, k[i := k[i] + 1]) == PushAt(Pushed(m, k), i)
  {
  }

  lemma {:induction false} TotalOfUpdate(k: seq<nat>, i: nat)
    requires i < |k|
    ensures Total(k[i := k[i] + 1]) == Total(k) + 1
  {
    var n := |k| - 1;
    var k' := k[i := k[i] + 1];
    if i == n {
      assert k'[..n] == k[..n];
    } else {
      assert k'[..n] == k[..n][i := k[i] + 1];
      TotalOfUpdate(k[..n], i);
    }
  }

  lemma {:induction false} TotalMonotone(k: seq<nat>, q: seq<nat>)
    requires Below(k, q)
    ensures Total(k) <= Total(q)
  {
    if k == [] {
    } else {
      TotalMonotone(k[..|k| - 1], q[..|k| - 1]);
    }
  }

  // ---- A plan that surely succeeds ----

  /** A stiffness at which one arch of pushes makes up for every lack in m. */
  ghost function Stiffness(m: seq<real>): (c: nat)
    ensures forall i :: 1 <= i < |m| ==> Lack(m, i) <= 2 * c
  {
    if |m| < 2 then 0
    else
      var n := |m| - 1;
      var c := Stiffness(m[..n]);
      assert forall i :: 1 <= i < n ==> Lack(m, i) == Lack(m[..n], i);
      if c >= Lack(m, n) then c else Lack(m, n)
  }

  function ArchAt(n: int, first: nat, c: nat, i: int): int {
    if i == 0 || i == n then 0 else first + c * ((i - 1) * (n - i))
  }

  lemma ArchBends(n: int, first: nat, c: nat, i: int)
    requires 2 <= i < n
    ensures 2 * ArchAt(n, first, c, i) - ArchAt(n, first, c, i - 1) - ArchAt(n, first, c, i + 1) >= 2 * c
  {
  }

  ghost function Arch(m: seq<real>): seq<nat> {
    seq(|m|, i requires 0 <= i < |m| =>
      var a := ArchAt(|m|, FirstPush(m), Stiffness(m), i);
      if a < 0 then 0 else a)
  }

  lemma ProductNonNegative(c: nat, x: nat, y: nat)
    ensures c * (x * y) >= 0
  {
  }

  lemma {:induction false} ArchIs(m: seq<real>, i: nat)
    requires 1 <= i <= |m|
    ensures At(Arch(m), i) == ArchAt(|m|, FirstPush(m), Stiffness(m), i)
  {
    ProductNonNegative(Stiffness(m), i - 1, |m| - i);
  }

  /** Every vector has a successful plan. */
  lemma {:induction false} ArchSettles(m: seq<real>)
    ensures Settles(m, Arch(m))
  {
    var n, q := |m|, Arch(m);
    if n > 0 {
      ArchIs(m, 1);
    }
    forall i | 2 <= i < n
      ensures Apart(Pushed(m, q), i)
    {
      ArchIs(m, i - 1);
      ArchIs(m, i);
      ArchIs(m, i + 1);
      ArchBends(n, FirstPush(m), Stiffness(m), i);
      ApartIffMadeUp(m, q, i);
    }
  }

  // ---- The loop ----

  /** The pushes so far, when the counter stands at i: all of them forced. */
  ghost predicate Reached(m: seq<real>, k: seq<nat>, i: nat) {
    && |k| == |m|
    && At(k, 0) == 0
    && (i == 1 ==> forall j :: 0 <= j < |k| ==> k[j] == 0)
    && (i > 1 ==> At(k, 1) == FirstPush(m))
    && forall q :: Settles(m, q) ==> Below(k, q)
  }

  lemma PushReaches(m: seq<real>, k: seq<nat>, i: nat)
    requires Reached(m, k, i) && 1 <= i < |m| && !Apart(Pushed(m, k), i)
    ensures Reached(m, k[i := k[i] + 1], 2)
  {
    if i == 1 {
      assert Pushed(m, k) == m;
    }
    forall q | Settles(m, q)
      ensures Below(k[i := k[i] + 1], q)
    {
      if i == 1 {
        assert At(q, 1) == 1;
      } else {
        PushIsForced(m, k, q, i);
      }
    }
  }

  predicate ApartBelow(p: seq<real>, i: nat) {
    forall j :: 2 <= j < i && j < |p| ==> Apart(p, j)
  }

  function NoPush(n: nat): seq<nat> {
    seq(n, _ => 0)
  }

  lemma {:induction false} StartReached(m: seq<real>)
    ensures Reached(m, NoPush(|m|), 1) && Pushed(m, NoPush(|m|)) == m
  {
  }

  // The counter moves on past a pair that passes its test.
  lemma {:induction false} PassReaches(m: seq<real>, k: seq<nat>, i: nat)
    requires Reached(m, k, i) && 1 <= i < |m| && Apart(Pushed(m, k), i) && ApartBelow(Pushed(m, k), i)
    ensures Reached(m, k, i + 1) && ApartBelow(Pushed(m, k), i + 1)
  {
  }

  lemma {:induction false} EndReached(m: seq<real>, k: seq<nat>, i: nat)
    requires Reached(m, k, i) && 1 <= i && |m| <= i && ApartBelow(Pushed(m, k), i)
    ensures LeastPlan(m, k)
  {
  }

  method PushApart(mel: array<real>, i: nat)
    requires 1 <= i < mel.Length
    modifies mel
    ensures mel[..] == PushAt(old(mel[..]), i)
  {
    mel[i] := mel[i] + HALF;
    mel[i - 1] := mel[i - 1] - HALF;
  }

  /** Separates the values in place.  Terminates for every vector and every order: each push
      is one that every successful plan makes, and one such plan exists. */
  method SeparateMels(mel: array<real>) returns (ghost k: seq<nat>)
    modifies mel
    ensures LeastPlan(old(mel[..]), k)
    ensures mel[..] == Pushed(old(mel[..]), k)
  {
    ghost var m := mel[..];
    ghost var roof := Arch(m);
    ArchSettles(m);
    StartReached(m);
    k := NoPush(|m|);
    var i := 1;
    while i < mel.Length
      invariant 1 <= i && |m| == mel.Length
      invariant Reached(m, k, i)
      invariant mel[..] == Pushed(m, k)
      invariant ApartBelow(Pushed(m, k), i)
      decreases Total(roof) - Total(k), mel.Length - i
    {
      ghost var p := mel[..];
      assert p == Pushed(m, k) && p[i] == mel[i] && p[i - 1] == mel[i - 1];
      if mel[i] <= mel[i - 1] + ROUND {
        PushReaches(m, k, i);
        PushedOnce(m, k, i);
        TotalOfUpdate(k, i);
        TotalMonotone(k[i := k[i] + 1], roof);
        PushApart(mel, i);
        k := k[i := k[i] + 1];
        i := 1;
      } else {
        PassReaches(m, k, i);
      }
      i := i + 1;
    }
    EndReached(m, k, i);
  }

  // ---- What the result means ----

  lemma LeastPlanUnique(m: seq<real>, k: seq<nat>, q: seq<nat>)
    requires LeastPlan(m, k) && LeastPlan(m, q)
    ensures k == q
  {
  }

  /** The pushes of the first test. */
  function FirstPlan(m: seq<real>): seq<nat> {
    seq(|m|, i => if i == 1 then FirstPush(m) else 0)
  }

  /** From plan k on, each pair of `order` from index 2 up is pushed while it fails its test. */
  predicate Pushable(m: seq<real>, k: seq<nat>, order: seq<nat>)
    requires |k| == |m|
    decreases |order|
  {
    || order == []
    || (var i := order[0];
        && 2 <= i < |m| && !Apart(Pushed(m, k), i)
        && Pushable(m, k[i := k[i] + 1], order[1..]))
  }

  function Performed(m: seq<real>, k: seq<nat>, order: seq<nat>): (q: seq<nat>)
    requires |k| == |m| && Pushable(m, k, order)
    ensures |q| == |m|
    decreases |order|
  {
    if order == [] then k else Performed(m, k[order[0] := k[order[0]] + 1], order[1..])
  }

  lemma {:induction false} OrderReaches(m: seq<real>, k: seq<nat>, order: seq<nat>)
    requires |k| == |m| && Reached(m, k, 2) && Pushable(m, k, order)
    ensures Reached(m, Performed(m, k, order), 2)
    ensures Total(Performed(m, k, order)) == Total(k) + |order|
    decreases |order|
  {
    if order == [] {
    } else {
      var i := order[0];
      PushReaches(m, k, i);
      TotalOfUpdate(k, i);
      OrderReaches(m, k[i := k[i] + 1], order[1..]);
    }
  }

  lemma {:induction false} FirstPlanReached(m: seq<real>)
    ensures Reached(m, FirstPlan(m), 2)
  {
  }

  lemma {:induction false} FirstPlanPrefix(m: seq<real>, n: nat)
    requires n <= |m|
    ensures Total(FirstPlan(m)[..n]) == if n >= 2 then FirstPush(m) else 0
  {
    if n == 0 {
    } else {
      assert FirstPlan(m)[..n][..n - 1] == FirstPlan(m)[..n - 1];
      FirstPlanPrefix(m, n - 1);
    }
  }

  lemma {:induction false} FirstPlanTotal(m: seq<real>)
    ensures Total(FirstPlan(m)) == FirstPush(m)
  {
    FirstPlanPrefix(m, |m|);
    assert FirstPlan(m)[..|m|] == FirstPlan(m);
  }

  lemma SettledReach(m: seq<real>, q: seq<nat>)
    requires Reached(m, q, 2) && forall i :: 2 <= i < |m| ==> Apart(Pushed(m, q), i)
    ensures LeastPlan(m, q)
  {
  }

  /** The result does not depend on the order of pushes: after the first test, any sequence of
      pushes at failing pairs is at most as long as the loop's, and once no pair is left that
      fails, it has made exactly the loop's pushes. */
  lemma {:induction false} AnyOrderIsLeast(m: seq<real>, order: seq<nat>, k: seq<nat>)
    requires Pushable(m, FirstPlan(m), order) && LeastPlan(m, k)
    ensures Below(Performed(m, FirstPlan(m), order), k) && |order| + FirstPush(m) <= Total(k)
    ensures (forall i :: 2 <= i < |m| ==> Apart(Pushed(m, Performed(m, FirstPlan(m), order)), i)) ==>
              Performed(m, FirstPlan(m), order) == k && |order| + FirstPush(m) == Total(k)
  {
    var q := Performed(m, FirstPlan(m), order);
    FirstPlanReached(m);
    FirstPlanTotal(m);
    OrderReaches(m, FirstPlan(m), order);
    TotalMonotone(q, k);
    if forall i :: 2 <= i < |m| ==> Apart(Pushed(m, q), i) {
      SettledReach(m, q);
      LeastPlanUnique(m, q, k);
    }
  }

  /** The number of pushes at each pair is bounded in terms of the input. */
  lemma {:induction false} PushesBounded(m: seq<real>, k: seq<nat>, i: nat)
    requires LeastPlan(m, k) && 1 <= i < |m|
    ensures k[i] <= FirstPush(m) + Stiffness(m) * ((i - 1) * (|m| - i))
  {
    ArchSettles(m);
    ArchIs(m, i);
    assert Below(k, Arch(m));
  }

  lemma {:induction false} SumOfPrefix(m: seq<real>, k: seq<nat>, j: nat)
    requires |k| == |m| && At(k, 0) == 0 && j <= |m|
    ensures Sum(Pushed(m, k)[..j]) == Sum(m[..j]) - Travel(At(k, j))
  {
    if j == 0 {
    } else {
      SumOfPrefix(m, k, j - 1);
      assert m[..j][..j - 1] == m[..j - 1];
      assert Pushed(m, k)[..j][..j - 1] == Pushed(m, k)[..j - 1];
    }
  }

  /** Separation conserves the sum of the values: what it adds above it takes below. */
  lemma SumConserved(m: seq<real>, k: seq<nat>)
    requires |k| == |m| && At(k, 0) == 0
    ensures Sum(Pushed(m, k)) == Sum(m)
  {
    SumOfPrefix(m, k, |m|);
    assert Pushed(m, k)[..|m|] == Pushed(m, k) && m[..|m|] == m;
  }

  lemma {:induction false} ApartClimbs(p: seq<real>, i: nat, j: nat)
    requires 1 <= i < j < |p| && forall l :: 2 <= l < |p| ==> Apart(p, l)
    ensures p[j] > p[i] + ROUND * ((j - i) as real)
    decreases j - i
  {
    assert Apart(p, j);
    if i + 1 == j {
    } else {
      ApartClimbs(p, i, j - 1);
    }
  }

  /** From index 1 on the result climbs by more than ROUND at each step. */
  lemma {:induction false} Spread(m: seq<real>, k: seq<nat>, i: nat, j: nat)
    requires Settles(m, k) && 1 <= i < j < |m|
    ensures Pushed(m, k)[j] > Pushed(m, k)[i] + ROUND * ((j - i) as real)
  {
    ApartClimbs(Pushed(m, k), i, j);
  }

  // ---- The first pair ----

  /** The lacks of pairs 1..j-1, pair i counted j-i times. */
  function Deficit(m: seq<real>, j: nat): int
    requires j <= |m|
  {
    if j <= 1 then 0 else 2 * Deficit(m, j - 1) - Deficit(m, j - 2) + Lack(m, j - 1)
  }

  /** A plan that opens every pair stays under the line that the deficits leave. */
  lemma {:induction false} DeficitBoundsPlan(m: seq<real>, q: seq<nat>, j: nat)
    requires Settles(m, q) && |m| >= 2 && Apart(Pushed(m, q), 1) && 1 <= j <= |m|
    ensures At(q, j) <= j * FirstPush(m) - Deficit(m, j)
    ensures At(q, j) - At(q, j - 1) <= FirstPush(m) - Deficit(m, j) + Deficit(m, j - 1)
  {
    if j == 1 {
    } else {
      DeficitBoundsPlan(m, q, j - 1);
      ApartIffMadeUp(m, q, j - 1);
    }
  }

  /** Over every leading stretch of j values, the deficits add up to at most j if the loop's
      very first test pushes, and to at most 0 if it does not. */
  ghost predicate DeficitsCovered(m: seq<real>) {
    forall j :: 2 <= j <= |m| ==> Deficit(m, j) <= j * FirstPush(m)
  }

  ghost function LinePlan(m: seq<real>): seq<nat>
    requires DeficitsCovered(m)
  {
    seq(|m|, j requires 0 <= j < |m| => j * FirstPush(m) - Deficit(m, j))
  }

  lemma LinePlanOpens(m: seq<real>, i: nat)
    requires DeficitsCovered(m) && 1 <= i < |m|
    ensures Apart(Pushed(m, LinePlan(m)), i)
  {
    var q, f := LinePlan(m), FirstPush(m);
    assert At(q, i) == i * f - Deficit(m, i);
    assert At(q, i - 1) == (i - 1) * f - Deficit(m, i - 1) && (i - 1) * f == i * f - f;
    assert At(q, i + 1) <= (i + 1) * f - Deficit(m, i + 1) && (i + 1) * f == i * f + f;
    assert Bend(q, i) >= Lack(m, i);
    ApartIffMadeUp(m, q, i);
  }

  lemma LinePlanSettles(m: seq<real>)
    requires DeficitsCovered(m)
    ensures Settles(m, LinePlan(m))
  {
    forall i | 2 <= i < |m|
      ensures Apart(Pushed(m, LinePlan(m)), i)
    {
      LinePlanOpens(m, i);
    }
  }

  lemma FewerPushesKeepFirstApart(m: seq<real>, k: seq<nat>, q: seq<nat>)
    requires LeastPlan(m, k) && Settles(m, q) && |m| >= 2 && Apart(Pushed(m, q), 1)
    ensures Apart(Pushed(m, k), 1)
  {
  }

  /** Pair 1 ends apart exactly when the deficits of the input are covered. */
  lemma FirstPairApart(m: seq<real>, k: seq<nat>)
    requires LeastPlan(m, k) && |m| >= 2
    ensures Apart(Pushed(m, k), 1) <==> DeficitsCovered(m)
  {
    if Apart(Pushed(m, k), 1) {
      forall j | 2 <= j <= |m|
        ensures Deficit(m, j) <= j * FirstPush(m)
      {
        DeficitBoundsPlan(m, k, j);
      }
    }
    if DeficitsCovered(m) {
      LinePlanSettles(m);
      LinePlanOpens(m, 1);
      FewerPushesKeepFirstApart(m, k, LinePlan(m));
    }
  }

  lemma {:induction false} UnpushedIsApart(m: seq<real>, k: seq<nat>)
    requires Settles(m, k) && Pushed(m, k) == m && forall i :: 0 <= i < |k| ==> k[i] == 0
    ensures forall i :: 1 <= i < |m| ==> Apart(m, i)
  {
  }

  lemma {:induction false} NoNetPush(m: seq<real>, k: seq<nat>, n: nat)
    requires |k| == |m| && At(k, 0) == 0 && Pushed(m, k) == m && n <= |m|
    ensures forall i :: 0 <= i < n ==> k[i] == 0
  {
    if n <= 1 {
    } else {
      NoNetPush(m, k, n - 1);
      assert Pushed(m, k)[n - 2] == m[n - 2];
    }
  }

  /** The vector is left alone exactly when all its pairs, the first included, are apart. */
  lemma UnchangedIffApart(m: seq<real>, k: seq<nat>)
    requires LeastPlan(m, k)
    ensures Pushed(m, k) == m <==> forall i :: 1 <= i < |m| ==> Apart(m, i)
  {
    if forall i :: 1 <= i < |m| ==> Apart(m, i) {
      StartReached(m);
      assert Settles(m, NoPush(|m|));
      assert k == NoPush(|m|);
    }
    if Pushed(m, k) == m {
      NoNetPush(m, k, |m|);
      UnpushedIsApart(m, k);
    }
  }

  /** The first pair need not end apart: here it is opened once and then closed again by
      two pushes at its neighbour. */
  lemma FirstPairMayCloseAgain()
    ensures LeastPlan([1.0, 20.0, 30.0, 100.0], [0, 1, 2, 0])
    ensures Pushed([1.0, 20.0, 30.0, 100.0], [0, 1, 2, 0]) == [-11.0, 8.0, 54.0, 100.0]
    ensures !Apart([-11.0, 8.0, 54.0, 100.0], 1)
  {
    var m, k := [1.0, 20.0, 30.0, 100.0], [0, 1, 2, 0];
    assert Pushed(m, k) == [-11.0, 8.0, 54.0, 100.0];
    forall q | Settles(m, q)
      ensures Below(k, q)
    {
      assert Apart(Pushed(m, q), 2);
      assert q[1] == At(q, 1) == 1 && q[2] == At(q, 2) && q[3] == At(q, 3);
    }
  }
}
