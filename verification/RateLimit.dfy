/** The hourly cap on AI calls: a counter that starts over an hour after it last did. */
module RateLimit {
  import opened Clocks

  const HOUR := 3600.0

  datatype Counter = Counter(count: int, start: real)

  function Refreshed(c: Counter, now: real): Counter {
    if now - c.start >= HOUR then Counter(0, now) else c
  }

  // Whether a call goes out, and the counter after it.
  function Asked(c: Counter, now: real, maxCalls: nat, ready: bool): (bool, Counter) {
    var r := Refreshed(c, now);
    if r.count < maxCalls && ready then (true, r.(count := r.count + 1)) else (false, r)
  }

  class AiAnalyzer {
    const maxCalls: nat
    var callCount: int
    var hourStart: real

    function State(): Counter
      reads this
    {
      Counter(callCount, hourStart)
    }

    constructor (maxCalls: nat, now: real)
      ensures this.maxCalls == maxCalls && State() == Counter(0, now)
    {
      this.maxCalls, callCount, hourStart := maxCalls, 0, now;
    }

    method CheckRateLimit(now: real) returns (ok: bool)
      modifies this
      ensures State() == Refreshed(old(State()), now) && ok == (callCount < maxCalls)
    {
      if now - hourStart >= HOUR {
        callCount := 0;
        hourStart := now;
      }
      ok := callCount < maxCalls;
    }

    /** The part of `analyze` before the request goes out.  `ready` says whether the client
        could be set up; if not, nothing is counted. */
    method StartAnalysis(enabled: bool, ready: bool, now: real) returns (called: bool)
      modifies this
      ensures if enabled then (called, State()) == Asked(old(State()), now, maxCalls, ready)
              else !called && State() == old(State())
    {
      if !enabled {
        return false;
      }
      var ok := CheckRateLimit(now);
      if !ok || !ready {
        return false;
      }
      callCount := callCount + 1;
      return true;
    }
  }

  // ---- Whole runs ----

  datatype Request = Request(now: real, ready: bool)

  function Time(q: Request): real {
    q.now
  }

  /** The counter, the times of all calls so far, and the clock. */
  datatype Run = Run(counter: Counter, calls: seq<real>, clock: real)

  function Start(now: real): Run {
    Run(Counter(0, now), [], now)
  }

  function Step(r: Run, q: Request, maxCalls: nat): Run {
    var a := Asked(r.counter, q.now, maxCalls, q.ready);
    Run(a.1, if a.0 then r.calls + [q.now] else r.calls, q.now)
  }

  function After(r: Run, requests: seq<Request>, maxCalls: nat): Run
    decreases |requests|
  {
    if requests == [] then r else After(Step(r, requests[0], maxCalls), requests[1..], maxCalls)
  }

  /** Call i + k comes at least an hour after call i. */
  predicate Spread(calls: seq<real>, k: nat) {
    forall i, j :: 0 <= i < |calls| && i + k <= j < |calls| ==> calls[j] >= calls[i] + HOUR
  }

  predicate InOrder(calls: seq<real>) {
    forall i, j :: 0 <= i < j < |calls| ==> calls[i] <= calls[j]
  }

  predicate UpTo(calls: seq<real>, clock: real) {
    InOrder(calls) && forall i :: 0 <= i < |calls| ==> calls[i] <= clock
  }

  /** The calls of the current window are the last `count`; those of the window before it
      are at most maxCalls more, and anything older lies an hour before its start. */
  predicate Inv(r: Run, maxCalls: nat) {
    var c := r.counter;
    && 0 <= c.count <= |r.calls| && c.count <= maxCalls
    && c.start <= r.clock && r.clock < c.start + HOUR
    && UpTo(r.calls, r.clock)
    && (forall i :: |r.calls| - c.count <= i < |r.calls| ==> c.start <= r.calls[i])
    && (forall i :: 0 <= i < |r.calls| - c.count ==> r.calls[i] <= c.start)
    && (forall i :: 0 <= i < |r.calls| - c.count - maxCalls ==> r.calls[i] + HOUR <= c.start)
    && Spread(r.calls, 2 * maxCalls)
  }

  lemma {:induction false} RefreshInv(r: Run, now: real, maxCalls: nat)
    requires Inv(r, maxCalls) && r.clock <= now
    ensures Inv(Run(Refreshed(r.counter, now), r.calls, now), maxCalls)
  {
  }

  lemma {:induction false} CallInv(r: Run, maxCalls: nat)
    requires Inv(r, maxCalls) && r.counter.count < maxCalls
    ensures Inv(Run(r.counter.(count := r.counter.count + 1), r.calls + [r.clock], r.clock), maxCalls)
  {
  }

  lemma {:induction false} StepInv(r: Run, q: Request, maxCalls: nat)
    requires Inv(r, maxCalls) && r.clock <= q.now
    ensures Inv(Step(r, q, maxCalls), maxCalls)
  {
    RefreshInv(r, q.now, maxCalls);
    var begun := Run(Refreshed(r.counter, q.now), r.calls, q.now);
    if begun.counter.count < maxCalls {
      CallInv(begun, maxCalls);
    }
  }

  lemma {:induction false} RunInv(r: Run, requests: seq<Request>, maxCalls: nat)
    requires Inv(r, maxCalls) && Forward(r.clock, requests, Time)
    ensures Inv(After(r, requests, maxCalls), maxCalls)
    decreases |requests|
  {
    if requests == [] {
    } else {
      StepInv(r, requests[0], maxCalls);
      RunInv(Step(r, requests[0], maxCalls), requests[1..], maxCalls);
    }
  }

  // ---- What any hour holds ----

  // The calls in the half-open hour from t.
  function CallsWithin(calls: seq<real>, t: real): nat {
    if calls == [] then 0
    else CallsWithin(calls[..|calls| - 1], t) + if t <= calls[|calls| - 1] < t + HOUR then 1 else 0
  }

  /** No half-open hour, wherever it begins, holds more than k calls. */
  ghost predicate HourlyCap(calls: seq<real>, k: nat) {
    forall t :: CallsWithin(calls, t) <= k
  }

  lemma {:induction false} EarlyCallsOutside(calls: seq<real>, t: real, m: nat)
    requires m <= |calls| && forall i :: 0 <= i < m ==> calls[i] < t
    ensures CallsWithin(calls, t) <= |calls| - m
    decreases |calls|
  {
    if calls == [] {
    } else if |calls| > m {
      EarlyCallsOutside(calls[..|calls| - 1], t, m);
    } else {
      EarlyCallsOutside(calls[..m - 1], t, m - 1);
    }
  }

  lemma {:induction false} SpreadBoundsHour(calls: seq<real>, k: nat, t: real)
    requires Spread(calls, k)
    ensures CallsWithin(calls, t) <= k
    decreases |calls|
  {
    var n := |calls|;
    if n == 0 {
    } else if t <= calls[n - 1] < t + HOUR {
      EarlyCallsOutside(calls, t, if n <= k then 0 else n - k);
    } else {
      SpreadBoundsHour(calls[..n - 1], k, t);
    }
  }

  lemma {:induction false} StretchIsWithin(calls: seq<real>, t: real, i: nat, j: nat)
    requires i <= j <= |calls| && forall k :: i <= k < j ==> t <= calls[k] < t + HOUR
    ensures CallsWithin(calls, t) >= j - i
    decreases |calls|
  {
    if calls == [] {
    } else if j == |calls| && i < j {
      StretchIsWithin(calls[..j - 1], t, i, j - 1);
    } else if i < j {
      StretchIsWithin(calls[..|calls| - 1], t, i, j);
    }
  }

  /** Calls in time order keep to k in every hour exactly when every k-th next call is an
      hour later. */
  lemma {:induction false} HourlyCapIffSpread(calls: seq<real>, k: nat)
    requires InOrder(calls)
    ensures HourlyCap(calls, k) <==> Spread(calls, k)
  {
    if Spread(calls, k) {
      forall t
        ensures CallsWithin(calls, t) <= k
      {
        SpreadBoundsHour(calls, k, t);
      }
    }
    if HourlyCap(calls, k) {
      forall i, j | 0 <= i < |calls| && i + k <= j < |calls|
        ensures calls[j] >= calls[i] + HOUR
      {
        if calls[j] < calls[i] + HOUR {
          StretchIsWithin(calls, calls[i], i, j + 1);
        }
      }
    }
  }

  /** In every run with a nondecreasing clock, no half-open hour holds more than twice the
      cap, and no counter window holds more than the cap. */
  lemma {:induction false} AtMostTwiceTheCap(now: real, requests: seq<Request>, maxCalls: nat)
    requires Forward(now, requests, Time)
    ensures var r := After(Start(now), requests, maxCalls);
            HourlyCap(r.calls, 2 * maxCalls) && r.counter.count <= maxCalls
  {
    RunInv(Start(now), requests, maxCalls);
    HourlyCapIffSpread(After(Start(now), requests, maxCalls).calls, 2 * maxCalls);
  }

  /** In every run, a request the client is ready for is refused only when a cap's worth of
      calls has gone out in the 3600 seconds before it. */
  lemma {:induction false} RefusedOnlyWhenFull(now: real, requests: seq<Request>, maxCalls: nat, q: Request)
    requires Forward(now, requests, Time) && After(Start(now), requests, maxCalls).clock <= q.now && q.ready
    requires !Asked(After(Start(now), requests, maxCalls).counter, q.now, maxCalls, q.ready).0
    ensures var calls := After(Start(now), requests, maxCalls).calls;
            && maxCalls <= |calls|
            && forall i :: |calls| - maxCalls <= i < |calls| ==> q.now - 3600.0 < calls[i] <= q.now
  {
    RunInv(Start(now), requests, maxCalls);
    var r := After(Start(now), requests, maxCalls);
    RefreshInv(r, q.now, maxCalls);
    var begun := Run(Refreshed(r.counter, q.now), r.calls, q.now);
    assert begun.counter.count == maxCalls;
  }

  // ---- When the cap holds for every hour ----

  /** What would have to be checked before a call at `now`: the call k calls back is an hour old. */
  predicate RoomFor(calls: seq<real>, now: real, k: nat) {
    k >= 1 && (|calls| < k || now >= calls[|calls| - k] + HOUR)
  }

  lemma SpreadAt(calls: seq<real>, k: nat, i: nat, j: nat)
    requires Spread(calls, k) && i + k <= j < |calls|
    ensures calls[j] >= calls[i] + HOUR
  {
  }

  lemma {:induction false} CallKeepsSpread(calls: seq<real>, now: real, k: nat)
    requires UpTo(calls, now) && Spread(calls, k)
    ensures Spread(calls + [now], k) <==> RoomFor(calls, now, k)
  {
    var next := calls + [now];
    if Spread(next, k) && k <= |calls| {
      SpreadAt(next, k, |calls| - k, |calls|);
    }
    if RoomFor(calls, now, k) {
      forall i, j | 0 <= i < |next| && i + k <= j < |next|
        ensures next[j] >= next[i] + HOUR
      {
        if j == |calls| {
          assert calls[i] <= calls[|calls| - k];
        } else {
          assert calls[j] >= calls[i] + HOUR;
        }
      }
    }
  }

  /** After calls that keep to the cap in every hour, one more does exactly when there is room. */
  lemma {:induction false} CallKeepsCap(calls: seq<real>, now: real, k: nat)
    requires UpTo(calls, now) && HourlyCap(calls, k)
    ensures HourlyCap(calls + [now], k) <==> RoomFor(calls, now, k)
  {
    HourlyCapIffSpread(calls, k);
    HourlyCapIffSpread(calls + [now], k);
    CallKeepsSpread(calls, now, k);
  }

  /** Every call of the run found room. */
  predicate AllHaveRoom(r: Run, requests: seq<Request>, maxCalls: nat)
    decreases |requests|
  {
    || requests == []
    || (var q := requests[0];
        && (Asked(r.counter, q.now, maxCalls, q.ready).0 ==> RoomFor(r.calls, q.now, maxCalls))
        && AllHaveRoom(Step(r, q, maxCalls), requests[1..], maxCalls))
  }

  lemma {:induction false} CallsOnlyGrow(r: Run, requests: seq<Request>, maxCalls: nat)
    ensures r.calls <= After(r, requests, maxCalls).calls
    decreases |requests|
  {
    if requests == [] {
    } else {
      CallsOnlyGrow(Step(r, requests[0], maxCalls), requests[1..], maxCalls);
    }
  }

  lemma {:induction false} SpreadOfPrefix(some: seq<real>, all: seq<real>, k: nat)
    requires some <= all && Spread(all, k)
    ensures Spread(some, k)
  {
    forall i, j | 0 <= i < |some| && i + k <= j < |some|
      ensures some[j] >= some[i] + HOUR
    {
      assert all[j] >= all[i] + HOUR;
    }
  }

  lemma {:induction false} SpreadIffAllHaveRoom(r: Run, requests: seq<Request>, maxCalls: nat)
    requires UpTo(r.calls, r.clock) && Spread(r.calls, maxCalls) && Forward(r.clock, requests, Time)
    ensures Spread(After(r, requests, maxCalls).calls, maxCalls) <==> AllHaveRoom(r, requests, maxCalls)
    decreases |requests|
  {
    if requests == [] {
    } else {
      var q := requests[0];
      var r' := Step(r, q, maxCalls);
      CallKeepsSpread(r.calls, q.now, maxCalls);
      if Spread(r'.calls, maxCalls) {
        SpreadIffAllHaveRoom(r', requests[1..], maxCalls);
      } else if Spread(After(r, requests, maxCalls).calls, maxCalls) {
        CallsOnlyGrow(r', requests[1..], maxCalls);
        SpreadOfPrefix(r'.calls, After(r, requests, maxCalls).calls, maxCalls);
      }
    }
  }

  /** A run keeps to the cap in every hour, not only in every counter window, exactly when
      each of its calls came an hour after the call a cap's worth of calls before. */
  lemma {:induction false} CapHoldsIff(now: real, requests: seq<Request>, maxCalls: nat)
    requires Forward(now, requests, Time)
    ensures HourlyCap(After(Start(now), requests, maxCalls).calls, maxCalls)
       <==> AllHaveRoom(Start(now), requests, maxCalls)
  {
    RunInv(Start(now), requests, maxCalls);
    HourlyCapIffSpread(After(Start(now), requests, maxCalls).calls, maxCalls);
    SpreadIffAllHaveRoom(Start(now), requests, maxCalls);
  }

  // ---- Twice the cap is reached ----

  function Repeated<T>(x: T, n: nat): seq<T> {
    seq(n, _ => x)
  }

  lemma {:induction false} RepeatedSplits<T>(x: T, n: nat)
    requires n > 0
    ensures Repeated(x, n)[0] == x && Repeated(x, n)[1..] == Repeated(x, n - 1)
    ensures [x] + Repeated(x, n - 1) == Repeated(x, n)
  {
  }

  /** As many requests at one moment as the window still has room for all go out. */
  lemma {:induction false} Burst(r: Run, now: real, n: nat, maxCalls: nat)
    requires n > 0 && Refreshed(r.counter, now).count + n <= maxCalls
    ensures After(r, Repeated(Request(now, true), n), maxCalls)
         == Run(Refreshed(r.counter, now).(count := Refreshed(r.counter, now).count + n),
                r.calls + Repeated(now, n), now)
    decreases n
  {
    var q := Request(now, true);
    var r' := Step(r, q, maxCalls);
    RepeatedSplits(q, n);
    RepeatedSplits(now, n);
    assert r'.calls + Repeated(now, n - 1) == r.calls + ([now] + Repeated(now, n - 1));
    if n == 1 {
      assert r.calls + Repeated(now, 1) == r'.calls;
    } else {
      Burst(r', now, n - 1, maxCalls);
    }
  }

  lemma {:induction false} AfterBoth(r: Run, first: seq<Request>, second: seq<Request>, maxCalls: nat)
    ensures After(r, first + second, maxCalls) == After(After(r, first, maxCalls), second, maxCalls)
    decreases |first|
  {
    if first == [] {
      assert first + second == second;
    } else {
      assert (first + second)[1..] == first[1..] + second;
      AfterBoth(Step(r, first[0], maxCalls), first[1..], second, maxCalls);
    }
  }

  /** A cap's worth of requests just before the window ends, and another when it has. */
  function TwoBursts(start: real, maxCalls: nat): seq<Request> {
    Repeated(Request(start + HOUR - 1.0, true), maxCalls) + Repeated(Request(start + HOUR, true), maxCalls)
  }

  lemma {:induction false} SteadyIsForward(from: real, requests: seq<Request>)
    requires forall i :: 0 <= i < |requests| ==>
               from <= requests[i].now && (forall j :: i < j < |requests| ==> requests[i].now <= requests[j].now)
    ensures Forward(from, requests, Time)
    decreases |requests|
  {
    if requests == [] {
    } else {
      SteadyIsForward(requests[0].now, requests[1..]);
    }
  }

  /** The bound is reached for every cap: some hour of this run holds exactly twice the cap. */
  lemma {:induction false} TwiceTheCapHappens(start: real, maxCalls: nat)
    requires maxCalls >= 1
    ensures var requests := TwoBursts(start, maxCalls);
            && Forward(start, requests, Time)
            && CallsWithin(After(Start(start), requests, maxCalls).calls, start + HOUR - 1.0) == 2 * maxCalls
  {
    var t0, t1 := start + HOUR - 1.0, start + HOUR;
    var first, second := Repeated(Request(t0, true), maxCalls), Repeated(Request(t1, true), maxCalls);
    SteadyIsForward(start, first + second);
    Burst(Start(start), t0, maxCalls, maxCalls);
    Burst(After(Start(start), first, maxCalls), t1, maxCalls, maxCalls);
    AfterBoth(Start(start), first, second, maxCalls);
    var calls := After(Start(start), first + second, maxCalls).calls;
    assert calls == [] + Repeated(t0, maxCalls) + Repeated(t1, maxCalls);
    StretchIsWithin(calls, t0, 0, 2 * maxCalls);
    EarlyCallsOutside(calls, t0, 0);
  }
}
