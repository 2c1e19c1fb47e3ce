/** The WebMap's marker fade and retirement, over whole runs of the refresh timer.

    Times are whole milliseconds and opacities exact reals. */
module Markers {
  import opened Clocks
  import opened Sequences

  // Opacity at retirement: still visible until the delete goes out.
  const FADE_FLOOR := 0.2

  /** Math.round(x * n) / n. */
  function RoundTo(x: real, n: nat): real
    requires n > 0
  {
    ((x * (n as real) + 0.5).Floor as real) / (n as real)
  }

  function Max(x: real, y: real): real {
    if x >= y then x else y
  }

  /** How far now has come from `from` to `to`. */
  function Progress(from: real, to: real, now: real): real
    requires from < to
  {
    (now - from) / (to - from)
  }

  /** Solid until three quarters of the retention, then down to the floor in steps of 0.05.
      A retirement time of 0 means never. */
  function RetireOpacity(produced: int, retireAt: int, now: int): real {
    var span := (retireAt - produced) as real;
    if retireAt == 0 then 1.0
    else if span <= 0.0 then FADE_FLOOR
    else
      var fadeStart := produced as real + span * 0.75;
      if now as real <= fadeStart then 1.0
      else RoundTo(Max(FADE_FLOOR, 1.0 - Progress(fadeStart, retireAt as real, now as real) * 0.8), 20)
  }

  /** Incident markers fade over their lifespan, others over as long again once stale. */
  function AgeOpacity(start: int, stale: int, ageBased: bool, now: int): real {
    var lifespan := stale - start;
    if ageBased then
      if lifespan <= 0 || now <= start then 1.0
      else if now - start >= lifespan then 0.0
      else Max(0.0, 1.0 - Progress(start as real, stale as real, now as real))
    else
      if now < stale then 1.0
      else if lifespan <= 0 || now >= stale + lifespan then 0.0
      else 1.0 - Progress(stale as real, (stale + lifespan) as real, now as real)
  }

  datatype Info = Info(managed: bool, produced: int, retireAt: int, start: int, stale: int, ageBased: bool)

  // What a refresh makes of a marker.
  datatype Fate = Retired | Expired | Untouched | Shows(opacity: real)

  function FateOf(m: Info, now: int): Fate {
    if m.managed then
      if m.retireAt != 0 && now >= m.retireAt then Retired
      else Shows(RoundTo(RetireOpacity(m.produced, m.retireAt, now), 100))
    else if m.stale == 0 || m.start == 0 then Untouched
    else
      var opacity := AgeOpacity(m.start, m.stale, m.ageBased, now);
      if opacity <= 0.05 then Expired else Shows(RoundTo(opacity, 100))
  }

  function NewOpacity(m: Info, opacity: real, now: int): real {
    var fate := FateOf(m, now);
    if fate.Shows? then fate.opacity else opacity
  }

  class Marker {
    const info: Info
    var opacity: real

    constructor (info: Info, opacity: real)
      ensures this.info == info && this.opacity == opacity
    {
      this.info, this.opacity := info, opacity;
    }
  }

  // The keys whose markers meet a fate, in order.
  function KeysWith(keys: seq<string>, cache: map<string, Marker>, now: int, fate: Fate, n: nat): seq<string>
    requires n <= |keys| && forall k :: k in keys ==> k in cache
  {
    if n == 0 then []
    else KeysWith(keys, cache, now, fate, n - 1)
         + if FateOf(cache[keys[n - 1]].info, now) == fate then [keys[n - 1]] else []
  }

  function Opacities(cache: map<string, Marker>): map<Marker, real>
    reads cache.Values
  {
    map m | m in cache.Values :: m.opacity
  }

  // Whether a refresh changes marker m, whose opacity was `opacity`.
  predicate Changes(m: Marker, opacity: real, now: int) {
    NewOpacity(m.info, opacity, now) != opacity
  }

  // The markers that a refresh changes, in the order of their first keys.
  function Changing(keys: seq<string>, cache: map<string, Marker>, was: map<Marker, real>, now: int, n: nat)
    : seq<Marker>
    requires n <= |keys| && forall k :: k in keys ==> k in cache && cache[k] in was
  {
    if n == 0 then []
    else
      var before, m := Changing(keys, cache, was, now, n - 1), cache[keys[n - 1]];
      if Changes(m, was[m], now) && m !in before then before + [m] else before
  }

  // The body of the loop for one marker.
  method RefreshMarker(m: Marker, now: int) returns (fate: Fate, changed: bool)
    modifies m
    ensures fate == FateOf(m.info, now)
    ensures m.opacity == NewOpacity(m.info, old(m.opacity), now)
    ensures changed <==> m.opacity != old(m.opacity)
  {
    if m.info.managed {
      if m.info.retireAt != 0 && now >= m.info.retireAt {
        return Retired, false;
      }
      var ro := RoundTo(RetireOpacity(m.info.produced, m.info.retireAt, now), 100);
      changed := ro != m.opacity;
      m.opacity := ro;
      return Shows(ro), changed;
    }
    if m.info.stale == 0 || m.info.start == 0 {
      return Untouched, false;
    }
    var opacity := AgeOpacity(m.info.start, m.info.stale, m.info.ageBased, now);
    if opacity <= 0.05 {
      return Expired, false;
    }
    var newOpacity := RoundTo(opacity, 100);
    changed := newOpacity != m.opacity;
    m.opacity := newOpacity;
    return Shows(newOpacity), changed;
  }

  // The body of the loop with its three lists.
  method ReportMarker(key: string, m: Marker, now: int, updated: seq<Marker>, expired: seq<string>,
                      retired: seq<string>)
    returns (updated': seq<Marker>, expired': seq<string>, retired': seq<string>)
    modifies m
    ensures m.opacity == NewOpacity(m.info, old(m.opacity), now)
    ensures updated' == updated + if Changes(m, old(m.opacity), now) then [m] else []
    ensures expired' == expired + if FateOf(m.info, now) == Expired then [key] else []
    ensures retired' == retired + if FateOf(m.info, now) == Retired then [key] else []
  {
    updated', expired', retired' := updated, expired, retired;
    var fate, changed := RefreshMarker(m, now);
    if fate.Retired? {
      retired' := retired + [key];
    } else if fate.Expired? {
      expired' := expired + [key];
    } else if changed {
      updated' := updated + [m];
    }
  }

  // The markers of the first n keys.
  function Visited(keys: seq<string>, cache: map<string, Marker>, n: nat): set<Marker>
    requires n <= |keys| && forall k :: k in keys ==> k in cache
  {
    set j | 0 <= j < n :: cache[keys[j]]
  }

  lemma VisitedNext(keys: seq<string>, cache: map<string, Marker>, n: nat)
    requires n < |keys| && forall k :: k in keys ==> k in cache
    ensures Visited(keys, cache, n + 1) == Visited(keys, cache, n) + {cache[keys[n]]}
  {
  }

  lemma VisitedAll(keys: seq<string>, cache: map<string, Marker>)
    requires forall k :: k in keys <==> k in cache
    ensures forall m :: m in cache.Values ==> m in Visited(keys, cache, |keys|)
  {
    forall m | m in cache.Values
      ensures m in Visited(keys, cache, |keys|)
    {
      var k :| k in cache && cache[k] == m;
      assert k in keys;
    }
  }

  // A refresh that has dealt with the markers in `done` so far.
  predicate Halfway(cache: map<string, Marker>, was: map<Marker, real>, now: int, done: set<Marker>)
    reads cache.Values
  {
    forall m :: m in cache.Values ==>
      m in was && m.opacity == if m in done then NewOpacity(m.info, was[m], now) else was[m]
  }

  lemma {:induction false} ChangingAre(keys: seq<string>, cache: map<string, Marker>, was: map<Marker, real>, now: int,
                                       n: nat)
    requires n <= |keys| && forall k :: k in keys ==> k in cache && cache[k] in was
    ensures forall m :: m in Changing(keys, cache, was, now, n)
              <==> m in Visited(keys, cache, n) && Changes(m, was[m], now)
  {
    if n == 0 {
    } else {
      ChangingAre(keys, cache, was, now, n - 1);
      VisitedNext(keys, cache, n - 1);
    }
  }

  // When all keys have been visited, so have all markers.
  lemma RefreshDone(keys: seq<string>, cache: map<string, Marker>, was: map<Marker, real>, now: int)
    requires (forall k :: k in keys <==> k in cache) && Halfway(cache, was, now, Visited(keys, cache, |keys|))
    ensures forall m :: m in cache.Values ==> m in was && m.opacity == NewOpacity(m.info, was[m], now)
    ensures forall m :: m in cache.Values ==>
              (m in Changing(keys, cache, was, now, |keys|) <==> m.opacity != was[m])
  {
    VisitedAll(keys, cache);
    ChangingAre(keys, cache, was, now, |keys|);
  }

  /** Sets every marker's opacity for this moment and reports which markers changed, which
      have expired and which are due for retirement. */
  method RefreshMarkerColors(keys: seq<string>, cache: map<string, Marker>, now: int)
    returns (updated: seq<Marker>, expired: seq<string>, retired: seq<string>)
    requires forall k :: k in keys <==> k in cache
    modifies cache.Values
    ensures forall m: Marker :: m in cache.Values ==> m.opacity == NewOpacity(m.info, old(m.opacity), now)
    ensures forall m: Marker :: m in cache.Values ==> (m in updated <==> m.opacity != old(m.opacity))
    ensures updated == Changing(keys, cache, old(Opacities(cache)), now, |keys|)
    ensures expired == KeysWith(keys, cache, now, Expired, |keys|)
    ensures retired == KeysWith(keys, cache, now, Retired, |keys|)
  {
    updated, expired, retired := [], [], [];
    ghost var was := Opacities(cache);
    for i := 0 to |keys|
      invariant expired == KeysWith(keys, cache, now, Expired, i)
      invariant retired == KeysWith(keys, cache, now, Retired, i)
      invariant updated == Changing(keys, cache, was, now, i)
      invariant Halfway(cache, was, now, Visited(keys, cache, i))
    {
      var m := cache[keys[i]];
      assert m in cache.Values;
      ChangingAre(keys, cache, was, now, i);
      updated, expired, retired := ReportMarker(keys[i], m, now, updated, expired, retired);
      VisitedNext(keys, cache, i);
    }
    RefreshDone(keys, cache, was, now);
  }

  lemma {:induction false} KeysOfFate(keys: seq<string>, cache: map<string, Marker>, now: int, fate: Fate, n: nat)
    requires n <= |keys| && forall k :: k in keys ==> k in cache
    ensures forall k :: k in KeysWith(keys, cache, now, fate, n)
              <==> k in keys[..n] && FateOf(cache[k].info, now) == fate
  {
    if n == 0 {
    } else {
      KeysOfFate(keys, cache, now, fate, n - 1);
      assert keys[..n] == keys[..n - 1] + [keys[n - 1]];
    }
  }

  lemma {:induction false} KeysOfFateOnce(keys: seq<string>, cache: map<string, Marker>, now: int, fate: Fate, n: nat)
    requires n <= |keys| && NoRepeats(keys) && forall k :: k in keys ==> k in cache
    ensures NoRepeats(KeysWith(keys, cache, now, fate, n))
  {
    if n == 0 {
    } else {
      KeysOfFateOnce(keys, cache, now, fate, n - 1);
      KeysOfFate(keys, cache, now, fate, n - 1);
      assert keys[n - 1] !in keys[..n - 1];
    }
  }

  lemma {:induction false} ChangingShow(keys: seq<string>, cache: map<string, Marker>, was: map<Marker, real>,
                                        now: int, n: nat)
    requires n <= |keys| && forall k :: k in keys ==> k in cache && cache[k] in was
    ensures NoRepeats(Changing(keys, cache, was, now, n))
    ensures forall m :: m in Changing(keys, cache, was, now, n) ==> FateOf(m.info, now).Shows?
  {
    if n == 0 {
    } else {
      ChangingShow(keys, cache, was, now, n - 1);
    }
  }

  predicate AreOfFate(at: seq<nat>, keys: seq<string>, cache: map<string, Marker>, now: int, fate: Fate, n: nat)
    requires n <= |keys| && forall k :: k in keys ==> k in cache
  {
    forall i: nat :: i < n ==> (i in at <==> FateOf(cache[keys[i]].info, now) == fate)
  }

  // The list consists of the keys of this fate among the first n, which are those at these indices.
  predicate IsFateList(part: seq<string>, keys: seq<string>, cache: map<string, Marker>, now: int, fate: Fate, n: nat,
                       at: seq<nat>)
    requires n <= |keys| && forall k :: k in keys ==> k in cache
  {
    Picks(part, keys[..n], at) && AreOfFate(at, keys, cache, now, fate, n)
  }

  lemma OfFateNext(at: seq<nat>, keys: seq<string>, cache: map<string, Marker>, now: int, fate: Fate, n: nat)
    requires n < |keys| && (forall k :: k in keys ==> k in cache) && AreOfFate(at, keys, cache, now, fate, n)
    requires forall i :: i in at ==> i < n
    ensures AreOfFate(if FateOf(cache[keys[n]].info, now) == fate then at + [n] else at, keys, cache, now, fate, n + 1)
  {
  }

  lemma FateListNext(before: seq<string>, keys: seq<string>, cache: map<string, Marker>, now: int, fate: Fate, n: nat,
                     some: seq<nat>)
    returns (at: seq<nat>, part: seq<string>)
    requires 0 < n <= |keys| && forall k :: k in keys ==> k in cache
    requires IsFateList(before, keys, cache, now, fate, n - 1, some)
    ensures IsFateList(part, keys, cache, now, fate, n, at)
    ensures part == before + if FateOf(cache[keys[n - 1]].info, now) == fate then [keys[n - 1]] else []
  {
    assert keys[..n] == keys[..n - 1] + [keys[n - 1]];
    PickNext(before, keys[..n - 1], some, keys[n - 1]);
    OfFateNext(some, keys, cache, now, fate, n - 1);
    if FateOf(cache[keys[n - 1]].info, now) == fate {
      at, part := some + [n - 1], before + [keys[n - 1]];
    } else {
      assert before + [] == before;
      at, part := some, before;
    }
  }

  /** The keys of a fate are listed in the order of the keys, */
  lemma {:induction false} PickFate(keys: seq<string>, cache: map<string, Marker>, now: int, fate: Fate, n: nat)
      returns (at: seq<nat>)
    requires n <= |keys| && forall k :: k in keys ==> k in cache
    ensures IsFateList(KeysWith(keys, cache, now, fate, n), keys, cache, now, fate, n, at)
  {
    if n == 0 {
      at := [];
    } else {
      var some := PickFate(keys, cache, now, fate, n - 1);
      var part;
      at, part := FateListNext(KeysWith(keys, cache, now, fate, n - 1), keys, cache, now, fate, n, some);
    }
  }

  function MarkersOf(keys: seq<string>, cache: map<string, Marker>, n: nat): seq<Marker>
    requires n <= |keys| && forall k :: k in keys ==> k in cache
  {
    seq(n, i requires 0 <= i < n => cache[keys[i]])
  }

  // No key before the i-th has its marker.
  predicate FirstKey(keys: seq<string>, cache: map<string, Marker>, i: nat)
    requires i < |keys| && forall k :: k in keys ==> k in cache
  {
    forall j :: 0 <= j < i ==> cache[keys[j]] != cache[keys[i]]
  }

  lemma {:induction false} NewIsFirst(keys: seq<string>, cache: map<string, Marker>, was: map<Marker, real>, now: int,
                                      i: nat)
    requires i < |keys| && forall k :: k in keys ==> k in cache && cache[k] in was
    requires Changes(cache[keys[i]], was[cache[keys[i]]], now) && cache[keys[i]] !in Changing(keys, cache, was, now, i)
    ensures FirstKey(keys, cache, i)
  {
    ChangingAre(keys, cache, was, now, i);
    forall j | 0 <= j < i
      ensures cache[keys[j]] != cache[keys[i]]
    {
      assert cache[keys[j]] in Visited(keys, cache, i);
    }
  }

  /** and so are the changed markers, each at its first key. */
  lemma {:induction false} PickChanging(keys: seq<string>, cache: map<string, Marker>, was: map<Marker, real>,
                                        now: int, n: nat)
      returns (at: seq<nat>)
    requires n <= |keys| && forall k :: k in keys ==> k in cache && cache[k] in was
    ensures Picks(Changing(keys, cache, was, now, n), MarkersOf(keys, cache, n), at)
    ensures forall i :: i in at ==> i < n && FirstKey(keys, cache, i)
  {
    if n == 0 {
      at := [];
    } else {
      var some := PickChanging(keys, cache, was, now, n - 1);
      var m, before := cache[keys[n - 1]], Changing(keys, cache, was, now, n - 1);
      assert MarkersOf(keys, cache, n) == MarkersOf(keys, cache, n - 1) + [m];
      PickNext(before, MarkersOf(keys, cache, n - 1), some, m);
      if Changes(m, was[m], now) && m !in before {
        NewIsFirst(keys, cache, was, now, n - 1);
        at := some + [n - 1];
      } else {
        at := some;
      }
    }
  }

  /** The three result lists of one refresh: none repeats itself, and no marker is in two. */
  lemma {:induction false} ResultsExclude(keys: seq<string>, cache: map<string, Marker>, was: map<Marker, real>,
                                          now: int)
    requires NoRepeats(keys) && forall k :: k in keys ==> k in cache && cache[k] in was
    ensures var n := |keys|;
            var updated := Changing(keys, cache, was, now, n);
            var expired, retired := KeysWith(keys, cache, now, Expired, n), KeysWith(keys, cache, now, Retired, n);
            && NoRepeats(updated) && NoRepeats(expired) && NoRepeats(retired)
            && (forall k :: k in expired ==> k in cache && k !in retired && cache[k] !in updated)
            && (forall k :: k in retired ==> k in cache && k !in expired && cache[k] !in updated)
  {
    KeysOfFate(keys, cache, now, Expired, |keys|);
    KeysOfFate(keys, cache, now, Retired, |keys|);
    KeysOfFateOnce(keys, cache, now, Expired, |keys|);
    KeysOfFateOnce(keys, cache, now, Retired, |keys|);
    ChangingShow(keys, cache, was, now, |keys|);
    assert keys[..|keys|] == keys;
  }

  // ---- One marker as time goes by ----

  lemma FloorMonotone(x: real, y: real)
    requires x <= y
    ensures x.Floor <= y.Floor
  {
  }

  lemma RoundMonotone(x: real, y: real, n: nat)
    requires x <= y && (n == 20 || n == 100)
    ensures RoundTo(x, n) <= RoundTo(y, n)
  {
    FloorMonotone(x * (n as real) + 0.5, y * (n as real) + 0.5);
  }

  lemma ProductGrows(q: real, p: real, d: real)
    requires q < p && d > 0.0
    ensures q * d < p * d
  {
  }

  lemma QuotientMonotone(x: real, y: real, d: real)
    requires d > 0.0 && x <= y
    ensures x / d <= y / d
  {
    var p, q := x / d, y / d;
    assert p * d == x && q * d == y;
    if p > q {
      ProductGrows(q, p, d);
    }
  }

  lemma ProgressMonotone(from: real, to: real, a: real, b: real)
    requires from < to && a <= b
    ensures Progress(from, to, a) <= Progress(from, to, b)
    ensures from <= a ==> 0.0 <= Progress(from, to, a)
  {
    var d := to - from;
    QuotientMonotone(a - from, b - from, d);
    if from <= a {
      QuotientMonotone(0.0, a - from, d);
      assert 0.0 / d == 0.0;
    }
  }

  lemma WholeQuotient(d: real)
    requires d > 0.0
    ensures d / d == 1.0
  {
    var q := d / d;
    assert q * d == d;
    if q < 1.0 {
      ProductGrows(q, 1.0, d);
    } else if q > 1.0 {
      ProductGrows(1.0, q, d);
    }
  }

  lemma ProgressInRange(from: real, to: real, now: real)
    requires from < to && from <= now <= to
    ensures 0.0 <= Progress(from, to, now) <= 1.0
  {
    ProgressMonotone(from, to, from, now);
    ProgressMonotone(from, to, now, to);
    WholeQuotient(to - from);
  }

  function FadedTo(progress: real): real {
    RoundTo(Max(FADE_FLOOR, 1.0 - progress * 0.8), 20)
  }

  lemma FadedMonotone(p: real, q: real)
    requires 0.0 <= p <= q
    ensures FadedTo(q) <= FadedTo(p) <= 1.0
  {
    RoundMonotone(Max(FADE_FLOOR, 1.0 - q * 0.8), Max(FADE_FLOOR, 1.0 - p * 0.8), 20);
    RoundMonotone(Max(FADE_FLOOR, 1.0 - p * 0.8), 1.0, 20);
    assert RoundTo(1.0, 20) == 1.0;
  }

  lemma RetireFades(produced: int, retireAt: int, a: int, b: int)
    requires a <= b
    ensures RetireOpacity(produced, retireAt, b) <= RetireOpacity(produced, retireAt, a)
  {
    var span := (retireAt - produced) as real;
    var fadeStart, end := produced as real + span * 0.75, retireAt as real;
    if retireAt != 0 && span > 0.0 && b as real > fadeStart {
      var from := if a as real <= fadeStart then fadeStart else a as real;
      ProgressMonotone(fadeStart, end, from, b as real);
      FadedMonotone(Progress(fadeStart, end, from), Progress(fadeStart, end, b as real));
    }
  }

  lemma AgeInRange(start: int, stale: int, ageBased: bool, now: int)
    ensures 0.0 <= AgeOpacity(start, stale, ageBased, now) <= 1.0
  {
    var lifespan := stale - start;
    if lifespan > 0 && ageBased && start < now < stale {
      ProgressInRange(start as real, stale as real, now as real);
    } else if lifespan > 0 && !ageBased && stale <= now < stale + lifespan {
      ProgressInRange(stale as real, (stale + lifespan) as real, now as real);
    }
  }

  lemma AgeFades(start: int, stale: int, ageBased: bool, a: int, b: int)
    requires a <= b
    ensures AgeOpacity(start, stale, ageBased, b) <= AgeOpacity(start, stale, ageBased, a)
  {
    var lifespan := stale - start;
    AgeInRange(start, stale, ageBased, a);
    AgeInRange(start, stale, ageBased, b);
    if lifespan > 0 && ageBased && start < a {
      ProgressMonotone(start as real, stale as real, a as real, b as real);
    } else if lifespan > 0 && !ageBased && stale <= a {
      ProgressMonotone(stale as real, (stale + lifespan) as real, a as real, b as real);
    }
  }

  lemma RoundNearest(x: real, n: nat)
    requires n == 20 || n == 100
    ensures -0.5 / (n as real) <= RoundTo(x, n) - x <= 0.5 / (n as real)
  {
  }

  lemma ProgressIs(from: real, to: real, now: real, p: real)
    requires from < to && now - from == p * (to - from)
    ensures Progress(from, to, now) == p
  {
    var d := to - from;
    assert (p * d) / d == p;
  }

  /** A placed marker is solid for three quarters of its retention; */
  lemma SolidThreeQuarters(produced: int, retireAt: int, now: int)
    requires retireAt == 0 || (produced < retireAt && 4 * (now - produced) <= 3 * (retireAt - produced))
    ensures RetireOpacity(produced, retireAt, now) == 1.0
  {
  }

  lemma PositiveProduct(p: real, d: real)
    requires p > 0.0 && d > 0.0
    ensures p * d > 0.0
  {
  }

  /** over the last quarter it fades from 1 to 0.2 along a line, to the nearest twentieth; */
  lemma FadesLastQuarter(produced: int, retireAt: int, now: int, p: real)
    requires retireAt != 0 && produced < retireAt && 0.0 < p <= 1.0
    requires (now - produced) as real == (retireAt - produced) as real * (0.75 + 0.25 * p)
    ensures -0.025 <= RetireOpacity(produced, retireAt, now) - (1.0 - 0.8 * p) <= 0.025
  {
    var span := (retireAt - produced) as real;
    var fadeStart := produced as real + span * 0.75;
    assert span * (0.75 + 0.25 * p) == span * 0.75 + p * (span * 0.25);
    assert retireAt as real - fadeStart == span * 0.25;
    ProgressIs(fadeStart, retireAt as real, now as real, p);
    PositiveProduct(p, span * 0.25);
    RoundNearest(1.0 - p * 0.8, 20);
  }

  /** and from its retirement time on, or with no retention at all, it is at 0.2. */
  lemma FloorAtRetirement(produced: int, retireAt: int, now: int)
    requires retireAt != 0 && (retireAt <= produced || retireAt <= now)
    ensures RetireOpacity(produced, retireAt, now) == 0.2
  {
    if produced < retireAt {
      var span := (retireAt - produced) as real;
      var fadeStart := produced as real + span * 0.75;
      ProgressMonotone(fadeStart, retireAt as real, retireAt as real, now as real);
      WholeQuotient(retireAt as real - fadeStart);
    }
  }

  lemma ShareOfSpan(x: real, d: real, share: real)
    requires d > 0.0
    ensures x / d >= share <==> x >= share * d
  {
    var q := x / d;
    assert x == q * d;
    if q < share {
      ProductGrows(q, share, d);
    } else if q > share {
      ProductGrows(share, q, d);
    }
  }

  lemma ZeroShare(d: real)
    requires d > 0.0
    ensures 0.0 / d == 0.0
  {
  }

  lemma ShareInRange(x: real, d: real)
    requires 0.0 <= x < d
    ensures 0.0 <= x / d < 1.0
  {
    ShareOfSpan(x, d, 0.0);
    ShareOfSpan(x, d, 1.0);
  }

  lemma ProgressAsShare(from: int, to: int, now: int)
    requires from <= now < to
    ensures Progress(from as real, to as real, now as real) == ((now - from) as real) / ((to - from) as real)
  {
    assert (now - from) as real == now as real - from as real;
    assert (to - from) as real == to as real - from as real;
  }

  /** Incident markers fade along a line over their lifespan, others over as long once stale. */
  lemma AgeLine(start: int, stale: int, ageBased: bool, now: int)
    requires 0 <= now - (if ageBased then start else stale) < stale - start
    ensures AgeOpacity(start, stale, ageBased, now)
         == 1.0 - ((now - (if ageBased then start else stale)) as real) / ((stale - start) as real)
  {
    var from := if ageBased then start else stale;
    ProgressAsShare(from, from + (stale - start), now);
    ShareInRange((now - from) as real, (stale - start) as real);
    ZeroShare((stale - start) as real);
  }

  /** Before that they are solid, and after it gone. */
  lemma AgeEnds(start: int, stale: int, ageBased: bool, now: int)
    requires start < stale
    ensures now <= (if ageBased then start else stale - 1) ==> AgeOpacity(start, stale, ageBased, now) == 1.0
    ensures now >= (if ageBased then stale else 2 * stale - start) ==> AgeOpacity(start, stale, ageBased, now) == 0.0
  {
  }

  /** With no lifespan an incident marker never fades, and any other is gone once stale. */
  lemma AgeWithoutSpan(start: int, stale: int, now: int)
    requires stale <= start
    ensures AgeOpacity(start, stale, true, now) == 1.0
    ensures AgeOpacity(start, stale, false, now) == if now < stale then 1.0 else 0.0
  {
  }

  lemma LineLow(x: real, d: real, opacity: real)
    requires 0.0 <= x < d && opacity == 1.0 - x / d
    ensures opacity <= 0.05 <==> 20.0 * x >= 19.0 * d
  {
    ShareOfSpan(x, d, 0.95);
  }

  lemma AgeLow(start: int, stale: int, ageBased: bool, now: int)
    requires start < stale
    ensures AgeOpacity(start, stale, ageBased, now) <= 0.05
       <==> 20 * (now - (if ageBased then start else stale)) >= 19 * (stale - start)
  {
    var x, d := now - (if ageBased then start else stale), stale - start;
    if x < 0 || x >= d {
      AgeEnds(start, stale, ageBased, now);
    } else {
      AgeLine(start, stale, ageBased, now);
      LineLow(x as real, d as real, AgeOpacity(start, stale, ageBased, now));
    }
  }

  /** So such a marker expires exactly when 19 twentieths of its fading time are over. */
  lemma ExpiresAt(m: Info, now: int)
    requires !m.managed && m.stale != 0 && m.start != 0 && m.start < m.stale
    ensures var from := if m.ageBased then m.start else m.stale;
            FateOf(m, now) == Expired <==> 20 * (now - from) >= 19 * (m.stale - m.start)
  {
    AgeLow(m.start, m.stale, m.ageBased, now);
  }

  /** What the marker would show at a time, whatever its fate then; also what it shows when
      it is created. */
  function Shown(m: Info, now: int): real {
    RoundTo(if m.managed then RetireOpacity(m.produced, m.retireAt, now)
            else AgeOpacity(m.start, m.stale, m.ageBased, now), 100)
  }

  lemma ShownFades(m: Info, a: int, b: int)
    requires a <= b
    ensures Shown(m, b) <= Shown(m, a)
  {
    if m.managed {
      RetireFades(m.produced, m.retireAt, a, b);
      RoundMonotone(RetireOpacity(m.produced, m.retireAt, b), RetireOpacity(m.produced, m.retireAt, a), 100);
    } else {
      AgeFades(m.start, m.stale, m.ageBased, a, b);
      RoundMonotone(AgeOpacity(m.start, m.stale, m.ageBased, b), AgeOpacity(m.start, m.stale, m.ageBased, a), 100);
    }
  }

  /** A refresh leaves alone exactly the unmanaged markers that lack a start or a stale time. */
  lemma UntouchedIff(m: Info, now: int, opacity: real)
    ensures FateOf(m, now) == Untouched <==> !m.managed && (m.stale == 0 || m.start == 0)
    ensures !m.managed && (m.stale == 0 || m.start == 0) ==> NewOpacity(m, opacity, now) == opacity
  {
  }

  /** Retirement and expiry are final: later refreshes give the same fate. */
  lemma FateIsFinal(m: Info, a: int, b: int)
    requires a <= b
    ensures FateOf(m, a).Retired? ==> FateOf(m, b).Retired?
    ensures FateOf(m, a).Expired? ==> FateOf(m, b).Expired?
  {
    AgeFades(m.start, m.stale, m.ageBased, a, b);
  }

  // ---- The grid of opacities ----

  // Opacities move in steps of 1/20 for managed markers, 1/100 for others.
  function Highest(m: Info): nat {
    if m.managed then 20 else 100
  }

  function OfLevel(m: Info, level: int): real {
    if m.managed then (level as real) / 20.0 else (level as real) / 100.0
  }

  function Lowest(m: Info): nat {
    if m.managed then 4 else 5
  }

  function Level(m: Info, opacity: real): int {
    if m.managed then (opacity * 20.0).Floor else (opacity * 100.0).Floor
  }

  lemma RetireOnGrid(produced: int, retireAt: int, now: int)
    ensures var o := RetireOpacity(produced, retireAt, now);
            4 <= (o * 20.0).Floor <= 20 && o == ((o * 20.0).Floor as real) / 20.0
  {
  }

  lemma HundredthsOnGrid(x: real)
    requires x <= 1.0
    ensures var r := RoundTo(x, 100);
            r == ((r * 100.0).Floor as real) / 100.0 && (r * 100.0).Floor <= 100
            && (x > 0.05 ==> 5 <= (r * 100.0).Floor)
  {
  }

  lemma TwentiethsStay(k: int)
    ensures RoundTo((k as real) / 20.0, 100) == (k as real) / 20.0
  {
    assert ((k as real) / 20.0 * 100.0 + 0.5).Floor == 5 * k;
  }

  /** What a marker shows lies on its grid, between its lowest opacity and 1. */
  lemma ShownOnGrid(m: Info, now: int)
    ensures Shown(m, now) == OfLevel(m, Level(m, Shown(m, now)))
    ensures Level(m, Shown(m, now)) <= Highest(m)
    ensures FateOf(m, now).Shows? || m.managed ==> Lowest(m) <= Level(m, Shown(m, now))
  {
    if m.managed {
      RetireOnGrid(m.produced, m.retireAt, now);
      TwentiethsStay((RetireOpacity(m.produced, m.retireAt, now) * 20.0).Floor);
    } else {
      AgeInRange(m.start, m.stale, m.ageBased, now);
      HundredthsOnGrid(AgeOpacity(m.start, m.stale, m.ageBased, now));
    }
  }

  // ---- Runs of the refresh timer ----

  function InMs(t: int): real {
    t as real
  }

  function OpacityAfter(m: Info, opacity: real, times: seq<int>): real
    decreases |times|
  {
    if times == [] then opacity else OpacityAfter(m, NewOpacity(m, opacity, times[0]), times[1..])
  }

  // How often the marker is reported as updated.
  function Updates(m: Info, opacity: real, times: seq<int>): nat
    decreases |times|
  {
    if times == [] then 0
    else (if NewOpacity(m, opacity, times[0]) != opacity then 1 else 0)
         + Updates(m, NewOpacity(m, opacity, times[0]), times[1..])
  }

  // How many grid steps an opacity can still go down.
  function Room(m: Info, opacity: real): nat {
    if Level(m, opacity) <= Lowest(m) then 0 else Level(m, opacity) - Lowest(m)
  }

  lemma ShowsWhatIsShown(m: Info, opacity: real, now: int)
    ensures NewOpacity(m, opacity, now) == if FateOf(m, now).Shows? then Shown(m, now) else opacity
  {
  }

  lemma StepDown(m: Info, a: int, b: int)
    requires a <= b && FateOf(m, b).Shows?
    ensures Shown(m, b) != Shown(m, a) ==> Room(m, Shown(m, b)) < Room(m, Shown(m, a))
  {
    ShownFades(m, a, b);
    ShownOnGrid(m, a);
    ShownOnGrid(m, b);
  }

  /** A marker created at t0: whatever refreshes follow, its opacity never rises, and it is
      reported as updated no more often than it has grid steps to go. */
  lemma {:induction false} FadeOnly(m: Info, t0: int, times: seq<int>)
    requires Forward(t0 as real, times, InMs)
    ensures OpacityAfter(m, Shown(m, t0), times) <= Shown(m, t0)
    ensures Updates(m, Shown(m, t0), times) <= Room(m, Shown(m, t0))
    decreases |times|
  {
    if times == [] {
    } else {
      var t1, o0 := times[0], Shown(m, t0);
      ShowsWhatIsShown(m, o0, t1);
      if FateOf(m, t1).Shows? {
        ShownFades(m, t0, t1);
        StepDown(m, t0, t1);
        FadeOnly(m, t1, times[1..]);
      } else {
        assert Forward(t0 as real, times[1..], InMs);
        FadeOnly(m, t0, times[1..]);
      }
    }
  }

  /** A managed marker is reported at most 16 times, any other at most 95 times. */
  lemma {:induction false} FewUpdates(m: Info, t0: int, times: seq<int>)
    requires Forward(t0 as real, times, InMs)
    ensures Updates(m, Shown(m, t0), times) <= if m.managed then 16 else 95
  {
    FadeOnly(m, t0, times);
    ShownOnGrid(m, t0);
  }

  /** From its retirement time on a managed marker is only ever reported as retired. */
  lemma {:induction false} RetiredOnly(m: Info, t0: int, times: seq<int>, opacity: real, i: nat)
    requires m.managed && m.retireAt != 0 && m.retireAt <= t0 && Forward(t0 as real, times, InMs) && i < |times|
    ensures FateOf(m, times[i]) == Retired
    ensures OpacityAfter(m, opacity, times) == opacity && Updates(m, opacity, times) == 0
    decreases |times|
  {
    assert FateOf(m, times[0]) == Retired;
    if |times| == 1 {
    } else {
      RetiredOnly(m, times[0], times[1..], opacity, if i == 0 then 0 else i - 1);
    }
  }

  /** What is shown is the opacity of the moment, exactly or to the nearest hundredth. */
  lemma {:induction false} ShownIsNear(m: Info, now: int)
    requires FateOf(m, now).Shows?
    ensures var shown := FateOf(m, now).opacity;
            if m.managed then shown == RetireOpacity(m.produced, m.retireAt, now)
            else -0.005 <= shown - AgeOpacity(m.start, m.stale, m.ageBased, now) <= 0.005
  {
    if m.managed {
      RetireOnGrid(m.produced, m.retireAt, now);
      TwentiethsStay((RetireOpacity(m.produced, m.retireAt, now) * 20.0).Floor);
    } else {
      RoundNearest(AgeOpacity(m.start, m.stale, m.ageBased, now), 100);
    }
  }
}
