/** The incident tracker's sliding-window deduplicator, over whole runs. */
module Dedup {
  import opened Clocks

  import opened Titles

  datatype RawIncident = RawIncident(sourceId: string, title: string)

  // What is remembered of a title: its words, and when it was first seen.
  datatype Entry = Entry(words: set<string>, first: real)

  datatype Seen = Seen(ids: map<string, real>, titles: map<string, Entry>)

  datatype Verdict = Verdict(duplicate: bool, seen: Seen)

  function Pruned(s: Seen, now: real, window: real): Seen {
    Seen(map k | k in s.ids && s.ids[k] > now - window :: s.ids[k],
         map t | t in s.titles && s.titles[t].first > now - window :: s.titles[t])
  }

  predicate HasSimilar(titles: map<string, Entry>, words: set<string>, threshold: real) {
    exists t :: t in titles && Jaccard(words, titles[t].words) >= threshold
  }

  /** Source id first, then title.  The id is recorded even if the title then turns out to be
      a duplicate; a repeated id does not refresh its time. */
  function Checked(s: Seen, inc: RawIncident, now: real, threshold: real): Verdict {
    if inc.sourceId != "" && inc.sourceId in s.ids then Verdict(true, s)
    else
      var ids := if inc.sourceId != "" then s.ids[inc.sourceId := now] else s.ids;
      var title := Normalize(inc.title);
      var words := WordSet(title);
      if title == "" then Verdict(false, Seen(ids, s.titles))
      else if HasSimilar(s.titles, words, threshold) then Verdict(true, Seen(ids, s.titles))
      else Verdict(false, Seen(ids, s.titles[title := Entry(words, now)]))
  }

  datatype Filtered = Filtered(unique: seq<RawIncident>, seen: Seen)

  /** The first n incidents of one `filter` call; the clock is read anew for each. */
  function CheckedAll(s: Seen, incidents: seq<RawIncident>, times: seq<real>, threshold: real, n: nat): Filtered
    requires n <= |times| == |incidents|
  {
    if n == 0 then Filtered([], s)
    else
      var f := CheckedAll(s, incidents, times, threshold, n - 1);
      var v := Checked(f.seen, incidents[n - 1], times[n - 1], threshold);
      Filtered(f.unique + if v.duplicate then [] else [incidents[n - 1]], v.seen)
  }

  class Deduplicator {
    const windowSeconds: real
    const threshold: real
    var idSeen: map<string, real>
    var titleSeen: map<string, Entry>

    constructor (windowHours: int, similarityThreshold: real)
      ensures State() == Seen(map[], map[])
      ensures windowSeconds == (windowHours * 3600) as real && threshold == similarityThreshold
    {
      windowSeconds := (windowHours * 3600) as real;
      threshold := similarityThreshold;
      idSeen, titleSeen := map[], map[];
    }

    function State(): Seen
      reads this
    {
      Seen(idSeen, titleSeen)
    }

    method Prune(now: real)
      modifies this
      ensures State() == Pruned(old(State()), now, windowSeconds)
    {
      var cutoff := now - windowSeconds;
      idSeen := map k | k in idSeen && idSeen[k] > cutoff :: idSeen[k];
      titleSeen := map t | t in titleSeen && titleSeen[t].first > cutoff :: titleSeen[t];
    }

    method IsDuplicate(incident: RawIncident, now: real) returns (duplicate: bool)
      modifies this
      ensures Verdict(duplicate, State()) == Checked(old(State()), incident, now, threshold)
    {
      if incident.sourceId != "" {
        if incident.sourceId in idSeen {
          return true;
        }
        idSeen := idSeen[incident.sourceId := now];
      }
      var title := Normalize(incident.title);
      if title == "" {
        return false;
      }
      var words := WordSet(title);
      var unseen := titleSeen.Keys;
      while unseen != {}
        invariant unseen <= titleSeen.Keys
        invariant forall t :: t in titleSeen && t !in unseen ==> !(Jaccard(words, titleSeen[t].words) >= threshold)
        decreases unseen
      {
        var t :| t in unseen;
        if Jaccard(words, titleSeen[t].words) >= threshold {
          return true;
        }
        unseen := unseen - {t};
      }
      titleSeen := titleSeen[title := Entry(words, now)];
      return false;
    }

    method Filter(incidents: seq<RawIncident>, pruneTime: real, times: seq<real>) returns (unique: seq<RawIncident>)
      requires |times| == |incidents|
      modifies this
      ensures var pruned := Pruned(old(State()), pruneTime, windowSeconds);
              Filtered(unique, State()) == CheckedAll(pruned, incidents, times, threshold, |incidents|)
    {
      Prune(pruneTime);
      unique := [];
      ghost var pruned := State();
      for i := 0 to |incidents|
        invariant Filtered(unique, State()) == CheckedAll(pruned, incidents, times, threshold, i)
      {
        var duplicate := IsDuplicate(incidents[i], times[i]);
        if !duplicate {
          unique := unique + [incidents[i]];
        }
      }
    }
  }

  // ---- Whole runs ----

  datatype Action = Prune(now: real) | Check(inc: RawIncident, now: real)

  // An incident that was not a duplicate, and when it was let through.
  datatype Emission = Emission(inc: RawIncident, time: real)

  // A source id that was checked, and when.
  datatype Hearing = Hearing(id: string, time: real)

  /** What is remembered, the clock, the last prune, and everything let through and heard. */
  datatype Run = Run(seen: Seen, clock: real, pruned: real, log: seq<Emission>, heard: set<Hearing>)

  datatype Config = Config(window: real, threshold: real)

  function Start(clock: real): Run {
    Run(Seen(map[], map[]), clock, clock, [], {})
  }

  function Act(r: Run, a: Action, c: Config): Run {
    match a
    case Prune(now) => r.(seen := Pruned(r.seen, now, c.window), clock := now, pruned := now)
    case Check(inc, now) =>
      var v := Checked(r.seen, inc, now, c.threshold);
      Run(v.seen, now, r.pruned, r.log + if v.duplicate then [] else [Emission(inc, now)],
          r.heard + {Hearing(inc.sourceId, now)})
  }

  function Title(e: Emission): string {
    Normalize(e.inc.title)
  }

  predicate Similar(a: string, b: string, threshold: real) {
    Jaccard(WordSet(a), WordSet(b)) >= threshold
  }

  /** Two emissions of one source id lie at least a window apart. */
  predicate IdsApart(log: seq<Emission>, window: real) {
    forall i, j :: 0 <= i < j < |log| && log[i].inc.sourceId == log[j].inc.sourceId != ""
      ==> log[j].time >= log[i].time + window
  }

  /** Two emissions with titles less than a window apart are not similar. */
  predicate TitlesApart(log: seq<Emission>, c: Config) {
    forall i, j :: 0 <= i < j < |log| && Title(log[i]) != "" && Title(log[j]) != ""
      && Similar(Title(log[j]), Title(log[i]), c.threshold)
      ==> log[j].time >= log[i].time + c.window
  }

  // An emission still inside the window is remembered, by id and by title.
  predicate Remembered(s: Seen, e: Emission, clock: real, window: real) {
    && e.time <= clock
    && (clock < e.time + window ==>
      && (e.inc.sourceId != "" ==> e.inc.sourceId in s.ids && s.ids[e.inc.sourceId] >= e.time)
      && (Title(e) != "" ==> Title(e) in s.titles && s.titles[Title(e)].first >= e.time))
  }

  predicate AllRemembered(r: Run, window: real) {
    forall e :: e in r.log ==> Remembered(r.seen, e, r.clock, window)
  }

  /** Less than a window before the last prune, or since. */
  predicate Lately(time: real, pruned: real, window: real) {
    time >= pruned || time > pruned - window
  }

  predicate LetThrough(log: seq<Emission>, title: string, time: real) {
    exists e :: e in log && Title(e) == title && e.time == time
  }

  // The ids remembered were heard lately.
  predicate IdsSourced(r: Run, window: real) {
    forall k :: k in r.seen.ids ==>
      Hearing(k, r.seen.ids[k]) in r.heard && Lately(r.seen.ids[k], r.pruned, window)
  }

  // The titles remembered were let through lately.
  predicate TitlesSourced(r: Run, window: real) {
    forall t :: t in r.seen.titles ==>
      && t != "" && r.seen.titles[t].words == WordSet(t)
      && LetThrough(r.log, t, r.seen.titles[t].first) && Lately(r.seen.titles[t].first, r.pruned, window)
  }

  predicate Sourced(r: Run, window: real) {
    r.pruned <= r.clock && IdsSourced(r, window) && TitlesSourced(r, window)
  }

  /** The titles held are pairwise dissimilar. */
  predicate HeldApart(titles: map<string, Entry>, threshold: real) {
    forall a, b :: a in titles && b in titles && a != b ==> !Similar(a, b, threshold)
  }

  predicate Inv(r: Run, c: Config) {
    && IdsApart(r.log, c.window) && TitlesApart(r.log, c)
    && AllRemembered(r, c.window) && Sourced(r, c.window) && HeldApart(r.seen.titles, c.threshold)
  }

  lemma {:induction false} PruneSourced(r: Run, now: real, c: Config)
    requires Sourced(r, c.window) && r.clock <= now
    ensures Sourced(Act(r, Prune(now), c), c.window)
  {
    var r' := Act(r, Prune(now), c);
    forall t | t in r'.seen.titles
      ensures LetThrough(r'.log, t, r'.seen.titles[t].first) && t != "" && r'.seen.titles[t].words == WordSet(t)
    {
      assert t in r.seen.titles;
    }
  }

  lemma {:induction false} PruneRemembers(r: Run, now: real, c: Config)
    requires AllRemembered(r, c.window) && r.clock <= now
    ensures AllRemembered(Act(r, Prune(now), c), c.window)
  {
    var r' := Act(r, Prune(now), c);
    forall e | e in r'.log
      ensures Remembered(r'.seen, e, now, c.window)
    {
      assert Remembered(r.seen, e, r.clock, c.window);
    }
  }

  lemma {:induction false} PruneInv(r: Run, now: real, c: Config)
    requires Inv(r, c) && r.clock <= now
    ensures Inv(Act(r, Prune(now), c), c)
  {
    PruneSourced(r, now, c);
    PruneRemembers(r, now, c);
  }

  // The titles after a check: unchanged, or one more that none of them is similar to.
  lemma {:induction false} CheckHeldApart(s: Seen, inc: RawIncident, now: real, threshold: real)
    requires HeldApart(s.titles, threshold)
    requires forall t :: t in s.titles ==> s.titles[t].words == WordSet(t)
    ensures HeldApart(Checked(s, inc, now, threshold).seen.titles, threshold)
  {
    var title := Normalize(inc.title);
    forall t
      ensures Similar(title, t, threshold) == Similar(t, title, threshold)
    {
      JaccardSymmetric(WordSet(title), WordSet(t));
    }
  }

  lemma {:induction false} CheckRemembers(r: Run, inc: RawIncident, now: real, c: Config)
    requires AllRemembered(r, c.window) && r.clock <= now
    ensures AllRemembered(Act(r, Check(inc, now), c), c.window)
  {
    var r' := Act(r, Check(inc, now), c);
    forall e | e in r'.log
      ensures Remembered(r'.seen, e, now, c.window)
    {
      if e in r.log {
        assert Remembered(r.seen, e, r.clock, c.window);
      }
    }
  }

  lemma LetThroughStays(log: seq<Emission>, more: seq<Emission>, title: string, time: real)
    requires LetThrough(log, title, time)
    ensures LetThrough(log + more, title, time)
  {
    var e :| e in log && Title(e) == title && e.time == time;
    assert e in log + more;
  }

  // A check leaves the titles alone, or remembers the title it lets through.
  lemma {:induction false} CheckedTitles(s: Seen, inc: RawIncident, now: real, threshold: real)
    ensures var v, title := Checked(s, inc, now, threshold), Normalize(inc.title);
            || v.seen.titles == s.titles
            || (!v.duplicate && title != "" && v.seen.titles == s.titles[title := Entry(WordSet(title), now)])
  {
  }

  lemma {:induction false} CheckSourcesTitles(r: Run, inc: RawIncident, now: real, c: Config)
    requires Sourced(r, c.window) && r.clock <= now
    ensures TitlesSourced(Act(r, Check(inc, now), c), c.window)
  {
    var r', v := Act(r, Check(inc, now), c), Checked(r.seen, inc, now, c.threshold);
    var more := if v.duplicate then [] else [Emission(inc, now)];
    CheckedTitles(r.seen, inc, now, c.threshold);
    forall t | t in r'.seen.titles
      ensures LetThrough(r'.log, t, r'.seen.titles[t].first)
    {
      if t in r.seen.titles && r'.seen.titles[t] == r.seen.titles[t] {
        LetThroughStays(r.log, more, t, r.seen.titles[t].first);
      } else {
        assert Emission(inc, now) in r'.log;
      }
    }
  }

  lemma {:induction false} CheckSourced(r: Run, inc: RawIncident, now: real, c: Config)
    requires Sourced(r, c.window) && r.clock <= now
    ensures Sourced(Act(r, Check(inc, now), c), c.window)
  {
    CheckSourcesTitles(r, inc, now, c);
  }

  lemma {:induction false} CheckKeepsApart(r: Run, inc: RawIncident, now: real, c: Config)
    requires Inv(r, c) && r.clock <= now
    ensures IdsApart(Act(r, Check(inc, now), c).log, c.window)
    ensures TitlesApart(Act(r, Check(inc, now), c).log, c)
  {
    var n, log := |r.log|, Act(r, Check(inc, now), c).log;
    if |log| > n {
      forall i | 0 <= i < n
        ensures log[i].inc.sourceId == inc.sourceId != "" ==> now >= log[i].time + c.window
        ensures Title(log[i]) != "" && Title(log[n]) != "" && Similar(Title(log[n]), Title(log[i]), c.threshold)
            ==> now >= log[i].time + c.window
      {
        assert r.log[i] in r.log;
        assert Remembered(r.seen, r.log[i], r.clock, c.window);
      }
    }
  }

  lemma {:induction false} ActInv(r: Run, a: Action, c: Config)
    requires Inv(r, c) && r.clock <= a.now
    ensures Inv(Act(r, a, c), c)
  {
    match a
    case Prune(now) => PruneInv(r, now, c);
    case Check(inc, now) =>
      CheckHeldApart(r.seen, inc, now, c.threshold);
      CheckRemembers(r, inc, now, c);
      CheckSourced(r, inc, now, c);
      CheckKeepsApart(r, inc, now, c);
  }

  function Time(a: Action): real {
    a.now
  }

  function After(r: Run, actions: seq<Action>, c: Config): Run
    decreases |actions|
  {
    if actions == [] then r else After(Act(r, actions[0], c), actions[1..], c)
  }

  lemma {:induction false} AfterOneMore(r: Run, actions: seq<Action>, a: Action, c: Config)
    ensures After(r, actions + [a], c) == Act(After(r, actions, c), a, c)
    decreases |actions|
  {
    if actions == [] {
      assert [] + [a] == [a] && [a][1..] == [];
    } else {
      assert (actions + [a])[1..] == actions[1..] + [a];
      AfterOneMore(Act(r, actions[0], c), actions[1..], a, c);
    }
  }

  // One call of `filter`: a prune and then a check of each incident.
  function FilterActions(pruneTime: real, incidents: seq<RawIncident>, times: seq<real>, n: nat): seq<Action>
    requires n <= |times| == |incidents|
  {
    if n == 0 then [Prune(pruneTime)]
    else FilterActions(pruneTime, incidents, times, n - 1) + [Check(incidents[n - 1], times[n - 1])]
  }

  function LetThroughBy(log: seq<Emission>): seq<RawIncident> {
    seq(|log|, i requires 0 <= i < |log| => log[i].inc)
  }

  /** The run from r to t is what a call of `filter` did: same memory, and let through in the
      order of its result. */
  predicate Mirrors(r: Run, t: Run, f: Filtered) {
    t.seen == f.seen && LetThroughBy(t.log) == LetThroughBy(r.log) + f.unique
  }

  lemma CheckMirrors(r: Run, t: Run, f: Filtered, inc: RawIncident, now: real, c: Config)
    requires Mirrors(r, t, f)
    ensures var v := Checked(f.seen, inc, now, c.threshold);
            Mirrors(r, Act(t, Check(inc, now), c), Filtered(f.unique + if v.duplicate then [] else [inc], v.seen))
  {
    var t' := Act(t, Check(inc, now), c);
    if Checked(f.seen, inc, now, c.threshold).duplicate {
      assert t'.log == t.log && f.unique + [] == f.unique;
    } else {
      assert LetThroughBy(t'.log) == LetThroughBy(t.log) + [inc];
      assert LetThroughBy(r.log) + f.unique + [inc] == LetThroughBy(r.log) + (f.unique + [inc]);
    }
  }

  /** A call of `filter` is a run: of a prune and then a check of every incident. */
  lemma {:induction false} FilterIsRun(r: Run, pruneTime: real, incidents: seq<RawIncident>, times: seq<real>,
                                       c: Config, n: nat)
    requires n <= |times| == |incidents|
    ensures Mirrors(r, After(r, FilterActions(pruneTime, incidents, times, n), c),
                    CheckedAll(Pruned(r.seen, pruneTime, c.window), incidents, times, c.threshold, n))
  {
    var pruned := Pruned(r.seen, pruneTime, c.window);
    if n == 0 {
      var t := Act(r, Prune(pruneTime), c);
      assert [Prune(pruneTime)][1..] == [];
      assert After(r, [Prune(pruneTime)], c) == After(t, [], c) == t;
      assert LetThroughBy(r.log) + [] == LetThroughBy(r.log);
    } else {
      FilterIsRun(r, pruneTime, incidents, times, c, n - 1);
      var before, inc, now := FilterActions(pruneTime, incidents, times, n - 1), incidents[n - 1], times[n - 1];
      AfterOneMore(r, before, Check(inc, now), c);
      CheckMirrors(r, After(r, before, c), CheckedAll(pruned, incidents, times, c.threshold, n - 1), inc, now, c);
    }
  }

  lemma {:induction false} RunInv(r: Run, actions: seq<Action>, c: Config)
    requires Inv(r, c) && Forward(r.clock, actions, Time)
    ensures Inv(After(r, actions, c), c)
    decreases |actions|
  {
    if actions == [] {
    } else {
      ActInv(r, actions[0], c);
      RunInv(Act(r, actions[0], c), actions[1..], c);
    }
  }

  /** In every run with a nondecreasing clock, emissions of one source id are a window apart,
      so are emissions with similar titles, and the titles held are pairwise dissimilar. */
  lemma {:induction false} NoDuplicatesInWindow(clock: real, actions: seq<Action>, c: Config)
    requires Forward(clock, actions, Time)
    ensures var r := After(Start(clock), actions, c);
            IdsApart(r.log, c.window) && TitlesApart(r.log, c) && HeldApart(r.seen.titles, c.threshold)
  {
    RunInv(Start(clock), actions, c);
  }

  /** With a threshold of at most 1, the same title is not let through twice in a window. */
  lemma {:induction false} SameTitleApart(clock: real, actions: seq<Action>, c: Config, i: nat, j: nat)
    requires Forward(clock, actions, Time) && c.threshold <= 1.0
    requires var log := After(Start(clock), actions, c).log;
             i < j < |log| && Title(log[i]) == Title(log[j]) != ""
    ensures var log := After(Start(clock), actions, c).log;
            log[j].time >= log[i].time + c.window
  {
    NoDuplicatesInWindow(clock, actions, c);
    NonBlankTitleHasWords(After(Start(clock), actions, c).log[i].inc.title);
  }

  /** Conversely, only duplicates are dropped: of a source id heard lately, or of a title
      similar to one let through lately. */
  lemma {:induction false} OnlyDuplicatesDropped(clock: real, actions: seq<Action>, c: Config,
                                                 inc: RawIncident, now: real)
    requires Forward(clock, actions, Time)
    ensures var r := After(Start(clock), actions, c);
            Checked(r.seen, inc, now, c.threshold).duplicate ==>
              || (inc.sourceId != ""
                  && exists h :: h in r.heard && h.id == inc.sourceId && Lately(h.time, r.pruned, c.window))
              || exists e :: e in r.log && Similar(Normalize(inc.title), Title(e), c.threshold)
                             && Lately(e.time, r.pruned, c.window)
  {
    RunInv(Start(clock), actions, c);
    var r := After(Start(clock), actions, c);
    var title := Normalize(inc.title);
    if inc.sourceId in r.seen.ids {
      assert Hearing(inc.sourceId, r.seen.ids[inc.sourceId]) in r.heard;
    } else if HasSimilar(r.seen.titles, WordSet(title), c.threshold) {
      var t :| t in r.seen.titles && Jaccard(WordSet(title), r.seen.titles[t].words) >= c.threshold;
      var e :| e in r.log && Title(e) == t && e.time == r.seen.titles[t].first;
      assert Similar(title, Title(e), c.threshold);
    }
  }

  lemma {:induction false} ClockAdvances(r: Run, actions: seq<Action>, c: Config)
    requires Forward(r.clock, actions, Time)
    ensures r.clock <= After(r, actions, c).clock
    decreases |actions|
  {
    if actions == [] {
    } else {
      ClockAdvances(Act(r, actions[0], c), actions[1..], c);
    }
  }

  // An id is held, with the time of its first hearing, until it is a window old.
  lemma {:induction false} IdHeld(r: Run, actions: seq<Action>, id: string, c: Config)
    requires id in r.seen.ids && Forward(r.clock, actions, Time)
    requires After(r, actions, c).clock < r.seen.ids[id] + c.window
    ensures var ids := After(r, actions, c).seen.ids; id in ids && ids[id] == r.seen.ids[id]
    decreases |actions|
  {
    if actions == [] {
    } else {
      var t := Act(r, actions[0], c);
      ClockAdvances(t, actions[1..], c);
      assert id in t.seen.ids && t.seen.ids[id] == r.seen.ids[id];
      IdHeld(t, actions[1..], id, c);
    }
  }

  /** Within a window of the check that first recorded a source id, whatever that check's
      verdict and whatever came between, every incident with that id is a duplicate. */
  lemma {:induction false} IdHeardAgain(r: Run, inc: RawIncident, first: real, between: seq<Action>,
                                        again: RawIncident, now: real, c: Config)
    requires inc.sourceId == again.sourceId != "" && inc.sourceId !in r.seen.ids
    requires Forward(first, between, Time)
    requires After(Act(r, Check(inc, first), c), between, c).clock <= now < first + c.window
    ensures var held := After(Act(r, Check(inc, first), c), between, c).seen;
            Checked(held, again, now, c.threshold) == Verdict(true, held)
  {
    IdHeld(Act(r, Check(inc, first), c), between, inc.sourceId, c);
  }
}
