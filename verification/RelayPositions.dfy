/** The mesh relay's position re-emission and its seeding of fixed positions, over whole runs.

    Clocks are exact reals; the seed pass reads its clock in whole seconds. */
module RelayPositions {
  import opened Clocks
  import opened Options
  import opened Sequences

  type NodeId = string

  datatype Fix = Fix(lat: real, lon: real)

  // What the relay remembers of the last position it emitted: where, and the time stamp it gave it.
  datatype Last = Last(fix: Fix, stamp: real)

  const QUEUE_MAX := 100

  /** When an unchanged position is worth repeating: at 80% of the stale time. */
  function RefreshThreshold(staleMinutes: nat): real {
    staleMinutes as real * 60.0 * 0.8
  }

  function Abs(x: real): real {
    if x < 0.0 then -x else x
  }

  predicate Moved(a: Fix, b: Fix) {
    Abs(a.lat - b.lat) > 0.0000001 || Abs(a.lon - b.lon) > 0.0000001
  }

  /** The nodedb's record of a node; 0 stands for what it does not know. */
  datatype Node = Node(id: NodeId, isBridge: bool, lastHeard: int, lat: real, lon: real, latI: int, lonI: int)

  /** The position, from the scaled integers if the decimal one is missing. */
  function Position(n: Node): Fix {
    if n.lat == 0.0 && n.lon == 0.0 && n.latI != 0 && n.lonI != 0
    then Fix(n.latI as real / 10000000.0, n.lonI as real / 10000000.0)
    else Fix(n.lat, n.lon)
  }

  /** The filters of the seed pass: heard recently, located, and located recently. */
  predicate Passes(n: Node, lastPosition: map<NodeId, real>, epoch: int, maxAge: int) {
    var at := if n.id in lastPosition then lastPosition[n.id] else 0.0;
    && (maxAge > 0 && !n.isBridge ==> n.lastHeard != 0 && epoch - n.lastHeard <= maxAge)
    && Position(n) != Fix(0.0, 0.0)
    && (maxAge > 0 && !n.isBridge && at != 0.0 ==> epoch as real - at <= maxAge as real)
  }

  /** Nothing emitted yet, or moved since, or about to go stale. */
  predicate Due(last: Option<Last>, fix: Fix, epoch: int, staleMinutes: nat) {
    last.None? || Moved(fix, last.value.fix)
    || epoch as real - last.value.stamp >= RefreshThreshold(staleMinutes)
  }

  function Lookup<V>(m: map<NodeId, V>, id: NodeId): Option<V> {
    if id in m then Some(m[id]) else None
  }

  /** A position put on the queue: when that really was, and whether the node reported it. */
  datatype Emission = Emission(id: NodeId, fix: Fix, at: real, reported: bool)

  // A fixed position published at a time.
  datatype Planting = Planting(id: NodeId, at: real)

  /** The relay's memory and queue, and beside them everything it has emitted and planted. */
  datatype State = State(
    emitted: map<NodeId, Last>,
    position: map<NodeId, real>,
    sent: map<NodeId, real>,
    queue: seq<(NodeId, Fix)>,
    log: seq<Emission>,
    planted: seq<Planting>)

  function Start(): State {
    State(map[], map[], map[], [], [], [])
  }

  function Emitted(s: State, e: Emission, stamp: real): State {
    s.(emitted := s.emitted[e.id := Last(e.fix, stamp)], queue := Push(s.queue, (e.id, e.fix), QUEUE_MAX),
       log := s.log + [e])
  }

  /** A position reported by the node itself is always emitted. */
  function Reported(s: State, id: NodeId, fix: Fix, now: real): State {
    Emitted(s.(position := s.position[id := now]), Emission(id, fix, now, true), now)
  }

  function SeededOne(s: State, node: Node, now: real, maxAge: int, staleMinutes: nat): State {
    var fix := Position(node);
    if Passes(node, s.position, now.Floor, maxAge)
       && Due(Lookup(s.emitted, node.id), fix, now.Floor, staleMinutes)
    then Emitted(s, Emission(node.id, fix, now, false), now.Floor as real)
    else s
  }

  /** The seed pass over the first n nodes. */
  function Seeded(s: State, nodes: seq<Node>, now: real, maxAge: int, staleMinutes: nat, n: nat): State
    requires n <= |nodes|
  {
    if n == 0 then s
    else SeededOne(Seeded(s, nodes, now, maxAge, staleMinutes, n - 1), nodes[n - 1], now, maxAge, staleMinutes)
  }

  type FixedTable = seq<(NodeId, Option<Fix>)>

  // A node that was neither emitted nor seeded lately; 0 stands for never.
  predicate NeedsSeed(s: State, id: NodeId, now: real, secs: int) {
    && !(id in s.emitted && now - s.emitted[id].stamp < secs as real)
    && !(now - (if id in s.sent then s.sent[id] else 0.0) < secs as real)
  }

  function PlannedOne(s: State, id: NodeId, fix: Option<Fix>, now: real, secs: int): State {
    if fix.Some? && NeedsSeed(s, id, now, secs)
    then s.(sent := s.sent[id := now], planted := s.planted + [Planting(id, now)])
    else s
  }

  /** The pass over the first n nodes of nodes.yaml. */
  function Planned(s: State, table: FixedTable, now: real, secs: int, n: nat): State
    requires n <= |table|
  {
    if n == 0 then s
    else PlannedOne(Planned(s, table, now, secs, n - 1), table[n - 1].0, table[n - 1].1, now, secs)
  }

  /** The positions that pass publishes, in order. */
  function DueOf(s: State, table: FixedTable, now: real, secs: int, n: nat): seq<(NodeId, Fix)>
    requires n <= |table|
  {
    if n == 0 then []
    else
      var (id, fix) := table[n - 1];
      DueOf(s, table, now, secs, n - 1)
      + if fix.Some? && NeedsSeed(Planned(s, table, now, secs, n - 1), id, now, secs) then [(id, fix.value)] else []
  }

  datatype Config = Config(staleMinutes: nat, seedSecs: int)

  datatype Action =
    | Report(id: NodeId, fix: Fix, now: real)
    | Pass(nodes: seq<Node>, now: real, maxAge: int)
    | PlanFixed(table: FixedTable, now: real)

  function Act(s: State, a: Action, c: Config): State {
    match a
    case Report(id, fix, now) => Reported(s, id, fix, now)
    case Pass(nodes, now, maxAge) => Seeded(s, nodes, now, maxAge, c.staleMinutes, |nodes|)
    case PlanFixed(table, now) => if c.seedSecs <= 0 then s else Planned(s, table, now, c.seedSecs, |table|)
  }

  class Relay {
    const config: Config
    var lastEmitted: map<NodeId, Last>
    var lastPosition: map<NodeId, real>
    var lastSeedSent: map<NodeId, real>
    var queue: seq<(NodeId, Fix)>
    ghost var log: seq<Emission>
    ghost var planted: seq<Planting>

    ghost function Current(): State
      reads this
    {
      State(lastEmitted, lastPosition, lastSeedSent, queue, log, planted)
    }

    constructor (config: Config)
      ensures this.config == config && Current() == Start()
    {
      this.config := config;
      lastEmitted, lastPosition, lastSeedSent, queue := map[], map[], map[], [];
      log, planted := [], [];
    }

    /** A position reported by the node itself is always emitted. */
    method OnPosition(id: NodeId, fix: Fix, now: real)
      modifies this
      ensures Current() == Act(old(Current()), Report(id, fix, now), config)
      ensures 0 < |queue| && queue[|queue| - 1] == (id, fix)
    {
      lastPosition := lastPosition[id := now];
      lastEmitted := lastEmitted[id := Last(fix, now)];
      queue := Push(queue, (id, fix), QUEUE_MAX);
      log := log + [Emission(id, fix, now, true)];
    }

    /** Re-emits what passes the filters and is due, stamped with whole seconds. */
    method SeedFromNodedb(nodes: seq<Node>, now: real, maxAge: int)
      modifies this
      ensures Current() == Act(old(Current()), Pass(nodes, now, maxAge), config)
    {
      for i := 0 to |nodes|
        invariant Current() == Seeded(old(Current()), nodes, now, maxAge, config.staleMinutes, i)
      {
        SeedNode(nodes[i], now, maxAge);
      }
    }

    method SeedNode(node: Node, now: real, maxAge: int)
      modifies this
      ensures Current() == SeededOne(old(Current()), node, now, maxAge, config.staleMinutes)
    {
      var epoch := now.Floor;
      if !Passes(node, lastPosition, epoch, maxAge) {
        return;
      }
      var fix := Position(node);
      if node.id in lastEmitted {
        var prev := lastEmitted[node.id];
        var age := epoch as real - prev.stamp;
        if !Moved(fix, prev.fix) && age < RefreshThreshold(config.staleMinutes) {
          return;
        }
      }
      lastEmitted := lastEmitted[node.id := Last(fix, epoch as real)];
      queue := Push(queue, (node.id, fix), QUEUE_MAX);
      log := log + [Emission(node.id, fix, now, false)];
    }

    /** The nodes with fixed coordinates whose position is to be published now. */
    method FixedPositionPlis(table: FixedTable, now: real) returns (due: seq<(NodeId, Fix)>)
      modifies this
      ensures Current() == Act(old(Current()), PlanFixed(table, now), config)
      ensures due == if config.seedSecs <= 0 then [] else DueOf(old(Current()), table, now, config.seedSecs, |table|)
    {
      due := [];
      if config.seedSecs <= 0 {
        return;
      }
      for i := 0 to |table|
        invariant Current() == Planned(old(Current()), table, now, config.seedSecs, i)
        invariant due == DueOf(old(Current()), table, now, config.seedSecs, i)
      {
        var (id, fix) := table[i];
        if fix.None? {
          continue;
        }
        if id in lastEmitted && now - lastEmitted[id].stamp < config.seedSecs as real {
          continue;
        }
        if now - (if id in lastSeedSent then lastSeedSent[id] else 0.0) < config.seedSecs as real {
          continue;
        }
        lastSeedSent := lastSeedSent[id := now];
        planted := planted + [Planting(id, now)];
        due := due + [(id, fix.value)];
      }
    }
  }

  // ---- Runs ----

  function After(s: State, actions: seq<Action>, c: Config): State
    decreases |actions|
  {
    if actions == [] then s else After(Act(s, actions[0], c), actions[1..], c)
  }

  // ---- What is remembered of the emissions ----

  /** A report is stamped exactly, a seed with the whole second it was made in. */
  function Stamp(e: Emission): real {
    if e.reported then e.at else e.at.Floor as real
  }

  function LastOf(log: seq<Emission>, id: NodeId): Option<Emission> {
    if log == [] then None
    else if log[|log| - 1].id == id then Some(log[|log| - 1])
    else LastOf(log[..|log| - 1], id)
  }

  function Record(e: Option<Emission>): Option<Last> {
    if e.None? then None else Some(Last(e.value.fix, Stamp(e.value)))
  }

  /** The emissions of one node, in order. */
  function Of(log: seq<Emission>, id: NodeId): seq<Emission> {
    if log == [] then []
    else Of(log[..|log| - 1], id) + if log[|log| - 1].id == id then [log[|log| - 1]] else []
  }

  /** Emission e followed p because it was a report, or had moved, or was due by the stamp. */
  predicate Follows(p: Emission, e: Emission, staleMinutes: nat) {
    e.reported || Moved(e.fix, p.fix) || e.at.Floor as real - Stamp(p) >= RefreshThreshold(staleMinutes)
  }

  predicate AllFollow(emissions: seq<Emission>, staleMinutes: nat) {
    forall i :: 0 < i < |emissions| ==> Follows(emissions[i - 1], emissions[i], staleMinutes)
  }

  /** The memory of each node is that of its last emission, and each emission had its reason. */
  ghost predicate Inv(s: State, staleMinutes: nat) {
    && (forall id :: Lookup(s.emitted, id) == Record(LastOf(s.log, id)))
    && (forall id :: AllFollow(Of(s.log, id), staleMinutes))
  }

  lemma LogGrows(log: seq<Emission>, e: Emission, id: NodeId)
    ensures LastOf(log + [e], id) == if e.id == id then Some(e) else LastOf(log, id)
    ensures Of(log + [e], id) == Of(log, id) + if e.id == id then [e] else []
  {
    assert (log + [e])[..|log|] == log;
  }

  lemma {:induction false} LastOfIsLast(log: seq<Emission>, id: NodeId)
    ensures var own := Of(log, id);
            LastOf(log, id) == if own == [] then None else Some(own[|own| - 1])
  {
    if log == [] {
    } else {
      LastOfIsLast(log[..|log| - 1], id);
    }
  }

  lemma {:induction false} EmitInv(s: State, e: Emission, staleMinutes: nat)
    requires Inv(s, staleMinutes)
    requires var last := LastOf(s.log, e.id); last.Some? ==> Follows(last.value, e, staleMinutes)
    ensures Inv(Emitted(s, e, Stamp(e)), staleMinutes)
  {
    var s' := Emitted(s, e, Stamp(e));
    forall id
      ensures Lookup(s'.emitted, id) == Record(LastOf(s'.log, id))
      ensures AllFollow(Of(s'.log, id), staleMinutes)
    {
      LogGrows(s.log, e, id);
      LastOfIsLast(s.log, id);
      assert Lookup(s.emitted, id) == Record(LastOf(s.log, id));
      assert AllFollow(Of(s.log, id), staleMinutes);
    }
  }

  lemma {:induction false} SeedOneInv(s: State, node: Node, now: real, maxAge: int, staleMinutes: nat)
    requires Inv(s, staleMinutes)
    ensures Inv(SeededOne(s, node, now, maxAge, staleMinutes), staleMinutes)
  {
    assert Lookup(s.emitted, node.id) == Record(LastOf(s.log, node.id));
    if Passes(node, s.position, now.Floor, maxAge)
       && Due(Lookup(s.emitted, node.id), Position(node), now.Floor, staleMinutes) {
      EmitInv(s, Emission(node.id, Position(node), now, false), staleMinutes);
    }
  }

  lemma {:induction false} SeedInv(s: State, nodes: seq<Node>, now: real, maxAge: int, staleMinutes: nat, n: nat)
    requires Inv(s, staleMinutes) && n <= |nodes|
    ensures Inv(Seeded(s, nodes, now, maxAge, staleMinutes, n), staleMinutes)
  {
    if n == 0 {
    } else {
      SeedInv(s, nodes, now, maxAge, staleMinutes, n - 1);
      SeedOneInv(Seeded(s, nodes, now, maxAge, staleMinutes, n - 1), nodes[n - 1], now, maxAge, staleMinutes);
    }
  }

  // Planning touches no position.
  lemma {:induction false} PlanEmitsNothing(s: State, table: FixedTable, now: real, secs: int, n: nat)
    requires n <= |table|
    ensures var s' := Planned(s, table, now, secs, n);
            s'.emitted == s.emitted && s'.log == s.log && s'.position == s.position
  {
    if n == 0 {
    } else {
      PlanEmitsNothing(s, table, now, secs, n - 1);
    }
  }

  lemma {:induction false} PlanQueuesNothing(s: State, table: FixedTable, now: real, secs: int, n: nat)
    requires n <= |table|
    ensures Planned(s, table, now, secs, n).queue == s.queue
  {
    if n == 0 {
    } else {
      PlanQueuesNothing(s, table, now, secs, n - 1);
    }
  }

  lemma {:induction false} ActInv(s: State, a: Action, c: Config)
    requires Inv(s, c.staleMinutes)
    ensures Inv(Act(s, a, c), c.staleMinutes)
  {
    match a
    case Report(id, fix, now) =>
      EmitInv(s.(position := s.position[id := now]), Emission(id, fix, now, true), c.staleMinutes);
    case Pass(nodes, now, maxAge) => SeedInv(s, nodes, now, maxAge, c.staleMinutes, |nodes|);
    case PlanFixed(table, now) =>
      if c.seedSecs > 0 {
        PlanEmitsNothing(s, table, now, c.seedSecs, |table|);
      }
  }

  lemma {:induction false} RunInv(s: State, actions: seq<Action>, c: Config)
    requires Inv(s, c.staleMinutes)
    ensures Inv(After(s, actions, c), c.staleMinutes)
    decreases |actions|
  {
    if actions == [] {
    } else {
      ActInv(s, actions[0], c);
      RunInv(Act(s, actions[0], c), actions[1..], c);
    }
  }

  // ---- Repeats are a threshold apart, almost ----

  function Fraction(t: real): real {
    t - t.Floor as real
  }

  lemma ThresholdIsWhole(staleMinutes: nat)
    ensures RefreshThreshold(staleMinutes) == (48 * staleMinutes) as real
  {
  }

  /** Both coordinates within a ten-millionth of a degree. */
  predicate Near(a: Fix, b: Fix) {
    -0.0000001 <= a.lat - b.lat <= 0.0000001 && -0.0000001 <= a.lon - b.lon <= 0.0000001
  }

  lemma MovedIff(a: Fix, b: Fix)
    ensures Moved(a, b) <==> !Near(a, b)
  {
  }

  /** Emission e of an unmoved position comes a full threshold after p exactly when p was a
      report, or more whole seconds passed, or the clock's fraction is no smaller now. */
  predicate FullThreshold(p: Emission, e: Emission, staleMinutes: nat) {
    || p.reported
    || e.at.Floor - p.at.Floor > 48 * staleMinutes
    || Fraction(p.at) <= Fraction(e.at)
  }

  lemma RepeatApartIff(p: Emission, e: Emission, staleMinutes: nat)
    requires !e.reported && !Moved(e.fix, p.fix) && Follows(p, e, staleMinutes)
    ensures e.at - p.at >= RefreshThreshold(staleMinutes) <==> FullThreshold(p, e, staleMinutes)
    ensures e.at - p.at > RefreshThreshold(staleMinutes) - 1.0
  {
    ThresholdIsWhole(staleMinutes);
  }

  /** In every run, any two consecutive emissions of a node whose second repeats an unmoved
      position are more than the threshold less a second apart, and the full threshold apart
      exactly under that condition. */
  lemma {:induction false} RepeatsAreApart(actions: seq<Action>, c: Config, id: NodeId, i: nat)
    requires var own := Of(After(Start(), actions, c).log, id);
             i + 1 < |own| && !own[i + 1].reported && Near(own[i + 1].fix, own[i].fix)
    ensures var own := Of(After(Start(), actions, c).log, id);
            && (own[i + 1].at - own[i].at >= RefreshThreshold(c.staleMinutes)
                <==> FullThreshold(own[i], own[i + 1], c.staleMinutes))
            && own[i + 1].at - own[i].at > RefreshThreshold(c.staleMinutes) - 1.0
  {
    RunInv(Start(), actions, c);
    var own := Of(After(Start(), actions, c).log, id);
    assert AllFollow(own, c.staleMinutes);
    assert Follows(own[(i + 1) - 1], own[i + 1], c.staleMinutes);
    MovedIff(own[i + 1].fix, own[i].fix);
    RepeatApartIff(own[i], own[i + 1], c.staleMinutes);
  }

  // ---- No position grows old, almost ----

  predicate Distinct(nodes: seq<Node>) {
    forall j, k :: 0 <= j < k < |nodes| ==> nodes[j].id != nodes[k].id
  }

  // A seed does not change what the filters look at.
  lemma {:induction false} SeedKeepsPositions(s: State, nodes: seq<Node>, now: real, maxAge: int, staleMinutes: nat,
                                              n: nat)
    requires n <= |nodes|
    ensures Seeded(s, nodes, now, maxAge, staleMinutes, n).position == s.position
  {
    if n == 0 {
    } else {
      SeedKeepsPositions(s, nodes, now, maxAge, staleMinutes, n - 1);
    }
  }

  /** Whether a pass emits a node, by that node's own data alone. */
  predicate Emits(s: State, node: Node, now: real, maxAge: int, staleMinutes: nat) {
    && Passes(node, s.position, now.Floor, maxAge)
    && Due(Lookup(s.emitted, node.id), Position(node), now.Floor, staleMinutes)
  }

  lemma {:induction false} SeededOther(s: State, node: Node, now: real, maxAge: int, staleMinutes: nat, id: NodeId)
    requires node.id != id
    ensures var s' := SeededOne(s, node, now, maxAge, staleMinutes);
            LastOf(s'.log, id) == LastOf(s.log, id) && Lookup(s'.emitted, id) == Lookup(s.emitted, id)
  {
    LogGrows(s.log, Emission(node.id, Position(node), now, false), id);
  }

  lemma {:induction false} SeededSelf(s: State, node: Node, now: real, maxAge: int, staleMinutes: nat)
    ensures var s' := SeededOne(s, node, now, maxAge, staleMinutes);
            LastOf(s'.log, node.id)
            == if Emits(s, node, now, maxAge, staleMinutes) then Some(Emission(node.id, Position(node), now, false))
               else LastOf(s.log, node.id)
  {
    LogGrows(s.log, Emission(node.id, Position(node), now, false), node.id);
  }

  lemma {:induction false} SeededOthers(s: State, nodes: seq<Node>, now: real, maxAge: int, staleMinutes: nat,
                                        n: nat, id: NodeId)
    requires n <= |nodes| && forall j :: 0 <= j < n ==> nodes[j].id != id
    ensures var s' := Seeded(s, nodes, now, maxAge, staleMinutes, n);
            LastOf(s'.log, id) == LastOf(s.log, id) && Lookup(s'.emitted, id) == Lookup(s.emitted, id)
  {
    if n == 0 {
    } else {
      SeededOthers(s, nodes, now, maxAge, staleMinutes, n - 1, id);
      SeededOther(Seeded(s, nodes, now, maxAge, staleMinutes, n - 1), nodes[n - 1], now, maxAge, staleMinutes, id);
    }
  }

  /** A seed pass emits each node by that node's own data alone. */
  lemma {:induction false} SeededNode(s: State, nodes: seq<Node>, now: real, maxAge: int, staleMinutes: nat,
                                      n: nat, i: nat)
    requires i < n <= |nodes| && Distinct(nodes)
    ensures LastOf(Seeded(s, nodes, now, maxAge, staleMinutes, n).log, nodes[i].id)
         == if Emits(s, nodes[i], now, maxAge, staleMinutes)
            then Some(Emission(nodes[i].id, Position(nodes[i]), now, false)) else LastOf(s.log, nodes[i].id)
  {
    var before := Seeded(s, nodes, now, maxAge, staleMinutes, n - 1);
    if i == n - 1 {
      SeededOthers(s, nodes, now, maxAge, staleMinutes, n - 1, nodes[i].id);
      SeedKeepsPositions(s, nodes, now, maxAge, staleMinutes, n - 1);
      SeededSelf(before, nodes[i], now, maxAge, staleMinutes);
    } else {
      SeededNode(s, nodes, now, maxAge, staleMinutes, n - 1, i);
      SeededOther(before, nodes[n - 1], now, maxAge, staleMinutes, nodes[i].id);
    }
  }

  /** A report that a pass leaves standing though it is past the threshold: the pass reads its
      clock within the second in which the threshold falls, but after it. */
  predicate Overlooked(last: Option<Emission>, fix: Fix, now: real, staleMinutes: nat) {
    && last.Some? && last.value.reported && !Moved(fix, last.value.fix)
    && now.Floor - last.value.at.Floor == 48 * staleMinutes
    && 0.0 < Fraction(last.value.at) < Fraction(now)
  }

  // How old the node's last position is.
  function Age(s: State, id: NodeId, now: real): real {
    var last := LastOf(s.log, id);
    if last.None? then 0.0 else now - last.value.at
  }

  /** After a pass whose filters node i meets, its last position is within the threshold
      unless the pass overlooked it, and then it is less than a second beyond. */
  lemma {:induction false} PassKeepsFresh(s: State, nodes: seq<Node>, now: real, maxAge: int, staleMinutes: nat, i: nat)
    requires Inv(s, staleMinutes) && i < |nodes| && Distinct(nodes)
    requires Passes(nodes[i], s.position, now.Floor, maxAge)
    ensures var s', id := Seeded(s, nodes, now, maxAge, staleMinutes, |nodes|), nodes[i].id;
            && LastOf(s'.log, id).Some?
            && (Age(s', id, now) <= RefreshThreshold(staleMinutes)
                <==> !Overlooked(LastOf(s.log, id), Position(nodes[i]), now, staleMinutes))
            && Age(s', id, now) < RefreshThreshold(staleMinutes) + 1.0
  {
    SeededNode(s, nodes, now, maxAge, staleMinutes, |nodes|, i);
    ThresholdIsWhole(staleMinutes);
    assert Lookup(s.emitted, nodes[i].id) == Record(LastOf(s.log, nodes[i].id));
  }

  // ---- What a pass emits ----

  /** The decimal position counts unless both its parts are zero, the scaled one only if
      neither part is, and otherwise the node has none. */
  lemma PositionIs(n: Node)
    ensures n.lat != 0.0 || n.lon != 0.0 ==> Position(n) == Fix(n.lat, n.lon)
    ensures n.lat == n.lon == 0.0 && n.latI != 0 && n.lonI != 0 ==>
              Position(n).lat * 10000000.0 == n.latI as real && Position(n).lon * 10000000.0 == n.lonI as real
    ensures Position(n) == Fix(0.0, 0.0) <==> n.lat == n.lon == 0.0 && (n.latI == 0 || n.lonI == 0)
  {
  }

  /** When the node last reported its position itself. */
  function LastReport(log: seq<Emission>, id: NodeId): Option<real> {
    if log == [] then None
    else
      var e := log[|log| - 1];
      if e.id == id && e.reported then Some(e.at) else LastReport(log[..|log| - 1], id)
  }

  // The relay remembers the last report of every node.
  ghost predicate ReportsKnown(s: State) {
    forall id :: Lookup(s.position, id) == LastReport(s.log, id)
  }

  function Queued(log: seq<Emission>): seq<(NodeId, Fix)> {
    seq(|log|, i requires 0 <= i < |log| => (log[i].id, log[i].fix))
  }

  predicate QueueIsNewest(s: State) {
    s.queue == Newest(Queued(s.log), QUEUE_MAX)
  }

  lemma LoggedNext(log: seq<Emission>, e: Emission, id: NodeId)
    ensures LastReport(log + [e], id) == if e.id == id && e.reported then Some(e.at) else LastReport(log, id)
    ensures Queued(log + [e]) == Queued(log) + [(e.id, e.fix)]
  {
    assert (log + [e])[..|log|] == log;
  }

  lemma {:induction false} EmittedQueue(s: State, e: Emission, stamp: real)
    requires QueueIsNewest(s)
    ensures QueueIsNewest(Emitted(s, e, stamp))
  {
    LoggedNext(s.log, e, e.id);
    PushOntoNewest(Queued(s.log), (e.id, e.fix), QUEUE_MAX);
  }

  function SeedOf(node: Node, now: real): Emission {
    Emission(node.id, Position(node), now, false)
  }

  lemma {:induction false} SeededKnown(s: State, nodes: seq<Node>, now: real, maxAge: int, staleMinutes: nat, n: nat)
    requires ReportsKnown(s) && QueueIsNewest(s) && n <= |nodes|
    ensures ReportsKnown(Seeded(s, nodes, now, maxAge, staleMinutes, n))
    ensures QueueIsNewest(Seeded(s, nodes, now, maxAge, staleMinutes, n))
  {
    if n == 0 {
    } else {
      SeededKnown(s, nodes, now, maxAge, staleMinutes, n - 1);
      var before, e := Seeded(s, nodes, now, maxAge, staleMinutes, n - 1), SeedOf(nodes[n - 1], now);
      EmittedQueue(before, e, now.Floor as real);
      forall id
        ensures Lookup(before.position, id) == LastReport(before.log + [e], id)
      {
        LoggedNext(before.log, e, id);
      }
    }
  }

  lemma {:induction false} ReportedKnown(s: State, id: NodeId, fix: Fix, now: real)
    requires ReportsKnown(s) && QueueIsNewest(s)
    ensures ReportsKnown(Reported(s, id, fix, now)) && QueueIsNewest(Reported(s, id, fix, now))
  {
    var e, s' := Emission(id, fix, now, true), Reported(s, id, fix, now);
    EmittedQueue(s.(position := s.position[id := now]), e, now);
    forall other
      ensures Lookup(s'.position, other) == LastReport(s'.log, other)
    {
      LoggedNext(s.log, e, other);
    }
  }

  lemma {:induction false} RunKnown(s: State, actions: seq<Action>, c: Config)
    requires ReportsKnown(s) && QueueIsNewest(s)
    ensures ReportsKnown(After(s, actions, c)) && QueueIsNewest(After(s, actions, c))
    decreases |actions|
  {
    if actions == [] {
    } else {
      match actions[0] {
        case Report(id, fix, now) => ReportedKnown(s, id, fix, now);
        case Pass(nodes, now, maxAge) => SeededKnown(s, nodes, now, maxAge, c.staleMinutes, |nodes|);
        case PlanFixed(table, now) =>
          if c.seedSecs > 0 {
            PlanEmitsNothing(s, table, now, c.seedSecs, |table|);
            PlanQueuesNothing(s, table, now, c.seedSecs, |table|);
          }
      }
      RunKnown(Act(s, actions[0], c), actions[1..], c);
    }
  }

  /** In every run the queue holds the newest QUEUE_MAX of all that was emitted, in its order. */
  lemma {:induction false} QueueHoldsNewest(actions: seq<Action>, c: Config)
    ensures var s := After(Start(), actions, c); s.queue == Newest(Queued(s.log), QUEUE_MAX)
  {
    RunKnown(Start(), actions, c);
  }

  // Time t is at most maxAge seconds before the epoch, or after it.
  predicate Within(t: real, epoch: int, maxAge: int) {
    epoch as real <= t + maxAge as real
  }

  /** In every run, whatever a pass looks at: a node meets its filters exactly when it has a
      position, and, unless there is no age limit or it is the bridge, was heard within the
      limit, and its last report, if it made one, lies within the limit. */
  lemma {:induction false} PassesIff(actions: seq<Action>, c: Config, n: Node, epoch: int, maxAge: int)
    ensures var s := After(Start(), actions, c);
            var report := LastReport(s.log, n.id);
            Passes(n, s.position, epoch, maxAge) <==>
              && (n.lat != 0.0 || n.lon != 0.0 || (n.latI != 0 && n.lonI != 0))
              && (|| maxAge <= 0
                  || n.isBridge
                  || (&& n.lastHeard != 0 && Within(n.lastHeard as real, epoch, maxAge)
                      && (report.None? || report.value == 0.0 || Within(report.value, epoch, maxAge))))
  {
    RunKnown(Start(), actions, c);
    PositionIs(n);
    var s := After(Start(), actions, c);
    assert Lookup(s.position, n.id) == LastReport(s.log, n.id);
  }

  /** After a pass whose filters node i meets, its last emission shows where the node is. */
  lemma {:induction false} PassShowsPosition(s: State, nodes: seq<Node>, now: real, maxAge: int, staleMinutes: nat,
                                             i: nat)
    requires Inv(s, staleMinutes) && i < |nodes| && Distinct(nodes)
    requires Passes(nodes[i], s.position, now.Floor, maxAge)
    ensures var last := LastOf(Seeded(s, nodes, now, maxAge, staleMinutes, |nodes|).log, nodes[i].id);
            last.Some? && Near(Position(nodes[i]), last.value.fix)
  {
    SeededNode(s, nodes, now, maxAge, staleMinutes, |nodes|, i);
    assert Lookup(s.emitted, nodes[i].id) == Record(LastOf(s.log, nodes[i].id));
  }

  function SeedsOf(nodes: seq<Node>, now: real, n: nat): seq<Emission>
    requires n <= |nodes|
  {
    seq(n, i requires 0 <= i < n => SeedOf(nodes[i], now))
  }

  predicate AreEmitted(at: seq<nat>, s: State, nodes: seq<Node>, now: real, maxAge: int, staleMinutes: nat, n: nat)
    requires n <= |nodes|
  {
    forall i: nat :: i < n ==> (i in at <==> Emits(s, nodes[i], now, maxAge, staleMinutes))
  }

  lemma EmittedNext(at: seq<nat>, s: State, nodes: seq<Node>, now: real, maxAge: int, staleMinutes: nat, n: nat)
    requires n < |nodes| && AreEmitted(at, s, nodes, now, maxAge, staleMinutes, n)
    requires forall i :: i in at ==> i < n
    ensures AreEmitted(if Emits(s, nodes[n], now, maxAge, staleMinutes) then at + [n] else at,
                       s, nodes, now, maxAge, staleMinutes, n + 1)
  {
  }

  // The seeds of the nodes that the pass emits among the first n, which are at these indices.
  predicate IsSeedList(seeds: seq<Emission>, s: State, nodes: seq<Node>, now: real, maxAge: int, staleMinutes: nat,
                       n: nat, at: seq<nat>)
    requires n <= |nodes|
  {
    Picks(seeds, SeedsOf(nodes, now, n), at) && AreEmitted(at, s, nodes, now, maxAge, staleMinutes, n)
  }

  lemma SeedListNext(before: seq<Emission>, s: State, nodes: seq<Node>, now: real, maxAge: int, staleMinutes: nat,
                     n: nat, some: seq<nat>)
    returns (at: seq<nat>, seeds: seq<Emission>)
    requires 0 < n <= |nodes| && IsSeedList(before, s, nodes, now, maxAge, staleMinutes, n - 1, some)
    ensures IsSeedList(seeds, s, nodes, now, maxAge, staleMinutes, n, at)
    ensures seeds == if Emits(s, nodes[n - 1], now, maxAge, staleMinutes) then before + [SeedOf(nodes[n - 1], now)]
                     else before
  {
    var e := SeedOf(nodes[n - 1], now);
    assert SeedsOf(nodes, now, n) == SeedsOf(nodes, now, n - 1) + [e];
    PickNext(before, SeedsOf(nodes, now, n - 1), some, e);
    EmittedNext(some, s, nodes, now, maxAge, staleMinutes, n - 1);
    if Emits(s, nodes[n - 1], now, maxAge, staleMinutes) {
      at, seeds := some + [n - 1], before + [e];
    } else {
      at, seeds := some, before;
    }
  }

  lemma {:induction false} SeededOneMore(s: State, nodes: seq<Node>, now: real, maxAge: int, staleMinutes: nat, n: nat)
    requires 0 < n <= |nodes| && Distinct(nodes)
    ensures var log := Seeded(s, nodes, now, maxAge, staleMinutes, n - 1).log;
            Seeded(s, nodes, now, maxAge, staleMinutes, n).log
            == if Emits(s, nodes[n - 1], now, maxAge, staleMinutes) then log + [SeedOf(nodes[n - 1], now)] else log
  {
    SeededOthers(s, nodes, now, maxAge, staleMinutes, n - 1, nodes[n - 1].id);
    SeedKeepsPositions(s, nodes, now, maxAge, staleMinutes, n - 1);
  }

  lemma {:induction false} SeedsJoin(s: State, nodes: seq<Node>, now: real, maxAge: int, staleMinutes: nat, n: nat,
                                     before: seq<Emission>, seeds: seq<Emission>)
    requires 0 < n <= |nodes| && Distinct(nodes)
    requires Seeded(s, nodes, now, maxAge, staleMinutes, n - 1).log == s.log + before
    requires seeds == if Emits(s, nodes[n - 1], now, maxAge, staleMinutes) then before + [SeedOf(nodes[n - 1], now)]
                      else before
    ensures Seeded(s, nodes, now, maxAge, staleMinutes, n).log == s.log + seeds
  {
    SeededOneMore(s, nodes, now, maxAge, staleMinutes, n);
    assert s.log + before + [SeedOf(nodes[n - 1], now)] == s.log + (before + [SeedOf(nodes[n - 1], now)]);
  }

  /** The pass over the first n nodes has added these seeds to the log. */
  predicate IsPassOf(seeds: seq<Emission>, s: State, nodes: seq<Node>, now: real, maxAge: int, staleMinutes: nat,
                     n: nat, at: seq<nat>)
    requires n <= |nodes|
  {
    && Seeded(s, nodes, now, maxAge, staleMinutes, n).log == s.log + seeds
    && IsSeedList(seeds, s, nodes, now, maxAge, staleMinutes, n, at)
  }

  lemma {:induction false} PassNext(before: seq<Emission>, s: State, nodes: seq<Node>, now: real, maxAge: int,
                                    staleMinutes: nat, n: nat, some: seq<nat>)
    returns (at: seq<nat>, seeds: seq<Emission>)
    requires 0 < n <= |nodes| && Distinct(nodes)
    requires IsPassOf(before, s, nodes, now, maxAge, staleMinutes, n - 1, some)
    ensures IsPassOf(seeds, s, nodes, now, maxAge, staleMinutes, n, at)
  {
    at, seeds := SeedListNext(before, s, nodes, now, maxAge, staleMinutes, n, some);
    SeedsJoin(s, nodes, now, maxAge, staleMinutes, n, before, seeds);
  }

  /** A pass emits the nodes it has to, and no others, in the order it lists them. */
  lemma {:induction false} PassInOrder(s: State, nodes: seq<Node>, now: real, maxAge: int, staleMinutes: nat, n: nat)
    returns (at: seq<nat>, seeds: seq<Emission>)
    requires n <= |nodes| && Distinct(nodes)
    ensures IsPassOf(seeds, s, nodes, now, maxAge, staleMinutes, n, at)
  {
    if n == 0 {
      at, seeds := [], [];
      assert s.log + [] == s.log;
    } else {
      var some, before := PassInOrder(s, nodes, now, maxAge, staleMinutes, n - 1);
      at, seeds := PassNext(before, s, nodes, now, maxAge, staleMinutes, n, some);
    }
  }

  predicate MeetsFilters(s: State, a: Action, id: NodeId, i: int)
    requires a.Pass?
  {
    && 0 <= i < |a.nodes| && Distinct(a.nodes) && a.nodes[i].id == id
    && Passes(a.nodes[i], s.position, a.now.Floor, a.maxAge)
  }

  /** Every seed pass of the run lists the node, and the node meets its filters. */
  ghost predicate Attended(s: State, actions: seq<Action>, id: NodeId, c: Config)
    decreases |actions|
  {
    || actions == []
    || (&& (actions[0].Pass? ==> exists i :: MeetsFilters(s, actions[0], id, i))
        && Attended(Act(s, actions[0], c), actions[1..], id, c))
  }

  predicate OverlookedAt(s: State, a: Action, id: NodeId, i: int, c: Config)
    requires a.Pass?
  {
    && 0 <= i < |a.nodes| && a.nodes[i].id == id
    && Overlooked(LastOf(s.log, id), Position(a.nodes[i]), a.now, c.staleMinutes)
  }

  /** Some pass of the run overlooks the node. */
  ghost predicate SomeOverlooked(s: State, actions: seq<Action>, id: NodeId, c: Config)
    decreases |actions|
  {
    && actions != []
    && (|| (actions[0].Pass? && exists i :: OverlookedAt(s, actions[0], id, i, c))
        || SomeOverlooked(Act(s, actions[0], c), actions[1..], id, c))
  }

  function Time(a: Action): real {
    a.now
  }

  // No stretch of more than `gap` without a seed pass, from the last one on.
  predicate PassedEvery(gap: real, last: real, actions: seq<Action>)
    decreases |actions|
  {
    actions == [] || (actions[0].now <= last + gap
                      && PassedEvery(gap, if actions[0].Pass? then actions[0].now else last, actions[1..]))
  }

  // Right before every action, the node's last emission is younger than the bound.
  predicate NeverOlder(s: State, actions: seq<Action>, id: NodeId, bound: real, c: Config)
    decreases |actions|
  {
    actions == [] || (Age(s, id, actions[0].now) < bound
                      && NeverOlder(Act(s, actions[0], c), actions[1..], id, bound, c))
  }

  lemma {:induction false} OtherActions(s: State, a: Action, id: NodeId, c: Config)
    requires !a.Pass?
    ensures LastOf(Act(s, a, c).log, id)
         == if a.Report? && a.id == id then Some(Emission(id, a.fix, a.now, true)) else LastOf(s.log, id)
  {
    match a
    case Report(other, fix, now) => LogGrows(s.log, Emission(other, fix, now, true), id);
    case PlanFixed(table, now) =>
      if c.seedSecs > 0 {
        PlanEmitsNothing(s, table, now, c.seedSecs, |table|);
      }
  }

  /** Overlooked or not, with passes at most `gap` seconds apart the last emission is at all
      times less than the threshold plus gap plus 1 second old. */
  lemma {:induction false} NeverStale(s: State, last: real, clock: real, actions: seq<Action>, id: NodeId, gap: real,
                                      c: Config)
    requires Inv(s, c.staleMinutes) && last <= clock && Attended(s, actions, id, c)
    requires LastOf(s.log, id).Some? && Age(s, id, last) < RefreshThreshold(c.staleMinutes) + 1.0
    requires Forward(clock, actions, Time) && PassedEvery(gap, last, actions)
    ensures NeverOlder(s, actions, id, RefreshThreshold(c.staleMinutes) + gap + 1.0, c)
    decreases |actions|
  {
    if actions == [] {
    } else {
      var a := actions[0];
      ActInv(s, a, c);
      if a.Pass? {
        var i :| MeetsFilters(s, a, id, i);
        PassKeepsFresh(s, a.nodes, a.now, a.maxAge, c.staleMinutes, i);
        NeverStale(Act(s, a, c), a.now, a.now, actions[1..], id, gap, c);
      } else {
        OtherActions(s, a, id, c);
        ThresholdIsWhole(c.staleMinutes);
        NeverStale(Act(s, a, c), last, a.now, actions[1..], id, gap, c);
      }
    }
  }

  // ---- The exact bound on the age ----

  /** Right before every action, the node's last emission is at most `bound` old. */
  predicate AgeBounded(s: State, actions: seq<Action>, id: NodeId, bound: real, c: Config)
    decreases |actions|
  {
    actions == [] || (Age(s, id, actions[0].now) <= bound
                      && AgeBounded(Act(s, actions[0], c), actions[1..], id, bound, c))
  }

  // The action emits nothing for the node.
  predicate Silent(s: State, a: Action, id: NodeId, c: Config) {
    LastOf(Act(s, a, c).log, id) == LastOf(s.log, id)
  }

  /** An action comes after time `limit`, and the node has not been emitted until then. */
  predicate SilentPast(s: State, actions: seq<Action>, id: NodeId, limit: real, c: Config)
    decreases |actions|
  {
    && actions != []
    && (actions[0].now > limit
        || (Silent(s, actions[0], id, c) && SilentPast(Act(s, actions[0], c), actions[1..], id, limit, c)))
  }

  /** By how much a report was past the threshold when a pass overlooked it: the fraction of
      a second that the clock shows more now than then. */
  function Excess(last: Option<Emission>, now: real): real {
    if last.None? then 0.0 else Fraction(now) - Fraction(last.value.at)
  }

  /** Pass a overlooks the node, which is then not emitted again within gap seconds less the
      excess. */
  ghost predicate LeftAlone(s: State, a: Action, later: seq<Action>, id: NodeId, gap: real, c: Config) {
    && a.Pass? && (exists i :: OverlookedAt(s, a, id, i, c))
    && SilentPast(Act(s, a, c), later, id, a.now + gap - Excess(LastOf(s.log, id), a.now), c)
  }

  ghost predicate SomeLeftAlone(s: State, actions: seq<Action>, id: NodeId, gap: real, c: Config)
    decreases |actions|
  {
    && actions != []
    && (LeftAlone(s, actions[0], actions[1..], id, gap, c)
        || SomeLeftAlone(Act(s, actions[0], c), actions[1..], id, gap, c))
  }

  // When the node's last emission exceeds the threshold plus gap.
  function Limit(s: State, id: NodeId, gap: real, c: Config): real
    requires LastOf(s.log, id).Some?
  {
    LastOf(s.log, id).value.at + RefreshThreshold(c.staleMinutes) + gap
  }

  // A pass that leaves the node alone overlooks it or finds it fresh; a pass that emits it does not.
  lemma {:induction false} PassOutcome(s: State, a: Action, id: NodeId, gap: real, c: Config)
    requires Inv(s, c.staleMinutes) && a.Pass? && (exists i :: MeetsFilters(s, a, id, i))
    ensures var s' := Act(s, a, c);
            && LastOf(s'.log, id).Some?
            && (Age(s', id, a.now) <= RefreshThreshold(c.staleMinutes) <==> !exists i :: OverlookedAt(s, a, id, i, c))
            && (!Silent(s, a, id, c) ==> LastOf(s'.log, id).value.at == a.now)
            && ((exists i :: OverlookedAt(s, a, id, i, c)) ==>
                 && LastOf(s.log, id).Some? && Silent(s, a, id, c)
                 && a.now + gap - Excess(LastOf(s.log, id), a.now) == Limit(s, id, gap, c))
  {
    var i :| MeetsFilters(s, a, id, i);
    PassKeepsFresh(s, a.nodes, a.now, a.maxAge, c.staleMinutes, i);
    SeededNode(s, a.nodes, a.now, a.maxAge, c.staleMinutes, |a.nodes|, i);
    ThresholdIsWhole(c.staleMinutes);
    assert Lookup(s.emitted, id) == Record(LastOf(s.log, id));
    if exists j :: OverlookedAt(s, a, id, j, c) {
      var j :| OverlookedAt(s, a, id, j, c);
      assert i == j;
    } else {
      assert !OverlookedAt(s, a, id, i, c);
    }
  }

  /** Unless a pass overlooks the node, a pass finds it fresh before it can grow too old. */
  lemma {:induction false} FreshIsSeen(s: State, last: real, actions: seq<Action>, id: NodeId, gap: real, c: Config)
    requires Inv(s, c.staleMinutes) && Attended(s, actions, id, c) && PassedEvery(gap, last, actions)
    requires LastOf(s.log, id).Some? && Age(s, id, last) <= RefreshThreshold(c.staleMinutes)
    requires SilentPast(s, actions, id, Limit(s, id, gap, c), c)
    ensures SomeLeftAlone(s, actions, id, gap, c)
    decreases |actions|
  {
    var a := actions[0];
    var s' := Act(s, a, c);
    assert a.now <= Limit(s, id, gap, c);
    assert Silent(s, a, id, c) && Limit(s', id, gap, c) == Limit(s, id, gap, c);
    assert SilentPast(s', actions[1..], id, Limit(s, id, gap, c), c);
    ActInv(s, a, c);
    if a.Pass? {
      PassOutcome(s, a, id, gap, c);
      if exists i :: OverlookedAt(s, a, id, i, c) {
        assert LeftAlone(s, a, actions[1..], id, gap, c);
      } else {
        FreshIsSeen(s', a.now, actions[1..], id, gap, c);
      }
    } else {
      FreshIsSeen(s', last, actions[1..], id, gap, c);
    }
  }

  /** The bound is broken in what follows. */
  ghost predicate Breaks(s: State, actions: seq<Action>, id: NodeId, gap: real, c: Config)
    requires LastOf(s.log, id).Some?
  {
    SilentPast(s, actions, id, Limit(s, id, gap, c), c) || SomeLeftAlone(s, actions, id, gap, c)
  }

  lemma {:induction false} BreaksSilently(s: State, actions: seq<Action>, id: NodeId, gap: real, c: Config)
    requires actions != [] && Inv(s, c.staleMinutes) && Attended(s, actions, id, c)
    requires LastOf(s.log, id).Some? && Silent(s, actions[0], id, c)
    ensures Breaks(s, actions, id, gap, c) <==>
              actions[0].now > Limit(s, id, gap, c) || Breaks(Act(s, actions[0], c), actions[1..], id, gap, c)
  {
    if actions[0].Pass? {
      PassOutcome(s, actions[0], id, gap, c);
    }
  }

  // A node that has just been emitted is fresh.
  lemma {:induction false} BreaksAfterEmission(s: State, last: real, clock: real, actions: seq<Action>, id: NodeId,
                                               gap: real, c: Config)
    requires actions != [] && Inv(s, c.staleMinutes) && last <= clock <= actions[0].now
    requires Attended(s, actions, id, c) && PassedEvery(gap, last, actions)
    requires !Silent(s, actions[0], id, c)
    ensures var s' := Act(s, actions[0], c);
            && LastOf(s'.log, id).Some?
            && (Breaks(s', actions[1..], id, gap, c) <==> SomeLeftAlone(s', actions[1..], id, gap, c))
            && !LeftAlone(s, actions[0], actions[1..], id, gap, c)
  {
    var a := actions[0];
    var s', later := Act(s, a, c), actions[1..];
    ActInv(s, a, c);
    ThresholdIsWhole(c.staleMinutes);
    if a.Pass? {
      PassOutcome(s, a, id, gap, c);
    } else {
      OtherActions(s, a, id, c);
    }
    if SilentPast(s', later, id, Limit(s', id, gap, c), c) {
      FreshIsSeen(s', if a.Pass? then a.now else last, later, id, gap, c);
    }
  }

  lemma {:induction false} BoundedIff(s: State, last: real, clock: real, actions: seq<Action>, id: NodeId, gap: real,
                                      c: Config)
    requires Inv(s, c.staleMinutes) && last <= clock && Attended(s, actions, id, c)
    requires Forward(clock, actions, Time) && PassedEvery(gap, last, actions) && LastOf(s.log, id).Some?
    ensures AgeBounded(s, actions, id, RefreshThreshold(c.staleMinutes) + gap, c) <==> !Breaks(s, actions, id, gap, c)
    decreases |actions|
  {
    if actions == [] {
    } else {
      var a := actions[0];
      if Silent(s, a, id, c) {
        BreaksSilently(s, actions, id, gap, c);
      } else {
        BreaksAfterEmission(s, last, clock, actions, id, gap, c);
      }
      ActInv(s, a, c);
      BoundedIff(Act(s, a, c), if a.Pass? then a.now else last, a.now, actions[1..], id, gap, c);
    }
  }

  lemma {:induction false} UnseenBoundedIff(s: State, last: real, clock: real, actions: seq<Action>, id: NodeId,
                                            gap: real, c: Config)
    requires gap >= 0.0 && Inv(s, c.staleMinutes) && last <= clock && Attended(s, actions, id, c)
    requires Forward(clock, actions, Time) && PassedEvery(gap, last, actions) && LastOf(s.log, id).None?
    ensures AgeBounded(s, actions, id, RefreshThreshold(c.staleMinutes) + gap, c)
       <==> !SomeLeftAlone(s, actions, id, gap, c)
    decreases |actions|
  {
    ThresholdIsWhole(c.staleMinutes);
    if actions == [] {
    } else {
      var a := actions[0];
      var s', last' := Act(s, a, c), if a.Pass? then a.now else last;
      ActInv(s, a, c);
      if a.Pass? {
        PassOutcome(s, a, id, gap, c);
      }
      if Silent(s, a, id, c) {
        UnseenBoundedIff(s', last', a.now, actions[1..], id, gap, c);
      } else {
        BreaksAfterEmission(s, last, clock, actions, id, gap, c);
        BoundedIff(s', last', a.now, actions[1..], id, gap, c);
      }
    }
  }

  /** In every run from the relay's start with a nondecreasing clock, whose passes all see the
      node and lie at most gap seconds apart, its last emission is at every action at most the
      threshold plus gap old, exactly when no pass overlooks it and then leaves it without an
      emission for longer than gap seconds less the excess. */
  lemma {:induction false} AgeBoundedIff(clock: real, actions: seq<Action>, id: NodeId, gap: real, c: Config)
    requires gap >= 0.0 && Attended(Start(), actions, id, c)
    requires Forward(clock, actions, Time) && PassedEvery(gap, clock, actions)
    ensures AgeBounded(Start(), actions, id, RefreshThreshold(c.staleMinutes) + gap, c)
       <==> !SomeLeftAlone(Start(), actions, id, gap, c)
  {
    UnseenBoundedIff(Start(), clock, clock, actions, id, gap, c);
  }

  lemma {:induction false} LeftAloneIsOverlooked(s: State, actions: seq<Action>, id: NodeId, gap: real, c: Config)
    requires SomeLeftAlone(s, actions, id, gap, c)
    ensures SomeOverlooked(s, actions, id, c)
    decreases |actions|
  {
    if LeftAlone(s, actions[0], actions[1..], id, gap, c) {
    } else {
      LeftAloneIsOverlooked(Act(s, actions[0], c), actions[1..], id, gap, c);
    }
  }

  /** In particular the bound holds in every such run in which no pass overlooks the node. */
  lemma {:induction false} NeverOverlooked(clock: real, actions: seq<Action>, id: NodeId, gap: real, c: Config)
    requires gap >= 0.0 && Attended(Start(), actions, id, c) && !SomeOverlooked(Start(), actions, id, c)
    requires Forward(clock, actions, Time) && PassedEvery(gap, clock, actions)
    ensures AgeBounded(Start(), actions, id, RefreshThreshold(c.staleMinutes) + gap, c)
  {
    AgeBoundedIff(clock, actions, id, gap, c);
    if SomeLeftAlone(Start(), actions, id, gap, c) {
      LeftAloneIsOverlooked(Start(), actions, id, gap, c);
    }
  }

  // ---- The second really is lost, either way ----

  lemma {:induction false} PassOverOne(s: State, n: Node, now: real, c: Config)
    requires Position(n) != Fix(0.0, 0.0)
    ensures MeetsFilters(s, Pass([n], now, 0), n.id, 0)
    ensures Act(s, Pass([n], now, 0), c)
         == if Due(Lookup(s.emitted, n.id), Position(n), now.Floor, c.staleMinutes)
            then Emitted(s, Emission(n.id, Position(n), now, false), now.Floor as real) else s
  {
    assert Seeded(s, [n], now, 0, c.staleMinutes, 0) == s;
  }

  lemma AfterTwo(s: State, a: Action, b: Action, c: Config)
    ensures After(s, [a, b], c) == Act(Act(s, a, c), b, c)
  {
    assert [a, b][1..] == [b] && [b][1..] == [];
    assert After(Act(s, a, c), [b], c) == After(Act(Act(s, a, c), b, c), [], c);
  }

  /** With a one-minute stale time, a run that seeds an unmoved position twice, 47.2 seconds apart. */
  lemma {:induction false} SeedsTooClose(n: Node, c: Config)
    requires Position(n) != Fix(0.0, 0.0) && c.staleMinutes == 1
    ensures var own := Of(After(Start(), [Pass([n], 100.8, 0), Pass([n], 148.0, 0)], c).log, n.id);
            own == [Emission(n.id, Position(n), 100.8, false), Emission(n.id, Position(n), 148.0, false)]
  {
    var first, second := Emission(n.id, Position(n), 100.8, false), Emission(n.id, Position(n), 148.0, false);
    var s1 := Emitted(Start(), first, 100.0);
    PassOverOne(Start(), n, 100.8, c);
    PassOverOne(s1, n, 148.0, c);
    AfterTwo(Start(), Pass([n], 100.8, 0), Pass([n], 148.0, 0), c);
    LogGrows([], first, n.id);
    LogGrows([first], second, n.id);
    assert [] + [first] == [first] && [first] + [second] == [first, second];
  }

  lemma BrokenNow(s: State, actions: seq<Action>, id: NodeId, bound: real, c: Config)
    requires actions != [] && Age(s, id, actions[0].now) > bound
    ensures !AgeBounded(s, actions, id, bound, c)
  {
  }

  lemma BrokenLater(s: State, actions: seq<Action>, id: NodeId, bound: real, c: Config)
    requires actions != [] && !AgeBounded(Act(s, actions[0], c), actions[1..], id, bound, c)
    ensures !AgeBounded(s, actions, id, bound, c)
  {
  }

  /** And one whose passes lie 48.4 seconds apart, in which a report is left standing for 96.8
      seconds, more than 48 and those 48.4. */
  lemma {:induction false} ReportTooOld(n: Node, c: Config)
    requires Position(n) != Fix(0.0, 0.0) && c.staleMinutes == 1
    ensures var actions := [Report(n.id, Position(n), 100.5), Pass([n], 148.9, 0), Pass([n], 197.3, 0)];
            && Forward(100.5, actions, Time) && PassedEvery(48.4, 100.5, actions)
            && Attended(Start(), actions, n.id, c)
            && Age(After(Start(), actions[..2], c), n.id, 197.3) == 96.8
            && !AgeBounded(Start(), actions, n.id, RefreshThreshold(1) + 48.4, c)
  {
    var r, p, q := Report(n.id, Position(n), 100.5), Pass([n], 148.9, 0), Pass([n], 197.3, 0);
    var report := Emission(n.id, Position(n), 100.5, true);
    var s1 := Act(Start(), r, c);
    PassOverOne(s1, n, 148.9, c);
    PassOverOne(s1, n, 197.3, c);
    assert Act(s1, p, c) == s1;
    LogGrows([], report, n.id);
    assert [] + [report] == [report];
    AfterTwo(Start(), r, p, c);
    ThresholdIsWhole(1);
    assert LastOf(s1.log, n.id) == Some(report);
    assert Age(s1, n.id, 197.3) == 96.8;
    assert [r, p, q][..2] == [r, p] && [r, p, q][1..] == [p, q] && [p, q][1..] == [q] && [q][1..] == [];
    assert PassedEvery(48.4, 148.9, [q]) && Forward(148.9, [q], Time);
    assert Attended(s1, [q], n.id, c);
    assert Attended(s1, [p, q], n.id, c);
    BrokenNow(s1, [q], n.id, RefreshThreshold(1) + 48.4, c);
    BrokenLater(s1, [p, q], n.id, RefreshThreshold(1) + 48.4, c);
    BrokenLater(Start(), [r, p, q], n.id, RefreshThreshold(1) + 48.4, c);
  }

  // ---- Fixed positions ----

  predicate YoungEmission(s: State, id: NodeId, now: real, secs: int) {
    id in s.emitted && now - s.emitted[id].stamp < secs as real
  }

  predicate YoungSeed(s: State, id: NodeId, now: real, secs: int) {
    id in s.sent && now - s.sent[id] < secs as real
  }

  // What one planning pass does to one node's record.
  lemma {:induction false} PlannedNode(s: State, table: FixedTable, now: real, secs: int, n: nat, id: NodeId)
    requires n <= |table| && secs > 0
    ensures Lookup(Planned(s, table, now, secs, n).sent, id)
         == if NeedsSeed(s, id, now, secs) && (exists i :: 0 <= i < n && table[i].0 == id && table[i].1.Some?)
            then Some(now) else Lookup(s.sent, id)
  {
    if n == 0 {
    } else {
      PlannedNode(s, table, now, secs, n - 1, id);
      PlanEmitsNothing(s, table, now, secs, n - 1);
    }
  }

  /** After every pass, each node with fixed coordinates has an emission or a seed younger
      than the interval, except exactly when the clock itself has not reached one interval, the
      node was never seeded and it has no young emission. */
  lemma {:induction false} FixedNodesCovered(s: State, table: FixedTable, now: real, secs: int, i: nat)
    requires secs > 0 && i < |table| && table[i].1.Some?
    ensures var id := table[i].0;
            YoungEmission(s, id, now, secs) || YoungSeed(Planned(s, table, now, secs, |table|), id, now, secs)
            <==> !(now < secs as real && id !in s.sent && !YoungEmission(s, id, now, secs))
  {
    PlannedNode(s, table, now, secs, |table|, table[i].0);
  }

  // ---- What is planted, and in which order ----

  /** What makes an entry of nodes.yaml due, said of the node's history. */
  predicate IsDue(s: State, id: NodeId, fix: Option<Fix>, now: real, secs: int) {
    && fix.Some? && !YoungEmission(s, id, now, secs) && !YoungSeed(s, id, now, secs)
    && (id in s.sent || now >= secs as real)
  }

  predicate TableDistinct(table: FixedTable) {
    forall j, k :: 0 <= j < k < |table| ==> table[j].0 != table[k].0
  }

  predicate AreDue(at: seq<nat>, s: State, table: FixedTable, now: real, secs: int, n: nat)
    requires n <= |table|
  {
    forall i: nat :: i < n ==> (i in at <==> IsDue(s, table[i].0, table[i].1, now, secs))
  }

  function Entries(due: seq<(NodeId, Fix)>): FixedTable {
    seq(|due|, i requires 0 <= i < |due| => (due[i].0, Some(due[i].1)))
  }

  function Plantings(due: seq<(NodeId, Fix)>, now: real): seq<Planting> {
    seq(|due|, i requires 0 <= i < |due| => Planting(due[i].0, now))
  }

  lemma DueNext(at: seq<nat>, s: State, table: FixedTable, now: real, secs: int, n: nat)
    requires n < |table| && AreDue(at, s, table, now, secs, n) && forall i :: i in at ==> i < n
    ensures AreDue(if IsDue(s, table[n].0, table[n].1, now, secs) then at + [n] else at, s, table, now, secs, n + 1)
  {
  }

  lemma EntriesNext(due: seq<(NodeId, Fix)>, id: NodeId, fix: Fix, now: real)
    ensures Entries(due + [(id, fix)]) == Entries(due) + [(id, Some(fix))]
    ensures Plantings(due + [(id, fix)], now) == Plantings(due, now) + [Planting(id, now)]
  {
  }

  // What was planned before a node does not bear on it.
  lemma {:induction false} NeedsSeedIff(s: State, table: FixedTable, now: real, secs: int, n: nat)
    requires n < |table| && secs > 0 && TableDistinct(table)
    ensures table[n].1.Some? && NeedsSeed(Planned(s, table, now, secs, n), table[n].0, now, secs)
       <==> IsDue(s, table[n].0, table[n].1, now, secs)
  {
    PlannedNode(s, table, now, secs, n, table[n].0);
    PlanEmitsNothing(s, table, now, secs, n);
  }

  // What is published, of the first n entries, is those that are due, at these indices.
  predicate IsDueList(due: seq<(NodeId, Fix)>, s: State, table: FixedTable, now: real, secs: int, n: nat, at: seq<nat>)
    requires n <= |table|
  {
    Picks(Entries(due), table[..n], at) && AreDue(at, s, table, now, secs, n)
  }

  lemma DueListNext(before: seq<(NodeId, Fix)>, s: State, table: FixedTable, now: real, secs: int, n: nat,
                    some: seq<nat>)
    returns (at: seq<nat>, due: seq<(NodeId, Fix)>)
    requires 0 < n <= |table| && IsDueList(before, s, table, now, secs, n - 1, some)
    ensures IsDueList(due, s, table, now, secs, n, at)
    ensures due == if IsDue(s, table[n - 1].0, table[n - 1].1, now, secs)
                   then before + [(table[n - 1].0, table[n - 1].1.value)] else before
  {
    var (id, fix) := table[n - 1];
    assert table[..n] == table[..n - 1] + [table[n - 1]];
    PickNext(Entries(before), table[..n - 1], some, table[n - 1]);
    DueNext(some, s, table, now, secs, n - 1);
    if IsDue(s, id, fix, now, secs) {
      EntriesNext(before, id, fix.value, now);
      at, due := some + [n - 1], before + [(id, fix.value)];
    } else {
      at, due := some, before;
    }
  }

  lemma {:induction false} DueOneMore(s: State, table: FixedTable, now: real, secs: int, n: nat)
    requires 0 < n <= |table| && secs > 0 && TableDistinct(table)
    ensures var before := DueOf(s, table, now, secs, n - 1);
            DueOf(s, table, now, secs, n)
            == if IsDue(s, table[n - 1].0, table[n - 1].1, now, secs)
               then before + [(table[n - 1].0, table[n - 1].1.value)] else before
  {
    NeedsSeedIff(s, table, now, secs, n - 1);
    assert DueOf(s, table, now, secs, n - 1) + [] == DueOf(s, table, now, secs, n - 1);
  }

  /** A planning pass publishes the entries of nodes.yaml that are due, and no others, in the
      order of the file, */
  lemma {:induction false} PlanInOrder(s: State, table: FixedTable, now: real, secs: int, n: nat)
    returns (at: seq<nat>)
    requires n <= |table| && secs > 0 && TableDistinct(table)
    ensures IsDueList(DueOf(s, table, now, secs, n), s, table, now, secs, n, at)
  {
    if n == 0 {
      at := [];
    } else {
      var some := PlanInOrder(s, table, now, secs, n - 1);
      var due;
      at, due := DueListNext(DueOf(s, table, now, secs, n - 1), s, table, now, secs, n, some);
      DueOneMore(s, table, now, secs, n);
    }
  }

  /** and remembers exactly what it publishes. */
  lemma {:induction false} PlanRemembers(s: State, table: FixedTable, now: real, secs: int, n: nat)
    requires n <= |table|
    ensures Planned(s, table, now, secs, n).planted == s.planted + Plantings(DueOf(s, table, now, secs, n), now)
  {
    if n == 0 {
      assert s.planted + Plantings([], now) == s.planted;
    } else {
      PlanRemembers(s, table, now, secs, n - 1);
      var before := DueOf(s, table, now, secs, n - 1);
      var (id, fix) := table[n - 1];
      if fix.Some? && NeedsSeed(Planned(s, table, now, secs, n - 1), id, now, secs) {
        EntriesNext(before, id, fix.value, now);
        assert s.planted + (Plantings(before, now) + [Planting(id, now)])
            == s.planted + Plantings(before, now) + [Planting(id, now)];
      } else {
        assert before + [] == before;
      }
    }
  }

  /** Two plantings of one node lie at least the interval apart. */
  predicate PlantedApart(planted: seq<Planting>, secs: int) {
    forall i, j :: 0 <= i < j < |planted| && planted[i].id == planted[j].id
      ==> planted[j].at - planted[i].at >= secs as real
  }

  // What was planted is remembered.
  predicate SentRemembers(s: State) {
    forall i :: 0 <= i < |s.planted| ==> s.planted[i].id in s.sent && s.planted[i].at <= s.sent[s.planted[i].id]
  }

  lemma {:induction false} PlannedApart(s: State, table: FixedTable, now: real, secs: int, n: nat)
    requires n <= |table| && secs > 0 && PlantedApart(s.planted, secs) && SentRemembers(s)
    ensures var s' := Planned(s, table, now, secs, n); PlantedApart(s'.planted, secs) && SentRemembers(s')
  {
    if n == 0 {
    } else {
      PlannedApart(s, table, now, secs, n - 1);
    }
  }

  lemma {:induction false} SeedPlantsNothing(s: State, nodes: seq<Node>, now: real, maxAge: int, staleMinutes: nat,
                                             n: nat)
    requires n <= |nodes|
    ensures var s' := Seeded(s, nodes, now, maxAge, staleMinutes, n); s'.planted == s.planted && s'.sent == s.sent
  {
    if n == 0 {
    } else {
      SeedPlantsNothing(s, nodes, now, maxAge, staleMinutes, n - 1);
    }
  }

  lemma {:induction false} RunPlantsApart(s: State, actions: seq<Action>, c: Config)
    requires PlantedApart(s.planted, c.seedSecs) && SentRemembers(s)
    ensures PlantedApart(After(s, actions, c).planted, c.seedSecs)
    decreases |actions|
  {
    if actions == [] {
    } else {
      match actions[0] {
        case Report(id, fix, now) =>
        case Pass(nodes, now, maxAge) => SeedPlantsNothing(s, nodes, now, maxAge, c.staleMinutes, |nodes|);
        case PlanFixed(table, now) =>
          if c.seedSecs > 0 {
            PlannedApart(s, table, now, c.seedSecs, |table|);
          }
      }
      RunPlantsApart(Act(s, actions[0], c), actions[1..], c);
    }
  }

  /** In every run, whatever its reports and passes, any two seeds of one node's fixed position
      lie at least the interval apart. */
  lemma {:induction false} SeedsApart(actions: seq<Action>, c: Config)
    ensures PlantedApart(After(Start(), actions, c).planted, c.seedSecs)
  {
    RunPlantsApart(Start(), actions, c);
  }
}
