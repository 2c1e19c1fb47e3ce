/** The store-and-forward bridge as a step system.

    Two coroutines share the buffer and the remote connection: one forwards live events,
    one reconnects and flushes.  Control passes only at an await, so a step is what one
    coroutine does between two awaits, and a run is any sequence of steps. */
module Bridge {
  import opened Options
  import opened Sequences

  import opened CotBuffer

  // Where the live-forwarding loop waits: for an event, for a send, for a failed link to close.
  datatype Live = Waiting | Sending(e: Event) | Closing(e: Event)

  // Where the reconnect loop waits.  A batch is what flush returned and is not yet sent.
  datatype Recon =
    | Sleeping
    | Connecting
    | Greeting
    | Flushing(batch: seq<Event>)
    | FlushClosing(batch: seq<Event>)
    | Refreshing
    | RefreshClosing

  /** The bridge, and beside it what has become of every event so far; those delivered are
      listed in the order in which the remote server received them. */
  datatype State = State(
    cap: nat,
    buf: seq<Event>,
    keys: seq<Key>,
    connected: bool,
    live: Live,
    recon: Recon,
    accepted: multiset<Event>,
    delivered: seq<Event>,
    evicted: multiset<Event>,
    dropped: multiset<Event>)

  function Init(cap: nat, connected: bool): State {
    State(cap, [], [], connected, Waiting, Sleeping, multiset{}, [], multiset{}, multiset{})
  }

  datatype Action =
    | Receive(e: Event)
    | SendOk | SendFails | SendClosed
    | Wake(refresh: bool)
    | Connects | ConnectFails
    | Greeted | GreetFails
    | FlushOk | FlushFails | FlushClosed
    | RefreshOk | RefreshFails | RefreshClosed

  predicate Enabled(s: State, a: Action) {
    match a
    case Receive(_) => s.live.Waiting?
    case SendOk => s.live.Sending?
    case SendFails => s.live.Sending?
    case SendClosed => s.live.Closing?
    case Wake(_) => s.recon.Sleeping?
    case Connects => s.recon.Connecting?
    case ConnectFails => s.recon.Connecting?
    case Greeted => s.recon.Greeting?
    case GreetFails => s.recon.Greeting?
    case FlushOk => s.recon.Flushing? && s.recon.batch != []
    case FlushFails => s.recon.Flushing?
    case FlushClosed => s.recon.FlushClosing?
    case RefreshOk => s.recon.Refreshing?
    case RefreshFails => s.recon.Refreshing?
    case RefreshClosed => s.recon.RefreshClosing?
  }

  // ---- Pieces of steps ----

  function Store(s: State, e: Event): State {
    s.(buf := Push(s.buf, e, s.cap), evicted := s.evicted + multiset(Overflow(s.buf, e, s.cap)))
  }

  function StoreAll(s: State, batch: seq<Event>): State
    decreases |batch|
  {
    if batch == [] then s else StoreAll(Store(s, batch[0]), batch[1..])
  }

  // The send returned success, and the event is marked as sent.
  function Deliver(s: State, e: Event): State {
    s.(delivered := s.delivered + [e],
       keys := if e.key.Some? then Remember(s.keys, e.key.value, 2 * s.cap) else s.keys)
  }

  /** The flush loop between two sends: done, or the next send starts, or there is no writer
      and the send returns failure at once. */
  function NextInBatch(s: State, batch: seq<Event>): State {
    if batch == [] then s.(recon := Sleeping)
    else if s.connected then s.(recon := Flushing(batch))
    else StoreAll(s, batch).(recon := Sleeping)
  }

  // The buffer has been flushed, and its batch is still to be taken care of.
  function Flushed(s: State): State {
    s.(buf := [], dropped := s.dropped + multiset(AlreadySent(s.buf, s.keys)))
  }

  // The other steps move no event.  When the greeting fails the writer stays set all the
  // same, so the buffer waits for the next loss and reconnect.
  function LinkAfter(s: State, a: Action): bool {
    if a.Connects? then true else if a.RefreshClosed? then false else s.connected
  }

  function ReconAfter(s: State, a: Action): Recon {
    match a
    case Wake(refresh) => if !s.connected then Connecting else if refresh then Refreshing else Sleeping
    case Connects => Greeting
    case RefreshFails => if s.connected then RefreshClosing else Sleeping
    case _ => Sleeping
  }

  function Quietly(s: State, a: Action): State {
    s.(connected := LinkAfter(s, a), recon := ReconAfter(s, a))
  }

  function Next(s: State, a: Action): State
    requires Enabled(s, a)
  {
    match a
    case Receive(e) =>
      var t := s.(accepted := s.accepted + multiset{e});
      if s.connected then t.(live := Sending(e)) else Store(t, e)
    case SendOk => Deliver(s, s.live.e).(live := Waiting)
    case SendFails =>
      // _close returns at once when the other coroutine has already dropped the writer.
      if s.connected then s.(live := Closing(s.live.e)) else Store(s, s.live.e).(live := Waiting)
    case SendClosed => Store(s.(connected := false), s.live.e).(live := Waiting)
    case Greeted =>
      NextInBatch(Flushed(s), Unsent(s.buf, s.keys))
    case FlushOk => NextInBatch(Deliver(s, s.recon.batch[0]), s.recon.batch[1..])
    case FlushFails =>
      if s.connected then s.(recon := FlushClosing(s.recon.batch))
      else StoreAll(s, s.recon.batch).(recon := Sleeping)
    case FlushClosed => StoreAll(s.(connected := false), s.recon.batch).(recon := Sleeping)
    case _ => Quietly(s, a)
  }

  // ---- The invariant ----

  function LiveFlight(l: Live): multiset<Event> {
    if l.Waiting? then multiset{} else multiset{l.e}
  }

  function ReconFlight(r: Recon): multiset<Event> {
    if r.Flushing? || r.FlushClosing? then multiset(r.batch) else multiset{}
  }

  /** Every accepted event is in exactly one place, counting repetitions; `extra` stands for
      what the reconnect loop holds. */
  ghost predicate Conserved(s: State, extra: multiset<Event>) {
    forall e :: s.accepted[e] ==
      multiset(s.delivered)[e] + multiset(s.buf)[e] + LiveFlight(s.live)[e] + extra[e] + s.evicted[e] + s.dropped[e]
  }

  // Some event with key k has been delivered.
  ghost predicate WasDelivered(delivered: seq<Event>, k: Key) {
    exists d :: d in delivered && d.key == Some(k)
  }

  ghost predicate SentKeysDelivered(keys: seq<Key>, delivered: seq<Event>) {
    forall k :: k in keys ==> WasDelivered(delivered, k)
  }

  ghost predicate DropsJustified(dropped: multiset<Event>, delivered: seq<Event>) {
    forall e :: e in dropped ==> e.key.Some? && WasDelivered(delivered, e.key.value)
  }

  // Until twice the capacity has been delivered, no delivered key is forgotten.
  ghost predicate Remembers(keys: seq<Key>, delivered: seq<Event>, cap: nat) {
    && |keys| <= |delivered|
    && (|delivered| <= 2 * cap ==> forall d :: d in delivered && d.key.Some? ==> d.key.value in keys)
  }

  predicate Bounded(s: State) {
    s.cap >= 1 && |s.buf| <= s.cap && NoRepeats(s.keys) && |s.keys| <= 2 * s.cap
  }

  // The ring loses events only once more than its capacity has been accepted.
  predicate NoEarlyEviction(s: State) {
    |s.accepted| <= s.cap ==> s.evicted == multiset{}
  }

  ghost predicate InvBut(s: State, extra: multiset<Event>) {
    && Bounded(s) && Conserved(s, extra) && NoEarlyEviction(s)
    && SentKeysDelivered(s.keys, s.delivered) && DropsJustified(s.dropped, s.delivered)
    && Remembers(s.keys, s.delivered, s.cap)
  }

  ghost predicate Inv(s: State) {
    InvBut(s, ReconFlight(s.recon))
  }

  // ---- Preservation ----

  lemma PartIsSmaller<T>(part: multiset<T>, whole: multiset<T>)
    requires part <= whole
    ensures |part| <= |whole|
  {
    assert whole == part + (whole - part);
  }

  lemma {:induction false} StoreKeeps(s: State, e: Event)
    requires |s.buf| <= s.cap
    ensures var t := Store(s, e);
            && t == s.(buf := t.buf, evicted := t.evicted)
            && (forall x :: multiset(t.buf)[x] + t.evicted[x] == multiset(s.buf)[x] + multiset{e}[x] + s.evicted[x])
            && |t.buf| <= s.cap
            && (|s.buf| < s.cap ==> t.evicted == s.evicted && |t.buf| == |s.buf| + 1)
  {
    PushKeepsAll(s.buf, e, s.cap);
    forall x {
      PushCounts(s.buf, e, s.cap, x);
    }
  }

  lemma {:induction false} StoreAllKeeps(s: State, batch: seq<Event>)
    requires |s.buf| <= s.cap
    ensures var t := StoreAll(s, batch);
            && t == s.(buf := t.buf, evicted := t.evicted)
            && (forall x :: multiset(t.buf)[x] + t.evicted[x] == multiset(s.buf)[x] + multiset(batch)[x] + s.evicted[x])
            && |t.buf| <= s.cap
            && (|s.buf| + |batch| <= s.cap ==> t.evicted == s.evicted)
    decreases |batch|
  {
    if batch == [] {
    } else {
      var u := Store(s, batch[0]);
      StoreKeeps(s, batch[0]);
      StoreAllKeeps(u, batch[1..]);
      var t := StoreAll(u, batch[1..]);
      forall x
        ensures multiset(t.buf)[x] + t.evicted[x] == multiset(s.buf)[x] + multiset(batch)[x] + s.evicted[x]
      {
        HeadCounts(batch, x);
        assert multiset(u.buf)[x] + u.evicted[x] == multiset(s.buf)[x] + multiset{batch[0]}[x] + s.evicted[x];
      }
    }
  }

  lemma {:induction false} StoreBatchInv(s: State, batch: seq<Event>)
    requires InvBut(s, multiset(batch))
    ensures Inv(StoreAll(s, batch).(recon := Sleeping))
  {
    StoreAllKeeps(s, batch);
    PartIsSmaller(multiset(s.buf) + multiset(batch), s.accepted);
  }

  lemma {:induction false} StoreLiveConserves(s: State)
    requires Inv(s) && !s.live.Waiting?
    ensures Conserved(Store(s, s.live.e).(live := Waiting), ReconFlight(s.recon))
  {
    var t := Store(s, s.live.e).(live := Waiting);
    StoreKeeps(s, s.live.e);
    forall x
      ensures t.accepted[x]
           == multiset(t.delivered)[x] + multiset(t.buf)[x] + ReconFlight(s.recon)[x] + t.evicted[x] + t.dropped[x]
    {
      assert LiveFlight(s.live) == multiset{s.live.e};
    }
  }

  lemma {:induction false} StoreLiveEvictsLate(s: State)
    requires Inv(s) && !s.live.Waiting?
    ensures NoEarlyEviction(Store(s, s.live.e).(live := Waiting))
  {
    StoreKeeps(s, s.live.e);
    PartIsSmaller(multiset(s.buf) + multiset{s.live.e}, s.accepted);
  }

  lemma {:induction false} StoreLiveInv(s: State)
    requires Inv(s) && !s.live.Waiting?
    ensures Inv(Store(s, s.live.e).(live := Waiting))
  {
    StoreKeeps(s, s.live.e);
    StoreLiveConserves(s);
    StoreLiveEvictsLate(s);
  }

  lemma {:induction false} NextInBatchInv(s: State, batch: seq<Event>)
    requires InvBut(s, multiset(batch))
    ensures Inv(NextInBatch(s, batch))
  {
    if batch != [] && !s.connected {
      StoreBatchInv(s, batch);
    }
  }

  lemma StillDelivered(delivered: seq<Event>, e: Event, k: Key)
    requires WasDelivered(delivered, k)
    ensures WasDelivered(delivered + [e], k)
  {
    var d :| d in delivered && d.key == Some(k);
    assert d in delivered + [e];
  }

  lemma {:induction false} DeliverKeepsKeys(s: State, e: Event)
    requires Bounded(s) && SentKeysDelivered(s.keys, s.delivered)
    ensures Bounded(Deliver(s, e)) && SentKeysDelivered(Deliver(s, e).keys, Deliver(s, e).delivered)
  {
    var t := Deliver(s, e);
    if e.key.Some? {
      RememberKeeps(s.keys, e.key.value, 2 * s.cap);
      assert e in t.delivered;
    }
    forall k | k in t.keys
      ensures WasDelivered(t.delivered, k)
    {
      if k in s.keys {
        StillDelivered(s.delivered, e, k);
      }
    }
  }

  lemma {:induction false} DeliverJustifies(s: State, e: Event)
    requires DropsJustified(s.dropped, s.delivered)
    ensures DropsJustified(s.dropped, Deliver(s, e).delivered)
  {
    forall x | x in s.dropped
      ensures x.key.Some? && WasDelivered(Deliver(s, e).delivered, x.key.value)
    {
      StillDelivered(s.delivered, e, x.key.value);
    }
  }

  lemma {:induction false} DeliverRemembers(s: State, e: Event)
    requires Bounded(s) && Remembers(s.keys, s.delivered, s.cap)
    ensures Remembers(Deliver(s, e).keys, Deliver(s, e).delivered, s.cap)
  {
    var t := Deliver(s, e);
    if e.key.Some? {
      RememberKeeps(s.keys, e.key.value, 2 * s.cap);
    }
    if |t.delivered| <= 2 * s.cap {
      forall d | d in t.delivered && d.key.Some?
        ensures d.key.value in t.keys
      {
        assert d == e || d in s.delivered;
      }
    }
  }

  lemma {:induction false} DeliverKeeps(s: State, e: Event)
    requires Bounded(s) && SentKeysDelivered(s.keys, s.delivered) && DropsJustified(s.dropped, s.delivered)
    requires Remembers(s.keys, s.delivered, s.cap)
    ensures var t := Deliver(s, e);
            && Bounded(t) && SentKeysDelivered(t.keys, t.delivered) && DropsJustified(t.dropped, t.delivered)
            && Remembers(t.keys, t.delivered, t.cap)
  {
    DeliverKeepsKeys(s, e);
    DeliverJustifies(s, e);
    DeliverRemembers(s, e);
  }

  lemma DeliveredCounts(delivered: seq<Event>, e: Event, x: Event)
    ensures multiset(delivered + [e])[x] == multiset(delivered)[x] + multiset{e}[x]
  {
    assert multiset(delivered + [e]) == multiset(delivered) + multiset{e};
  }

  lemma {:induction false} DeliverLiveInv(s: State)
    requires Inv(s) && s.live.Sending?
    ensures Inv(Deliver(s, s.live.e).(live := Waiting))
  {
    DeliverKeeps(s, s.live.e);
    forall x {
      DeliveredCounts(s.delivered, s.live.e, x);
    }
  }

  lemma {:induction false} DeliverBatchInv(s: State)
    requires Inv(s) && s.recon.Flushing? && s.recon.batch != []
    ensures InvBut(Deliver(s, s.recon.batch[0]), multiset(s.recon.batch[1..]))
  {
    var batch := s.recon.batch;
    DeliverKeeps(s, batch[0]);
    forall x
      ensures multiset(s.delivered + [batch[0]])[x] + multiset(batch[1..])[x]
           == multiset(s.delivered)[x] + multiset(batch)[x]
    {
      DeliveredCounts(s.delivered, batch[0], x);
      HeadCounts(batch, x);
    }
  }

  lemma {:induction false} FlushDropsJustified(s: State)
    requires Inv(s)
    ensures DropsJustified(Flushed(s).dropped, s.delivered)
  {
    FlushSplits(s.buf, s.keys);
    forall e | e in Flushed(s).dropped
      ensures e.key.Some? && WasDelivered(s.delivered, e.key.value)
    {
      assert e in s.dropped || e in AlreadySent(s.buf, s.keys);
    }
  }

  lemma {:induction false} FlushConserves(s: State)
    requires Inv(s) && s.recon.Greeting?
    ensures Conserved(Flushed(s), multiset(Unsent(s.buf, s.keys)))
  {
    FlushSplits(s.buf, s.keys);
  }

  lemma {:induction false} GreetedInv(s: State)
    requires Inv(s) && s.recon.Greeting?
    ensures Inv(NextInBatch(Flushed(s), Unsent(s.buf, s.keys)))
  {
    FlushDropsJustified(s);
    FlushConserves(s);
    NextInBatchInv(Flushed(s), Unsent(s.buf, s.keys));
  }

  lemma {:induction false} ReceiveInv(s: State, e: Event)
    requires Inv(s) && s.live.Waiting?
    ensures Inv(Next(s, Receive(e)))
  {
    var t := s.(accepted := s.accepted + multiset{e}, live := Sending(e));
    assert Inv(t);
    if !s.connected {
      StoreLiveInv(t);
    }
  }

  lemma {:induction false} FlushOkInv(s: State)
    requires Inv(s) && Enabled(s, FlushOk)
    ensures Inv(Next(s, FlushOk))
  {
    DeliverBatchInv(s);
    NextInBatchInv(Deliver(s, s.recon.batch[0]), s.recon.batch[1..]);
  }

  lemma {:induction false} FlushLostInv(s: State, a: Action)
    requires Inv(s) && Enabled(s, a) && (a.FlushFails? || a.FlushClosed?)
    ensures Inv(Next(s, a))
  {
    StoreBatchInv(s.(connected := s.connected && a.FlushFails?), s.recon.batch);
  }

  lemma {:induction false} ClosingInv(s: State)
    requires Inv(s) && s.live.Sending?
    ensures Inv(s.(live := Closing(s.live.e)))
  {
    assert LiveFlight(Closing(s.live.e)) == LiveFlight(s.live);
  }

  lemma {:induction false} UnlinkedInv(s: State)
    requires Inv(s)
    ensures Inv(s.(connected := false))
  {
  }

  lemma {:induction false} SendFailsInv(s: State)
    requires Inv(s) && s.live.Sending?
    ensures Inv(Next(s, SendFails))
  {
    if s.connected {
      ClosingInv(s);
    } else {
      StoreLiveInv(s);
    }
  }

  lemma {:induction false} SendClosedInv(s: State)
    requires Inv(s) && s.live.Closing?
    ensures Inv(Next(s, SendClosed))
  {
    UnlinkedInv(s);
    StoreLiveInv(s.(connected := false));
  }

  lemma {:induction false} QuietStepInv(s: State, a: Action)
    requires Inv(s) && ReconFlight(s.recon) == multiset{}
    ensures Inv(Quietly(s, a))
  {
  }

  lemma {:induction false} StepInv(s: State, a: Action)
    requires Inv(s) && Enabled(s, a)
    ensures Inv(Next(s, a))
  {
    match a
    case Receive(e) => ReceiveInv(s, e);
    case SendOk => DeliverLiveInv(s);
    case SendFails => SendFailsInv(s);
    case SendClosed => SendClosedInv(s);
    case Greeted => GreetedInv(s);
    case FlushOk => FlushOkInv(s);
    case FlushFails => FlushLostInv(s, a);
    case FlushClosed => FlushLostInv(s, a);
    case _ => QuietStepInv(s, a);
  }

  // ---- Runs ----

  predicate IsRun(s: State, run: seq<Action>)
    decreases |run|
  {
    run == [] || (Enabled(s, run[0]) && IsRun(Next(s, run[0]), run[1..]))
  }

  function After(s: State, run: seq<Action>): State
    requires IsRun(s, run)
    decreases |run|
  {
    if run == [] then s else After(Next(s, run[0]), run[1..])
  }

  lemma {:induction false} StoreAllCap(s: State, batch: seq<Event>)
    ensures StoreAll(s, batch).cap == s.cap
    decreases |batch|
  {
    if batch == [] {
    } else {
      StoreAllCap(Store(s, batch[0]), batch[1..]);
    }
  }

  lemma {:induction false} NextInBatchCap(s: State, batch: seq<Event>)
    ensures NextInBatch(s, batch).cap == s.cap
  {
    StoreAllCap(s, batch);
  }

  lemma {:induction false} CapFixed(s: State, a: Action)
    requires Enabled(s, a)
    ensures Next(s, a).cap == s.cap
  {
    match a
    case Greeted => NextInBatchCap(Flushed(s), Unsent(s.buf, s.keys));
    case FlushOk => NextInBatchCap(Deliver(s, s.recon.batch[0]), s.recon.batch[1..]);
    case FlushFails => StoreAllCap(s, s.recon.batch);
    case FlushClosed => StoreAllCap(s.(connected := false), s.recon.batch);
    case _ =>
  }

  lemma {:induction false} RunInv(s: State, run: seq<Action>)
    requires Inv(s) && IsRun(s, run)
    ensures Inv(After(s, run)) && After(s, run).cap == s.cap
    decreases |run|
  {
    if run == [] {
    } else {
      StepInv(s, run[0]);
      CapFixed(s, run[0]);
      RunInv(Next(s, run[0]), run[1..]);
    }
  }

  /** Over every interleaving, every accepted event is delivered, buffered, in flight,
      evicted by the full ring or dropped as a duplicate of a delivered event. */
  lemma {:induction false} NothingIsLost(cap: nat, connected: bool, run: seq<Action>)
    requires cap >= 1 && IsRun(Init(cap, connected), run)
    ensures var s := After(Init(cap, connected), run);
            && Conserved(s, ReconFlight(s.recon))
            && SentKeysDelivered(s.keys, s.delivered)
            && DropsJustified(s.dropped, s.delivered)
            && |s.buf| <= cap
  {
    RunInv(Init(cap, connected), run);
  }

  /** As long as no more than the ring's capacity was ever accepted, nothing is evicted, so
      every accepted event is delivered, in flight, buffered or dropped as a duplicate. */
  lemma {:induction false} NothingIsLostBelowCapacity(cap: nat, connected: bool, run: seq<Action>)
    requires cap >= 1 && IsRun(Init(cap, connected), run)
    requires |After(Init(cap, connected), run).accepted| <= cap
    ensures var s := After(Init(cap, connected), run);
            && s.evicted == multiset{}
            && forall e :: s.accepted[e] == multiset(s.delivered)[e] + multiset(s.buf)[e] + LiveFlight(s.live)[e]
                                            + ReconFlight(s.recon)[e] + s.dropped[e]
  {
    RunInv(Init(cap, connected), run);
  }

  /** Until twice the capacity has been delivered, what a flush would return holds no event
      with the key of one that was delivered before. */
  lemma {:induction false} FlushReturnsNothingSent(cap: nat, connected: bool, run: seq<Action>)
    requires cap >= 1 && IsRun(Init(cap, connected), run)
    ensures var s := After(Init(cap, connected), run);
            |s.delivered| <= 2 * cap ==>
              forall e :: e in Unsent(s.buf, s.keys) && e.key.Some? ==> !WasDelivered(s.delivered, e.key.value)
  {
    RunInv(Init(cap, connected), run);
    var s := After(Init(cap, connected), run);
    FlushSplits(s.buf, s.keys);
  }

  // ---- When the greeting fails ----

  /** Connected, while the reconnect loop is not at work on a new link. */
  predicate Settled(s: State) {
    s.connected && (s.recon.Sleeping? || s.recon.Refreshing? || s.recon.RefreshClosing?)
  }

  /** A step that finds the link lost and drops the writer. */
  predicate Loses(s: State, a: Action)
    requires Enabled(s, a)
  {
    s.connected && !Next(s, a).connected
  }

  predicate KeepsLink(s: State, run: seq<Action>)
    requires IsRun(s, run)
    decreases |run|
  {
    run == [] || (!Loses(s, run[0]) && KeepsLink(Next(s, run[0]), run[1..]))
  }

  /** The bridge gets to flush its buffer without losing the link any more. */
  ghost predicate FlushAhead(s: State) {
    exists run :: IsRun(s, run) && KeepsLink(s, run) && Enabled(After(s, run), Greeted)
  }

  /** A reconnect whose greeting fails leaves the bridge connected with a full buffer. */
  lemma {:induction false} GreetingMayFail(cap: nat, e: Event)
    requires cap >= 1
    ensures var s, run := Init(cap, false), [Receive(e), Wake(false), Connects, GreetFails];
            IsRun(s, run) && Settled(After(s, run)) && After(s, run).buf == [e]
  {
    var s0 := Init(cap, false);
    var s1 := Next(s0, Receive(e));
    var s2 := Next(s1, Wake(false));
    var s3 := Next(s2, Connects);
    var s4 := Next(s3, GreetFails);
    var run3 := [GreetFails];
    var run2 := [Connects, GreetFails];
    var run1 := [Wake(false), Connects, GreetFails];
    var run0 := [Receive(e), Wake(false), Connects, GreetFails];
    assert run0[1..] == run1 && run1[1..] == run2 && run2[1..] == run3 && run3[1..] == [];
    assert IsRun(s3, run3) && After(s3, run3) == s4;
    assert IsRun(s2, run2) && After(s2, run2) == s4;
    assert IsRun(s1, run1) && After(s1, run1) == s4;
  }

  lemma {:induction false} SettledStep(s: State, a: Action)
    requires Settled(s) && Enabled(s, a) && !Loses(s, a)
    ensures Settled(Next(s, a)) && Next(s, a).buf == s.buf
  {
  }

  /** From then on, as long as the link is not lost, the buffer stays exactly as it is and is
      never flushed, however many events come and go. */
  lemma {:induction false} BufferWaits(s: State, run: seq<Action>)
    requires Settled(s) && IsRun(s, run) && KeepsLink(s, run)
    ensures Settled(After(s, run)) && After(s, run).buf == s.buf && !Enabled(After(s, run), Greeted)
    decreases |run|
  {
    if run == [] {
    } else {
      SettledStep(s, run[0]);
      BufferWaits(Next(s, run[0]), run[1..]);
    }
  }

  // What the reconnect loop does next once the link is lost.
  function Recovery(s: State): seq<Action>
  {
    match s.recon
    case Refreshing => [RefreshOk, Wake(false), Connects]
    case RefreshClosing => [RefreshClosed, Wake(false), Connects]
    case _ => [Wake(false), Connects]
  }

  lemma {:induction false} RecoveryFromSleep(s: State)
    requires !s.connected && s.recon.Sleeping?
    ensures var run := [Wake(false), Connects];
            && IsRun(s, run) && KeepsLink(s, run)
            && Enabled(After(s, run), Greeted) && After(s, run).buf == s.buf
  {
    var s1 := Next(s, Wake(false));
    var s2 := Next(s1, Connects);
    var run1 := [Connects];
    var run0 := [Wake(false), Connects];
    assert run0[1..] == run1 && run1[1..] == [];
    assert IsRun(s1, run1) && KeepsLink(s1, run1) && After(s1, run1) == s2;
  }

  lemma {:induction false} RecoveryGreets(s: State)
    requires !s.connected && (s.recon.Sleeping? || s.recon.Refreshing? || s.recon.RefreshClosing?)
    ensures IsRun(s, Recovery(s)) && KeepsLink(s, Recovery(s))
    ensures Enabled(After(s, Recovery(s)), Greeted) && After(s, Recovery(s)).buf == s.buf
  {
    if s.recon.Sleeping? {
      RecoveryFromSleep(s);
    } else {
      var run := Recovery(s);
      assert run[1..] == [Wake(false), Connects];
      RecoveryFromSleep(Next(s, run[0]));
    }
  }

  /** A flush comes within reach exactly by a step that loses the link. */
  lemma {:induction false} FlushNeedsLoss(s: State, a: Action)
    requires Settled(s) && Enabled(s, a)
    ensures FlushAhead(Next(s, a)) <==> Loses(s, a)
  {
    var t := Next(s, a);
    if Loses(s, a) {
      RecoveryGreets(t);
    } else {
      SettledStep(s, a);
      forall run | IsRun(t, run) && KeepsLink(t, run)
        ensures !Enabled(After(t, run), Greeted)
      {
        BufferWaits(t, run);
      }
    }
  }

  // ---- What a run gets done ----

  lemma DropOne<T>(y: seq<T>, more: seq<T>, k: nat)
    requires y != [] && k < |y + more|
    ensures (y[1..] + more)[k..] == (y + more)[k + 1..]
  {
  }

  lemma NewestOfNewest<T>(q: seq<T>, x: T, more: seq<T>, cap: nat)
    requires |q| <= cap
    ensures Newest(Newest(q + [x], cap) + more, cap) == Newest(q + ([x] + more), cap)
  {
    var y := q + [x];
    assert q + ([x] + more) == y + more;
    if |y| <= cap {
      assert Newest(y, cap) == y;
    } else {
      assert Newest(y, cap) == y[1..];
      assert |y[1..] + more| == cap + |more| && |y + more| == cap + |more| + 1;
      assert Newest(y[1..] + more, cap) == (y[1..] + more)[|more|..];
      DropOne(y, more, |more|);
    }
  }

  /** A failed batch goes behind what is buffered, in its order, and the oldest give way. */
  lemma {:induction false} StoredInOrder(s: State, batch: seq<Event>)
    requires |s.buf| <= s.cap
    ensures StoreAll(s, batch).buf == Newest(s.buf + batch, s.cap)
    decreases |batch|
  {
    if batch == [] {
      assert s.buf + batch == s.buf;
    } else {
      PushIsNewest(s.buf, batch[0], s.cap);
      StoredInOrder(Store(s, batch[0]), batch[1..]);
      NewestOfNewest(s.buf, batch[0], batch[1..], s.cap);
      assert batch == [batch[0]] + batch[1..];
    }
  }

  // Receiving is always possible between two events, and so is each outcome of a send.
  lemma {:induction false} LiveForwards(s: State, e: Event)
    requires s.connected && s.live.Waiting?
    ensures IsRun(s, [Receive(e), SendOk]) && IsRun(s, [Receive(e), SendFails, SendClosed])
    ensures var t := After(s, [Receive(e), SendOk]);
            && t.delivered == s.delivered + [e] && t.buf == s.buf && t.connected && t.live.Waiting?
            && (e.key.Some? ==> t.keys == Remember(s.keys, e.key.value, 2 * s.cap))
    ensures var t := After(s, [Receive(e), SendFails, SendClosed]);
            t.delivered == s.delivered && t.buf == Push(s.buf, e, s.cap) && !t.connected && t.live.Waiting?
  {
    var s1 := Next(s, Receive(e));
    var s2 := Next(s1, SendFails);
    assert [Receive(e), SendOk][1..] == [SendOk] && [SendOk][1..] == [];
    assert [Receive(e), SendFails, SendClosed][1..] == [SendFails, SendClosed];
    assert [SendFails, SendClosed][1..] == [SendClosed] && [SendClosed][1..] == [];
    assert IsRun(s1, [SendOk]) && After(s1, [SendOk]) == Next(s1, SendOk);
    assert IsRun(s2, [SendClosed]) && After(s2, [SendClosed]) == Next(s2, SendClosed);
    assert IsRun(s1, [SendFails, SendClosed]) && After(s1, [SendFails, SendClosed]) == Next(s2, SendClosed);
  }

  /** While the link is down an event goes straight to the end of the buffer. */
  lemma {:induction false} DownBuffers(s: State, e: Event)
    requires !s.connected && s.live.Waiting?
    ensures Enabled(s, Receive(e))
    ensures Next(s, Receive(e)).buf == Push(s.buf, e, s.cap) && Next(s, Receive(e)).live.Waiting?
    ensures Next(s, Receive(e)).delivered == s.delivered
  {
  }

  function Times(a: Action, n: nat): seq<Action> {
    seq(n, _ => a)
  }

  lemma TimesSplits(a: Action, n: nat)
    requires n > 0
    ensures Times(a, n)[0] == a && Times(a, n)[1..] == Times(a, n - 1)
  {
  }

  /** From s to t the first n events of the batch were delivered, and nothing else happened. */
  predicate SentFront(s: State, t: State, n: nat)
    requires s.recon.Flushing? && n <= |s.recon.batch|
  {
    && t.delivered == s.delivered + s.recon.batch[..n]
    && t.buf == s.buf && t.connected && t.live == s.live && t.cap == s.cap
    && t.recon == if n == |s.recon.batch| then Sleeping else Flushing(s.recon.batch[n..])
  }

  lemma FrontGrows(s: State, s1: State, t: State, n: nat)
    requires s.recon.Flushing? && 1 < |s.recon.batch| && n < |s.recon.batch|
    requires SentFront(s, s1, 1) && SentFront(s1, t, n)
    ensures SentFront(s, t, n + 1)
  {
    var batch := s.recon.batch;
    assert s.delivered + batch[..1] + batch[1..][..n] == s.delivered + batch[..n + 1];
    assert batch[1..][n..] == batch[n + 1..];
  }

  /** Sends that succeed deliver the front of the batch in its order. */
  lemma {:induction false} FlushSends(s: State, n: nat)
    requires s.connected && s.recon.Flushing? && n <= |s.recon.batch| && s.recon.batch != []
    ensures IsRun(s, Times(FlushOk, n)) && SentFront(s, After(s, Times(FlushOk, n)), n)
    decreases n
  {
    var batch := s.recon.batch;
    if n == 0 {
      assert s.delivered + batch[..0] == s.delivered && batch[0..] == batch;
    } else {
      TimesSplits(FlushOk, n);
      var s1 := Next(s, FlushOk);
      assert batch[..1] == [batch[0]];
      assert SentFront(s, s1, 1);
      if n == 1 {
        assert Times(FlushOk, 0) == [];
      } else {
        FlushSends(s1, n - 1);
        FrontGrows(s, s1, After(s1, Times(FlushOk, n - 1)), n - 1);
      }
    }
  }

  lemma HeadOfBoth<T>(first: seq<T>, second: seq<T>)
    requires first != []
    ensures first + second != [] && (first + second)[0] == first[0] && (first + second)[1..] == first[1..] + second
  {
  }

  lemma {:induction false} RunsJoin(s: State, first: seq<Action>, second: seq<Action>)
    requires IsRun(s, first) && IsRun(After(s, first), second)
    ensures IsRun(s, first + second) && After(s, first + second) == After(After(s, first), second)
    decreases |first|
  {
    if first == [] {
      assert first + second == second;
    } else {
      HeadOfBoth(first, second);
      var s1 := Next(s, first[0]);
      assert IsRun(s1, first[1..]) && After(s, first) == After(s1, first[1..]);
      RunsJoin(s1, first[1..], second);
    }
  }

  // The reconnect loop's own steps up to the flush.
  function ToFlush(): seq<Action> {
    [Wake(false), Connects, Greeted]
  }

  lemma {:induction false} FlushBegins(s: State)
    requires !s.connected && s.recon.Sleeping?
    ensures IsRun(s, ToFlush())
    ensures var t, batch := After(s, ToFlush()), Unsent(s.buf, s.keys);
            && t.delivered == s.delivered && t.buf == [] && t.connected && t.live == s.live && t.cap == s.cap
            && t.recon == if batch == [] then Sleeping else Flushing(batch)
  {
    var s1 := Next(s, Wake(false));
    var s2 := Next(s1, Connects);
    assert ToFlush()[1..] == [Connects, Greeted] && [Connects, Greeted][1..] == [Greeted] && [Greeted][1..] == [];
    assert IsRun(s2, [Greeted]) && After(s2, [Greeted]) == Next(s2, Greeted);
    assert IsRun(s1, [Connects, Greeted]) && After(s1, [Connects, Greeted]) == Next(s2, Greeted);
  }

  /** After a loss, a reconnect whose sends all succeed delivers the backlog: the buffered events
      whose key was not sent, in the order in which they were buffered. */
  lemma {:induction false} BacklogDelivered(s: State)
    requires !s.connected && s.recon.Sleeping?
    ensures var backlog := Unsent(s.buf, s.keys);
            var run := ToFlush() + Times(FlushOk, |backlog|);
            && IsUnsentPart(backlog, s.buf, s.keys) && IsRun(s, run)
            && After(s, run).delivered == s.delivered + backlog && After(s, run).buf == []
            && After(s, run).connected && After(s, run).recon.Sleeping?
  {
    var backlog := Unsent(s.buf, s.keys);
    UnsentIsPart(s.buf, s.keys);
    FlushBegins(s);
    var t := After(s, ToFlush());
    if backlog == [] {
      assert Times(FlushOk, 0) == [] && s.delivered + backlog == s.delivered;
    } else {
      FlushSends(t, |backlog|);
      assert backlog[..|backlog|] == backlog;
    }
    RunsJoin(s, ToFlush(), Times(FlushOk, |backlog|));
  }

  lemma TwoSteps(s: State, a: Action, b: Action)
    requires Enabled(s, a) && Enabled(Next(s, a), b)
    ensures IsRun(s, [a, b]) && After(s, [a, b]) == Next(Next(s, a), b)
  {
    var t := Next(s, a);
    assert [a, b][1..] == [b] && [b][1..] == [];
    assert IsRun(t, [b]) && After(t, [b]) == After(Next(t, b), []);
  }

  /** An attempt to connect that fails leaves everything as it was, to be tried again. */
  lemma {:induction false} ConnectIsRetried(s: State, refresh: bool)
    requires !s.connected && s.recon.Sleeping?
    ensures IsRun(s, [Wake(refresh), ConnectFails]) && After(s, [Wake(refresh), ConnectFails]) == s
  {
    TwoSteps(s, Wake(refresh), ConnectFails);
  }

  /** While the link is up the reconnect loop only refreshes it. */
  lemma {:induction false} RefreshOnly(s: State)
    requires s.connected && s.recon.Sleeping?
    ensures IsRun(s, [Wake(true), RefreshOk]) && After(s, [Wake(true), RefreshOk]) == s
    ensures Next(s, Wake(false)) == s
  {
    TwoSteps(s, Wake(true), RefreshOk);
  }

  /** A refresh that fails drops the link, and nothing else. */
  lemma {:induction false} LinkLostInRefresh(s: State)
    requires s.connected && s.recon.Refreshing?
    ensures IsRun(s, [RefreshFails, RefreshClosed])
    ensures After(s, [RefreshFails, RefreshClosed]) == s.(connected := false, recon := Sleeping)
  {
    TwoSteps(s, RefreshFails, RefreshClosed);
  }

  lemma {:induction false} StoringMovesOnly(s: State, batch: seq<Event>)
    ensures var t := StoreAll(s, batch); t.delivered == s.delivered && t.connected == s.connected
    decreases |batch|
  {
    if batch == [] {
    } else {
      StoringMovesOnly(Store(s, batch[0]), batch[1..]);
    }
  }

  lemma {:induction false} LinkLostInFlush(s: State)
    requires s.connected && s.recon.Flushing? && |s.buf| <= s.cap
    ensures var run := [FlushFails, FlushClosed];
            && IsRun(s, run) && After(s, run).delivered == s.delivered
            && After(s, run).buf == Newest(s.buf + s.recon.batch, s.cap)
            && !After(s, run).connected && After(s, run).recon.Sleeping?
  {
    TwoSteps(s, FlushFails, FlushClosed);
    var cut := Next(s, FlushFails).(connected := false);
    StoredInOrder(cut, s.recon.batch);
    StoringMovesOnly(cut, s.recon.batch);
  }

  /** And if send n fails, the rest of the batch is back in the buffer, in its order, behind
      whatever was buffered meanwhile. */
  lemma {:induction false} BacklogResumes(s: State, n: nat)
    requires s.connected && s.recon.Flushing? && n < |s.recon.batch| && |s.buf| <= s.cap
    ensures var run := Times(FlushOk, n) + [FlushFails, FlushClosed];
            && IsRun(s, run) && After(s, run).delivered == s.delivered + s.recon.batch[..n]
            && After(s, run).buf == Newest(s.buf + s.recon.batch[n..], s.cap)
            && !After(s, run).connected && After(s, run).recon.Sleeping?
  {
    FlushSends(s, n);
    LinkLostInFlush(After(s, Times(FlushOk, n)));
    RunsJoin(s, Times(FlushOk, n), [FlushFails, FlushClosed]);
  }
}
