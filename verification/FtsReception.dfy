/** The patched ClientReceptionHandler: per-client carry between polls, over whole runs. */
module FtsReception {
  import opened Search
  import opened Sequences

  import opened CotFraming

  type Client = string

  const MAX_PARTIAL_BYTES := 1024 * 1024

  /** What polling a client's socket yields: bytes (none when the peer closed), nothing yet
      (timeout or EWOULDBLOCK), or any other failure. */
  datatype Received = Got(bytes: Bytes) | Quiet | Failed

  // A message for the core: an event of a client, or no bytes to say the client is gone.
  datatype RawCot = RawCot(client: Client, xml: Bytes)

  function StripNewlines(s: Bytes): Bytes {
    if s == [] then []
    else if s[0] == NEWLINE then StripNewlines(s[1..])
    else [s[0]] + StripNewlines(s[1..])
  }

  /** Removing newlines: the result holds none, */
  lemma {:induction false} StripLeavesNoNewline(s: Bytes)
    ensures NEWLINE !in StripNewlines(s)
  {
    if s == [] {
    } else {
      StripLeavesNoNewline(s[1..]);
    }
  }

  /** every other byte stays, */
  lemma {:induction false} StripKeepsOthers(s: Bytes)
    requires NEWLINE !in s
    ensures StripNewlines(s) == s
  {
    if s == [] {
    } else {
      StripKeepsOthers(s[1..]);
      assert s == [s[0]] + s[1..];
    }
  }

  /** and what is on either side of a place does not matter to the other. */
  lemma {:induction false} StripAppend(a: Bytes, b: Bytes)
    ensures StripNewlines(a + b) == StripNewlines(a) + StripNewlines(b)
  {
    if a == [] {
      assert a + b == b;
    } else {
      assert (a + b)[0] == a[0] && (a + b)[1..] == a[1..] + b;
      StripAppend(a[1..], b);
      if a[0] != NEWLINE {
        Associative([a[0]], StripNewlines(a[1..]), StripNewlines(b));
      }
    }
  }

  /** So a newline between two stretches without one is all that goes. */
  lemma {:induction false} StripOneNewline(a: Bytes, b: Bytes)
    requires NEWLINE !in a && NEWLINE !in b
    ensures StripNewlines(a + [NEWLINE] + b) == a + b
  {
    StripAppend(a + [NEWLINE], b);
    StripAppend(a, [NEWLINE]);
    StripKeepsOthers(a);
    StripKeepsOthers(b);
    assert StripNewlines([NEWLINE]) == StripNewlines([]);
    assert a + [] == a;
  }

  function Messages(client: Client, events: seq<Bytes>): seq<RawCot> {
    seq(|events|, i requires 0 <= i < |events| => RawCot(client, StripNewlines(events[i])))
  }

  function Get(m: map<Client, Bytes>, c: Client): Bytes {
    if c in m then m[c] else []
  }

  /** Message i is event i without its newlines. */
  lemma {:induction false} MessageOf(client: Client, events: seq<Bytes>, i: nat)
    requires i < |events|
    ensures |Messages(client, events)| == |events|
    ensures var m := Messages(client, events)[i];
            && m.client == client && NEWLINE !in m.xml
            && (NEWLINE !in events[i] ==> m.xml == events[i])
            && (forall a, b :: events[i] == a + [NEWLINE] + b ==> m.xml == StripNewlines(a) + StripNewlines(b))
  {
    StripLeavesNoNewline(events[i]);
    if NEWLINE !in events[i] {
      StripKeepsOthers(events[i]);
    }
    forall a, b | events[i] == a + [NEWLINE] + b
      ensures StripNewlines(events[i]) == StripNewlines(a) + StripNewlines(b)
    {
      StripAppend(a + [NEWLINE], b);
      StripAppend(a, [NEWLINE]);
      assert StripNewlines([NEWLINE]) == StripNewlines([]);
      assert StripNewlines(a) + [] == StripNewlines(a);
    }
  }

  // A read that yields no reason to drop the client.
  predicate Accepted(carry: Bytes, received: Received, parses: Bytes -> bool) {
    && received.Got? && received.bytes != []
    && var cut := FrameEvents(carry + received.bytes);
       |cut.partial| <= MAX_PARTIAL_BYTES && (cut.complete == [] || parses(cut.complete))
  }

  /** Bytes that still complete no event are refused exactly when they are too many. */
  lemma {:induction false} UnfinishedAcceptedIff(carry: Bytes, bytes: Bytes, parses: Bytes -> bool)
    requires bytes != [] && Find(carry + bytes, END_TAG) < 0
    ensures Accepted(carry, Got(bytes), parses) <==> |carry + bytes| <= MAX_PARTIAL_BYTES
  {
    FrameWithoutTag(carry + bytes);
  }

  /** Bytes that complete some are refused exactly when what follows the last event is too long
      and not blank, or when what is complete is not parsed. */
  lemma {:induction false} FinishedAcceptedIff(carry: Bytes, bytes: Bytes, parses: Bytes -> bool)
      returns (complete: Bytes, tail: Bytes)
    requires bytes != [] && Find(carry + bytes, END_TAG) >= 0
    ensures CutsAtLastTag(carry + bytes, complete, tail)
    ensures Accepted(carry, Got(bytes), parses) <==>
              (Blank(tail) || |tail| <= MAX_PARTIAL_BYTES) && parses(complete)
  {
    tail := FrameWithTag(carry + bytes);
    complete := FrameEvents(carry + bytes).complete;
    assert complete != [];
  }

  /** The carry of each client, and all messages handed on so far, poll after poll. */
  datatype Table = Table(partial: map<Client, Bytes>, pipe: seq<RawCot>)

  // The carries after that of a client becomes p.
  function WithCarry(partial: map<Client, Bytes>, client: Client, p: Bytes): map<Client, Bytes> {
    if p == [] then partial - {client} else partial[client := p]
  }

  function Dismissed(t: Table, client: Client): Table {
    Table(t.partial - {client}, t.pipe + [RawCot(client, [])])
  }

  /** After one client's socket was polled. */
  function Polled(t: Table, client: Client, received: Received, parses: Bytes -> bool): Table {
    if received.Quiet? then t
    else if !Accepted(Get(t.partial, client), received, parses) then Dismissed(t, client)
    else
      var cut := FrameEvents(Get(t.partial, client) + received.bytes);
      Table(WithCarry(t.partial, client, cut.partial), t.pipe + Messages(client, Drain(cut.complete).events))
  }

  /** Clients that left the table lose their carry. */
  function Pruned(t: Table, clients: seq<Client>): Table {
    t.(partial := map c | c in t.partial && c in clients :: t.partial[c])
  }

  datatype Action = Prune(clients: seq<Client>) | Poll(client: Client, received: Received)

  function Act(t: Table, a: Action, parses: Bytes -> bool): Table {
    match a
    case Prune(clients) => Pruned(t, clients)
    case Poll(client, received) => Polled(t, client, received, parses)
  }

  function After(t: Table, actions: seq<Action>, parses: Bytes -> bool): Table {
    if actions == [] then t
    else Act(After(t, actions[..|actions| - 1], parses), actions[|actions| - 1], parses)
  }

  lemma AfterOneMore(t: Table, actions: seq<Action>, a: Action, parses: Bytes -> bool)
    ensures After(t, actions + [a], parses) == Act(After(t, actions, parses), a, parses)
  {
    assert (actions + [a])[..|actions|] == actions;
  }

  /** What a poll of the whole client table does, up to its n-th client. */
  function PollActions(clients: seq<Client>, received: seq<Received>, n: nat): seq<Action>
    requires n <= |clients| == |received|
  {
    if n == 0 then [Prune(clients)]
    else PollActions(clients, received, n - 1) + [Poll(clients[n - 1], received[n - 1])]
  }

  // ---- One step ----

  lemma {:induction false} NoEventInNothing(client: Client)
    ensures Messages(client, Drain([]).events) == []
  {
  }

  /** An event is never mistaken for the message that says the client is gone. */
  lemma {:induction false} EventsAreNotFarewells(client: Client, complete: Bytes)
    ensures forall m :: m in Messages(client, Drain(complete).events) ==> m.client == client && m.xml != []
  {
    var events := Drain(complete).events;
    EventsAreWellFramed(complete);
    forall i | 0 <= i < |events|
      ensures StripNewlines(events[i]) != []
    {
      assert WellFramed(events[i]);
      OccursReads(events[i], START_TAG, 0, 0);
    }
  }

  /** Polling a client hands on messages of that client alone and touches no other carry; a
      client it reports gone has none. */
  lemma {:induction false} PollTouchesOne(t: Table, client: Client, received: Received, parses: Bytes -> bool)
    ensures var t' := Polled(t, client, received, parses);
            && t.pipe <= t'.pipe
            && (forall m :: m in t'.pipe[|t.pipe|..] ==> m.client == client)
            && (forall m :: m in t'.pipe[|t.pipe|..] && m.xml == [] ==> client !in t'.partial)
            && (forall c :: c != client ==> (c in t'.partial <==> c in t.partial))
            && (forall c :: c != client ==> Get(t'.partial, c) == Get(t.partial, c))
  {
    var t' := Polled(t, client, received, parses);
    if received.Quiet? {
      assert t'.pipe[|t.pipe|..] == [];
    } else if Accepted(Get(t.partial, client), received, parses) {
      var complete := FrameEvents(Get(t.partial, client) + received.bytes).complete;
      EventsAreNotFarewells(client, complete);
      assert t'.pipe[|t.pipe|..] == Messages(client, Drain(complete).events);
    } else {
      assert t'.pipe[|t.pipe|..] == [RawCot(client, [])];
    }
  }

  /** Whoever the messages say is gone has been polled and has no carry left. */
  predicate FarewellsHold(said: seq<RawCot>, polled: seq<Client>, partial: map<Client, Bytes>) {
    forall m :: m in said && m.xml == [] ==> m.client in polled && m.client !in partial
  }

  lemma {:induction false} FarewellsGrow(said: seq<RawCot>, polled: seq<Client>, partial: map<Client, Bytes>,
                                         more: seq<RawCot>, client: Client, partial': map<Client, Bytes>)
    requires FarewellsHold(said, polled, partial) && client !in polled
    requires forall c :: c != client ==> (c in partial' <==> c in partial)
    requires forall m :: m in more ==> m.client == client
    requires forall m :: m in more && m.xml == [] ==> client !in partial'
    ensures FarewellsHold(said + more, polled + [client], partial')
  {
  }

  lemma TailGrows<T>(a: seq<T>, b: seq<T>, c: seq<T>)
    requires a <= b <= c
    ensures a <= c && c[|a|..] == b[|a|..] + c[|b|..]
  {
  }

  // Only clients of the table keep a carry, and whoever of the first n was said to be gone has none.
  predicate CleanSince(t: Table, s: Table, clients: seq<Client>, n: nat) {
    && n <= |clients|
    && (forall c :: c in s.partial ==> c in clients)
    && t.pipe <= s.pipe && FarewellsHold(s.pipe[|t.pipe|..], clients[..n], s.partial)
  }

  lemma {:induction false} PollStaysClean(t: Table, s: Table, clients: seq<Client>, n: nat, received: Received,
                                          parses: Bytes -> bool)
    requires 0 < n <= |clients| && clients[n - 1] !in clients[..n - 1] && CleanSince(t, s, clients, n - 1)
    ensures CleanSince(t, Polled(s, clients[n - 1], received, parses), clients, n)
  {
    var client := clients[n - 1];
    var t' := Polled(s, client, received, parses);
    PollTouchesOne(s, client, received, parses);
    TailGrows(t.pipe, s.pipe, t'.pipe);
    FarewellsGrow(s.pipe[|t.pipe|..], clients[..n - 1], s.partial, t'.pipe[|s.pipe|..], client, t'.partial);
    assert clients[..n] == clients[..n - 1] + [client];
  }

  lemma PollOneMore(t: Table, clients: seq<Client>, received: seq<Received>, parses: Bytes -> bool, n: nat)
    requires 0 < n <= |clients| == |received|
    ensures After(t, PollActions(clients, received, n), parses)
         == Polled(After(t, PollActions(clients, received, n - 1), parses), clients[n - 1], received[n - 1], parses)
  {
    AfterOneMore(t, PollActions(clients, received, n - 1), Poll(clients[n - 1], received[n - 1]), parses);
  }

  /** After a poll only clients of the table keep a carry, and one it reported gone has none. */
  lemma {:induction false} PollLeavesClean(t: Table, clients: seq<Client>, received: seq<Received>,
                                           parses: Bytes -> bool, n: nat)
    requires n <= |clients| == |received|
    requires NoRepeats(clients)
    ensures CleanSince(t, After(t, PollActions(clients, received, n), parses), clients, n)
  {
    if n == 0 {
      AfterOneMore(t, [], Prune(clients), parses);
      assert [] + [Prune(clients)] == PollActions(clients, received, 0);
    } else {
      PollLeavesClean(t, clients, received, parses, n - 1);
      PollOneMore(t, clients, received, parses, n);
      PollStaysClean(t, After(t, PollActions(clients, received, n - 1), parses), clients, n, received[n - 1], parses);
    }
  }

  predicate SaidBy(said: seq<RawCot>, a: nat, clients: seq<Client>, i: nat) {
    a < |said| && i < |clients| && said[a].client == clients[i]
  }

  /** The messages of a poll come in the order of the client table. */
  ghost predicate InClientOrder(said: seq<RawCot>, clients: seq<Client>) {
    forall a: nat, b: nat, i: nat, j: nat ::
      a < b && SaidBy(said, a, clients, i) && SaidBy(said, b, clients, j) ==> i <= j
  }

  // The messages come from the first n clients, in their order.
  ghost predicate SaidInOrder(said: seq<RawCot>, clients: seq<Client>, n: nat) {
    n <= |clients| && (forall m :: m in said ==> m.client in clients[..n]) && InClientOrder(said, clients)
  }

  // So do those that s has beyond t.
  ghost predicate OrderedSince(t: Table, s: Table, clients: seq<Client>, n: nat) {
    t.pipe <= s.pipe && SaidInOrder(s.pipe[|t.pipe|..], clients, n)
  }

  lemma {:induction false} OrderGrows(said: seq<RawCot>, more: seq<RawCot>, clients: seq<Client>, n: nat)
    requires 0 < n <= |clients| && NoRepeats(clients) && SaidInOrder(said, clients, n - 1)
    requires forall m :: m in more ==> m.client == clients[n - 1]
    ensures InClientOrder(said + more, clients)
  {
    var all := said + more;
    forall a: nat, b: nat, i: nat, j: nat | a < b && SaidBy(all, a, clients, i) && SaidBy(all, b, clients, j)
      ensures i <= j
    {
      if b < |said| {
        assert SaidBy(said, a, clients, i) && SaidBy(said, b, clients, j);
      } else {
        assert all[b] in more && j == n - 1;
        if a < |said| {
          assert said[a] in said && said[a].client in clients[..n - 1];
        } else {
          assert all[a] in more;
        }
      }
    }
  }

  lemma {:induction false} SaidGrows(said: seq<RawCot>, more: seq<RawCot>, clients: seq<Client>, n: nat)
    requires 0 < n <= |clients| && NoRepeats(clients) && SaidInOrder(said, clients, n - 1)
    requires forall m :: m in more ==> m.client == clients[n - 1]
    ensures SaidInOrder(said + more, clients, n)
  {
    OrderGrows(said, more, clients, n);
    assert clients[..n] == clients[..n - 1] + [clients[n - 1]];
    forall m: RawCot | m in said + more
      ensures m.client in clients[..n]
    {
      assert m in said || m in more;
    }
  }

  lemma {:induction false} PollStaysOrdered(t: Table, s: Table, clients: seq<Client>, n: nat, received: Received,
                                            parses: Bytes -> bool)
    requires 0 < n <= |clients| && NoRepeats(clients) && OrderedSince(t, s, clients, n - 1)
    ensures OrderedSince(t, Polled(s, clients[n - 1], received, parses), clients, n)
  {
    var t' := Polled(s, clients[n - 1], received, parses);
    PollTouchesOne(s, clients[n - 1], received, parses);
    TailGrows(t.pipe, s.pipe, t'.pipe);
    SaidGrows(s.pipe[|t.pipe|..], t'.pipe[|s.pipe|..], clients, n);
  }

  lemma {:induction false} PollKeepsOrder(t: Table, clients: seq<Client>, received: seq<Received>,
                                          parses: Bytes -> bool, n: nat)
    requires n <= |clients| == |received| && NoRepeats(clients)
    ensures OrderedSince(t, After(t, PollActions(clients, received, n), parses), clients, n)
  {
    if n == 0 {
      AfterOneMore(t, [], Prune(clients), parses);
      assert [] + [Prune(clients)] == PollActions(clients, received, 0);
    } else {
      PollKeepsOrder(t, clients, received, parses, n - 1);
      PollOneMore(t, clients, received, parses, n);
      PollStaysOrdered(t, After(t, PollActions(clients, received, n - 1), parses), clients, n, received[n - 1], parses);
    }
  }

  // ---- Whole runs ----

  /** A client's session lasts from one farewell to the next, or from its leaving the table:
      what it has sent, and how many messages there were when it last left the table. */
  datatype Session = Session(heard: Bytes, left: nat)

  function Continued(s: Session, t: Table, a: Action, c: Client, parses: Bytes -> bool): Session {
    match a
    case Prune(clients) => if c in clients then s else Session([], |t.pipe|)
    case Poll(client, received) =>
      if client != c || received.Quiet? then s
      else if Accepted(Get(t.partial, c), received, parses) then Session(s.heard + received.bytes, s.left)
      else Session([], s.left)
  }

  function SessionAfter(actions: seq<Action>, c: Client, parses: Bytes -> bool): Session {
    if actions == [] then Session([], 0)
    else
      var before := actions[..|actions| - 1];
      Continued(SessionAfter(before, c, parses), After(Table(map[], []), before, parses),
                actions[|actions| - 1], c, parses)
  }

  /** The messages of c behind the last that says it is gone. */
  function SinceFarewell(pipe: seq<RawCot>, c: Client): seq<RawCot> {
    if pipe == [] then []
    else
      var before, m := pipe[..|pipe| - 1], pipe[|pipe| - 1];
      if m.client != c then SinceFarewell(before, c)
      else if m.xml == [] then []
      else SinceFarewell(before, c) + [m]
  }

  lemma {:induction false} FarewellOneMore(pipe: seq<RawCot>, m: RawCot, c: Client)
    ensures SinceFarewell(pipe + [m], c)
         == if m.client != c then SinceFarewell(pipe, c)
            else if m.xml == [] then [] else SinceFarewell(pipe, c) + [m]
  {
    assert (pipe + [m])[..|pipe|] == pipe;
  }

  lemma {:induction false} FarewellAppend(pipe: seq<RawCot>, more: seq<RawCot>, c: Client)
    requires forall m :: m in more ==> m.client == c && m.xml != []
    ensures SinceFarewell(pipe + more, c) == SinceFarewell(pipe, c) + more
    decreases |more|
  {
    if more == [] {
      assert pipe + more == pipe;
    } else {
      var before, m := more[..|more| - 1], more[|more| - 1];
      assert more == before + [m];
      Associative(pipe, before, [m]);
      FarewellAppend(pipe, before, c);
      FarewellOneMore(pipe + before, m, c);
      Associative(SinceFarewell(pipe, c), before, [m]);
    }
  }

  lemma {:induction false} FarewellSkip(pipe: seq<RawCot>, more: seq<RawCot>, c: Client)
    requires forall m :: m in more ==> m.client != c
    ensures SinceFarewell(pipe + more, c) == SinceFarewell(pipe, c)
    decreases |more|
  {
    if more == [] {
      assert pipe + more == pipe;
    } else {
      var before, m := more[..|more| - 1], more[|more| - 1];
      assert more == before + [m];
      Associative(pipe, before, [m]);
      FarewellSkip(pipe, before, c);
      FarewellOneMore(pipe + before, m, c);
    }
  }

  lemma MessagesAppend(c: Client, a: seq<Bytes>, b: seq<Bytes>)
    ensures Messages(c, a + b) == Messages(c, a) + Messages(c, b)
  {
  }

  lemma TailAppend<T>(s: seq<T>, more: seq<T>, k: nat)
    requires k <= |s|
    ensures (s + more)[k..] == s[k..] + more
  {
  }

  /** The messages of the session are the events that a first-end-tag reader finds in all
      that c sent in it, and the carry is what that reader has left, up to dropped blanks. */
  predicate InSession(t: Table, s: Session, c: Client) {
    && s.left <= |t.pipe|
    && SinceFarewell(t.pipe[s.left..], c) == Messages(c, Drain(s.heard).events)
    && InStep(s.heard, Drain(s.heard).events, Get(t.partial, c))
    && (c in t.partial ==> 0 < |t.partial[c]| <= MAX_PARTIAL_BYTES)
  }

  lemma {:induction false} FreshSession(t: Table, c: Client, left: nat)
    requires left <= |t.pipe| && SinceFarewell(t.pipe[left..], c) == [] && c !in t.partial
    ensures InSession(t, Session([], left), c)
  {
    NoEventInNothing(c);
  }

  lemma {:induction false} PruneInSession(t: Table, s: Session, c: Client, clients: seq<Client>, parses: Bytes -> bool)
    requires InSession(t, s, c)
    ensures InSession(Pruned(t, clients), Continued(s, t, Prune(clients), c, parses), c)
  {
    if c !in clients {
      assert t.pipe[|t.pipe|..] == [];
      FreshSession(Pruned(t, clients), c, |t.pipe|);
    }
  }

  lemma {:induction false} OtherInSession(t: Table, s: Session, c: Client, client: Client, received: Received,
                                          parses: Bytes -> bool)
    requires InSession(t, s, c) && client != c
    ensures InSession(Polled(t, client, received, parses), s, c)
  {
    var t' := Polled(t, client, received, parses);
    var more := t'.pipe[|t.pipe|..];
    PollTouchesOne(t, client, received, parses);
    assert t'.pipe == t.pipe + more;
    TailAppend(t.pipe, more, s.left);
    FarewellSkip(t.pipe[s.left..], more, c);
    assert c in t'.partial ==> t'.partial[c] == Get(t'.partial, c);
  }

  lemma {:induction false} DismissedInSession(t: Table, s: Session, c: Client)
    requires InSession(t, s, c)
    ensures InSession(Dismissed(t, c), Session([], s.left), c)
  {
    TailAppend(t.pipe, [RawCot(c, [])], s.left);
    FarewellOneMore(t.pipe[s.left..], RawCot(c, []), c);
    FreshSession(Dismissed(t, c), c, s.left);
  }

  lemma {:induction false} AcceptedInSession(t: Table, s: Session, c: Client, received: Received,
                                             parses: Bytes -> bool)
    requires InSession(t, s, c) && Accepted(Get(t.partial, c), received, parses)
    ensures InSession(Polled(t, c, received, parses), Session(s.heard + received.bytes, s.left), c)
  {
    var carry, heard := Get(t.partial, c), Drain(s.heard).events;
    var cut := FrameEvents(carry + received.bytes);
    var events := Drain(cut.complete).events;
    StaysInStep(s.heard, heard, carry, received.bytes);
    EventsAreNotFarewells(c, cut.complete);
    TailAppend(t.pipe, Messages(c, events), s.left);
    FarewellAppend(t.pipe[s.left..], Messages(c, events), c);
    MessagesAppend(c, heard, events);
  }

  lemma {:induction false} ActInSession(t: Table, s: Session, c: Client, a: Action, parses: Bytes -> bool)
    requires InSession(t, s, c)
    ensures InSession(Act(t, a, parses), Continued(s, t, a, c, parses), c)
  {
    match a
    case Prune(clients) => PruneInSession(t, s, c, clients, parses);
    case Poll(client, received) =>
      if client != c {
        OtherInSession(t, s, c, client, received, parses);
      } else if Accepted(Get(t.partial, c), received, parses) {
        AcceptedInSession(t, s, c, received, parses);
      } else if !received.Quiet? {
        DismissedInSession(t, s, c);
      }
  }

  /** Over any sequence of polls of any clients, with oversize, refused and failed reads among
      them, every client's session is as a first-end-tag reader would have it. */
  lemma {:induction false} AlwaysInSession(actions: seq<Action>, c: Client, parses: Bytes -> bool)
    ensures InSession(After(Table(map[], []), actions, parses), SessionAfter(actions, c, parses), c)
    decreases |actions|
  {
    if actions == [] {
      FreshSession(Table(map[], []), c, 0);
    } else {
      var before := actions[..|actions| - 1];
      AlwaysInSession(before, c, parses);
      ActInSession(After(Table(map[], []), before, parses), SessionAfter(before, c, parses), c,
                   actions[|actions| - 1], parses);
    }
  }

  lemma {:induction false} NeverLeft(actions: seq<Action>, c: Client, parses: Bytes -> bool)
    requires forall a :: a in actions && a.Prune? ==> c in a.clients
    ensures SessionAfter(actions, c, parses).left == 0
    decreases |actions|
  {
    if actions == [] {
    } else {
      NeverLeft(actions[..|actions| - 1], c, parses);
    }
  }

  /** So for a client that stays in the table, the messages since it was last said to be gone
      are the events in the bytes it sent since. */
  lemma {:induction false} MessagesSinceFarewell(actions: seq<Action>, c: Client, parses: Bytes -> bool)
    requires forall a :: a in actions && a.Prune? ==> c in a.clients
    ensures SinceFarewell(After(Table(map[], []), actions, parses).pipe, c)
         == Messages(c, Drain(SessionAfter(actions, c, parses).heard).events)
  {
    AlwaysInSession(actions, c, parses);
    NeverLeft(actions, c, parses);
    var pipe := After(Table(map[], []), actions, parses).pipe;
    assert pipe[0..] == pipe;
  }

  /** The reads of one client in turn. */
  function Reads(c: Client, pieces: seq<Bytes>): seq<Action> {
    seq(|pieces|, i requires 0 <= i < |pieces| => Poll(c, Got(pieces[i])))
  }

  lemma {:induction false} RestIsShort(s: Bytes)
    ensures |Drain(s).rest| <= |s|
    decreases |s|
  {
    if Find(s, END_TAG) < 0 {
    } else {
      RestIsShort(s[Find(s, END_TAG) + |END_TAG|..]);
    }
  }

  // What is carried is no more than what was sent.
  lemma {:induction false} ShortCarry(heard: Bytes, carry: Bytes, read: Bytes)
    requires InStep(heard, Drain(heard).events, carry)
    ensures |FrameEvents(carry + read).partial| <= |heard + read|
  {
    RestIsShort(heard);
  }

  lemma {:induction false} ServedRead(t: Table, c: Client, heard: Bytes, read: Bytes, parses: Bytes -> bool)
    requires t.pipe == Messages(c, Drain(heard).events)
    requires InStep(heard, Drain(heard).events, Get(t.partial, c)) && read != []
    requires |FrameEvents(Get(t.partial, c) + read).partial| <= MAX_PARTIAL_BYTES && forall b :: parses(b)
    ensures Accepted(Get(t.partial, c), Got(read), parses)
    ensures Polled(t, c, Got(read), parses).pipe == Messages(c, Drain(heard + read).events)
  {
    var cut := FrameEvents(Get(t.partial, c) + read);
    StaysInStep(heard, Drain(heard).events, Get(t.partial, c), read);
    MessagesAppend(c, Drain(heard).events, Drain(cut.complete).events);
  }

  lemma ReadsOneMore(c: Client, pieces: seq<Bytes>)
    requires pieces != []
    ensures Reads(c, pieces) == Reads(c, pieces[..|pieces| - 1]) + [Poll(c, Got(pieces[|pieces| - 1]))]
  {
  }

  lemma {:induction false} FlattenOneMore(pieces: seq<Bytes>)
    requires pieces != []
    ensures Flatten(pieces) == Flatten(pieces[..|pieces| - 1]) + pieces[|pieces| - 1]
  {
    if |pieces| == 1 {
      assert pieces[1..] == [] && pieces[..0] == [];
    } else {
      var before := pieces[..|pieces| - 1];
      assert before[1..] == pieces[1..][..|pieces| - 2] && before[0] == pieces[0];
      FlattenOneMore(pieces[1..]);
      Associative(pieces[0], Flatten(before[1..]), pieces[|pieces| - 1]);
    }
  }

  /** A read is refused only for what it is: with every read non-empty, no more bytes in all
      than the limit and every block parsed, none is, and all events of the stream are handed
      on, in order, however it was cut. */
  lemma {:induction false} AllReadsServed(c: Client, pieces: seq<Bytes>, parses: Bytes -> bool)
    requires forall i :: 0 <= i < |pieces| ==> pieces[i] != []
    requires |Flatten(pieces)| <= MAX_PARTIAL_BYTES && forall b :: parses(b)
    ensures After(Table(map[], []), Reads(c, pieces), parses).pipe == Messages(c, Drain(Flatten(pieces)).events)
    ensures SessionAfter(Reads(c, pieces), c, parses) == Session(Flatten(pieces), 0)
    decreases |pieces|
  {
    if pieces == [] {
      NoEventInNothing(c);
    } else {
      var n := |pieces| - 1;
      var before, read, actions := pieces[..n], pieces[n], Reads(c, pieces[..n]);
      FlattenOneMore(pieces);
      AllReadsServed(c, before, parses);
      ReadsOneMore(c, pieces);
      assert Reads(c, pieces)[..n] == actions;
      var t := After(Table(map[], []), actions, parses);
      AlwaysInSession(actions, c, parses);
      ShortCarry(Flatten(before), Get(t.partial, c), read);
      ServedRead(t, c, Flatten(before), read, parses);
    }
  }

  lemma {:induction false} AfterBoth(t: Table, first: seq<Action>, second: seq<Action>, parses: Bytes -> bool)
    ensures After(t, first + second, parses) == After(After(t, first, parses), second, parses)
    decreases |second|
  {
    if second == [] {
      assert first + second == first;
    } else {
      var before, a := second[..|second| - 1], second[|second| - 1];
      assert second == before + [a];
      Associative(first, before, [a]);
      AfterBoth(t, first, before, parses);
      AfterOneMore(t, first + before, a, parses);
    }
  }

  // The clients of one poll and what their sockets yield.
  datatype Round = Round(clients: seq<Client>, received: seq<Received>)

  predicate IsRound(r: Round) {
    && |r.clients| == |r.received|
    && forall i, j :: 0 <= i < j < |r.clients| ==> r.clients[i] != r.clients[j]
  }

  /** What n polls of the whole client table do. */
  function RoundActions(rounds: seq<Round>, n: nat): seq<Action>
    requires n <= |rounds| && forall i :: 0 <= i < |rounds| ==> IsRound(rounds[i])
  {
    if n == 0 then []
    else
      var r := rounds[n - 1];
      RoundActions(rounds, n - 1) + PollActions(r.clients, r.received, |r.clients|)
  }

  // ---- The handler ----

  class Handler {
    var partial: map<Client, Bytes>
    var dataPipe: seq<RawCot>

    function State(): Table
      reads this
    {
      Table(partial, dataPipe)
    }

    constructor ()
      ensures State() == Table(map[], [])
    {
      partial, dataPipe := map[], [];
    }

    /** No bytes: the client is gone, and so is its carry. */
    method Disconnect(client: Client)
      modifies this
      ensures State() == Dismissed(old(State()), client)
    {
      partial := partial - {client};
      dataPipe := dataPipe + [RawCot(client, [])];
    }

    method HandOn(client: Client, events: seq<Bytes>)
      modifies this`dataPipe
      ensures dataPipe == old(dataPipe) + Messages(client, events)
    {
      for i := 0 to |events|
        invariant dataPipe == old(dataPipe) + Messages(client, events[..i])
      {
        dataPipe := dataPipe + [RawCot(client, StripNewlines(events[i]))];
        assert events[..i + 1] == events[..i] + [events[i]];
        assert Messages(client, events[..i + 1])
            == Messages(client, events[..i]) + [RawCot(client, StripNewlines(events[i]))];
      }
      assert events[..|events|] == events;
    }

    /** One client of one poll.  `parses` says which complete blocks the XML parser takes. */
    method PollClient(client: Client, received: Received, parses: Bytes -> bool)
      modifies this
      ensures State() == Polled(old(State()), client, received, parses)
    {
      if received.Quiet? {
        return;
      }
      if received.Failed? || received.bytes == [] {
        Disconnect(client);
        return;
      }
      var cut := FrameEvents(Get(partial, client) + received.bytes);
      partial := partial - {client};
      if |cut.partial| > MAX_PARTIAL_BYTES {
        Disconnect(client);
        return;
      }
      if cut.partial != [] {
        partial := partial[client := cut.partial];
      }
      if cut.complete == [] {
        NoEventInNothing(client);
        return;
      }
      if !parses(cut.complete) {
        Disconnect(client);
        return;
      }
      HandOn(client, Drain(cut.complete).events);
    }

    method Prune(clients: seq<Client>)
      modifies this
      ensures State() == Pruned(old(State()), clients)
    {
      partial := map c | c in partial && c in clients :: partial[c];
    }

    /** A whole poll of all clients in the table. */
    method MonitorForData(clients: seq<Client>, received: seq<Received>, parses: Bytes -> bool)
      requires |clients| == |received|
      requires NoRepeats(clients)
      modifies this
      ensures State() == After(old(State()), PollActions(clients, received, |clients|), parses)
      ensures CleanSince(old(State()), State(), clients, |clients|)
    {
      ghost var t := State();
      Prune(clients);
      AfterOneMore(t, [], Action.Prune(clients), parses);
      assert [] + [Action.Prune(clients)] == PollActions(clients, received, 0);
      for n := 0 to |clients|
        invariant State() == After(t, PollActions(clients, received, n), parses)
      {
        PollClient(clients[n], received[n], parses);
        AfterOneMore(t, PollActions(clients, received, n), Poll(clients[n], received[n]), parses);
      }
      PollLeavesClean(t, clients, received, parses, |clients|);
    }

    /** Poll after poll: every client's messages and carry are those of its session. */
    method MonitorRounds(rounds: seq<Round>, parses: Bytes -> bool)
      requires State() == Table(map[], []) && forall i :: 0 <= i < |rounds| ==> IsRound(rounds[i])
      modifies this
      ensures State() == After(Table(map[], []), RoundActions(rounds, |rounds|), parses)
      ensures forall c :: InSession(State(), SessionAfter(RoundActions(rounds, |rounds|), c, parses), c)
    {
      for n := 0 to |rounds|
        invariant State() == After(Table(map[], []), RoundActions(rounds, n), parses)
      {
        var r := rounds[n];
        MonitorForData(r.clients, r.received, parses);
        AfterBoth(Table(map[], []), RoundActions(rounds, n), PollActions(r.clients, r.received, |r.clients|), parses);
      }
      forall c
        ensures InSession(State(), SessionAfter(RoundActions(rounds, |rounds|), c, parses), c)
      {
        AlwaysInSession(RoundActions(rounds, |rounds|), c, parses);
      }
    }
  }
}
