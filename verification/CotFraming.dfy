/** Rebuilding CoT events from a TCP byte stream.

    `Drain` is the reference: cut at each first end tag in turn.  The HaLow bridge works
    that way one read at a time; the FTS patch cuts each read once, at the last end tag,
    and drops blank tails.  Both are shown to see the events of the whole stream. */
module CotFraming {
  import opened Search

  newtype byte = x: int | 0 <= x < 256

  type Bytes = seq<byte>

  // </event>
  const END_TAG: Bytes := [0x3C, 0x2F, 0x65, 0x76, 0x65, 0x6E, 0x74, 0x3E]

  // <event
  const START_TAG: Bytes := [0x3C, 0x65, 0x76, 0x65, 0x6E, 0x74]

  const NEWLINE: byte := 0x0A

  datatype Framed = Framed(events: seq<Bytes>, rest: Bytes)

  /** The event of a chunk that ends with an end tag: none when no start tag precedes it. */
  function EventIn(chunk: Bytes): seq<Bytes> {
    var start := Find(chunk, START_TAG);
    if start >= 0 then [chunk[start..]] else []
  }

  /** All events of a byte string, and the bytes after its last end tag. */
  function Drain(buf: Bytes): Framed
    decreases |buf|
  {
    var i := Find(buf, END_TAG);
    if i < 0 then Framed([], buf)
    else
      var end := i + |END_TAG|;
      var tail := Drain(buf[end..]);
      Framed(EventIn(buf[..end]) + tail.events, tail.rest)
  }

  function Flatten<T>(parts: seq<seq<T>>): seq<T> {
    if parts == [] then [] else parts[0] + Flatten(parts[1..])
  }

  lemma Associative<T>(x: seq<T>, y: seq<T>, z: seq<T>)
    ensures x + (y + z) == x + y + z
  {
  }

  // ---- Independence of how the stream was cut ----

  lemma {:induction false} DrainFirst(buf: Bytes, end: nat)
    requires Find(buf, END_TAG) >= 0 && end == Find(buf, END_TAG) + |END_TAG|
    ensures Drain(buf) == Framed(EventIn(buf[..end]) + Drain(buf[end..]).events, Drain(buf[end..]).rest)
  {
  }

  lemma CutAppend<T>(a: seq<T>, b: seq<T>, end: nat)
    requires end <= |a|
    ensures (a + b)[..end] == a[..end] && (a + b)[end..] == a[end..] + b
  {
  }

  /** Draining can stop anywhere and resume with what was left over. */
  lemma {:induction false} DrainAppend(a: Bytes, b: Bytes)
    ensures Drain(a + b).events == Drain(a).events + Drain(Drain(a).rest + b).events
    ensures Drain(a + b).rest == Drain(Drain(a).rest + b).rest
    decreases |a|
  {
    var i := Find(a, END_TAG);
    if i < 0 {
      assert [] + Drain(a + b).events == Drain(a + b).events;
    } else {
      var end := i + |END_TAG|;
      var c := a[end..];
      FindAppend(a, b, END_TAG);
      CutAppend(a, b, end);
      DrainFirst(a, end);
      DrainFirst(a + b, end);
      DrainAppend(c, b);
      Associative(EventIn(a[..end]), Drain(c).events, Drain(Drain(c).rest + b).events);
    }
  }

  /** What an incremental reader sees: it drains its buffer, then takes the next read. */
  function Feed(buf: Bytes, pieces: seq<Bytes>): Framed
    decreases |pieces|
  {
    var d := Drain(buf);
    if pieces == [] then d
    else
      var f := Feed(d.rest + pieces[0], pieces[1..]);
      Framed(d.events + f.events, f.rest)
  }

  /** However the stream is cut into reads, events and leftover are those of the whole. */
  lemma {:induction false} FeedIsDrain(buf: Bytes, pieces: seq<Bytes>)
    ensures Feed(buf, pieces) == Drain(buf + Flatten(pieces))
    decreases |pieces|
  {
    if pieces == [] {
      assert buf + Flatten(pieces) == buf;
    } else {
      var d := Drain(buf);
      FeedIsDrain(d.rest + pieces[0], pieces[1..]);
      assert d.rest + pieces[0] + Flatten(pieces[1..]) == d.rest + Flatten(pieces);
      DrainAppend(buf, Flatten(pieces));
    }
  }

  // ---- Sending and reading back ----

  /** Starts with its start tag and ends with its only end tag. */
  predicate WellFramed(e: Bytes) {
    OccursAt(e, START_TAG, 0) && |e| >= |END_TAG| && Find(e, END_TAG) == |e| - |END_TAG|
  }

  // What `send` puts on the wire for a list of events.
  function Wire(events: seq<Bytes>): Bytes {
    if events == [] then [] else events[0] + [NEWLINE] + Wire(events[1..])
  }

  lemma {:induction false} TagsOfWellFramed(e: Bytes)
    requires WellFramed(e)
    ensures Find(e, START_TAG) == 0
  {
  }

  lemma {:induction false} DrainOne(w: Bytes, e: Bytes, s: Bytes)
    requires WellFramed(e) && (w == [] || w == [NEWLINE])
    ensures Drain(w + e + s) == Framed([e] + Drain(s).events, Drain(s).rest)
  {
    TagsOfWellFramed(e);
    FindSkip(w, e, END_TAG);
    FindAppend(w + e, s, END_TAG);
    var end := |w + e|;
    assert (w + e + s)[..end] == w + e && (w + e + s)[end..] == s;
    FindSkip(w, e, START_TAG);
    assert (w + e)[|w|..] == e;
  }

  /** Whatever precedes the start tag of an event is skipped: an XML declaration, or the rest of
      an event whose beginning was missed. */
  lemma {:induction false} EventBehindAnything(p: Bytes, e: Bytes, s: Bytes)
    requires WellFramed(e) && Find(p + e, START_TAG) == |p| && Find(p + e, END_TAG) == |p + e| - |END_TAG|
    ensures Drain(p + e + s).events == [e] + Drain(s).events && Drain(p + e + s).rest == Drain(s).rest
  {
    var end := |p + e|;
    FindAppend(p + e, s, END_TAG);
    assert (p + e + s)[..end] == p + e && (p + e + s)[end..] == s;
    assert (p + e)[|p|..] == e;
    DrainFirst(p + e + s, end);
  }

  /** And an end tag with no start tag before it yields nothing. */
  lemma {:induction false} NoEventWithoutStart(p: Bytes, s: Bytes)
    requires Find(p, START_TAG) < 0 && Find(p, END_TAG) >= 0 && Find(p, END_TAG) == |p| - |END_TAG|
    ensures Drain(p + s).events == Drain(s).events && Drain(p + s).rest == Drain(s).rest
  {
    FindAppend(p, s, END_TAG);
    assert (p + s)[..|p|] == p && (p + s)[|p|..] == s;
    DrainFirst(p + s, |p|);
    assert [] + Drain(s).events == Drain(s).events;
  }

  predicate AllWellFramed(events: seq<Bytes>) {
    forall e :: e in events ==> WellFramed(e)
  }

  lemma {:induction false} NoTagInNewline(w: Bytes)
    requires w == [] || w == [NEWLINE]
    ensures Drain(w) == Framed([], w)
  {
  }

  lemma {:induction false} WireRoundTripAfter(w: Bytes, events: seq<Bytes>)
    requires AllWellFramed(events) && (w == [] || w == [NEWLINE])
    ensures Drain(w + Wire(events)) == Framed(events, if events == [] then w else [NEWLINE])
    decreases |events|
  {
    if events == [] {
      assert w + Wire(events) == w;
      NoTagInNewline(w);
    } else {
      var later := events[1..];
      var s := [NEWLINE] + Wire(later);
      assert w + Wire(events) == w + events[0] + s;
      assert events == [events[0]] + later;
      WireRoundTripAfter([NEWLINE], later);
      DrainOne(w, events[0], s);
    }
  }

  /** Any list of well-framed events, written with newlines between, is read back exactly. */
  lemma {:induction false} WireRoundTrip(events: seq<Bytes>)
    requires AllWellFramed(events)
    ensures Drain(Wire(events)) == Framed(events, if events == [] then [] else [NEWLINE])
  {
    WireRoundTripAfter([], events);
    assert [] + Wire(events) == Wire(events);
  }

  // A start tag does not begin inside the end tag that closes the chunk.
  lemma {:induction false} TagsApart(chunk: Bytes, i: nat, start: nat)
    requires OccursAt(chunk, END_TAG, i) && |chunk| == i + |END_TAG| && OccursAt(chunk, START_TAG, start)
    ensures start <= i
  {
    if start > i {
      OccursReads(chunk, START_TAG, start, 0);
      OccursReads(chunk, END_TAG, i, start - i);
    }
  }

  // The chunk's only end tag is its last, wherever its event starts.
  lemma {:induction false} NoTagBefore(buf: Bytes, i: nat, start: nat, j: nat)
    requires i == Find(buf, END_TAG) && start <= i && j < i - start
    ensures !OccursAt(buf[..i + |END_TAG|][start..], END_TAG, j)
  {
    var chunk := buf[..i + |END_TAG|];
    assert chunk == chunk[..start] + chunk[start..];
    assert buf == chunk + buf[i + |END_TAG|..];
    OccursInSuffix(chunk[..start], chunk[start..], END_TAG, j);
    OccursInPrefix(chunk, buf[i + |END_TAG|..], END_TAG, start + j);
  }

  lemma {:induction false} ChunkEventIsWellFramed(buf: Bytes, i: nat, start: nat)
    requires i == Find(buf, END_TAG) && start == Find(buf[..i + |END_TAG|], START_TAG)
    ensures WellFramed(buf[..i + |END_TAG|][start..])
  {
    var end := i + |END_TAG|;
    var chunk := buf[..end];
    var e := chunk[start..];
    assert chunk == chunk[..start] + e;
    assert buf == chunk + buf[end..];
    OccursInSuffix(chunk[..start], e, START_TAG, 0);
    OccursInPrefix(chunk, buf[end..], END_TAG, i);
    TagsApart(chunk, i, start);
    OccursInSuffix(chunk[..start], e, END_TAG, i - start);
    forall j | 0 <= j < i - start
      ensures !OccursAt(e, END_TAG, j)
    {
      NoTagBefore(buf, i, start, j);
    }
    FindIs(e, END_TAG, i - start);
  }

  lemma JoinWellFramed(a: seq<Bytes>, b: seq<Bytes>)
    requires AllWellFramed(a) && AllWellFramed(b)
    ensures AllWellFramed(a + b)
  {
  }

  lemma {:induction false} EventInIsWellFramed(buf: Bytes, i: nat)
    requires i == Find(buf, END_TAG)
    ensures AllWellFramed(EventIn(buf[..i + |END_TAG|]))
  {
    var start := Find(buf[..i + |END_TAG|], START_TAG);
    if start >= 0 {
      ChunkEventIsWellFramed(buf, i, start);
    }
  }

  /** Everything a reader yields is well framed, hence survives the next hop unchanged. */
  lemma {:induction false} EventsAreWellFramed(buf: Bytes)
    ensures AllWellFramed(Drain(buf).events)
    decreases |buf|
  {
    var i := Find(buf, END_TAG);
    if i < 0 {
    } else {
      var end := i + |END_TAG|;
      EventInIsWellFramed(buf, i);
      EventsAreWellFramed(buf[end..]);
      DrainFirst(buf, end);
      JoinWellFramed(EventIn(buf[..end]), Drain(buf[end..]).events);
    }
  }

  /** A single event survives the wire exactly when it is well framed. */
  lemma {:induction false} SurvivesIffWellFramed(e: Bytes)
    ensures Drain(e + [NEWLINE]) == Framed([e], [NEWLINE]) <==> WellFramed(e)
  {
    var s := e + [NEWLINE];
    if WellFramed(e) {
      assert [] + e + [NEWLINE] == s;
      DrainOne([], e, [NEWLINE]);
    }
    if Drain(s) == Framed([e], [NEWLINE]) {
      EventsAreWellFramed(s);
      assert Drain(s).events[0] == e;
    }
  }

  /** Reading a stream, sending the events on and reading them again changes nothing. */
  lemma {:induction false} RelayIsLossless(buf: Bytes)
    ensures Drain(Wire(Drain(buf).events)).events == Drain(buf).events
  {
    EventsAreWellFramed(buf);
    WireRoundTrip(Drain(buf).events);
  }

  // ---- Cutting at the last end tag ----

  predicate IsSpace(b: byte) {
    b == 0x20 || 0x09 <= b <= 0x0D
  }

  predicate Blank(s: Bytes) {
    forall b :: b in s ==> IsSpace(b)
  }

  datatype Cut = Cut(complete: Bytes, partial: Bytes)

  /** Splits a receive buffer into complete events and the trailing partial one. */
  function FrameEvents(buf: Bytes): Cut {
    var i := FindLast(buf, END_TAG);
    if i < 0 then Cut([], buf)
    else
      var cut := i + |END_TAG|;
      Cut(buf[..cut], if Blank(buf[cut..]) then [] else buf[cut..])
  }

  lemma {:induction false} EndTagsDisjoint(s: Bytes, i: nat, j: nat)
    requires OccursAt(s, END_TAG, i) && OccursAt(s, END_TAG, j) && i < j
    ensures i + |END_TAG| <= j
  {
    if j < i + |END_TAG| {
      OccursReads(s, END_TAG, j, 0);
      OccursReads(s, END_TAG, i, j - i);
    }
  }

  lemma {:induction false} NothingAfterLastTag(a: Bytes, i: nat)
    requires OccursAt(a, END_TAG, i) && |a| == i + |END_TAG|
    ensures Drain(a).rest == []
    decreases |a|
  {
    var f := Find(a, END_TAG);
    var end := f + |END_TAG|;
    if f < i {
      EndTagsDisjoint(a, f, i);
      assert a == a[..end] + a[end..];
      OccursInSuffix(a[..end], a[end..], END_TAG, i - end);
      NothingAfterLastTag(a[end..], i - end);
    }
  }

  /** One cut at the last end tag leaves the same events and the same rest. */
  lemma {:induction false} LastCutAgrees(buf: Bytes, i: nat)
    requires i == FindLast(buf, END_TAG)
    ensures Drain(buf) == Framed(Drain(buf[..i + |END_TAG|]).events, buf[i + |END_TAG|..])
    ensures Find(buf[i + |END_TAG|..], END_TAG) < 0
  {
    var end := i + |END_TAG|;
    var a, b := buf[..end], buf[end..];
    assert buf == a + b;
    OccursInPrefix(a, b, END_TAG, i);
    NothingAfterLastTag(a, i);
    var f := Find(b, END_TAG);
    if f >= 0 {
      OccursInSuffix(a, b, END_TAG, f);
      assert false;
    }
    DrainAppend(a, b);
    assert [] + b == b;
  }

  lemma BlankHoldsNoTag(w: Bytes)
    requires Blank(w)
    ensures START_TAG[0] !in w && END_TAG[0] !in w
  {
  }

  lemma {:induction false} BlanksInChunk(w: Bytes, chunk: Bytes)
    requires Blank(w)
    ensures EventIn(w + chunk) == EventIn(chunk)
  {
    BlankHoldsNoTag(w);
    FindSkip(w, chunk, START_TAG);
    var start := Find(chunk, START_TAG);
    if start >= 0 {
      assert (w + chunk)[|w| + start..] == chunk[start..];
    }
  }

  lemma {:induction false} SameFromCut(a: Bytes, i: nat, b: Bytes, j: nat)
    requires Find(a, END_TAG) >= 0 && i == Find(a, END_TAG) + |END_TAG|
    requires Find(b, END_TAG) >= 0 && j == Find(b, END_TAG) + |END_TAG|
    requires EventIn(a[..i]) == EventIn(b[..j]) && a[i..] == b[j..]
    ensures Drain(a).events == Drain(b).events && Drain(a).rest == Drain(b).rest
  {
    DrainFirst(a, i);
    DrainFirst(b, j);
  }

  lemma {:induction false} BlanksBeforeTag(w: Bytes, s: Bytes)
    requires Blank(w) && Find(s, END_TAG) >= 0
    ensures Drain(w + s).events == Drain(s).events && Drain(w + s).rest == Drain(s).rest
  {
    var end := Find(s, END_TAG) + |END_TAG|;
    var all := w + s;
    assert Find(all, END_TAG) + |END_TAG| == |w| + end by {
      BlankHoldsNoTag(w);
      FindSkip(w, s, END_TAG);
    }
    assert all[..|w| + end] == w + s[..end] && all[|w| + end..] == s[end..] by {
      SlicesOfConcat(w, s, end);
    }
    BlanksInChunk(w, s[..end]);
    SameFromCut(all, |w| + end, s, end);
  }

  /** Leading blanks change no event. */
  lemma {:induction false} BlanksDoNotMatter(w: Bytes, s: Bytes)
    requires Blank(w)
    ensures Drain(w + s).events == Drain(s).events
    ensures Drain(w + s).rest == if Find(s, END_TAG) < 0 then w + s else Drain(s).rest
  {
    if Find(s, END_TAG) < 0 {
      BlankHoldsNoTag(w);
      FindSkip(w, s, END_TAG);
    } else {
      BlanksBeforeTag(w, s);
    }
  }

  predicate SameButBlanks(rest: Bytes, carry: Bytes) {
    var d := |rest| - |carry|;
    0 <= d && rest[d..] == carry && Blank(rest[..d])
  }

  /** Having heard h, a client's events so far and carry are those of the reference, up to
      dropped blanks. */
  predicate InStep(h: Bytes, events: seq<Bytes>, carry: Bytes) {
    Drain(h).events == events && SameButBlanks(Drain(h).rest, carry) && Find(carry, END_TAG) < 0
  }

  /** What the reference makes of a read, told from the carry. */
  lemma {:induction false} ReadAfterCarry(h: Bytes, carry: Bytes, read: Bytes, w: Bytes)
    requires Drain(h).rest == w + carry && Blank(w)
    ensures Drain(h + read).events == Drain(h).events + Drain(carry + read).events
    ensures Drain(h + read).rest
         == if Find(carry + read, END_TAG) < 0 then w + (carry + read) else Drain(carry + read).rest
  {
    DrainAppend(h, read);
    assert Drain(h).rest + read == w + (carry + read);
    BlanksDoNotMatter(w, carry + read);
  }

  lemma BlanksInFront(w: Bytes, s: Bytes)
    requires Blank(w)
    ensures SameButBlanks(w + s, s)
  {
    assert (w + s)[|w|..] == s && (w + s)[..|w|] == w;
  }

  lemma DropBlanks(tail: Bytes)
    ensures SameButBlanks(tail, if Blank(tail) then [] else tail)
  {
    if Blank(tail) {
      assert tail + [] == tail;
      BlanksInFront(tail, []);
    } else {
      assert [] + tail == tail;
      BlanksInFront([], tail);
    }
  }

  lemma {:induction false} NoTagNoEvent(buf: Bytes)
    requires Find(buf, END_TAG) < 0
    ensures Drain(buf) == Framed([], buf)
  {
  }

  /** Without an end tag nothing is complete. */
  lemma {:induction false} FrameWithoutTag(buf: Bytes)
    requires Find(buf, END_TAG) < 0
    ensures FrameEvents(buf) == Cut([], buf)
  {
  }

  // How buf is cut: the last end tag ends `complete`, and `tail` is the rest.
  predicate CutsAtLastTag(buf: Bytes, complete: Bytes, tail: Bytes) {
    && buf == complete + tail
    && OccursAt(complete, END_TAG, |complete| - |END_TAG|)
    && Find(tail, END_TAG) < 0
  }

  lemma {:induction false} LastTagCuts(buf: Bytes, i: nat)
    requires i == FindLast(buf, END_TAG)
    ensures CutsAtLastTag(buf, buf[..i + |END_TAG|], buf[i + |END_TAG|..])
  {
    var complete, tail := buf[..i + |END_TAG|], buf[i + |END_TAG|..];
    assert buf == complete + tail;
    OccursInPrefix(complete, tail, END_TAG, i);
    LastCutAgrees(buf, i);
  }

  lemma {:induction false} FrameAtTag(buf: Bytes, i: nat)
    requires i == FindLast(buf, END_TAG)
    ensures var tail := buf[i + |END_TAG|..];
            FrameEvents(buf) == Cut(buf[..i + |END_TAG|], if Blank(tail) then [] else tail)
  {
  }

  /** With one, the complete part ends with the last, and the rest is kept unless it is blank. */
  lemma {:induction false} FrameWithTag(buf: Bytes) returns (tail: Bytes)
    requires Find(buf, END_TAG) >= 0
    ensures CutsAtLastTag(buf, FrameEvents(buf).complete, tail)
    ensures FrameEvents(buf).partial == if Blank(tail) then [] else tail
  {
    var i := FindLast(buf, END_TAG);
    assert i >= 0;
    LastTagCuts(buf, i);
    FrameAtTag(buf, i);
    tail := buf[i + |END_TAG|..];
  }

  // What a cut has to be for the reference to agree with it.
  predicate Agrees(buf: Bytes, cut: Cut) {
    && Drain(cut.complete).events == Drain(buf).events
    && SameButBlanks(Drain(buf).rest, cut.partial)
    && Find(cut.partial, END_TAG) < 0
    && (Find(buf, END_TAG) < 0 ==> cut.partial == buf)
  }

  lemma {:induction false} NoCutAgrees(buf: Bytes)
    requires Find(buf, END_TAG) < 0
    ensures Agrees(buf, Cut([], buf))
  {
    NoTagNoEvent(buf);
    NoTagNoEvent([]);
    assert [] + buf == buf;
    BlanksInFront([], buf);
  }

  lemma {:induction false} TagCutAgrees(buf: Bytes, i: nat)
    requires i == FindLast(buf, END_TAG)
    ensures var tail := buf[i + |END_TAG|..];
            Agrees(buf, Cut(buf[..i + |END_TAG|], if Blank(tail) then [] else tail))
  {
    var tail := buf[i + |END_TAG|..];
    assert Find(buf, END_TAG) >= 0;
    LastCutAgrees(buf, i);
    DropBlanks(tail);
    assert Drain(buf).rest == tail;
  }

  /** One cut loses no event, and its partial is what the reference has left, up to blanks. */
  lemma {:induction false} CutAgrees(buf: Bytes)
    ensures Agrees(buf, FrameEvents(buf))
  {
    var i := FindLast(buf, END_TAG);
    if i < 0 {
      assert Find(buf, END_TAG) < 0;
      NoCutAgrees(buf);
    } else {
      TagCutAgrees(buf, i);
    }
  }

  /** One read keeps a client in step. */
  lemma {:induction false} StaysInStep(h: Bytes, events: seq<Bytes>, carry: Bytes, read: Bytes)
    requires InStep(h, events, carry)
    ensures var cut := FrameEvents(carry + read);
            InStep(h + read, events + Drain(cut.complete).events, cut.partial)
  {
    var rest := Drain(h).rest;
    var w := rest[..|rest| - |carry|];
    assert rest == w + carry;
    ReadAfterCarry(h, carry, read, w);
    CutAgrees(carry + read);
    BlanksInFront(w, carry + read);
  }

  /** The FTS patch over a sequence of reads: frame, hand on what is complete, carry the rest. */
  function Poll(carry: Bytes, pieces: seq<Bytes>): Framed
    decreases |pieces|
  {
    if pieces == [] then Framed([], carry)
    else
      var cut := FrameEvents(carry + pieces[0]);
      var p := Poll(cut.partial, pieces[1..]);
      Framed(Drain(cut.complete).events + p.events, p.rest)
  }

  lemma {:induction false} PollStaysInStep(h: Bytes, events: seq<Bytes>, carry: Bytes, pieces: seq<Bytes>)
    requires InStep(h, events, carry)
    ensures var p := Poll(carry, pieces);
            InStep(h + Flatten(pieces), events + p.events, p.rest)
    decreases |pieces|
  {
    if pieces == [] {
      assert h + Flatten(pieces) == h && events + Poll(carry, pieces).events == events;
    } else {
      var cut := FrameEvents(carry + pieces[0]);
      var now := Drain(cut.complete).events;
      var later := Poll(cut.partial, pieces[1..]).events;
      StaysInStep(h, events, carry, pieces[0]);
      PollStaysInStep(h + pieces[0], events + now, cut.partial, pieces[1..]);
      Associative(h, pieces[0], Flatten(pieces[1..]));
      Associative(events, now, later);
    }
  }

  /** The two framers yield the same event list from any sequence of reads. */
  lemma {:induction false} FramersAgree(pieces: seq<Bytes>)
    ensures Poll([], pieces).events == Feed([], pieces).events
    ensures SameButBlanks(Feed([], pieces).rest, Poll([], pieces).rest)
  {
    PollStaysInStep([], [], [], pieces);
    FeedIsDrain([], pieces);
    assert [] + Poll([], pieces).events == Poll([], pieces).events;
  }
}
