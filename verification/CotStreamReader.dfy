/** The HaLow bridge's stream reader: `read_event` over a socket that yields arbitrary reads. */
module CotStreamReader {
  import opened Options
  import opened Search
  import opened CotFraming

  // One answer of the socket: bytes (none at end of file), or a connection error.
  datatype Read = Data(bytes: Bytes) | Broken

  predicate Ends(r: Read) {
    r.Broken? || r.bytes == []
  }

  /** All bytes that arrive before the socket ends. */
  function Live(socket: seq<Read>): Bytes {
    if socket == [] || Ends(socket[0]) then [] else socket[0].bytes + Live(socket[1..])
  }

  lemma {:induction false} CutAhead(buf: Bytes, more: Bytes, end: nat)
    requires Find(buf, END_TAG) >= 0 && end == Find(buf, END_TAG) + |END_TAG|
    ensures Drain(buf + more).events == EventIn(buf[..end]) + Drain(buf[end..] + more).events
    ensures Drain(buf + more).rest == Drain(buf[end..] + more).rest
  {
    FindAppend(buf, more, END_TAG);
    assert (buf + more)[..end] == buf[..end];
    assert (buf + more)[end..] == buf[end..] + more;
  }

  class Reader {
    var buf: Bytes
    var socket: seq<Read>  // what the socket will answer from here on

    constructor (socket: seq<Read>)
      ensures Ahead() == Live(socket)
    {
      this.socket := socket;
      buf := [];
    }

    /** The bytes not yet consumed: those buffered, then those still to arrive. */
    function Ahead(): Bytes
      reads this
    {
      buf + Live(socket)
    }

    /** Returns the next event of the stream ahead, whatever the cuts, and leaves the others
        ahead; None only when the stream ends without another event. */
    method ReadEvent() returns (r: Option<Bytes>)
      modifies this
      ensures r.Some? ==> Drain(old(Ahead())).events == [r.value] + Drain(Ahead()).events
      ensures r.Some? ==> Drain(old(Ahead())).rest == Drain(Ahead()).rest
      ensures r.None? ==> Drain(old(Ahead())) == Framed([], buf)
    {
      ghost var goal := Drain(Ahead());
      while true
        invariant Drain(Ahead()) == goal
        decreases |socket|, |buf|
      {
        var idx := Find(buf, END_TAG);
        if idx >= 0 {
          var end := idx + |END_TAG|;
          var chunk := buf[..end];
          CutAhead(buf, Live(socket), end);
          buf := buf[end..];
          var start := Find(chunk, START_TAG);
          if start >= 0 {
            return Some(chunk[start..]);
          }
          assert [] + Drain(Ahead()).events == Drain(Ahead()).events;
        } else {
          if socket == [] {
            assert Ahead() == buf;
            return None;
          }
          var data := socket[0];
          if Ends(data) {
            assert Ahead() == buf;
            socket := socket[1..];
            return None;
          }
          assert buf + (data.bytes + Live(socket[1..])) == buf + data.bytes + Live(socket[1..]);
          socket := socket[1..];
          buf := buf + data.bytes;
        }
      }
      assert false;
    }
  }

  /** The stream ahead is what arrives, so where the reads were cut cannot matter. */
  lemma {:induction false} LiveIsFlatten(pieces: seq<Bytes>, socket: seq<Read>)
    requires |socket| == |pieces|
    requires forall i :: 0 <= i < |pieces| ==> socket[i] == Data(pieces[i]) && pieces[i] != []
    ensures Live(socket) == Flatten(pieces)
  {
    if pieces == [] {
    } else {
      LiveIsFlatten(pieces[1..], socket[1..]);
    }
  }
}
