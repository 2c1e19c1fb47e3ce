/** The bridge's bounded ring buffer with its memory of sent keys. */
module CotBuffer {
  import opened Options
  import opened Sequences

  type Key = string

  // A CoT event and what event_key extracts from it.
  datatype Event = Event(xml: string, key: Option<Key>)

  // ---- Sent keys ----

  predicate Known(keys: seq<Key>, e: Event) {
    e.key.Some? && e.key.value in keys
  }

  /** The subsequence of events that a linear search of the sent keys does not find. */
  function Unsent(events: seq<Event>, keys: seq<Key>): seq<Event> {
    if events == [] then []
    else
      var later := Unsent(events[1..], keys);
      if Known(keys, events[0]) then later else [events[0]] + later
  }

  function AlreadySent(events: seq<Event>, keys: seq<Key>): seq<Event> {
    if events == [] then []
    else
      var later := AlreadySent(events[1..], keys);
      if Known(keys, events[0]) then [events[0]] + later else later
  }

  lemma {:induction false} FlushSplits(events: seq<Event>, keys: seq<Key>)
    ensures forall e ::
              multiset(Unsent(events, keys))[e] + multiset(AlreadySent(events, keys))[e] == multiset(events)[e]
    ensures forall e :: e in AlreadySent(events, keys) ==> Known(keys, e)
    ensures forall e :: e in Unsent(events, keys) ==> !Known(keys, e)
  {
    if events == [] {
    } else {
      FlushSplits(events[1..], keys);
      assert events == [events[0]] + events[1..];
    }
  }

  predicate AreUnknown(at: seq<nat>, events: seq<Event>, keys: seq<Key>) {
    forall i: nat :: i < |events| ==> (i in at <==> events[i].key.None? || events[i].key.value !in keys)
  }

  /** What a flush keeps, said without a word on how: the events of the buffer at certain
      indices in their order, and these are the indices of the events whose key was not sent. */
  ghost predicate IsUnsentPart(part: seq<Event>, events: seq<Event>, keys: seq<Key>) {
    exists at :: Picks(part, events, at) && AreUnknown(at, events, keys)
  }

  lemma {:induction false} UnsentOneMore(events: seq<Event>, e: Event, keys: seq<Key>)
    ensures Unsent(events + [e], keys) == Unsent(events, keys) + if Known(keys, e) then [] else [e]
  {
    if events == [] {
      assert [] + [e] == [e];
    } else {
      assert (events + [e])[1..] == events[1..] + [e];
      UnsentOneMore(events[1..], e, keys);
    }
  }

  lemma UnknownNext(at: seq<nat>, events: seq<Event>, e: Event, keys: seq<Key>)
    requires AreUnknown(at, events, keys) && forall i :: i in at ==> i < |events|
    ensures AreUnknown(if Known(keys, e) then at else at + [|events|], events + [e], keys)
  {
    var next := if Known(keys, e) then at else at + [|events|];
    forall i: nat | i < |events + [e]|
      ensures i in next <==> (events + [e])[i].key.None? || (events + [e])[i].key.value !in keys
    {
      if i < |events| {
        assert (events + [e])[i] == events[i];
      }
    }
  }

  lemma {:induction false} PickUnsent(events: seq<Event>, keys: seq<Key>) returns (at: seq<nat>)
    ensures Picks(Unsent(events, keys), events, at) && AreUnknown(at, events, keys)
  {
    if events == [] {
      at := [];
    } else {
      var before, e := events[..|events| - 1], events[|events| - 1];
      assert events == before + [e];
      var some := PickUnsent(before, keys);
      UnsentOneMore(before, e, keys);
      PickNext(Unsent(before, keys), before, some, e);
      UnknownNext(some, before, e, keys);
      at := if Known(keys, e) then some else some + [|before|];
    }
  }

  lemma {:induction false} UnsentIsPart(events: seq<Event>, keys: seq<Key>)
    ensures IsUnsentPart(Unsent(events, keys), events, keys)
  {
    var at := PickUnsent(events, keys);
  }

  /** In particular, when no key is known the whole buffer is kept as it is. */
  lemma {:induction false} AllUnsent(events: seq<Event>, keys: seq<Key>)
    requires forall e :: e in events && e.key.Some? ==> e.key.value !in keys
    ensures Unsent(events, keys) == events
  {
    if events == [] {
    } else {
      AllUnsent(events[1..], keys);
      assert events == [events[0]] + events[1..];
    }
  }

  function Remember(keys: seq<Key>, k: Key, cap: nat): seq<Key> {
    if k in keys then keys else Push(keys, k, cap)
  }

  /** Remembering a key adds it, forgets the oldest only when there is no room, and repeats none. */
  lemma RememberKeeps(keys: seq<Key>, k: Key, cap: nat)
    requires NoRepeats(keys) && |keys| <= cap && cap >= 1
    ensures var next := Remember(keys, k, cap);
            && NoRepeats(next) && |next| <= cap && k in next
            && (forall x :: x in next ==> x in keys || x == k)
            && (k in keys ==> next == keys)
            && (k !in keys && |keys| < cap ==> next == keys + [k])
            && (k !in keys && |keys| == cap ==> next == keys[1..] + [k])
  {
    if k !in keys {
      var next := Push(keys, k, cap);
      assert next[|next| - 1] == k;
    }
  }

  function Elements<T>(s: seq<T>): set<T> {
    set x | x in s
  }

  /** The set is the fast form of the list: same elements, no repeats, bounded. */
  predicate Mirrors(keys: seq<Key>, known: set<Key>, cap: nat) {
    known == Elements(keys) && NoRepeats(keys) && |keys| <= cap
  }

  /** Discarding from the set exactly the key that the full list pushes out keeps them equal. */
  lemma RememberMirrors(keys: seq<Key>, known: set<Key>, k: Key, cap: nat)
    requires Mirrors(keys, known, cap) && cap >= 1 && k !in keys
    ensures Mirrors(Push(keys, k, cap), (if |keys| == cap then known - {keys[0]} else known) + {k}, cap)
  {
    var next := Push(keys, k, cap);
    var known' := (if |keys| == cap then known - {keys[0]} else known) + {k};
    forall x
      ensures x in known' <==> x in next
    {
      if x in known' && x != k {
        var i :| 0 <= i < |keys| && keys[i] == x;
        assert |keys| == cap ==> i > 0;
        assert next[if |keys| == cap then i - 1 else i] == x;
      }
      if x == k {
        assert next[|next| - 1] == k;
      }
    }
  }

  class CoTBuffer {
    const maxlen: nat
    var buf: seq<Event>
    var sentKeys: seq<Key>
    var sentSet: set<Key>

    predicate Valid()
      reads this
    {
      |buf| <= maxlen && Mirrors(sentKeys, sentSet, 2 * maxlen)
    }

    constructor (maxlen: nat)
      ensures Valid() && this.maxlen == maxlen && buf == [] && sentKeys == []
    {
      this.maxlen := maxlen;
      buf, sentKeys, sentSet := [], [], {};
    }

    method Add(cot: Event)
      requires Valid()
      modifies this`buf
      ensures Valid()
      ensures buf == Push(old(buf), cot, maxlen)
      ensures Overflow(old(buf), cot, maxlen) + buf == old(buf) + [cot]
    {
      PushKeepsAll(buf, cot, maxlen);
      buf := Push(buf, cot, maxlen);
    }

    /** Empties the buffer; returns what the list of sent keys does not know, though only the
        set is searched. */
    method Flush() returns (events: seq<Event>)
      requires Valid()
      modifies this`buf
      ensures Valid()
      ensures buf == [] && events == Unsent(old(buf), sentKeys)
      ensures IsUnsentPart(events, old(buf), sentKeys)
    {
      events := [];
      while buf != []
        invariant |buf| <= maxlen
        invariant events + Unsent(buf, sentKeys) == Unsent(old(buf), sentKeys)
        decreases |buf|
      {
        var cot := buf[0];
        buf := buf[1..];
        if cot.key.Some? && cot.key.value in sentSet {
          continue;
        }
        events := events + [cot];
      }
      UnsentIsPart(old(buf), sentKeys);
    }

    /** Fails only as the source does: with no room at all there is no oldest key to evict. */
    method MarkSent(cot: Event) returns (ok: bool)
      requires Valid()
      modifies this`sentKeys, this`sentSet
      ensures Valid()
      ensures ok <==> cot.key.None? || maxlen > 0
      ensures sentKeys == if ok && cot.key.Some?
                          then Remember(old(sentKeys), cot.key.value, 2 * maxlen)
                          else old(sentKeys)
    {
      ok := true;
      if cot.key.Some? {
        ok := TrackSent(cot.key.value);
      }
    }

    method TrackSent(key: Key) returns (ok: bool)
      requires Valid()
      modifies this`sentKeys, this`sentSet
      ensures Valid()
      ensures ok <==> maxlen > 0
      ensures sentKeys == if ok then Remember(old(sentKeys), key, 2 * maxlen) else old(sentKeys)
    {
      if key in sentSet {
        return true;
      }
      if |sentKeys| == 2 * maxlen && maxlen == 0 {
        return false;
      }
      RememberMirrors(sentKeys, sentSet, key, 2 * maxlen);
      if |sentKeys| == 2 * maxlen {
        sentSet := sentSet - {sentKeys[0]};
      }
      sentKeys := Push(sentKeys, key, 2 * maxlen);
      sentSet := sentSet + {key};
      return true;
    }
  }
}
