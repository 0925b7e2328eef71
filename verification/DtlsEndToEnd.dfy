/** Sender and receiver joined by a channel that loses, repeats and reorders records. */
module DtlsEndToEnd {
  import opened Wrappers
  import opened DtlsFragment
  import opened DtlsReceive
  import opened DtlsTransport
  import opened DtlsFlight

  /** The fragment a record carries. */
  function FragmentIn(s: Sealed): set<Fragment> {
    if s.type_ != SSL3_RT_HANDSHAKE then {}
    else
      match ParseFragment(s.payload)
      case Some(p) => {p.fragment}
      case None => {}
  }

  function FragmentsIn(records: seq<Sealed>): set<Fragment> {
    if records == [] then {} else FragmentIn(records[0]) + FragmentsIn(records[1..])
  }

  lemma AdvanceFragment(messages: seq<Outgoing>, c: Cursor, s: Sealed)
    requires ValidCursor(messages, c) && Advance(messages, c, s).Some?
    ensures c.written < |messages| && ValidCursor(messages, Advance(messages, c, s).value)
    ensures messages[c.written].ChangeCipherSpec? ==>
      FragmentIn(s) == {} && Advance(messages, c, s).value == Cursor(c.written + 1, 0)
    ensures messages[c.written].Handshake? ==>
      var (m, n) := Content(messages[c.written]).value;
      var len := |s.payload| - DTLS1_HM_HEADER_LENGTH;
      && 0 <= len && c.offset + len <= |m.body| && FragmentIn(s) == {m.Slice(n, c.offset, len)}
      && Advance(messages, c, s).value
         == if c.offset + len == |m.body| then Cursor(c.written + 1, 0) else Cursor(c.written, c.offset + len)
  {
    hide Content, Header, ParseFragment;
    CcsIsEmpty(messages[c.written]);
    if messages[c.written].Handshake? {
      var (m, n) := Content(messages[c.written]).value;
      ContentFits(messages[c.written]);
      var len := |s.payload| - DTLS1_HM_HEADER_LENGTH;
      var f := m.Slice(n, c.offset, len);
      FragmentRoundTrip(f, []);
      assert f.Bytes() + [] == f.Bytes();
    }
  }

  lemma ContentFits(m: Outgoing)
    requires Content(m).Some?
    ensures |Content(m).value.0.body| < TWO24 && Content(m).value.1 < TWO16
  {
  }

  lemma MoreArrived(a: set<Fragment>, b: set<Fragment>, n: nat, i: nat)
    requires a <= b
    ensures Mentioned(a, n) ==> Mentioned(b, n)
    ensures ByteArrived(a, n, i) ==> ByteArrived(b, n, i)
  {
    if Mentioned(a, n) {
      var f :| f in a && f.hdr.seq_ == n;
      assert f in b;
    }
    if ByteArrived(a, n, i) {
      var f :| f in a && f.hdr.seq_ == n && Within(f, i);
      assert f in b;
    }
  }

  /** Whatever the fragment sizes, the records between two cursors carry every byte of every
      message between them, and a fragment even of an empty message. */
  lemma {:induction false} WalkCovers(messages: seq<Outgoing>, c: Cursor, records: seq<Sealed>, j: nat, i: nat)
    requires ValidCursor(messages, c) && Walk(messages, c, records).Some?
    requires c.written <= j < Walk(messages, c, records).value.written && j < |messages| && Content(messages[j]).Some?
    ensures var (m, n) := Content(messages[j]).value;
      && Mentioned(FragmentsIn(records), n)
      && (i < |m.body| && (j > c.written || i >= c.offset) ==> ByteArrived(FragmentsIn(records), n, i))
    decreases |records|
  {
    hide Content, Advance, Mentioned, ByteArrived, FragmentIn;
    var (m, n) := Content(messages[j]).value;
    assert Advance(messages, c, records[0]).Some?;
    AdvanceFragment(messages, c, records[0]);
    var c' := Advance(messages, c, records[0]).value;
    if j == c.written {
      CcsIsEmpty(messages[j]);
      var f := m.Slice(n, c.offset, |records[0].payload| - DTLS1_HM_HEADER_LENGTH);
      assert Mentioned({f}, n) && (Within(f, i) ==> ByteArrived({f}, n, i)) by { Alone(f, i); }
      MoreArrived({f}, FragmentsIn(records), n, i);
    }
    if c'.written <= j {
      WalkCovers(messages, c', records[1..], j, i);
      MoreArrived(FragmentsIn(records[1..]), FragmentsIn(records), n, i);
    }
  }

  lemma Alone(f: Fragment, i: nat)
    ensures Mentioned({f}, f.hdr.seq_) && (Within(f, i) ==> ByteArrived({f}, f.hdr.seq_, i))
  {
    assert f in {f};
  }

  /** The outgoing entries are the flight's messages, numbered from base, besides any
      ChangeCipherSpec. */
  ghost predicate Holds(messages: seq<Outgoing>, ms: seq<Message>, base: nat) {
    && (forall j :: 0 <= j < |messages| && messages[j].Handshake? ==>
          Content(messages[j]).Some? && base <= Content(messages[j]).value.1 < base + |ms|
          && ms[Content(messages[j]).value.1 - base] == Content(messages[j]).value.0)
    && (forall k :: 0 <= k < |ms| ==> HasMessage(messages, ms[k], base + k))
  }

  ghost predicate HasMessage(messages: seq<Outgoing>, m: Message, n: nat) {
    exists j :: 0 <= j < |messages| && Content(messages[j]) == Some((m, n))
  }

  lemma {:induction false} WalkIsGenuine(
    messages: seq<Outgoing>, ms: seq<Message>, base: nat, c: Cursor, records: seq<Sealed>, f: Fragment)
    requires Holds(messages, ms, base) && ValidCursor(messages, c) && Walk(messages, c, records).Some?
    requires f in FragmentsIn(records)
    ensures Genuine(ms, base, f)
    decreases |records|
  {
    hide Content, Advance, FragmentIn;
    AdvanceFragment(messages, c, records[0]);
    if f in FragmentIn(records[0]) {
      assert messages[c.written].Handshake?;
    } else {
      WalkIsGenuine(messages, ms, base, Advance(messages, c, records[0]).value, records[1..], f);
    }
  }

  /** f was in some transmission of the flight, at any MTU, from any cursor. */
  ghost predicate SentSometime(messages: seq<Outgoing>, f: Fragment) {
    exists c, records :: ValidCursor(messages, c) && Walk(messages, c, records).Some? && f in FragmentsIn(records)
  }

  lemma {:induction false} WalkFront(messages: seq<Outgoing>, c: Cursor, a: seq<Sealed>, b: seq<Sealed>)
    requires Walk(messages, c, a + b).Some?
    ensures Walk(messages, c, a).Some?
    decreases |a|
  {
    hide Advance;
    if a != [] {
      assert (a + b)[0] == a[0] && (a + b)[1..] == a[1..] + b;
      WalkFront(messages, Advance(messages, c, a[0]).value, a[1..], b);
    }
  }

  lemma {:induction false} FragmentsJoin(a: seq<Sealed>, b: seq<Sealed>)
    ensures FragmentsIn(a + b) == FragmentsIn(a) + FragmentsIn(b)
    decreases |a|
  {
    hide FragmentIn;
    if a == [] {
      assert a + b == b;
    } else {
      assert (a + b)[0] == a[0] && (a + b)[1..] == a[1..] + b;
      FragmentsJoin(a[1..], b);
    }
  }

  lemma {:induction false} FragmentsOfPacket(packets: seq<seq<Sealed>>, p: seq<Sealed>)
    requires p in packets
    ensures FragmentsIn(p) <= FragmentsIn(Flatten(packets))
    decreases |packets|
  {
    hide FragmentsIn;
    var front, last := packets[..|packets| - 1], packets[|packets| - 1];
    FragmentsJoin(Flatten(front), last);
    if p != last { FragmentsOfPacket(front, p); }
  }

  /** What a transmission puts on the wire was sent, whatever stopped it. */
  lemma PacketsAreSent(messages: seq<Outgoing>, c: Cursor, packets: seq<seq<Sealed>>, lost: seq<Sealed>)
    requires ValidCursor(messages, c) && Walk(messages, c, Flatten(packets) + lost).Some?
    ensures forall p, f :: p in packets && f in FragmentsIn(p) ==> SentSometime(messages, f)
  {
    hide Walk, FragmentsIn, ValidCursor;
    WalkFront(messages, c, Flatten(packets), lost);
    forall p, f | p in packets && f in FragmentsIn(p) ensures SentSometime(messages, f) {
      FragmentsOfPacket(packets, p);
      assert f in FragmentsIn(Flatten(packets));
    }
  }

  ghost predicate EventsSent(messages: seq<Outgoing>, events: seq<Event>) {
    && (forall e, f :: e in events && e.Record? && f in e.fragments ==> SentSometime(messages, f))
    && (forall e :: e in events && e.Other? ==> e.type_ != SSL3_RT_HANDSHAKE)
  }

  lemma SentIsGenuine(messages: seq<Outgoing>, ms: seq<Message>, base: nat, events: seq<Event>)
    requires Holds(messages, ms, base) && EventsSent(messages, events)
    ensures GenuineEvents(ms, base, events)
  {
    hide Holds, Genuine;
    forall e, f | e in events && e.Record? && f in e.fragments ensures Genuine(ms, base, f) {
      assert SentSometime(messages, f);
      var c, records :| ValidCursor(messages, c) && Walk(messages, c, records).Some? && f in FragmentsIn(records);
      WalkIsGenuine(messages, ms, base, c, records, f);
    }
  }

  /** End to end: let the sender transmit a flight any number of times at any MTUs, and let
      the records arrive in any order, lost or repeated, while the receiver asks for messages
      and switches its keys. Once the fragments heard cover the flight, whichever transmissions
      they are from, the receiver has met no error and asking for the messages delivers every
      one of them once, in order, byte for byte as serialised by the sender. */
  lemma FlightArrives(
    messages: seq<Outgoing>, ms: seq<Message>, base: nat, maxLen: nat, epoch: nat, events: seq<Event>)
    requires Holds(messages, ms, base) && Sendable(ms, base, maxLen) && base + |ms| < TWO16
    requires EventsSent(messages, events) && Timely(Fresh(epoch, base), maxLen, events)
    requires forall k :: 0 <= k < |ms| ==> Covered(Heard(Fresh(epoch, base), maxLen, events), base + k, ms[k])
    ensures var r := Run(Fresh(epoch, base), maxLen, events);
      && !r.failed && |r.delivered| <= |ms|
      && Run(r, maxLen, Polls(|ms| - |r.delivered|)).delivered == Raws(ms, base)
  {
    hide Heard, Run, Timely, EventsSent, GenuineEvents, Covered, Sendable, QueueOf;
    SentIsGenuine(messages, ms, base, events);
    FaithfulDelivery(ms, base, maxLen, epoch, events);
    FlightDelivered(ms, base, maxLen, epoch, events);
  }

  /** In particular once all of one complete transmission was heard. */
  lemma TransmissionArrives(
    messages: seq<Outgoing>, ms: seq<Message>, base: nat, maxLen: nat, epoch: nat,
    records: seq<Sealed>, events: seq<Event>)
    requires Holds(messages, ms, base) && Sendable(ms, base, maxLen) && base + |ms| < TWO16
    requires EventsSent(messages, events) && Timely(Fresh(epoch, base), maxLen, events)
    requires Walk(messages, Cursor(0, 0), records) == Some(Cursor(|messages|, 0))
    requires FragmentsIn(records) <= Heard(Fresh(epoch, base), maxLen, events)
    ensures var r := Run(Fresh(epoch, base), maxLen, events);
      && !r.failed && |r.delivered| <= |ms|
      && Run(r, maxLen, Polls(|ms| - |r.delivered|)).delivered == Raws(ms, base)
  {
    hide Walk, FragmentsIn, Run, Heard, Timely, EventsSent, Covered, Sendable;
    var heard := Heard(Fresh(epoch, base), maxLen, events);
    forall k | 0 <= k < |ms| ensures Covered(heard, base + k, ms[k]) {
      TransmissionCovers(messages, ms, base, records, k);
      CoveredMore(FragmentsIn(records), heard, base + k, ms[k]);
    }
    FlightArrives(messages, ms, base, maxLen, epoch, events);
  }

  lemma CoveredMore(a: set<Fragment>, b: set<Fragment>, n: nat, m: Message)
    requires a <= b && Covered(a, n, m)
    ensures Covered(b, n, m)
  {
    forall i | 0 <= i < |m.body| ensures ByteArrived(b, n, i) { MoreArrived(a, b, n, i); }
    MoreArrived(a, b, n, 0);
  }

  lemma TransmissionCovers(messages: seq<Outgoing>, ms: seq<Message>, base: nat, records: seq<Sealed>, k: nat)
    requires Holds(messages, ms, base) && k < |ms|
    requires Walk(messages, Cursor(0, 0), records) == Some(Cursor(|messages|, 0))
    ensures Covered(FragmentsIn(records), base + k, ms[k])
  {
    hide Walk, FragmentsIn, Content, Mentioned, ByteArrived;
    assert HasMessage(messages, ms[k], base + k);
    var j :| 0 <= j < |messages| && Content(messages[j]) == Some((ms[k], base + k));
    WalkCovers(messages, Cursor(0, 0), records, j, 0);
    var n, fragments := base + k, FragmentsIn(records);
    forall i | 0 <= i < |ms[k].body| ensures ByteArrived(fragments, n, i) {
      WalkCovers(messages, Cursor(0, 0), records, j, i);
    }
  }
}
