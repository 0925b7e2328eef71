/** A DTLS flight and the records that carry it: what each record does to the cursor, and what
    a sequence of them covers. */
module DtlsFlight {
  import opened Bits
  import opened Wrappers
  import opened DtlsFragment
  import opened DtlsReceive
  import opened DtlsTransport

  /** DTLS_OUTGOING_MESSAGE */
  datatype Outgoing = Handshake(data: seq<byte>, epoch: nat) | ChangeCipherSpec(epoch: nat)

  /** A record that was sealed, with its size on the wire. */
  datatype Sealed = Sealed(epoch: nat, number: nat, type_: byte, payload: seq<byte>, size: nat)

  /** outgoing_written and outgoing_offset */
  datatype Cursor = Cursor(written: nat, offset: nat)

  // ---------------------------------------------------------------- what a record does to the cursor

  /** The message and number in an outgoing entry that dtls1_parse_fragment accepts as one
      unfragmented message. */
  function Content(m: Outgoing): Option<(Message, nat)> {
    if m.ChangeCipherSpec? then None
    else
      match ParseFragment(m.data)
      case None => None
      case Some(p) =>
        var h := p.fragment.hdr;
        if h.fragOff != 0 || h.fragLen != h.msgLen || p.rest != [] then None
        else Some((Message(h.type_, p.fragment.body), h.seq_))
  }

  lemma CcsIsEmpty(m: Outgoing)
    ensures m.ChangeCipherSpec? ==> Content(m).None?
  {
  }

  /** The entry the message layer builds for message n has that content. */
  lemma ContentOfRaw(m: Message, n: nat, epoch: nat)
    requires |m.body| < TWO24 && n < TWO16
    ensures Content(Handshake(m.Raw(n), epoch)) == Some((m, n))
  {
    hide ParseFragment, Header;
    FragmentRoundTrip(m.Slice(n, 0, |m.body|), []);
    assert m.Raw(n) + [] == m.Raw(n);
    assert m.body[0..|m.body|] == m.body;
  }

  /** Where a record takes the cursor, if it is the right one to send there. */
  function Advance(messages: seq<Outgoing>, c: Cursor, s: Sealed): Option<Cursor> {
    if c.written >= |messages| || s.epoch != messages[c.written].epoch then None
    else if messages[c.written].ChangeCipherSpec? then
      if s.type_ == SSL3_RT_CHANGE_CIPHER_SPEC && s.payload == [SSL3_MT_CCS] then Some(Cursor(c.written + 1, c.offset))
      else None
    else
      match Content(messages[c.written])
      case None => None
      case Some((m, n)) =>
        if s.type_ != SSL3_RT_HANDSHAKE || |s.payload| < DTLS1_HM_HEADER_LENGTH then None
        else
          var len := |s.payload| - DTLS1_HM_HEADER_LENGTH;
          if c.offset + len > |m.body| || s.payload != m.Slice(n, c.offset, len).Bytes() then None
          else if c.offset + len == |m.body| then Some(Cursor(c.written + 1, 0))
          else if len == 0 then None
          else Some(Cursor(c.written, c.offset + len))
  }

  function Walk(messages: seq<Outgoing>, c: Cursor, records: seq<Sealed>): Option<Cursor>
    decreases |records|
  {
    if records == [] then Some(c)
    else
      match Advance(messages, c, records[0])
      case None => None
      case Some(c') => Walk(messages, c', records[1..])
  }

  lemma {:induction false} WalkFurther(messages: seq<Outgoing>, c: Cursor, a: seq<Sealed>, b: seq<Sealed>)
    requires Walk(messages, c, a).Some?
    ensures Walk(messages, c, a + b) == Walk(messages, Walk(messages, c, a).value, b)
    decreases |a|
  {
    hide Advance;
    if a == [] {
      assert a + b == b;
    } else {
      assert (a + b)[1..] == a[1..] + b;
      WalkFurther(messages, Advance(messages, c, a[0]).value, a[1..], b);
    }
  }

  lemma WalkNowhere(messages: seq<Outgoing>, c: Cursor)
    ensures Walk(messages, c, Flatten([]) + []) == Walk(messages, c, Flatten([])) == Some(c)
    ensures Walk(messages, c, []) == Some(c) && Size([]) == 0
  {
  }

  function Size(records: seq<Sealed>): nat {
    if records == [] then 0 else Size(records[..|records| - 1]) + records[|records| - 1].size
  }

  function Flatten(packets: seq<seq<Sealed>>): seq<Sealed> {
    if packets == [] then [] else Flatten(packets[..|packets| - 1]) + packets[|packets| - 1]
  }

  lemma FlattenMore(packets: seq<seq<Sealed>>, packet: seq<Sealed>)
    ensures Flatten(packets + [packet]) == Flatten(packets) + packet
    ensures Flatten(packets) + [] == Flatten(packets)
  {
    assert (packets + [packet])[..|packets|] == packets;
  }

  /** The bytes left of the current message. */
  function BytesLeft(messages: seq<Outgoing>, c: Cursor): int {
    if c.written < |messages| && Content(messages[c.written]).Some?
    then |Content(messages[c.written]).value.0.body| - c.offset else 0
  }

  // ---------------------------------------------------------------- what a transmission contains

  ghost predicate ValidCursor(messages: seq<Outgoing>, c: Cursor) {
    c.offset > 0 ==>
      && c.written < |messages| && Content(messages[c.written]).Some?
      && c.offset < |Content(messages[c.written]).value.0.body|
  }

  function BodyOf(m: Outgoing): seq<byte> {
    if Content(m).Some? then Content(m).value.0.body else []
  }

  function Bodies(messages: seq<Outgoing>, k: nat): seq<byte>
    requires k <= |messages|
  {
    if k == 0 then [] else Bodies(messages, k - 1) + BodyOf(messages[k - 1])
  }

  /** The handshake bytes in front of the cursor. */
  function Passed(messages: seq<Outgoing>, c: Cursor): seq<byte>
    requires c.written <= |messages|
    requires c.offset <= if c.written < |messages| then |BodyOf(messages[c.written])| else 0
  {
    Bodies(messages, c.written) + if c.written < |messages| then BodyOf(messages[c.written])[..c.offset] else []
  }

  /** The handshake bytes in a sequence of records. */
  function FragmentBodies(records: seq<Sealed>): seq<byte> {
    if records == [] then []
    else
      var s := records[0];
      (if s.type_ == SSL3_RT_HANDSHAKE && |s.payload| >= DTLS1_HM_HEADER_LENGTH
       then s.payload[DTLS1_HM_HEADER_LENGTH..] else []) + FragmentBodies(records[1..])
  }

  lemma AdvancePasses(messages: seq<Outgoing>, c: Cursor, s: Sealed)
    requires ValidCursor(messages, c) && Advance(messages, c, s).Some?
    ensures var c' := Advance(messages, c, s).value;
      && ValidCursor(messages, c') && c'.written <= |messages|
      && Passed(messages, c) + FragmentBodies([s]) == Passed(messages, c')
  {
    hide Content, Header, Bodies;
    var c', m, before := Advance(messages, c, s).value, messages[c.written], Bodies(messages, c.written);
    if m.ChangeCipherSpec? {
      assert FragmentBodies([s]) == [];
      NoBody(m);
    } else {
      var (x, n) := Content(m).value;
      var len := |s.payload| - DTLS1_HM_HEADER_LENGTH;
      assert FragmentBodies([s]) == x.body[c.offset..c.offset + len];
      JoinSlices(before, x.body, c.offset, len);
    }
    assert Bodies(messages, c.written + 1) == before + BodyOf(m) by { BodiesNext(messages, c.written); }
  }

  lemma NoBody(m: Outgoing)
    ensures m.ChangeCipherSpec? ==> BodyOf(m) == []
  {
  }

  lemma BodiesNext(messages: seq<Outgoing>, k: nat)
    requires k < |messages|
    ensures Bodies(messages, k + 1) == Bodies(messages, k) + BodyOf(messages[k])
  {
  }

  lemma JoinSlices(before: seq<byte>, body: seq<byte>, off: nat, len: nat)
    requires off + len <= |body|
    ensures before + body[..off] + body[off..off + len] == before + body[..off + len]
    ensures off + len == |body| ==> body[..off + len] == body
  {
  }

  /** The fragments a walk sends partition the bytes it covers: put together, in order,
      they are exactly the handshake bytes between its two ends. */
  lemma {:induction false} FragmentsPartition(messages: seq<Outgoing>, c: Cursor, records: seq<Sealed>)
    requires ValidCursor(messages, c) && c.written <= |messages| && Walk(messages, c, records).Some?
    ensures var c' := Walk(messages, c, records).value;
      && ValidCursor(messages, c') && c'.written <= |messages|
      && Passed(messages, c) + FragmentBodies(records) == Passed(messages, c')
    decreases |records|
  {
    hide Advance, Passed, Content;
    if records != [] {
      AdvancePasses(messages, c, records[0]);
      FragmentsPartition(messages, Advance(messages, c, records[0]).value, records[1..]);
      assert [records[0]][1..] == [] && FragmentBodies([]) == [];
    }
  }
}
