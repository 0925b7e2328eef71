/** What goes into one packet of a DTLS flight, as a function of the keys, the record numbers
    and the cursor, and exactly when sealing it fails. */
module DtlsPacket {
  import opened Bits
  import opened Wrappers
  import opened DtlsFragment
  import opened DtlsReceive
  import opened DtlsTransport
  import opened DtlsFlight

  /** An SSLAEADContext: MaxOverhead, ExplicitNonceLen, and the length of the ciphertext it
      makes of a record with a given number, type and content, if it does not refuse. */
  datatype Aead = Aead(maxOverhead: nat, nonceLen: nat, seal: (nat, byte, seq<byte>) -> Option<nat>) {
    ghost predicate Valid() {
      nonceLen <= maxOverhead && forall n: nat, t: byte, p: seq<byte> :: Within(n, t, p)
    }

    predicate Within(n: nat, t: byte, p: seq<byte>) {
      seal(n, t, p).Some? ==> seal(n, t, p).value <= |p| + maxOverhead
    }

    ghost predicate Accepts() {
      forall n: nat, t: byte, p: seq<byte> :: seal(n, t, p).Some?
    }
  }

  /** The record holds the ciphertext a context makes of its number, type and payload. */
  predicate SealedWith(a: Aead, s: Sealed) {
    (a.seal)(s.number, s.type_, s.payload) == Some(s.size - DTLS1_RT_HEADER_LENGTH)
  }

  lemma NonceFits(a: Aead)
    requires a.Valid()
    ensures a.nonceLen <= a.maxOverhead
  {
  }

  predicate IsPrevious(epoch: nat, e: nat) {
    epoch >= 1 && e == epoch - 1
  }

  /** The write epoch, its keys and next record number, and those of the epoch before. */
  datatype Keys = Keys(epoch: nat, sequence: nat, lastSequence: nat, aead: Aead, lastAead: Aead) {
    predicate Previous(e: nat) {
      IsPrevious(epoch, e)
    }

    function Context(e: nat): Aead {
      if Previous(e) then lastAead else aead
    }

    function Number(e: nat): nat {
      if Previous(e) then lastSequence else sequence
    }

    function Spent(e: nat): Keys {
      if Previous(e) then this.(lastSequence := (lastSequence + 1) % TWO48)
      else this.(sequence := (sequence + 1) % TWO48)
    }

    /** The AEAD takes the record and the output has room for it. */
    predicate Encrypts(e: nat, type_: byte, payload: seq<byte>, maxOut: nat) {
      var len := (Context(e).seal)(Number(e), type_, payload);
      len.Some? && DTLS1_RT_HEADER_LENGTH + len.value <= maxOut
    }

    /** dtls_seal_record. The last number of an epoch is not used. */
    function Seal(e: nat, type_: byte, payload: seq<byte>, maxOut: nat): (r: Option<Sealed>)
      ensures r.Some? ==>
        && r.value.epoch == e && r.value.payload == payload && r.value.type_ == type_ && r.value.size <= maxOut
    {
      if !Encrypts(e, type_, payload, maxOut) then None
      else
        var len := (Context(e).seal)(Number(e), type_, payload).value;
        if Number(e) + 1 == TWO48 || len >= TWO16 then None
        else Some(Sealed(e, Number(e), type_, payload, DTLS1_RT_HEADER_LENGTH + len))
    }

    function AfterSeal(e: nat, type_: byte, payload: seq<byte>, maxOut: nat): Keys {
      if Encrypts(e, type_, payload, maxOut) then Spent(e) else this
    }

    function Overhead(): nat {
      if aead.maxOverhead >= lastAead.maxOverhead then aead.maxOverhead else lastAead.maxOverhead
    }
  }

  datatype SealResult = SealError | SealNoProgress | SealPartial | SealSuccess

  datatype Tried = Tried(result: SealResult, record: Option<Sealed>, keys: Keys)

  function SealOne(k: Keys, e: nat, type_: byte, payload: seq<byte>, maxOut: nat, done: SealResult): Tried {
    var record := k.Seal(e, type_, payload, maxOut);
    Tried(if record.Some? then done else SealError, record, k.AfterSeal(e, type_, payload, maxOut))
  }

  /** How much of a message goes into maxOut bytes. */
  function Todo(left: nat, overhead: nat, maxOut: nat): nat
    requires DTLS1_HM_HEADER_LENGTH + overhead <= maxOut
  {
    if left > maxOut - DTLS1_HM_HEADER_LENGTH - overhead then maxOut - DTLS1_HM_HEADER_LENGTH - overhead else left
  }

  /** seal_next_message: an error whatever the room when the entry does not parse or its epoch
      is gone, else the longest fragment that is sure to fit. */
  function Try(k: Keys, messages: seq<Outgoing>, c: Cursor, maxOut: nat): (t: Tried)
    requires c.written < |messages|
    ensures t.record.Some? <==> t.result.SealPartial? || t.result.SealSuccess?
    ensures t.record.Some? ==> t.record.value.size <= maxOut
    ensures t.result.SealPartial? ==> |t.record.value.payload| > DTLS1_HM_HEADER_LENGTH
  {
    var msg := messages[c.written];
    if msg.epoch != k.epoch && !k.Previous(msg.epoch) then Tried(SealError, None, k)
    else
      var overhead := DTLS1_RT_HEADER_LENGTH + k.Context(msg.epoch).maxOverhead;
      if msg.ChangeCipherSpec? then
        if maxOut < 1 + overhead then Tried(SealNoProgress, None, k)
        else SealOne(k, msg.epoch, SSL3_RT_CHANGE_CIPHER_SPEC, [SSL3_MT_CCS], maxOut, SealSuccess)
      else
        match Content(msg)
        case None => Tried(SealError, None, k)
        case Some((m, n)) =>
          if c.offset > |m.body| then Tried(SealError, None, k)
          else if maxOut < DTLS1_HM_HEADER_LENGTH + 1 + overhead then Tried(SealNoProgress, None, k)
          else
            var left := |m.body| - c.offset;
            var todo := Todo(left, overhead, maxOut);
            SealOne(k, msg.epoch, SSL3_RT_HANDSHAKE, m.Slice(n, c.offset, todo).Bytes(), maxOut,
                    if todo == left then SealSuccess else SealPartial)
  }

  function Moved(c: Cursor, t: Tried): Cursor
    requires t.result.SealPartial? ==> t.record.Some? && |t.record.value.payload| > DTLS1_HM_HEADER_LENGTH
  {
    match t.result
    case SealSuccess => Cursor(c.written + 1, 0)
    case SealPartial => Cursor(c.written, c.offset + |t.record.value.payload| - DTLS1_HM_HEADER_LENGTH)
    case _ => c
  }

  /** The records of a packet, and whether sealing failed after them. */
  datatype Packed = Packed(failed: bool, records: seq<Sealed>, keys: Keys, cursor: Cursor)

  /** seal_next_packet: messages as long as they fit whole, and what fits of one more. */
  function Pack(k: Keys, messages: seq<Outgoing>, c: Cursor, room: nat): Packed
    decreases |messages| - c.written
  {
    if c.written >= |messages| then Packed(false, [], k, c)
    else
      var t := Try(k, messages, c, room);
      match t.result
      case SealError => Packed(true, [], t.keys, c)
      case SealNoProgress => Packed(false, [], t.keys, c)
      case SealPartial => Packed(false, [t.record.value], t.keys, Moved(c, t))
      case SealSuccess =>
        var rest := Pack(t.keys, messages, Moved(c, t), room - t.record.value.size);
        Behind([t.record.value], rest)
  }

  /** A packet that goes on after some records. */
  function Behind(records: seq<Sealed>, p: Packed): Packed {
    p.(records := records + p.records)
  }

  lemma BehindNothing(p: Packed)
    ensures Behind([], p) == p
  {
    assert [] + p.records == p.records;
  }

  /** What the next attempt adds. */
  lemma PackStep(records: seq<Sealed>, k: Keys, messages: seq<Outgoing>, c: Cursor, room: nat)
    ensures c.written >= |messages| ==>
      Behind(records, Pack(k, messages, c, room)) == Packed(false, records, k, c)
    ensures c.written < |messages| ==>
      var t := Try(k, messages, c, room);
      var p := Behind(records, Pack(k, messages, c, room));
      match t.result
      case SealError => p == Packed(true, records, t.keys, c)
      case SealNoProgress => p == Packed(false, records, t.keys, c)
      case SealPartial => p == Packed(false, records + [t.record.value], t.keys, Moved(c, t))
      case SealSuccess =>
        p == Behind(records + [t.record.value], Pack(t.keys, messages, Moved(c, t), room - t.record.value.size))
  {
    hide Try, Moved;
    assert records + [] == records;
    if c.written < |messages| && Try(k, messages, c, room).result.SealSuccess? {
      var t := Try(k, messages, c, room);
      var rest := Pack(t.keys, messages, Moved(c, t), room - t.record.value.size).records;
      assert records + ([t.record.value] + rest) == records + [t.record.value] + rest;
    }
  }

  // ---------------------------------------------------------------- what the records carry

  /** The record of an attempt is the one that takes the cursor on. */
  lemma TryAdvances(k: Keys, messages: seq<Outgoing>, c: Cursor, maxOut: nat)
    requires c.written < |messages| && ValidCursor(messages, c)
    ensures var t := Try(k, messages, c, maxOut);
      && (t.record.Some? ==> Advance(messages, c, t.record.value) == Some(Moved(c, t)))
      && ValidCursor(messages, Moved(c, t))
  {
    hide ParseFragment, Header, Keys.Seal, Keys.AfterSeal, Content, Fragment.Bytes;
    var t := Try(k, messages, c, maxOut);
    CcsIsEmpty(messages[c.written]);
    if t.record.Some? && messages[c.written].Handshake? {
      var (m, n) := Content(messages[c.written]).value;
      var overhead := DTLS1_RT_HEADER_LENGTH + k.Context(messages[c.written].epoch).maxOverhead;
      FragmentLength(m.Slice(n, c.offset, Todo(|m.body| - c.offset, overhead, maxOut)));
    }
  }

  lemma FragmentLength(f: Fragment)
    ensures |f.Bytes()| == DTLS1_HM_HEADER_LENGTH + |f.body|
  {
  }

  /** The records of a packet walk the cursor to where it is left, and fit into the packet. */
  lemma {:induction false} PackWalks(k: Keys, messages: seq<Outgoing>, c: Cursor, room: nat)
    requires ValidCursor(messages, c)
    ensures var p := Pack(k, messages, c, room);
      && Walk(messages, c, p.records) == Some(p.cursor) && ValidCursor(messages, p.cursor)
      && Size(p.records) <= room
      && (c.written <= |messages| ==> c.written <= p.cursor.written <= |messages|)
      && (p.records != [] ==>
            p.cursor.written > c.written || (p.cursor.written == c.written && p.cursor.offset > c.offset))
    decreases |messages| - c.written
  {
    hide Try, Advance, ValidCursor, Walk, Size;
    WalkNowhere(messages, c);
    if c.written < |messages| {
      TryAdvances(k, messages, c, room);
      var t := Try(k, messages, c, room);
      if t.result.SealSuccess? {
        var rest := Pack(t.keys, messages, Moved(c, t), room - t.record.value.size);
        PackWalks(t.keys, messages, Moved(c, t), room - t.record.value.size);
        WalkFirst(messages, c, t.record.value, rest.records);
      } else if t.result.SealPartial? {
        WalkFirst(messages, c, t.record.value, []);
        assert [t.record.value] + [] == [t.record.value];
      }
    }
  }

  /** A packet with something in it leaves fewer messages, or fewer bytes of the current one. */
  lemma PackProgress(k: Keys, messages: seq<Outgoing>, c: Cursor, room: nat)
    requires ValidCursor(messages, c) && c.written < |messages| && Pack(k, messages, c, room).records != []
    ensures var c' := Pack(k, messages, c, room).cursor;
      || c'.written > c.written
      || (c'.written == c.written && 0 <= BytesLeft(messages, c') < BytesLeft(messages, c))
  {
    hide Pack, Walk, Content;
    PackWalks(k, messages, c, room);
  }

  lemma WalkFirst(messages: seq<Outgoing>, c: Cursor, s: Sealed, rest: seq<Sealed>)
    requires Advance(messages, c, s).Some?
    ensures Walk(messages, c, [s] + rest) == Walk(messages, Advance(messages, c, s).value, rest)
    ensures Size([s] + rest) == s.size + Size(rest)
    ensures Walk(messages, Advance(messages, c, s).value, []) == Some(Advance(messages, c, s).value) && Size([]) == 0
  {
    hide Advance;
    assert ([s] + rest)[1..] == rest;
    SizeOfOne(s, rest);
  }

  lemma {:induction false} SizeOfOne(s: Sealed, rest: seq<Sealed>)
    ensures Size([s]) == s.size && Size([s] + rest) == s.size + Size(rest)
  {
    assert [s][..0] == [];
    if rest == [] {
      assert [s] + rest == [s];
    } else {
      SizeOfOne(s, rest[..|rest| - 1]);
      assert ([s] + rest)[..|rest|] == [s] + rest[..|rest| - 1];
    }
  }

  // ---------------------------------------------------------------- when it fails

  /** The entry parses and its epoch is the current or the previous one. */
  predicate Good(epoch: nat, m: Outgoing) {
    (m.epoch == epoch || IsPrevious(epoch, m.epoch)) && (m.ChangeCipherSpec? || Content(m).Some?)
  }

  predicate AllGood(epoch: nat, messages: seq<Outgoing>, from: nat) {
    forall j :: from <= j < |messages| ==> Good(epoch, messages[j])
  }

  function AtLeastOne(n: nat): nat {
    if n == 0 then 1 else n
  }

  /** A bound on the records the messages from j on take. */
  function WorkFrom(messages: seq<Outgoing>, j: nat): nat
    decreases |messages| - j
  {
    if j >= |messages| then 0 else AtLeastOne(|BodyOf(messages[j])|) + WorkFrom(messages, j + 1)
  }

  /** And from the cursor on. */
  function Work(messages: seq<Outgoing>, c: Cursor): nat {
    if c.written >= |messages| then 0
    else
      var body := |BodyOf(messages[c.written])|;
      AtLeastOne(if c.offset <= body then body - c.offset else 0) + WorkFrom(messages, c.written + 1)
  }

  /** The AEADs take any record, no counter comes to its end within the given number of
      records, and packets are not so large that a record could exceed 2^16 bytes. */
  ghost predicate Able(k: Keys, maxOut: nat, work: nat) {
    && k.aead.Valid() && k.lastAead.Valid() && k.aead.Accepts() && k.lastAead.Accepts()
    && k.sequence + work < TWO48 && k.lastSequence + work < TWO48
    && maxOut < DTLS1_RT_HEADER_LENGTH + TWO16
  }

  /** The smallest MTU with room for a byte of a message. */
  function LeastMtu(k: Keys): nat {
    DTLS1_HM_HEADER_LENGTH + 1 + DTLS1_RT_HEADER_LENGTH + k.Overhead()
  }

  lemma SealSucceeds(k: Keys, e: nat, type_: byte, payload: seq<byte>, maxOut: nat)
    requires Able(k, maxOut, 1)
    requires DTLS1_RT_HEADER_LENGTH + |payload| + k.Context(e).maxOverhead <= maxOut
    ensures k.Seal(e, type_, payload, maxOut).Some? && k.AfterSeal(e, type_, payload, maxOut) == k.Spent(e)
    ensures k.Spent(e).sequence <= k.sequence + 1 && k.Spent(e).lastSequence <= k.lastSequence + 1
  {
    assert k.Context(e).Within(k.Number(e), type_, payload);
    assert (k.Context(e).seal)(k.Number(e), type_, payload).Some?;
  }

  /** One attempt with able keys: an error exactly for a bad entry, and progress for a good one
      if there is room at all. */
  lemma TryAble(k: Keys, messages: seq<Outgoing>, c: Cursor, room: nat)
    requires c.written < |messages| && ValidCursor(messages, c) && Able(k, room, Work(messages, c))
    ensures var t := Try(k, messages, c, room);
      && (t.result.SealError? <==> !Good(k.epoch, messages[c.written]))
      && (t.result.SealNoProgress? ==> room < LeastMtu(k)) && (t.record.None? ==> t.keys == k)
      && (t.record.Some? ==>
            && Work(messages, Moved(c, t)) < Work(messages, c) && ValidCursor(messages, Moved(c, t))
            && Able(t.keys, room, Work(messages, Moved(c, t)))
            && t.keys.epoch == k.epoch && t.keys.Overhead() == k.Overhead())
  {
    hide Content, ParseFragment, Header, Fragment.Bytes;
    var msg := messages[c.written];
    if Good(k.epoch, msg) {
      var overhead := DTLS1_RT_HEADER_LENGTH + k.Context(msg.epoch).maxOverhead;
      if msg.ChangeCipherSpec? {
        if room >= 1 + overhead { SealSucceeds(k, msg.epoch, SSL3_RT_CHANGE_CIPHER_SPEC, [SSL3_MT_CCS], room); }
      } else if room >= DTLS1_HM_HEADER_LENGTH + 1 + overhead {
        var (m, n) := Content(msg).value;
        var todo := Todo(|m.body| - c.offset, overhead, room);
        var f := m.Slice(n, c.offset, todo);
        FragmentLength(f);
        SealSucceeds(k, msg.epoch, SSL3_RT_HANDSHAKE, f.Bytes(), room);
      }
    }
  }

  /** A packet with able keys: it stops at the end, for lack of room, or fails at the first bad
      entry it comes to. */
  lemma {:induction false} PackAble(k: Keys, messages: seq<Outgoing>, c: Cursor, room: nat)
    requires ValidCursor(messages, c) && Able(k, room, Work(messages, c))
    ensures var p := Pack(k, messages, c, room);
      && c.written <= p.cursor.written && ValidCursor(messages, p.cursor)
      && (p.failed <==> p.cursor.written < |messages| && !Good(k.epoch, messages[p.cursor.written]))
      && (forall j :: c.written <= j < p.cursor.written && j < |messages| ==> Good(k.epoch, messages[j]))
      && Work(messages, p.cursor) + |p.records| <= Work(messages, c)
      && Able(p.keys, room, Work(messages, p.cursor))
      && p.keys.epoch == k.epoch && p.keys.Overhead() == k.Overhead()
      && (p.records == [] ==>
            p.failed || c.written >= |messages| || room < LeastMtu(k))
    decreases |messages| - c.written
  {
    hide Try, Work, ValidCursor, Content;
    if c.written < |messages| {
      TryAble(k, messages, c, room);
      var t := Try(k, messages, c, room);
      if t.result.SealSuccess? {
        PackAble(t.keys, messages, Moved(c, t), room - t.record.value.size);
      }
    }
  }

  /** What the sender relies on to get a flight out: able keys, and an MTU with room for a byte
      of a message. */
  ghost predicate Ready(k: Keys, messages: seq<Outgoing>, c: Cursor, mtu: nat) {
    Able(k, mtu, Work(messages, c)) && LeastMtu(k) <= mtu
  }

  /** A packet of a ready sender fails, possibly with records lost, only when it comes to a bad
      entry, and leaves the sender ready. */
  lemma PackReady(k: Keys, messages: seq<Outgoing>, c: Cursor, mtu: nat)
    requires ValidCursor(messages, c) && c.written < |messages| && Ready(k, messages, c, mtu)
    ensures var p := Pack(k, messages, c, mtu);
      && Ready(p.keys, messages, p.cursor, mtu) && p.keys.epoch == k.epoch
        && c.written <= p.cursor.written <= |messages|
      && (p.failed || p.records == [] <==> p.cursor.written < |messages| && !Good(k.epoch, messages[p.cursor.written]))
      && (forall j :: c.written <= j < p.cursor.written ==> Good(k.epoch, messages[j]))
  {
    hide Pack, Work, Content, Walk, Size;
    PackAble(k, messages, c, mtu);
    PackWalks(k, messages, c, mtu);
  }

  /** The messages from a given one up to the cursor were good, and the sender is still ready. */
  ghost predicate Flying(epoch: nat, from: nat, k: Keys, messages: seq<Outgoing>, c: Cursor, mtu: nat) {
    && Ready(k, messages, c, mtu) && k.epoch == epoch && from <= c.written <= |messages|
    && forall j :: from <= j < c.written ==> Good(epoch, messages[j])
  }

  lemma TakesOff(epoch: nat, k: Keys, messages: seq<Outgoing>, c: Cursor, mtu: nat)
    requires Ready(k, messages, c, mtu) && k.epoch == epoch && c.written <= |messages|
    ensures Flying(epoch, c.written, k, messages, c, mtu)
  {
  }

  lemma FlyingOn(epoch: nat, from: nat, k: Keys, messages: seq<Outgoing>, c: Cursor, mtu: nat)
    requires ValidCursor(messages, c) && Flying(epoch, from, k, messages, c, mtu)
    ensures c.written == |messages| ==> AllGood(epoch, messages, from)
    ensures c.written < |messages| ==>
      var p := Pack(k, messages, c, mtu);
      && Flying(epoch, from, p.keys, messages, p.cursor, mtu)
      && (p.failed || p.records == [] ==> !AllGood(epoch, messages, from))
  {
    hide Pack, Ready, Good;
    if c.written < |messages| { PackReady(k, messages, c, mtu); }
  }

  // ---------------------------------------------------------------- no room is wasted

  /** There is room for a ChangeCipherSpec, or for a byte of the message. */
  predicate HasRoom(k: Keys, m: Outgoing, room: int) {
    room >= DTLS1_RT_HEADER_LENGTH + k.Context(m.epoch).maxOverhead +
      if m.ChangeCipherSpec? then 1 else DTLS1_HM_HEADER_LENGTH + 1
  }

  /** The most a record with that payload can take. */
  function LargestSize(k: Keys, e: nat, payload: nat): nat {
    DTLS1_RT_HEADER_LENGTH + payload + k.Context(e).maxOverhead
  }

  /** The payload that takes the rest of an entry, with at least a byte of it. */
  function WholePayload(m: Outgoing, offset: nat): nat {
    if m.ChangeCipherSpec? then 1
    else DTLS1_HM_HEADER_LENGTH + AtLeastOne(if offset <= |BodyOf(m)| then |BodyOf(m)| - offset else 0)
  }

  /** The longest fragment that is sure to fit: a record that leaves bytes of its message behind
      uses up the room, and one that is sealed takes all that is left just if that is sure to fit. */
  predicate Fills(k: Keys, m: Outgoing, offset: nat, maxOut: nat, r: SealResult, record: Option<Sealed>) {
    && (r.SealPartial? ==> record.Some? && LargestSize(k, m.epoch, |record.value.payload|) == maxOut)
    && (record.Some? ==> (r.SealSuccess? <==> LargestSize(k, m.epoch, WholePayload(m, offset)) <= maxOut))
    && (r.SealNoProgress? ==> !HasRoom(k, m, maxOut))
    && (!HasRoom(k, m, maxOut) ==> record.None?)
  }

  lemma TryFills(k: Keys, messages: seq<Outgoing>, c: Cursor, maxOut: nat)
    requires c.written < |messages| && ValidCursor(messages, c)
    ensures var t := Try(k, messages, c, maxOut); Fills(k, messages[c.written], c.offset, maxOut, t.result, t.record)
  {
    hide ParseFragment, Header, Keys.Seal, Keys.AfterSeal, Content, Fragment.Bytes;
    var m := messages[c.written];
    CcsIsEmpty(m);
    if m.Handshake? && Content(m).Some? && HasRoom(k, m, maxOut) {
      var (x, n) := Content(m).value;
      var overhead := DTLS1_RT_HEADER_LENGTH + k.Context(m.epoch).maxOverhead;
      FragmentLength(x.Slice(n, c.offset, Todo(|x.body| - c.offset, overhead, maxOut)));
    }
  }

  /** The bytes that are sure to hold the entries from the cursor on, each in one record. */
  function RoomFor(k: Keys, messages: seq<Outgoing>, c: Cursor): nat
    decreases |messages| - c.written
  {
    if c.written >= |messages| then 0
    else
      var m := messages[c.written];
      LargestSize(k, m.epoch, WholePayload(m, c.offset)) + RoomFor(k, messages, Cursor(c.written + 1, 0))
  }

  lemma {:induction false} SameRoom(k: Keys, k': Keys, messages: seq<Outgoing>, c: Cursor)
    requires k.epoch == k'.epoch && k.aead == k'.aead && k.lastAead == k'.lastAead
    ensures RoomFor(k, messages, c) == RoomFor(k', messages, c)
    decreases |messages| - c.written
  {
    if c.written < |messages| { SameRoom(k, k', messages, Cursor(c.written + 1, 0)); }
  }

  lemma TryKeepsAeads(k: Keys, messages: seq<Outgoing>, c: Cursor, room: nat)
    requires c.written < |messages|
    ensures var t := Try(k, messages, c, room);
      t.keys.epoch == k.epoch && t.keys.aead == k.aead && t.keys.lastAead == k.lastAead
  {
    hide Content, Fragment.Bytes;
  }

  /** A record takes no more than the rest of its entry could. */
  lemma TryAtMost(k: Keys, messages: seq<Outgoing>, c: Cursor, room: nat)
    requires c.written < |messages| && ValidCursor(messages, c) && k.aead.Valid() && k.lastAead.Valid()
    ensures var t, m := Try(k, messages, c, room), messages[c.written];
      t.record.Some? ==> t.record.value.size <= LargestSize(k, m.epoch, WholePayload(m, c.offset))
  {
    hide ParseFragment, Header, Content, Fragment.Bytes;
    var t, m := Try(k, messages, c, room), messages[c.written];
    CcsIsEmpty(m);
    if t.record.Some? {
      assert k.Context(m.epoch).Within(k.Number(m.epoch), t.record.value.type_, t.record.value.payload);
      if m.Handshake? {
        var (x, n) := Content(m).value;
        var overhead := DTLS1_RT_HEADER_LENGTH + k.Context(m.epoch).maxOverhead;
        FragmentLength(x.Slice(n, c.offset, Todo(|x.body| - c.offset, overhead, room)));
      }
    }
  }

  /** Good entries that are sure to fit into the packet all go into it. */
  lemma {:induction false} PackWhole(k: Keys, messages: seq<Outgoing>, c: Cursor, room: nat)
    requires ValidCursor(messages, c) && c.written <= |messages| && Able(k, room, Work(messages, c))
    requires AllGood(k.epoch, messages, c.written) && RoomFor(k, messages, c) <= room
    ensures var p := Pack(k, messages, c, room);
      && !p.failed && p.cursor == Cursor(|messages|, 0) && |p.records| == |messages| - c.written
    decreases |messages| - c.written
  {
    hide Try, Work, BodyOf, Good;
    if c.written < |messages| {
      TryAble(k, messages, c, room);
      TryFills(k, messages, c, room);
      TryKeepsAeads(k, messages, c, room);
      TryAtMost(k, messages, c, room);
      var t := Try(k, messages, c, room);
      SameRoom(k, t.keys, messages, Moved(c, t));
      PackWhole(t.keys, messages, Moved(c, t), room - t.record.value.size);
    }
  }

  /** A ready sender has good entries, and room for all of them. */
  ghost predicate FitsOne(k: Keys, messages: seq<Outgoing>, c: Cursor, mtu: nat) {
    Ready(k, messages, c, mtu) && AllGood(k.epoch, messages, c.written) && RoomFor(k, messages, c) <= mtu
  }

  /** Before and after the one packet it then sends, having started at a given entry. */
  ghost predicate OneGo(from: nat, sent: nat, k: Keys, messages: seq<Outgoing>, c: Cursor, mtu: nat) {
    if sent == 0 then from == c.written && FitsOne(k, messages, c, mtu)
    else sent == 1 && from < c.written == |messages|
  }

  lemma OneGoStarts(k: Keys, messages: seq<Outgoing>, c: Cursor, mtu: nat)
    requires FitsOne(k, messages, c, mtu)
    ensures OneGo(c.written, 0, k, messages, c, mtu)
  {
  }

  lemma OneGoOn(from: nat, sent: nat, k: Keys, messages: seq<Outgoing>, c: Cursor, mtu: nat)
    requires ValidCursor(messages, c) && c.written <= |messages| && OneGo(from, sent, k, messages, c, mtu)
    ensures c.written == |messages| ==> sent == (if from < |messages| then 1 else 0)
    ensures c.written < |messages| ==>
      var p := Pack(k, messages, c, mtu);
      sent == 0 && !p.failed && p.records != [] && OneGo(from, 1, p.keys, messages, p.cursor, mtu)
  {
    hide Pack, RoomFor, AllGood, Able;
    if c.written < |messages| { PackWhole(k, messages, c, mtu); }
  }

  /** A packet that stops short of the end has no room for more: its last record, which leaves bytes
      of its message behind, was given all of it, or the next entry finds none. */
  predicate Full(k: Keys, messages: seq<Outgoing>, p: Packed, room: int) {
    p.cursor.written < |messages| && !p.failed ==>
      var m, left := messages[p.cursor.written], room - Size(p.records);
      || !HasRoom(k, m, left)
      || (p.records != [] &&
          var last := p.records[|p.records| - 1];
          p.cursor.offset > 0 && left + last.size == LargestSize(k, m.epoch, |last.payload|))
  }

  lemma {:induction false} PackFills(k: Keys, messages: seq<Outgoing>, c: Cursor, room: nat)
    requires ValidCursor(messages, c)
    ensures Full(k, messages, Pack(k, messages, c, room), room)
    decreases |messages| - c.written
  {
    hide Try, Advance, Content, Full, ValidCursor;
    if c.written < |messages| {
      TryAdvances(k, messages, c, room);
      FirstFull(k, messages, c, room);
      var t := Try(k, messages, c, room);
      if t.result.SealSuccess? {
        PackFills(t.keys, messages, Moved(c, t), room - t.record.value.size);
        var rest := Pack(t.keys, messages, Moved(c, t), room - t.record.value.size);
        TryKeepsAeads(k, messages, c, room);
        FullBehind(k, t.keys, messages, t.record.value, rest, room);
      }
    } else {
      PastFull(k, messages, Pack(k, messages, c, room), room);
    }
  }

  lemma PastFull(k: Keys, messages: seq<Outgoing>, p: Packed, room: int)
    requires p.cursor.written >= |messages| || p.failed
    ensures Full(k, messages, p, room)
  {
  }

  /** A packet that ends with its first attempt. */
  lemma FirstFull(k: Keys, messages: seq<Outgoing>, c: Cursor, room: nat)
    requires ValidCursor(messages, c) && c.written < |messages|
    ensures !Try(k, messages, c, room).result.SealSuccess? ==> Full(k, messages, Pack(k, messages, c, room), room)
  {
    hide Try, Content, WholePayload;
    TryFills(k, messages, c, room);
    var t := Try(k, messages, c, room);
    if t.record.Some? { SizeOfOne(t.record.value, []); }
  }

  lemma FullBehind(k: Keys, k': Keys, messages: seq<Outgoing>, s: Sealed, p: Packed, room: int)
    requires k.epoch == k'.epoch && k.aead == k'.aead && k.lastAead == k'.lastAead
    requires Full(k', messages, p, room - s.size)
    ensures Full(k, messages, Behind([s], p), room)
  {
    hide Size;
    SizeOfOne(s, p.records);
  }

  // ---------------------------------------------------------------- when records are lost

  /** Where sealing a packet stands: the keys, the cursor and the room left. */
  datatype Standing = Standing(keys: Keys, cursor: Cursor, room: nat)

  /** After the entries that go into the packet whole. */
  function After(k: Keys, messages: seq<Outgoing>, c: Cursor, room: nat): Standing
    decreases |messages| - c.written
  {
    if c.written < |messages| && Try(k, messages, c, room).result.SealSuccess? then
      var t := Try(k, messages, c, room);
      After(t.keys, messages, Moved(c, t), room - t.record.value.size)
    else Standing(k, c, room)
  }

  /** The type and content of the record that is due at the cursor. */
  function DueRecord(k: Keys, messages: seq<Outgoing>, c: Cursor, room: nat): (byte, seq<byte>)
    requires c.written < |messages| && ValidCursor(messages, c)
    requires Good(k.epoch, messages[c.written]) && HasRoom(k, messages[c.written], room)
  {
    var m := messages[c.written];
    if m.ChangeCipherSpec? then (SSL3_RT_CHANGE_CIPHER_SPEC, [SSL3_MT_CCS])
    else
      var (x, n) := Content(m).value;
      var overhead := DTLS1_RT_HEADER_LENGTH + k.Context(m.epoch).maxOverhead;
      (SSL3_RT_HANDSHAKE, x.Slice(n, c.offset, Todo(|x.body| - c.offset, overhead, room)).Bytes())
  }

  /** It takes all that is left of its entry, or if that is not sure to fit, all the room. */
  lemma DueFills(k: Keys, messages: seq<Outgoing>, c: Cursor, room: nat)
    requires c.written < |messages| && ValidCursor(messages, c)
    requires Good(k.epoch, messages[c.written]) && HasRoom(k, messages[c.written], room)
    ensures var m, payload := messages[c.written], |DueRecord(k, messages, c, room).1|;
      if LargestSize(k, m.epoch, WholePayload(m, c.offset)) > room then LargestSize(k, m.epoch, payload) == room
      else c.offset < |BodyOf(m)| || m.ChangeCipherSpec? ==> payload == WholePayload(m, c.offset)
  {
    hide ParseFragment, Header, Content, Fragment.Bytes;
    var m := messages[c.written];
    if m.Handshake? {
      var (x, n) := Content(m).value;
      var overhead := DTLS1_RT_HEADER_LENGTH + k.Context(m.epoch).maxOverhead;
      FragmentLength(x.Slice(n, c.offset, Todo(|x.body| - c.offset, overhead, room)));
    }
  }

  /** The AEAD refuses a record, or makes one of 2^16 bytes or more of it, or the last number of
      its epoch has come. */
  predicate Refuses(k: Keys, e: nat, type_: byte, payload: seq<byte>) {
    var len := (k.Context(e).seal)(k.Number(e), type_, payload);
    len.None? || len.value >= TWO16 || k.Number(e) + 1 == TWO48
  }

  /** The entry at the cursor does not parse or is of a forgotten epoch, or its record is refused. */
  predicate Stuck(s: Standing, messages: seq<Outgoing>)
    requires ValidCursor(messages, s.cursor)
  {
    s.cursor.written < |messages| &&
    var m := messages[s.cursor.written];
    || !Good(s.keys.epoch, m)
    || (HasRoom(s.keys, m, s.room) &&
        var (type_, payload) := DueRecord(s.keys, messages, s.cursor, s.room);
        Refuses(s.keys, m.epoch, type_, payload))
  }

  lemma TryFails(s: Standing, messages: seq<Outgoing>)
    requires ValidCursor(messages, s.cursor) && s.cursor.written < |messages|
    requires s.keys.aead.Valid() && s.keys.lastAead.Valid()
    ensures Try(s.keys, messages, s.cursor, s.room).result.SealError? <==> Stuck(s, messages)
  {
    hide Content, ParseFragment, Header, Fragment.Bytes;
    var k, m := s.keys, messages[s.cursor.written];
    if Good(k.epoch, m) && HasRoom(k, m, s.room) {
      var (type_, payload) := DueRecord(k, messages, s.cursor, s.room);
      if m.Handshake? {
        var (x, n) := Content(m).value;
        var overhead := DTLS1_RT_HEADER_LENGTH + k.Context(m.epoch).maxOverhead;
        FragmentLength(x.Slice(n, s.cursor.offset, Todo(|x.body| - s.cursor.offset, overhead, s.room)));
      }
      assert k.Context(m.epoch).Within(k.Number(m.epoch), type_, payload);
    }
  }

  /** Sealing a packet fails exactly when it is stuck after the entries that went in whole, and
      then these are lost: the cursor has passed them, and they are not sent. */
  lemma {:induction false} FailsExactly(k: Keys, messages: seq<Outgoing>, c: Cursor, room: nat)
    requires ValidCursor(messages, c) && k.aead.Valid() && k.lastAead.Valid()
    ensures var a, p := After(k, messages, c, room), Pack(k, messages, c, room);
      && ValidCursor(messages, a.cursor) && (p.failed <==> Stuck(a, messages))
      && (p.failed ==> p.cursor == a.cursor && |p.records| == a.cursor.written - c.written)
      && (p.failed && p.records != [] <==> Stuck(a, messages) && a.cursor != c)
    decreases |messages| - c.written
  {
    hide Try, Stuck, ValidCursor, Aead.Valid;
    if c.written < |messages| {
      TryAdvances(k, messages, c, room);
      TryKeepsAeads(k, messages, c, room);
      TryFails(Standing(k, c, room), messages);
      var t := Try(k, messages, c, room);
      if t.result.SealSuccess? { FailsExactly(t.keys, messages, Moved(c, t), room - t.record.value.size); }
    } else {
      AtEnd(Standing(k, c, room), messages);
    }
  }

  lemma AtEnd(s: Standing, messages: seq<Outgoing>)
    requires s.cursor.written >= |messages| && ValidCursor(messages, s.cursor)
    ensures !Stuck(s, messages)
  {
  }

  /** For example, an AEAD that takes the record of a ChangeCipherSpec and refuses the next, that of
      a Finished message: nothing is wrong with the flight, and the first record is lost. */
  lemma RecordLost() returns (k: Keys, messages: seq<Outgoing>)
    ensures k.aead.Valid() && AllGood(k.epoch, messages, 0)
    ensures var p := Pack(k, messages, Cursor(0, 0), 1472);
      p.failed && |p.records| == 1 && p.cursor == Cursor(1, 0)
  {
    hide ParseFragment, Header, Fragment.Bytes;
    var a := Aead(0, 0, (n, t, p) => if n == 0 then Some(|p|) else None);
    var finished := Message(20, [1]);
    k, messages := Keys(0, 0, 0, a, a), [ChangeCipherSpec(0), Handshake(finished.Raw(0), 0)];
    ContentOfRaw(finished, 0, 0);
    var t := Try(k, messages, Cursor(0, 0), 1472);
    assert t.result == SealSuccess;
    assert Try(t.keys, messages, Cursor(1, 0), 1472 - t.record.value.size).result == SealError;
  }
}
