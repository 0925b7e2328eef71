/** Sending a DTLS flight: record numbers, fragmentation to the MTU, and the cursor that
    survives short writes and retransmissions. */
module DtlsSend {
  import opened Bits
  import opened Wrappers
  import opened DtlsFragment
  import opened DtlsReceive
  import opened DtlsTransport
  import opened DtlsFlight
  import opened DtlsPacket
  import opened DtlsEndToEnd

  datatype UseEpoch = PreviousEpoch | CurrentEpoch

  const MIN_MTU: nat := 228
  const DEFAULT_MTU: nat := 1472

  // ---------------------------------------------------------------- the sender

  /** The transport's answer if it is asked and usable, else the default. */
  function UpdatedMtu(mtu: nat, noQuery: bool, queried: int): (r: nat)
    ensures !noQuery ==> r >= MIN_MTU
    ensures mtu >= MIN_MTU || noQuery ==> r == mtu
    ensures mtu < MIN_MTU && !noQuery ==> r == if 228 <= queried <= 1073741824 then queried else 1472
  {
    if mtu >= MIN_MTU || noQuery then mtu
    else if MIN_MTU <= queried <= 0x4000_0000 then queried
    else DEFAULT_MTU
  }

  datatype SendResult = FlightSent | WriteShutdown | SealFailed | WriteFailed(ret: int) | FlushFailed

  class Writer {
    var wEpoch: nat
    var writeSequence: nat
    var lastWriteSequence: nat
    var aead: Aead
    var lastAead: Aead
    var messages: seq<Outgoing>
    var written: nat
    var offset: nat
    var messagesComplete: bool
    var flightHasReply: bool
    var handshakeWriteSeq: nat
    var mtu: nat
    /** Every record sealed so far, and the packets the transport took. */
    ghost var log: seq<Sealed>
    ghost var wire: seq<seq<Sealed>>
    /** Some record number or epoch has wrapped around. */
    ghost var wrapped: bool

    ghost predicate Valid()
      reads this
    {
      && aead.Valid() && lastAead.Valid()
      && wEpoch < TWO16 && writeSequence < TWO48 && lastWriteSequence < TWO48
      && handshakeWriteSeq < TWO16 && CursorValid() && (!wrapped ==> NumbersUsed() && NumbersUnique())
    }

    ghost predicate CursorValid()
      reads this`messages, this`written, this`offset
    {
      && written <= |messages| <= SSL_MAX_HANDSHAKE_FLIGHT
      && (offset > 0 ==>
            && written < |messages| && Content(messages[written]).Some?
            && offset < |Content(messages[written]).value.0.body|)
    }

    /** The counters are above every number used in their epochs. */
    ghost predicate NumbersUsed()
      reads this`log, this`wEpoch, this`writeSequence, this`lastWriteSequence
    {
      forall i :: 0 <= i < |log| ==>
        && log[i].epoch <= wEpoch
        && (log[i].epoch == wEpoch ==> log[i].number < writeSequence)
        && (log[i].epoch + 1 == wEpoch ==> log[i].number < lastWriteSequence)
    }

    /** No two sealed records share epoch and number. */
    ghost predicate NumbersUnique()
      reads this`log
    {
      forall i, j :: 0 <= i < j < |log| ==> log[i].epoch != log[j].epoch || log[i].number != log[j].number
    }

    function Position(): Cursor
      reads this`written, this`offset
    {
      Cursor(written, offset)
    }

    function WriteKeys(): Keys
      reads this`wEpoch, this`writeSequence, this`lastWriteSequence, this`aead, this`lastAead
    {
      Keys(wEpoch, writeSequence, lastWriteSequence, aead, lastAead)
    }

    constructor (aead: Aead, mtu: nat)
      requires aead.Valid()
      ensures Valid() && log == [] && wire == [] && messages == [] && !wrapped
    {
      wEpoch, writeSequence, lastWriteSequence := 0, 0, 0;
      this.aead, lastAead := aead, aead;
      messages, written, offset, messagesComplete, flightHasReply := [], 0, 0, false, false;
      handshakeWriteSeq, this.mtu := 0, mtu;
      log, wire, wrapped := [], [], false;
    }

    /** dtls1_set_write_state */
    method SetWriteState(next: Aead)
      requires Valid() && next.Valid()
      modifies this`wEpoch, this`writeSequence, this`lastWriteSequence, this`aead, this`lastAead, this`wrapped
      ensures Valid() && wEpoch == (old(wEpoch) + 1) % TWO16 && writeSequence == 0
      ensures lastWriteSequence == old(writeSequence) && lastAead == old(aead) && aead == next
      ensures wrapped == (old(wrapped) || wEpoch == 0)
    {
      wEpoch := (wEpoch + 1) % TWO16;
      lastWriteSequence := writeSequence;
      writeSequence := 0;
      lastAead := aead;
      aead := next;
      wrapped := wrapped || wEpoch == 0;
    }

    /** dtls_seal_record into a buffer of maxOut bytes. */
    method SealRecord(type_: byte, payload: seq<byte>, use: UseEpoch, maxOut: nat) returns (r: Option<Sealed>)
      requires Valid() && (use == PreviousEpoch ==> wEpoch >= 1)
      modifies this`writeSequence, this`lastWriteSequence, this`log, this`wrapped
      ensures Valid() && log == old(log) + if r.Some? then [r.value] else []
      ensures var e := if use == PreviousEpoch then wEpoch - 1 else wEpoch;
        && r == old(WriteKeys()).Seal(e, type_, payload, maxOut)
        && WriteKeys() == old(WriteKeys()).AfterSeal(e, type_, payload, maxOut)
      ensures r.Some? && use == CurrentEpoch ==>
        && r.value.number == old(writeSequence) && writeSequence == old(writeSequence) + 1
        && lastWriteSequence == old(lastWriteSequence) && SealedWith(aead, r.value)
      ensures r.Some? && use == PreviousEpoch ==>
        && r.value.number == old(lastWriteSequence) && lastWriteSequence == old(lastWriteSequence) + 1
        && writeSequence == old(writeSequence) && SealedWith(lastAead, r.value)
      ensures wrapped ==> old(wrapped) || r.None?
    {
      hide CursorValid;
      var epoch, a, number := wEpoch, aead, writeSequence;
      if use == PreviousEpoch {
        epoch, a, number := wEpoch - 1, lastAead, lastWriteSequence;
      }
      if maxOut < DTLS1_RT_HEADER_LENGTH {
        return None;
      }
      var sealed := (a.seal)(number, type_, payload);
      if sealed.None? || sealed.value > maxOut - DTLS1_RT_HEADER_LENGTH {
        return None;
      }
      var cipherLen := sealed.value;
      var next := (number + 1) % TWO48;
      if use == PreviousEpoch {
        lastWriteSequence := next;
      } else {
        writeSequence := next;
      }
      if next == 0 {
        wrapped := true;
        return None;
      }
      if cipherLen >= TWO16 {
        return None;
      }
      r := Some(Sealed(epoch, number, type_, payload, DTLS1_RT_HEADER_LENGTH + cipherLen));
      log := log + [r.value];
    }

    /** seal_next_message */
    method SealNextMessage(maxOut: nat) returns (r: SealResult, record: Option<Sealed>)
      requires Valid() && written < |messages|
      modifies this`writeSequence, this`lastWriteSequence, this`log, this`wrapped, this`offset
      ensures Valid() && log == old(log) + if record.Some? then [record.value] else []
      ensures var t := old(Try(WriteKeys(), messages, Position(), maxOut));
        && t == Tried(r, record, WriteKeys())
        && Position() == if r == SealSuccess then Cursor(written, 0) else Moved(old(Position()), t)
      ensures Fills(old(WriteKeys()), messages[written], old(offset), maxOut, r, record)
      ensures wrapped ==> old(wrapped) || r == SealError
    {
      hide ParseFragment, Header, NumbersUsed, NumbersUnique, Keys.Seal, Keys.AfterSeal, Content, Fragment.Bytes,
        Fills, Advance, Aead.Valid;
      TryFills(WriteKeys(), messages, Position(), maxOut);
      TryAdvances(WriteKeys(), messages, Position(), maxOut);
      hide ValidCursor;
      var msg := messages[written];
      CcsIsEmpty(msg);
      var use := CurrentEpoch;
      if wEpoch >= 1 && msg.epoch == wEpoch - 1 {
        use := PreviousEpoch;
      } else if msg.epoch != wEpoch {
        return SealError, None;
      }
      var a := if use == PreviousEpoch then lastAead else aead;
      NonceFits(a);
      var overhead := DTLS1_RT_HEADER_LENGTH + a.maxOverhead;
      var prefix := DTLS1_RT_HEADER_LENGTH + a.nonceLen;
      if msg.ChangeCipherSpec? {
        if maxOut < 1 + overhead {
          return SealNoProgress, None;
        }
        record := SealRecord(SSL3_RT_CHANGE_CIPHER_SPEC, [SSL3_MT_CCS], use, maxOut);
        return if record.Some? then SealSuccess else SealError, record;
      }
      var content := Content(msg);
      if content.None? || offset > |content.value.0.body| {
        return SealError, None;
      }
      var (m, n) := content.value;
      if maxOut < DTLS1_HM_HEADER_LENGTH + 1 + overhead || maxOut < prefix {
        return SealNoProgress, None;
      }
      var left := |m.body| - offset;
      var todo := left;
      if todo > maxOut - DTLS1_HM_HEADER_LENGTH - overhead {
        todo := maxOut - DTLS1_HM_HEADER_LENGTH - overhead;
      }
      var fragment := Fragment(FragHdr(m.type_, |m.body|, n, offset, todo), m.body[offset..offset + todo]);
      FragmentLength(fragment);
      if |fragment.Bytes()| > maxOut - prefix {
        return SealError, None;
      }
      record := SealRecord(SSL3_RT_HANDSHAKE, fragment.Bytes(), use, maxOut);
      if record.None? {
        return SealError, None;
      }
      if todo == left {
        offset := 0;
        return SealSuccess, record;
      }
      offset := offset + todo;
      r := SealPartial;
    }

    /** seal_next_packet: as many records as fit. When sealing fails, the records already
        sealed are lost although the cursor has passed them. */
    method SealNextPacket(maxOut: nat) returns (ok: bool, records: seq<Sealed>)
      requires Valid() && written < |messages|
      modifies this`writeSequence, this`lastWriteSequence, this`log, this`wrapped, this`offset, this`written
      ensures Valid() && log == old(log) + records
      ensures var p := old(Pack(WriteKeys(), messages, Position(), maxOut));
        && records == p.records && WriteKeys() == p.keys && Position() == p.cursor
        && ok == (!p.failed && records != [])
      ensures wrapped ==> old(wrapped) || !ok
    {
      hide Content, Try, NumbersUsed, NumbersUnique, Aead.Valid, Pack, Behind;
      var room: nat := maxOut;
      records := [];
      ghost var all := Pack(WriteKeys(), messages, Position(), maxOut);
      BehindNothing(all);
      while written < |messages|
        invariant Valid() && log == old(log) + records && (wrapped ==> old(wrapped))
        invariant all == Behind(records, Pack(WriteKeys(), messages, Position(), room))
        decreases |messages| - written
      {
        PackStep(records, WriteKeys(), messages, Position(), room);
        var r, record := SealNextMessage(room);
        if r == SealError {
          return false, records;
        }
        if r == SealNoProgress {
          break;
        }
        records := records + [record.value];
        room := room - record.value.size;
        if r == SealPartial {
          return true, records;
        }
        written := written + 1;
      }
      if written >= |messages| { PackStep(records, WriteKeys(), messages, Position(), room); }
      // Without any progress the MTU is too small.
      ok := records != [];
    }

    /** dtls1_update_mtu */
    method UpdateMtu(noQuery: bool, queried: int)
      requires Valid()
      modifies this`mtu
      ensures Valid() && mtu == UpdatedMtu(old(mtu), noQuery, queried)
    {
      if mtu < MIN_MTU && !noQuery {
        if 0 <= queried <= 0x4000_0000 && queried >= MIN_MTU {
          mtu := queried;
        } else {
          mtu := DEFAULT_MTU;
        }
      }
    }

    /** One turn of the loop in send_flight: seal a packet and offer it to the transport, whose
        answer is taken. A packet it refuses moves the cursor back. */
    method SendPacket(taken: int) returns (r: SendResult, packet: seq<Sealed>)
      requires Valid() && written < |messages|
      modifies this`writeSequence, this`lastWriteSequence, this`log, this`wrapped, this`offset, this`written, this`wire
      ensures Valid() && wire == old(wire) + if r == FlightSent then [packet] else []
      ensures var p := old(Pack(WriteKeys(), messages, Position(), mtu));
        && packet == p.records && WriteKeys() == p.keys
        && r == (if p.failed || packet == [] then SealFailed else if taken <= 0 then WriteFailed(taken) else FlightSent)
        && Position() == if r.WriteFailed? then old(Position()) else p.cursor
      ensures r != SealFailed ==> (wrapped ==> old(wrapped))
    {
      hide Content, NumbersUsed, NumbersUnique, Pack;
      var oldWritten, oldOffset := written, offset;
      var ok: bool;
      ok, packet := SealNextPacket(mtu);
      if !ok {
        return SealFailed, packet;
      }
      if taken <= 0 {
        written, offset := oldWritten, oldOffset;
        return WriteFailed(taken), packet;
      }
      wire := wire + [packet];
      r := FlightSent;
    }

    /** send_flight; bio has the transport's answer to each packet in turn. A packet refused
        moves the cursor back, so that nothing is skipped. With able keys a bad entry is all
        that can stop sealing, and only then are the records in front of it in its packet
        lost; without one, a transport that takes every packet has the whole flight in the end. */
    method SendFlight(shutdown: bool, noQuery: bool, queried: int, bio: nat -> int, flush: int)
      returns (r: SendResult, ghost packets: seq<seq<Sealed>>, ghost lost: seq<Sealed>)
      requires Valid()
      modifies this`writeSequence, this`lastWriteSequence, this`log, this`wrapped, this`offset, this`written,
        this`mtu, this`wire
      ensures Valid() && wire == old(wire) + packets && (!shutdown ==> mtu == UpdatedMtu(old(mtu), noQuery, queried))
      ensures Walk(messages, old(Position()), Flatten(packets) + lost) == Some(Position())
      ensures forall p, f :: p in packets && f in FragmentsIn(p) ==> SentSometime(messages, f)
      ensures r != SealFailed ==> lost == [] && (wrapped ==> old(wrapped))
      ensures r in {FlightSent, FlushFailed} ==> Position() == Cursor(|messages|, 0)
      ensures forall p :: p in packets ==> p != [] && Size(p) <= mtu
      ensures shutdown <==> r == WriteShutdown
      ensures shutdown ==> packets == []
      ensures old(WillFly(shutdown, noQuery, queried)) && AllGood(old(wEpoch), messages, old(written)) ==>
        r != SealFailed
      ensures old(WillFly(shutdown, noQuery, queried)) && (forall i: nat :: bio(i) > 0) ==>
        && (r == SealFailed <==> !AllGood(old(wEpoch), messages, old(written)))
        && (r == FlightSent <==> AllGood(old(wEpoch), messages, old(written)) && flush > 0)
      ensures old(InOne(shutdown, noQuery, queried)) && bio(0) > 0 ==>
        |packets| == (if old(written) < |messages| then 1 else 0)
    {
      hide BytesLeft, Advance, NumbersUsed, NumbersUnique, Walk, Size, Pack, Ready, Content, Aead.Valid, AllGood,
        UpdatedMtu, Flying, FragmentsIn, SentSometime, FitsOne, OneGo, Flatten;
      packets, lost := [], [];
      WalkNowhere(messages, Position());
      ghost var flies, one := WillFly(shutdown, noQuery, queried), InOne(shutdown, noQuery, queried) && bio(0) > 0;
      if shutdown {
        return WriteShutdown, [], [];
      }
      UpdateMtu(noQuery, queried);
      if flies { TakesOff(wEpoch, WriteKeys(), messages, Position(), mtu); }
      if one { OneGoStarts(WriteKeys(), messages, Position(), mtu); }
      var i := 0;
      while written < |messages|
        invariant Valid() && wire == old(wire) + packets && (wrapped ==> old(wrapped))
        invariant Walk(messages, old(Position()), Flatten(packets)) == Some(Position())
        invariant forall p :: p in packets ==> p != [] && Size(p) <= mtu
        invariant mtu == UpdatedMtu(old(mtu), noQuery, queried)
        invariant flies ==> Flying(old(wEpoch), old(written), WriteKeys(), messages, Position(), mtu)
        invariant one ==> OneGo(old(written), |packets|, WriteKeys(), messages, Position(), mtu)
        invariant i == |packets|
        decreases |messages| - written, BytesLeft(messages, Position())
      {
        ghost var keys, position := WriteKeys(), Position();
        PackWalks(keys, messages, position, mtu);
        if flies { FlyingOn(old(wEpoch), old(written), keys, messages, position, mtu); }
        if one { OneGoOn(old(written), |packets|, keys, messages, position, mtu); }
        var sent, packet := SendPacket(bio(i));
        i := i + 1;
        WalkFurther(messages, old(Position()), Flatten(packets), packet);
        if sent != FlightSent {
          lost := if sent == SealFailed then packet else [];
          PacketsAreSent(messages, old(Position()), packets, lost);
          return sent, packets, lost;
        }
        PackProgress(keys, messages, position, mtu);
        FlattenMore(packets, packet);
        packets := packets + [packet];
      }
      if flies { FlyingOn(old(wEpoch), old(written), WriteKeys(), messages, Position(), mtu); }
      if one { OneGoOn(old(written), |packets|, WriteKeys(), messages, Position(), mtu); }
      r := if flush > 0 then FlightSent else FlushFailed;
      assert Flatten(packets) + [] == Flatten(packets);
      PacketsAreSent(messages, old(Position()), packets, []);
    }

    /** The transport is open and the keys and the MTU are such that good entries get out. */
    ghost predicate WillFly(shutdown: bool, noQuery: bool, queried: int)
      reads this
    {
      !shutdown && Ready(WriteKeys(), messages, Position(), UpdatedMtu(mtu, noQuery, queried))
    }

    /** And besides all entries are good, and sure to fit into one packet. */
    ghost predicate InOne(shutdown: bool, noQuery: bool, queried: int)
      reads this
    {
      !shutdown && FitsOne(WriteKeys(), messages, Position(), UpdatedMtu(mtu, noQuery, queried))
    }

    /** dtls1_flush_flight */
    method FlushFlight(shutdown: bool, noQuery: bool, queried: int, bio: nat -> int, flush: int)
      returns (r: SendResult, ghost packets: seq<seq<Sealed>>, ghost lost: seq<Sealed>)
      requires Valid()
      modifies this
      ensures Valid() && messagesComplete && messages == old(messages) && wire == old(wire) + packets
      ensures Walk(messages, old(Position()), Flatten(packets) + lost) == Some(Position())
      ensures forall p, f :: p in packets && f in FragmentsIn(p) ==> SentSometime(messages, f)
      ensures r == FlightSent ==> Position() == Cursor(|messages|, 0)
      ensures r != SealFailed ==> lost == [] && (wrapped ==> old(wrapped))
      ensures old(WillFly(shutdown, noQuery, queried)) && (forall i: nat :: bio(i) > 0) ==>
        (r == FlightSent <==> AllGood(old(wEpoch), messages, old(written)) && flush > 0)
      ensures old(InOne(shutdown, noQuery, queried)) && bio(0) > 0 ==>
        |packets| == (if old(written) < |messages| then 1 else 0)
    {
      hide Content, NumbersUsed, NumbersUnique, Walk, Ready, FragmentsIn, SentSometime, FitsOne;
      messagesComplete := true;
      r, packets, lost := SendFlight(shutdown, noQuery, queried, bio, flush);
    }

    /** dtls1_retransmit_outgoing_messages: the whole flight again, from its start. */
    method Retransmit(shutdown: bool, noQuery: bool, queried: int, bio: nat -> int, flush: int)
      returns (r: SendResult, ghost packets: seq<seq<Sealed>>, ghost lost: seq<Sealed>)
      requires Valid()
      modifies this
      ensures Valid() && messages == old(messages) && wire == old(wire) + packets
      ensures Walk(messages, Cursor(0, 0), Flatten(packets) + lost) == Some(Position())
      ensures forall p, f :: p in packets && f in FragmentsIn(p) ==> SentSometime(messages, f)
      ensures r == FlightSent ==> Walk(messages, Cursor(0, 0), Flatten(packets)) == Some(Cursor(|messages|, 0))
      ensures r != SealFailed ==> lost == [] && (wrapped ==> old(wrapped))
      ensures Ready(old(WriteKeys()), messages, Cursor(0, 0), UpdatedMtu(old(mtu), noQuery, queried)) ==>
        !shutdown && (forall i: nat :: bio(i) > 0) ==>
        (r == FlightSent <==> AllGood(old(wEpoch), messages, 0) && flush > 0)
      ensures FitsOne(old(WriteKeys()), messages, Cursor(0, 0), UpdatedMtu(old(mtu), noQuery, queried)) ==>
        !shutdown && bio(0) > 0 && messages != [] ==> |packets| == 1
    {
      hide Content, NumbersUsed, NumbersUnique, Walk, Ready, FragmentsIn, SentSometime, FitsOne;
      written, offset := 0, 0;
      r, packets, lost := SendFlight(shutdown, noQuery, queried, bio, flush);
      assert lost == [] ==> Flatten(packets) + lost == Flatten(packets);
    }

    /** dtls_clear_outgoing_messages */
    method ClearOutgoing()
      requires Valid()
      modifies this`messages, this`written, this`offset, this`messagesComplete, this`flightHasReply
      ensures Valid() && messages == [] && Position() == Cursor(0, 0) && !messagesComplete && !flightHasReply
    {
      messages, written, offset, messagesComplete, flightHasReply := [], 0, 0, false, false;
    }

    /** add_outgoing: a new flight begins once the last one was flushed. */
    method AddOutgoing(isCcs: bool, data: seq<byte>) returns (ok: bool)
      requires Valid()
      modifies this`messages, this`written, this`offset, this`messagesComplete, this`flightHasReply,
        this`handshakeWriteSeq
      ensures Valid() && !messagesComplete
      ensures var flight := if old(messagesComplete) then [] else old(messages);
        && ok == (|flight| < SSL_MAX_HANDSHAKE_FLIGHT && |data| < TWO32)
        && messages ==
          (if ok then flight + [if isCcs then ChangeCipherSpec(wEpoch) else Handshake(data, wEpoch)] else flight)
      ensures Position() == if old(messagesComplete) then Cursor(0, 0) else old(Position())
      ensures handshakeWriteSeq == if ok && !isCcs then (old(handshakeWriteSeq) + 1) % TWO16 else old(handshakeWriteSeq)
    {
      hide Content;
      if messagesComplete {
        ClearOutgoing();
      }
      if |messages| >= SSL_MAX_HANDSHAKE_FLIGHT || |data| >= TWO32 {
        return false;
      }
      if !isCcs {
        handshakeWriteSeq := (handshakeWriteSeq + 1) % TWO16;
      }
      messages := messages + [if isCcs then ChangeCipherSpec(wEpoch) else Handshake(data, wEpoch)];
      ok := true;
    }

    /** dtls1_on_handshake_complete keeps a flight that may have to be sent again. */
    method OnHandshakeComplete()
      requires Valid()
      modifies this`messages, this`written, this`offset, this`messagesComplete, this`flightHasReply
      ensures Valid() && messages == if old(flightHasReply) then [] else old(messages)
    {
      if flightHasReply {
        ClearOutgoing();
      }
    }
  }

  /** dtls1_next_message: the message leaves the ring, and the flight sent before it, if it was
      flushed, is known to have a reply. */
  method NextMessage(incoming: Incoming, writer: Writer)
    requires incoming.Valid() && incoming.hasMessage && writer.Valid() && writer !in incoming.Repr
    modifies incoming, incoming.messages, writer`flightHasReply
    ensures incoming.Valid() && !incoming.hasMessage && writer.Valid()
    ensures incoming.View() ==
      Queue((old(incoming.readSeq) + 1) % TWO16, old(incoming.View()).held - {old(incoming.readSeq)})
    ensures writer.flightHasReply == (old(writer.flightHasReply) || writer.messagesComplete)
  {
    incoming.NextMessage();
    if writer.messagesComplete {
      writer.flightHasReply := true;
    }
  }

  /** So a flushed flight is dropped at the end of the handshake exactly if a message came after
      it, and one without a reply is kept to be sent again. */
  method CompleteAfter(incoming: Incoming, writer: Writer, replied: bool)
    requires incoming.Valid() && incoming.hasMessage && writer.Valid() && writer !in incoming.Repr
    requires writer.messagesComplete && !writer.flightHasReply
    modifies incoming, incoming.messages, writer
    ensures writer.Valid() && writer.messages == if replied then [] else old(writer.messages)
  {
    if replied {
      NextMessage(incoming, writer);
    }
    writer.OnHandshakeComplete();
  }
}
