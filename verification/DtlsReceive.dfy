/** Receiving DTLS handshake messages: a ring of seven slots that stands for the messages
    numbered from the next expected one on, of which any part may have arrived. */
module DtlsReceive {
  import opened Bits
  import opened Wrappers
  import opened DtlsFragment

  const SSL_MAX_HANDSHAKE_FLIGHT: nat := 7

  const SSL3_RT_CHANGE_CIPHER_SPEC: byte := 20
  const SSL3_RT_ALERT: byte := 21
  const SSL3_RT_HANDSHAKE: byte := 22
  const SSL3_RT_APPLICATION_DATA: byte := 23
  const SSL3_MT_CCS: byte := 1

  datatype Alert = InternalError | IllegalParameter | DecodeError | UnexpectedMessage | RecordOverflow

  /** ssl_open_record_t, without the results that end the connection. */
  datatype Opened = OpenSuccess | OpenDiscard | OpenError(alert: Alert)

  // ---------------------------------------------------------------- the ring as a map

  /** The number of the next message to deliver, and what has been kept of the messages
      from there on. */
  datatype Queue = Queue(next: nat, held: map<nat, Partial>) {
    predicate Ready() {
      next in held && held[next].Complete()
    }
  }

  /** What one fragment does to the queue. */
  function AcceptFragment(q: Queue, epoch: nat, maxLen: nat, f: Fragment): (Queue, Opened) {
    var h := f.hdr;
    if h.fragOff > h.msgLen || h.fragOff + h.fragLen > h.msgLen || h.msgLen > maxLen then
      (q, OpenError(IllegalParameter))
    else if epoch == 1 && h.seq_ != q.next then (q, OpenError(UnexpectedMessage))
    else if h.seq_ < q.next || h.seq_ > q.next + SSL_MAX_HANDSHAKE_FLIGHT then (q, OpenSuccess)
    else if h.seq_ - q.next >= SSL_MAX_HANDSHAKE_FLIGHT then (q, OpenError(InternalError))
    else if h.seq_ in q.held && (q.held[h.seq_].type_ != h.type_ || q.held[h.seq_].msgLen != h.msgLen) then
      (q, OpenError(IllegalParameter))
    else
      var p := if h.seq_ in q.held then q.held[h.seq_] else Partial(h.type_, h.msgLen, map[]);
      (q.(held := q.held[h.seq_ := p.Merge(h.fragOff, f.body)]), OpenSuccess)
  }

  /** What a handshake record does to it: its fragments in order, up to the first error. */
  function AcceptRecord(q: Queue, epoch: nat, maxLen: nat, record: seq<byte>): (Queue, Opened)
    decreases |record|
  {
    if record == [] then (q, OpenSuccess)
    else
      match ParseFragment(record)
      case None => (q, OpenError(DecodeError))
      case Some(p) =>
        var (q', r) := AcceptFragment(q, epoch, maxLen, p.fragment);
        if r == OpenSuccess then AcceptRecord(q', epoch, maxLen, p.rest) else (q', r)
  }

  /** What becomes of a record of any type; the queue takes only handshake records. */
  function AcceptAny(q: Queue, epoch: nat, maxLen: nat, type_: byte, record: seq<byte>, nullCipher: bool)
    : (Queue, Opened)
  {
    if type_ == SSL3_RT_HANDSHAKE then AcceptRecord(q, epoch, maxLen, record)
    else if type_ == SSL3_RT_APPLICATION_DATA && !nullCipher then (q, OpenDiscard)
    else if type_ != SSL3_RT_CHANGE_CIPHER_SPEC || !nullCipher then (q, OpenError(UnexpectedMessage))
    else if record != [SSL3_MT_CCS] then (q, OpenError(IllegalParameter))
    else (q, OpenSuccess)
  }

  // ---------------------------------------------------------------- the ring

  class Incoming {
    const maxLen: nat
    const messages: array<HmFragment?>
    var readSeq: nat
    var hasMessage: bool
    var hasChangeCipherSpec: bool
    ghost var Repr: set<object>

    /** Slot i is empty or holds the message of the window whose number is i modulo 7. */
    ghost predicate SlotValid(i: nat)
      requires messages.Length == SSL_MAX_HANDSHAKE_FLIGHT && i < SSL_MAX_HANDSHAKE_FLIGHT
      reads this, messages, Repr
    {
      messages[i] != null ==>
        var f := messages[i];
        && f in Repr && f.Footprint() <= Repr && this !in f.Footprint() && messages !in f.Footprint()
        && f.Valid()
        && f.seq_ % SSL_MAX_HANDSHAKE_FLIGHT == i
        && readSeq <= f.seq_ < readSeq + SSL_MAX_HANDSHAKE_FLIGHT && f.seq_ < TWO16
    }

    ghost predicate SlotsApart(i: nat, j: nat)
      requires messages.Length == SSL_MAX_HANDSHAKE_FLIGHT && i < SSL_MAX_HANDSHAKE_FLIGHT
        && j < SSL_MAX_HANDSHAKE_FLIGHT
      reads this, messages, Repr
    {
      messages[i] != null && messages[j] != null && messages[i] in Repr && messages[j] in Repr ==>
        messages[i].Footprint() !! messages[j].Footprint()
    }

    ghost predicate Valid()
      reads this, Repr
    {
      && this in Repr && messages in Repr
      && messages.Length == SSL_MAX_HANDSHAKE_FLIGHT && readSeq < TWO16
      && (forall i :: 0 <= i < SSL_MAX_HANDSHAKE_FLIGHT ==> SlotValid(i))
      && (forall i, j :: 0 <= i < j < SSL_MAX_HANDSHAKE_FLIGHT ==> SlotsApart(i, j))
      && (hasMessage ==> At(readSeq).Some? && At(readSeq).value.Complete())
    }

    /** What the ring holds of message n. */
    ghost function At(n: nat): Option<Partial>
      requires messages.Length == SSL_MAX_HANDSHAKE_FLIGHT && messages in Repr
      requires forall i :: 0 <= i < SSL_MAX_HANDSHAKE_FLIGHT ==> SlotValid(i)
      reads this, Repr
    {
      var i := n % SSL_MAX_HANDSHAKE_FLIGHT;
      assert SlotValid(i);
      if messages[i] == null || messages[i].seq_ != n then None else Some(messages[i].View())
    }

    /** The map the ring stands for. */
    ghost function View(): Queue
      requires Valid()
      reads this, Repr
    {
      var window := Window(readSeq);
      Queue(readSeq, map n | n in window && At(n).Some? :: At(n).value)
    }

    constructor (maxLen: nat)
      ensures Valid() && fresh(Repr) && View() == Queue(0, map[])
      ensures this.maxLen == maxLen && !hasMessage && !hasChangeCipherSpec
    {
      this.maxLen := maxLen;
      messages := new HmFragment?[SSL_MAX_HANDSHAKE_FLIGHT](_ => null);
      readSeq, hasMessage, hasChangeCipherSpec := 0, false, false;
      Repr := {this, messages};
    }

    /** dtls1_is_current_message_complete */
    method IsCurrentMessageComplete() returns (complete: bool)
      requires Valid()
      ensures complete <==> View().Ready()
    {
      var i := readSeq % SSL_MAX_HANDSHAKE_FLIGHT;
      assert SlotValid(i);
      complete := messages[i] != null && messages[i].reassembly == null;
    }

    /** The number of a held message is the one its slot is looked up by. */
    lemma SlotNumber(n: nat)
      requires Valid() && n in Window(readSeq)
      ensures var f := messages[n % SSL_MAX_HANDSHAKE_FLIGHT];
        f != null ==> f.seq_ == n
    {
      hide HmFragment.Valid, HmFragment.View, Partial.Complete;
      var f := messages[n % SSL_MAX_HANDSHAKE_FLIGHT];
      assert SlotValid(n % SSL_MAX_HANDSHAKE_FLIGHT);
      if f != null { SameSlot(readSeq, f.seq_, n); }
    }

    /** The first fragment of a message takes the message's slot. */
    method InsertMessage(hdr: FragHdr) returns (frag: HmFragment)
      requires Valid() && hdr.Fits() && hdr.seq_ in Window(readSeq)
      requires messages[hdr.seq_ % SSL_MAX_HANDSHAKE_FLIGHT] == null
      modifies this`Repr, messages
      ensures Valid() && fresh(Repr - old(Repr))
      ensures frag == messages[hdr.seq_ % SSL_MAX_HANDSHAKE_FLIGHT] && frag.seq_ == hdr.seq_
        && frag.msgLen == hdr.msgLen
      ensures View() == old(View()).(held := old(View()).held[hdr.seq_ := Partial(hdr.type_, hdr.msgLen, map[])])
    {
      hide HmFragment.Valid, HmFragment.View, Partial.Complete;
      var idx := hdr.seq_ % SSL_MAX_HANDSHAKE_FLIGHT;
      frag := new HmFragment(hdr);
      messages[idx] := frag;
      Repr := Repr + frag.Footprint();
      forall i | 0 <= i < SSL_MAX_HANDSHAKE_FLIGHT ensures SlotValid(i) {
        if i != idx { assert old(SlotValid(i)); }
      }
      forall i, j | 0 <= i < j < SSL_MAX_HANDSHAKE_FLIGHT ensures SlotsApart(i, j) {
        assert old(SlotsApart(i, j));
        assert old(SlotValid(i)) && old(SlotValid(j));
      }
      forall n | n in Window(readSeq) ensures At(n) == if n == hdr.seq_ then Some(frag.View()) else old(At(n)) {
        assert old(SlotValid(n % SSL_MAX_HANDSHAKE_FLIGHT));
      }
    }

    /** dtls1_get_incoming_message: the assertion on the slot's number never fails. */
    method GetIncomingMessage(hdr: FragHdr) returns (frag: HmFragment?, alert: Alert)
      requires Valid() && hdr.Fits()
      modifies Repr
      ensures Valid() && fresh(Repr - old(Repr)) && readSeq == old(readSeq) && hasMessage == old(hasMessage)
      ensures hasChangeCipherSpec == old(hasChangeCipherSpec)
      ensures frag == null <==>
        || hdr.seq_ !in Window(readSeq)
        || (hdr.seq_ in old(View()).held
            && (old(View()).held[hdr.seq_].type_ != hdr.type_ || old(View()).held[hdr.seq_].msgLen != hdr.msgLen))
      ensures frag == null ==>
        alert == (if hdr.seq_ in Window(readSeq) then IllegalParameter else InternalError) && View() == old(View())
      ensures frag != null ==>
        && frag == messages[hdr.seq_ % SSL_MAX_HANDSHAKE_FLIGHT]
        && frag.seq_ == hdr.seq_ && frag.msgLen == hdr.msgLen
        && var held := old(View()).held;
           View().held == if hdr.seq_ in held then held else held[hdr.seq_ := Partial(hdr.type_, hdr.msgLen, map[])]
    {
      if hdr.seq_ < readSeq || hdr.seq_ - readSeq >= SSL_MAX_HANDSHAKE_FLIGHT {
        return null, InternalError;
      }
      var idx := hdr.seq_ % SSL_MAX_HANDSHAKE_FLIGHT;
      frag := messages[idx];
      assert SlotValid(idx);
      SlotNumber(hdr.seq_);
      if frag != null {
        assert frag.seq_ == hdr.seq_;
        assert At(hdr.seq_) == Some(frag.View());
        if frag.type_ != hdr.type_ || frag.msgLen != hdr.msgLen {
          return null, IllegalParameter;
        }
        return frag, InternalError;
      }
      frag := InsertMessage(hdr);
      alert := InternalError;
    }

    /** The memcpy and mark of a fragment, seen from the ring: the other slots stay. */
    method ReceiveInto(frag: HmFragment, off: nat, body: seq<byte>)
      requires Valid() && frag.seq_ in Window(readSeq) && frag == messages[frag.seq_ % SSL_MAX_HANDSHAKE_FLIGHT]
      requires off + |body| <= frag.msgLen && At(frag.seq_).Some?
      modifies Repr
      ensures Valid() && Repr == old(Repr) && readSeq == old(readSeq) && hasMessage == old(hasMessage)
      ensures hasChangeCipherSpec == old(hasChangeCipherSpec)
      ensures View().held == old(View()).held[frag.seq_ := old(At(frag.seq_)).value.Merge(off, body)]
    {
      hide HmFragment.Valid, HmFragment.View, Partial.Complete, Partial.Merge;
      var idx := frag.seq_ % SSL_MAX_HANDSHAKE_FLIGHT;
      assert SlotValid(idx);
      frag.Receive(off, body);
      forall i | 0 <= i < SSL_MAX_HANDSHAKE_FLIGHT ensures SlotValid(i) {
        assert old(SlotValid(i));
        if i < idx { assert old(SlotsApart(i, idx)); }
        if i > idx { assert old(SlotsApart(idx, i)); }
      }
      forall i, j | 0 <= i < j < SSL_MAX_HANDSHAKE_FLIGHT ensures SlotsApart(i, j) {
        assert old(SlotsApart(i, j)) && old(SlotValid(i)) && old(SlotValid(j));
      }
      forall n | n in Window(readSeq)
        ensures At(n) == if n == frag.seq_ then Some(old(At(frag.seq_)).value.Merge(off, body)) else old(At(n))
      {
        var i := n % SSL_MAX_HANDSHAKE_FLIGHT;
        assert old(SlotValid(i));
        if i < idx { assert old(SlotsApart(i, idx)); }
        if i > idx { assert old(SlotsApart(idx, i)); }
      }
      CompleteStays(old(At(frag.seq_)).value, off, body);
    }

    /** Assigning the two flags touches no slot. */
    method SetFlags(message: bool, changeCipherSpec: bool)
      requires Valid() && (message ==> View().Ready())
      modifies this`hasMessage, this`hasChangeCipherSpec
      ensures Valid() && View() == old(View())
      ensures hasMessage == message && hasChangeCipherSpec == changeCipherSpec
    {
      hide HmFragment.Valid, HmFragment.View, Partial.Complete;
      hasMessage, hasChangeCipherSpec := message, changeCipherSpec;
      forall i | 0 <= i < SSL_MAX_HANDSHAKE_FLIGHT ensures SlotValid(i) {
        assert old(SlotValid(i));
      }
      forall i, j | 0 <= i < j < SSL_MAX_HANDSHAKE_FLIGHT ensures SlotsApart(i, j) {
        assert old(SlotsApart(i, j));
      }
      forall n | n in Window(readSeq) ensures At(n) == old(At(n)) {
        assert old(SlotValid(n % SSL_MAX_HANDSHAKE_FLIGHT));
      }
    }

    /** One turn of the loop in dtls1_open_handshake. */
    method Accept(f: Fragment, epoch: nat) returns (r: Opened)
      requires Valid() && f.Fits()
      modifies Repr
      ensures Valid() && fresh(Repr - old(Repr)) && hasMessage == old(hasMessage)
      ensures hasChangeCipherSpec == old(hasChangeCipherSpec)
      ensures (View(), r) == AcceptFragment(old(View()), epoch, maxLen, f)
    {
      hide Partial.Merge, HmFragment.Valid, HmFragment.View, Partial.Complete;
      var h := f.hdr;
      if h.fragOff > h.msgLen || h.fragOff + h.fragLen > h.msgLen || h.msgLen > maxLen {
        return OpenError(IllegalParameter);
      }
      if epoch == 1 && h.seq_ != readSeq {
        return OpenError(UnexpectedMessage);
      }
      if h.seq_ < readSeq || h.seq_ > readSeq + SSL_MAX_HANDSHAKE_FLIGHT {
        return OpenSuccess;
      }
      var frag, alert := GetIncomingMessage(h);
      if frag == null {
        return OpenError(alert);
      }
      assert SlotValid(h.seq_ % SSL_MAX_HANDSHAKE_FLIGHT);
      ghost var held := old(View()).held;
      ghost var p := if h.seq_ in held then held[h.seq_] else Partial(h.type_, h.msgLen, map[]);
      assert At(h.seq_) == Some(View().held[h.seq_]);
      assert View().held[h.seq_] == p;
      ReceiveInto(frag, h.fragOff, f.body);
      assert View().held == held[h.seq_ := p.Merge(h.fragOff, f.body)];
      r := OpenSuccess;
    }

    /** dtls1_open_handshake on a record the record layer has opened. */
    method OpenHandshake(type_: byte, record: seq<byte>, nullCipher: bool, epoch: nat) returns (r: Opened)
      requires Valid()
      modifies Repr
      ensures Valid() && fresh(Repr - old(Repr)) && hasMessage == old(hasMessage)
      ensures (View(), r) == AcceptAny(old(View()), epoch, maxLen, type_, record, nullCipher)
      ensures hasChangeCipherSpec ==
        (old(hasChangeCipherSpec) || (type_ == SSL3_RT_CHANGE_CIPHER_SPEC && r == OpenSuccess))
    {
      hide AcceptFragment;
      if type_ == SSL3_RT_APPLICATION_DATA {
        return if nullCipher then OpenError(UnexpectedMessage) else OpenDiscard;
      }
      if type_ == SSL3_RT_CHANGE_CIPHER_SPEC {
        if !nullCipher {
          return OpenError(UnexpectedMessage);
        }
        if |record| != 1 || record[0] != SSL3_MT_CCS {
          return OpenError(IllegalParameter);
        }
        SetFlags(hasMessage, true);
        return OpenSuccess;
      }
      if type_ != SSL3_RT_HANDSHAKE {
        return OpenError(UnexpectedMessage);
      }
      var cbs := record;
      while cbs != []
        invariant Valid() && fresh(Repr - old(Repr)) && hasMessage == old(hasMessage)
        invariant hasChangeCipherSpec == old(hasChangeCipherSpec)
        invariant AcceptRecord(View(), epoch, maxLen, cbs) == AcceptRecord(old(View()), epoch, maxLen, record)
        decreases |cbs|
      {
        var p := ParseFragment(cbs);
        if p.None? {
          return OpenError(DecodeError);
        }
        r := Accept(p.value.fragment, epoch);
        if r != OpenSuccess {
          return;
        }
        cbs := p.value.rest;
      }
      r := OpenSuccess;
    }

    /** dtls1_get_message: the raw bytes of the next message, once it is complete. */
    method GetMessage() returns (raw: Option<seq<byte>>)
      requires Valid()
      modifies this`hasMessage, this`hasChangeCipherSpec
      ensures Valid() && View() == old(View()) && hasChangeCipherSpec == old(hasChangeCipherSpec)
      ensures hasMessage == (old(hasMessage) || raw.Some?)
      ensures raw == if View().Ready() then Some(View().held[readSeq].Raw(readSeq)) else None
    {
      var complete := IsCurrentMessageComplete();
      if !complete {
        return None;
      }
      SlotNumber(readSeq);
      assert SlotValid(readSeq % SSL_MAX_HANDSHAKE_FLIGHT);
      var bytes := messages[readSeq % SSL_MAX_HANDSHAKE_FLIGHT].Raw();
      SetFlags(true, hasChangeCipherSpec);
      raw := Some(bytes);
    }

    /** dtls1_next_message. The ring survives the 16-bit message number wrapping around. */
    method NextMessage()
      requires Valid() && hasMessage
      modifies this, messages
      ensures Valid() && Repr == old(Repr) && !hasMessage && hasChangeCipherSpec == old(hasChangeCipherSpec)
      ensures View() == Queue((old(readSeq) + 1) % TWO16, old(View()).held - {old(readSeq)})
    {
      hide HmFragment.Valid, HmFragment.View, Partial.Complete;
      var idx := readSeq % SSL_MAX_HANDSHAKE_FLIGHT;
      messages[idx] := null;
      readSeq := (readSeq + 1) % TWO16;
      hasMessage := false;
      forall i | 0 <= i < SSL_MAX_HANDSHAKE_FLIGHT ensures SlotValid(i) {
        assert old(SlotValid(i));
        if i != idx && messages[i] != null { assert messages[i].seq_ != old(readSeq); }
      }
      forall i, j | 0 <= i < j < SSL_MAX_HANDSHAKE_FLIGHT ensures SlotsApart(i, j) {
        assert old(SlotsApart(i, j));
      }
      forall n | n in Window(old(readSeq)) && n != old(readSeq)
        ensures old(At(n)) == if n in Window(readSeq) then At(n) else None
      {
        assert old(SlotValid(n % SSL_MAX_HANDSHAKE_FLIGHT));
      }
      forall n | n in Window(readSeq) && n !in Window(old(readSeq)) ensures At(n) == None {
        assert old(SlotValid(n % SSL_MAX_HANDSHAKE_FLIGHT));
      }
    }

    /** dtls_has_unprocessed_handshake_data */
    method HasUnprocessedHandshakeData() returns (r: bool)
      requires Valid()
      ensures r <==> hasChangeCipherSpec || exists n :: n in View().held && !(hasMessage && n == readSeq)
    {
      if hasChangeCipherSpec {
        return true;
      }
      var i := 0;
      while i < SSL_MAX_HANDSHAKE_FLIGHT
        invariant i <= SSL_MAX_HANDSHAKE_FLIGHT
        invariant forall n :: n in View().held && !(hasMessage && n == readSeq) ==> n % SSL_MAX_HANDSHAKE_FLIGHT >= i
      {
        if !(hasMessage && i == readSeq % SSL_MAX_HANDSHAKE_FLIGHT) && messages[i] != null {
          assert SlotValid(i);
          assert messages[i].seq_ in View().held;
          return true;
        }
        i := i + 1;
      }
      r := false;
    }

    /** dtls1_open_change_cipher_spec */
    method OpenChangeCipherSpec(type_: byte, record: seq<byte>, nullCipher: bool, epoch: nat) returns (r: Opened)
      requires Valid()
      modifies Repr
      ensures Valid() && fresh(Repr - old(Repr)) && hasMessage == old(hasMessage)
      ensures !hasChangeCipherSpec
      ensures old(hasChangeCipherSpec) ==> r == OpenSuccess && View() == old(View())
      ensures !old(hasChangeCipherSpec) ==>
        var (q, o) := AcceptAny(old(View()), epoch, maxLen, type_, record, nullCipher);
        && View() == q
        && r == if o == OpenSuccess && type_ != SSL3_RT_CHANGE_CIPHER_SPEC then OpenDiscard else o
    {
      if !hasChangeCipherSpec {
        r := OpenHandshake(type_, record, nullCipher, epoch);
        if r != OpenSuccess {
          return;
        }
      }
      if hasChangeCipherSpec {
        SetFlags(hasMessage, false);
        return OpenSuccess;
      }
      r := OpenDiscard;
    }
  }

  /** Numbers of one window have different slots. */
  lemma SameSlot(next: nat, a: nat, b: nat)
    requires next <= a < next + SSL_MAX_HANDSHAKE_FLIGHT && next <= b < next + SSL_MAX_HANDSHAKE_FLIGHT
    requires a % SSL_MAX_HANDSHAKE_FLIGHT == b % SSL_MAX_HANDSHAKE_FLIGHT
    ensures a == b
  {
  }

  lemma CompleteStays(p: Partial, off: nat, body: seq<byte>)
    ensures p.Complete() ==> p.Merge(off, body) == p
  {
  }

  /** The seven numbers the ring has room for. */
  function Window(next: nat): set<nat> {
    Range(next, next + SSL_MAX_HANDSHAKE_FLIGHT)
  }
}
