/** The TLS write path: SSLBuffer, pending flights, and application data written over a
    transport that may take part of what it is given or nothing at all. */
module TlsWrite {
  import opened Bits
  import opened Wrappers

  const SSL3_ALIGN_PAYLOAD: nat := 8
  const SSL3_RT_MAX_PLAIN_LENGTH: nat := 16384
  const SSL3_RT_CHANGE_CIPHER_SPEC: byte := 20
  const SSL3_RT_ALERT: byte := 21
  const SSL3_RT_HANDSHAKE: byte := 22
  const SSL3_RT_APPLICATION_DATA: byte := 23
  const MAX_CAP: nat := 0xffff

  class SSLBuffer {
    var buf: array?<byte>
    var offset: nat
    var size: nat
    var cap: nat

    ghost predicate Valid()
      reads this
    {
      if buf == null then offset == 0 && size == 0 && cap == 0
      else size <= cap <= MAX_CAP && offset + cap <= buf.Length && offset <= MAX_CAP
    }

    /** The slack for alignment keeps the 16-bit offset from wrapping around. */
    predicate InRange()
      reads this
    {
      offset + cap <= MAX_CAP + 1
    }

    /** The bytes between data() and data() + size(). */
    ghost function Contents(): (s: seq<byte>)
      requires Valid()
      reads this, buf
      ensures |s| == size
    {
      if buf == null then [] else buf[offset..offset + size]
    }

    /** span() */
    method Data() returns (s: seq<byte>)
      requires Valid()
      ensures s == Contents()
    {
      s := if buf == null then [] else buf[offset..offset + size];
    }

    constructor ()
      ensures Valid() && InRange() && Contents() == [] && buf == null
    {
      buf, offset, size, cap := null, 0, 0, 0;
    }

    method Clear()
      modifies this
      ensures Valid() && InRange() && Contents() == [] && buf == null
    {
      buf := null;
      offset := 0;
      size := 0;
      cap := 0;
    }

    /** address is where malloc puts new memory. What it holds there is anything. */
    method EnsureCap(headerLen: nat, newCap: nat, address: nat) returns (ok: bool)
      requires Valid()
      modifies this
      ensures Valid() && (old(InRange()) && newCap + SSL3_ALIGN_PAYLOAD - 1 <= MAX_CAP + 1 ==> InRange())
      ensures Contents() == old(Contents()) && ok == (newCap <= MAX_CAP)
      ensures if ok && old(cap) < newCap then cap == newCap && buf != null && fresh(buf) else unchanged(this)
      ensures ok && old(cap) < newCap ==> (address + offset + headerLen) % SSL3_ALIGN_PAYLOAD == 0
    {
      if newCap > MAX_CAP {
        return false;
      }
      if cap >= newCap {
        return true;
      }
      var newBuf := new byte[newCap + SSL3_ALIGN_PAYLOAD - 1];
      var newOffset: nat := (0 - headerLen - address) % SSL3_ALIGN_PAYLOAD;
      ghost var contents := Contents();
      if buf != null {
        forall i | 0 <= i < size {
          newBuf[newOffset + i] := buf[offset + i];
        }
      }
      assert newBuf[newOffset..newOffset + size] == contents;
      buf := newBuf;
      offset := newOffset;
      cap := newCap;
      ok := true;
    }

    /** Bytes written to remaining(), and DidWrite. */
    method Append(data: seq<byte>)
      requires Valid() && |data| <= cap - size
      modifies this`size, buf
      ensures Valid() && Contents() == old(Contents()) + data && InRange() == old(InRange())
    {
      ghost var contents := Contents();
      if buf == null {
        assert data == [];
        return;
      }
      forall i | 0 <= i < |data| {
        buf[offset + size + i] := data[i];
      }
      DidWrite(|data|);
      assert buf[offset..offset + size] == contents + data;
    }

    method DidWrite(newSize: nat)
      requires Valid() && newSize <= cap - size
      modifies this`size
      ensures Valid() && size == old(size) + newSize
    {
      size := size + newSize;
    }

    method Consume(len: nat)
      requires Valid() && len <= size
      modifies this`offset, this`size, this`cap
      ensures Valid() && cap == old(cap) - len && size == old(size) - len && (old(InRange()) ==> InRange())
      ensures old(InRange()) || size == 0 || old(offset) + len <= MAX_CAP ==> Contents() == old(Contents())[len..]
    {
      if buf != null && offset + len <= MAX_CAP {
        assert buf[offset + len..offset + size] == buf[offset..offset + size][len..];
      }
      // 16 bits
      offset := if offset + len <= MAX_CAP then offset + len else offset + len - (MAX_CAP + 1);
      size := size - len;
      cap := cap - len;
    }

    method DiscardConsumed()
      requires Valid()
      modifies this
      ensures Valid() && Contents() == old(Contents())
      ensures if old(size) == 0 then buf == null else unchanged(this)
    {
      if size == 0 {
        Clear();
      }
    }
  }

  /** How many of the first n answers were refusals. */
  function Refusals(answer: nat -> int, n: nat): nat {
    if n == 0 then 0 else Refusals(answer, n - 1) + if answer(n - 1) <= 0 then 1 else 0
  }

  /** A transport that refuses nothing from its m-th answer on stalls at most m times. */
  lemma {:induction false} FewRefusals(answer: nat -> int, m: nat, n: nat)
    requires forall k: nat :: k >= m ==> answer(k) > 0
    ensures Refusals(answer, n) <= m && (n >= m ==> Refusals(answer, n) == Refusals(answer, m))
    ensures n <= m ==> Refusals(answer, n) <= n
    decreases n
  {
    if n > 0 { FewRefusals(answer, m, n - 1); }
  }

  /** The write BIO, with its answers to all writes and flushes. Everything sent so far is
      kept. */
  class Transport {
    const answer: nat -> int
    const flushAnswer: nat -> int
    var sent: seq<byte>
    var writes: nat
    var flushes: nat

    constructor (answer: nat -> int, flushAnswer: nat -> int)
      ensures sent == [] && this.answer == answer && this.flushAnswer == flushAnswer
    {
      this.answer, this.flushAnswer := answer, flushAnswer;
      sent, writes, flushes := [], 0, 0;
    }

    /** From now on it never stalls, though it may take as little as a byte at a time. */
    ghost predicate Accepting()
      reads this`writes, this`flushes
    {
      && (forall n: nat :: n >= writes ==> answer(n) > 0)
      && (forall n: nat :: n >= flushes ==> flushAnswer(n) > 0)
    }

    /** It refuses nothing from its m-th answers on. */
    ghost predicate CalmFrom(m: nat) {
      (forall n: nat :: n >= m ==> answer(n) > 0) && (forall n: nat :: n >= m ==> flushAnswer(n) > 0)
    }

    lemma FewStalls(m: nat)
      ensures CalmFrom(m) ==> Stalled() <= 2 * m
    {
      if CalmFrom(m) {
        FewRefusals(answer, m, writes);
        FewRefusals(flushAnswer, m, flushes);
      }
    }

    /** How often it has stalled. */
    function Stalled(): nat
      reads this`writes, this`flushes
    {
      Refusals(answer, writes) + Refusals(flushAnswer, flushes)
    }

    /** BIO_write: takes some of the bytes, or fails and takes none. */
    method Write(data: seq<byte>) returns (ret: int)
      requires data != []
      modifies this`sent, this`writes
      ensures ret == if answer(old(writes)) > |data| then |data| else answer(old(writes))
      ensures sent == old(sent) + if ret > 0 then data[..ret] else []
      ensures Stalled() == old(Stalled()) + if ret > 0 then 0 else 1
      ensures old(Accepting()) ==> Accepting() && ret > 0
    {
      ret := answer(writes);
      writes := writes + 1;
      if ret > |data| {
        ret := |data|;
      }
      if ret > 0 {
        sent := sent + data[..ret];
      }
    }

    /** BIO_flush */
    method Flush() returns (ret: int)
      modifies this`flushes
      ensures ret == flushAnswer(old(flushes))
      ensures Stalled() == old(Stalled()) + if ret > 0 then 0 else 1
      ensures old(Accepting()) ==> Accepting() && ret > 0
    {
      ret := flushAnswer(flushes);
      flushes := flushes + 1;
    }
  }

  /** A record that was sealed: what went in and what came out. */
  datatype Record = Record(type_: byte, plaintext: seq<byte>, wire: seq<byte>)

  /** The bytes of the records. */
  function Wire(records: seq<Record>): seq<byte> {
    if records == [] then [] else Wire(records[..|records| - 1]) + records[|records| - 1].wire
  }

  /** The plaintexts of one type, in order. */
  function Stream(records: seq<Record>, type_: byte): seq<byte> {
    if records == [] then []
    else
      var last := records[|records| - 1];
      Stream(records[..|records| - 1], type_) + if last.type_ == type_ then last.plaintext else []
  }

  lemma OneMore(records: seq<Record>, r: Record, type_: byte)
    ensures Wire(records + [r]) == Wire(records) + r.wire
    ensures Stream(records + [r], type_) == Stream(records, type_) + if r.type_ == type_ then r.plaintext else []
  {
    assert (records + [r])[..|records|] == records;
  }

  /** The bytes of record n are those sealing gives. */
  ghost predicate SealedBy(seal: (nat, byte, seq<byte>) -> Option<seq<byte>>, records: seq<Record>) {
    forall n :: 0 <= n < |records| ==> seal(n, records[n].type_, records[n].plaintext) == Some(records[n].wire)
  }

  ghost predicate Bounded(seal: (nat, byte, seq<byte>) -> Option<seq<byte>>, overhead: nat) {
    forall n: nat, t: byte, p: seq<byte> :: seal(n, t, p).Some? ==> |seal(n, t, p).value| <= |p| + overhead
  }

  /** The AEAD takes any record from the given number on. */
  ghost predicate Accepts(seal: (nat, byte, seq<byte>) -> Option<seq<byte>>, from: nat) {
    forall n: nat, t: byte, p: seq<byte> :: n >= from ==> seal(n, t, p).Some?
  }

  /** Some more records of application data were sealed, none above the limit. */
  predicate MoreApp(before: seq<Record>, after: seq<Record>, limit: nat) {
    && before <= after
    && forall i :: |before| <= i < |after| ==>
      after[i].type_ == SSL3_RT_APPLICATION_DATA && 0 < |after[i].plaintext| <= limit
  }

  /** What a write leaves behind: the bytes sent, the records, the stalls so far, and whether the
      transport and the AEAD refuse nothing from now on. */
  datatype Moment = Moment(sent: seq<byte>, sealed: seq<Record>, stalled: nat, accepting: bool, sealable: bool)

  /** Writes of application data add to what was sent and sealed; a transport that stalls no more
      has not stalled in between, and who is willing stays so. */
  predicate Later(a: Moment, b: Moment, limit: nat) {
    && a.sent <= b.sent && MoreApp(a.sealed, b.sealed, limit) && a.stalled <= b.stalled
    && (a.accepting ==> b.accepting && b.stalled == a.stalled)
    && (a.sealable ==> b.sealable)
  }

  lemma StillLater(a: Moment, b: Moment, c: Moment, n: nat, limit: nat)
    ensures Later(a, a, limit)
    ensures Later(a, b, limit) && Later(b, c, n) && n <= limit ==> Later(a, c, limit)
  {
  }

  lemma SameFront(s: seq<byte>, n: nat, s': seq<byte>, n': nat)
    requires s <= s' && n <= |s| && n' <= |s'| && |s'| - n' == |s| - n
    ensures Without(s, n) == Without(s', n')
  {
  }

  lemma Forgotten(s: seq<byte>, n: nat, n': nat)
    requires n' <= n <= |s|
    ensures Without(s, n) != Without(s, n') <==> n' < n
  {
  }

  /** What a caller does while it has data to write. */
  datatype Action = Write(len: nat) | FlushHandshake | QueueHandshake(msg: seq<byte>)

  /** All but the last n bytes, and those. */
  function Without(s: seq<byte>, n: nat): seq<byte> {
    if n <= |s| then s[..|s| - n] else []
  }

  function Last(s: seq<byte>, n: nat): seq<byte> {
    if n <= |s| then s[|s| - n..] else []
  }

  lemma LastOf(s: seq<byte>, n: nat, data: seq<byte>)
    requires n <= |s| && Last(s, n) <= data
    ensures n <= |data| && s == Without(s, n) + data[..n] && Last(s, n) == data[..n]
  {
  }

  lemma PrefixOfPrefix(data: seq<byte>, m: nat, n: nat)
    requires m <= n <= |data|
    ensures data[..m] <= data[..n] <= data
  {
  }

  lemma WithinFront(u: seq<byte>, rest: seq<byte>, n: nat)
    requires n <= |rest|
    ensures u <= rest && |u| <= n ==> u <= rest[..n]
    ensures u <= rest[..n] ==> u <= rest
  {
  }

  lemma Further(start: seq<byte>, data: seq<byte>, done: nat, n: nat, k: nat)
    requires done + n <= |data| && k <= n
    ensures start + data[..done] + data[done..][..n][..k] == start + data[..done + k]
    ensures [] <= data[done + k..]
  {
  }

  lemma WithoutData(base: seq<byte>, data: seq<byte>, n: nat)
    requires n <= |data|
    ensures var s := base + data[..n];
      && Without(s, n) == base && Last(s, n) == data[..n] && Without(s, 0) == s && Last(s, 0) == []
  {
  }

  /** The write half of an SSL. */
  class Writer {
    /** The n-th record, from its type and plaintext, unless the AEAD refuses. */
    const seal: (nat, byte, seq<byte>) -> Option<seq<byte>>
    const maxOverhead: nat
    const alignPrefixLen: nat
    // SSL_MODE_ACCEPT_MOVING_WRITE_BUFFER and SSL_MODE_ENABLE_PARTIAL_WRITE
    const acceptMoving: bool
    const partialWrite: bool
    const bio: Transport
    const writeBuffer: SSLBuffer
    var maxSendFragment: nat
    var writeShutdown: bool
    /** The number of records sealed. */
    var writeSequence: nat
    var wnum: nat
    var wpendTot: nat
    var wpendBuf: nat
    var wpendType: byte
    var wpendRet: nat
    var wpendPending: bool
    var pendingFlight: Option<seq<byte>>
    var pendingFlightOffset: nat
    /** Every record sealed, for a flight or for the write buffer. */
    ghost var sealed: seq<Record>

    /** The memory of the write buffer is what it was, new, or gone. */
    twostate predicate BufferKept()
      reads writeBuffer
    {
      writeBuffer.buf == null || writeBuffer.buf == old(writeBuffer.buf) || fresh(writeBuffer.buf)
    }

    /** What is left to write of the pending flight. */
    function FlightLeft(): seq<byte>
      reads this`pendingFlight, this`pendingFlightOffset
    {
      if pendingFlight.Some? && pendingFlightOffset <= |pendingFlight.value| then
        pendingFlight.value[pendingFlightOffset..]
      else []
    }

    /** Everything sealed was sent, is in the write buffer or is in the pending flight, in this
        order; what the next call takes for sealed was sealed. */
    ghost predicate Valid()
      reads this, bio, writeBuffer, writeBuffer.buf
    {
      && writeBuffer.Valid() && writeBuffer.InRange()
      && 0 < maxSendFragment <= SSL3_RT_MAX_PLAIN_LENGTH
      && SSL3_RT_MAX_PLAIN_LENGTH + maxOverhead + SSL3_ALIGN_PAYLOAD - 1 <= MAX_CAP
      && Bounded(seal, maxOverhead)
      && (if pendingFlight.Some? then pendingFlightOffset <= |pendingFlight.value| else pendingFlightOffset == 0)
      && writeSequence == |sealed| && SealedBy(seal, sealed)
      && bio.sent + writeBuffer.Contents() + FlightLeft() == Wire(sealed)
      && (wpendPending ==> 0 < wpendRet == wpendTot <= SSL3_RT_MAX_PLAIN_LENGTH)
      && Outstanding() <= |App()|
    }

    /** The application data in the record being written. */
    function Pending(): nat
      reads this`wpendPending, this`wpendType, this`wpendRet
    {
      if wpendPending && wpendType == SSL3_RT_APPLICATION_DATA then wpendRet else 0
    }

    /** The application data sealed for a write that has not returned success. */
    function Outstanding(): nat
      reads this
    {
      wnum + Pending()
    }

    /** All application data sealed. */
    ghost function App(): seq<byte>
      reads this`sealed
    {
      Stream(sealed, SSL3_RT_APPLICATION_DATA)
    }

    /** The application data the caller was told was written. */
    ghost function Acked(): seq<byte>
      reads this
    {
      Without(App(), Outstanding())
    }

    ghost function Unacked(): seq<byte>
      reads this
    {
      Last(App(), Outstanding())
    }

    /** The capacity for a flight and a record of up to n bytes keeps its alignment slack, or is
        refused. */
    predicate RoomFor(flight: seq<byte>, n: nat) {
      || |flight| + n + maxOverhead + SSL3_ALIGN_PAYLOAD - 1 <= MAX_CAP
      || |flight| + 1 + maxOverhead > MAX_CAP
    }

    predicate Roomy(n: nat)
      reads this`pendingFlight, this`pendingFlightOffset
    {
      RoomFor(FlightLeft(), n)
    }

    /** The flight is as it was, or has gone into the write buffer. */
    predicate FlightKept(flight: seq<byte>)
      reads this`pendingFlight, this`pendingFlightOffset
    {
      FlightLeft() == [] || FlightLeft() == flight
    }

    lemma StillRoomy(flight: seq<byte>, n: nat, m: nat)
      requires Valid() && FlightKept(flight) && RoomFor(flight, n) && m <= n <= SSL3_RT_MAX_PLAIN_LENGTH
      ensures Roomy(m)
    {
    }

    /** There is room for the rest of the pending flight and any record. */
    predicate FlightFits()
      reads this`pendingFlight, this`pendingFlightOffset
    {
      |FlightLeft()| + SSL3_RT_MAX_PLAIN_LENGTH + maxOverhead + SSL3_ALIGN_PAYLOAD - 1 <= MAX_CAP
    }

    /** The AEAD refuses nothing from now on. */
    ghost predicate Sealable()
      reads this`writeSequence
    {
      Accepts(seal, writeSequence)
    }

    ghost function Now(): Moment
      reads this`sealed, this`writeSequence, bio
    {
      Moment(bio.sent, sealed, bio.Stalled(), bio.Accepting(), Sealable())
    }

    /** Nor does the transport. */
    ghost predicate Willing()
      reads this`writeSequence, bio`writes, bio`flushes
    {
      bio.Accepting() && Sealable()
    }

    /** The checks of ssl3_write_pending. */
    predicate BadRetry(type_: byte, addr: nat, len: nat)
      reads this`wpendTot, this`wpendBuf, this`wpendType
    {
      wpendTot > len || (!acceptMoving && wpendBuf != addr) || wpendType != type_
    }

    /** do_ssl3_write takes this much: the record being written is retried properly, or there is
        none, something to write, and nothing stuck in the write buffer. */
    predicate CanWrite(type_: byte, addr: nat, len: nat)
      reads this`wpendPending, this`wpendTot, this`wpendBuf, this`wpendType, this`pendingFlight,
        this`pendingFlightOffset
      reads writeBuffer
    {
      if wpendPending then !BadRetry(type_, addr, len)
      else
        && 0 < len <= SSL3_RT_MAX_PLAIN_LENGTH && writeBuffer.size == 0
        && |FlightLeft()| + len + maxOverhead <= MAX_CAP
    }

    /** The record being written is of a write of application data at addr. */
    predicate Stuck(addr: nat)
      reads this`wpendPending, this`wpendType, this`wpendBuf, this`wpendRet, this`maxSendFragment
    {
      && wpendPending && wpendType == SSL3_RT_APPLICATION_DATA && (acceptMoving || wpendBuf == addr)
      && wpendRet <= maxSendFragment
    }

    /** The record for the data at addr did not go out, because of the transport or of the AEAD. */
    predicate Stopped(addr: nat, chunk: seq<byte>)
      reads this`wpendPending, this`wpendType, this`wpendBuf, this`wpendRet, this`maxSendFragment, this`writeSequence
    {
      if wpendPending then Stuck(addr) else seal(writeSequence, SSL3_RT_APPLICATION_DATA, chunk).None?
    }

    /** So for the first of n bytes of application data. */
    predicate CanStart(addr: nat, n: nat)
      reads this`wpendPending, this`wpendTot, this`wpendBuf, this`wpendType, this`pendingFlight,
        this`pendingFlightOffset, this`maxSendFragment
      reads writeBuffer
    {
      CanWrite(SSL3_RT_APPLICATION_DATA, addr, ChunkOf(n))
    }

    /** Nothing is being written. */
    predicate Idle()
      reads this, writeBuffer
    {
      !writeShutdown && !wpendPending && wnum == 0 && writeBuffer.size == 0 && FlightFits()
    }

    /** Nothing is being written but the record at which a write of the data at addr stopped. */
    predicate InStep(addr: nat)
      reads this, writeBuffer
    {
      && !writeShutdown && FlightFits()
      && if wpendPending then Stuck(addr + wnum) else wnum == 0 && writeBuffer.size == 0
    }

    constructor (seal: (nat, byte, seq<byte>) -> Option<seq<byte>>, maxOverhead: nat, alignPrefixLen: nat,
                 acceptMoving: bool, partialWrite: bool, maxSendFragment: nat,
                 answer: nat -> int, flushAnswer: nat -> int)
      requires 0 < maxSendFragment <= SSL3_RT_MAX_PLAIN_LENGTH && Bounded(seal, maxOverhead)
      requires SSL3_RT_MAX_PLAIN_LENGTH + maxOverhead + SSL3_ALIGN_PAYLOAD - 1 <= MAX_CAP
      ensures Valid() && fresh(bio) && fresh(writeBuffer) && writeBuffer.buf == null && sealed == [] && Idle()
      ensures this.seal == seal && this.maxOverhead == maxOverhead && this.acceptMoving == acceptMoving
      ensures this.partialWrite == partialWrite && bio.answer == answer && bio.flushAnswer == flushAnswer
      ensures bio.sent == [] && pendingFlight.None? && this.maxSendFragment == maxSendFragment
    {
      this.seal, this.maxOverhead, this.alignPrefixLen := seal, maxOverhead, alignPrefixLen;
      this.acceptMoving, this.partialWrite, this.maxSendFragment := acceptMoving, partialWrite, maxSendFragment;
      bio := new Transport(answer, flushAnswer);
      writeBuffer := new SSLBuffer();
      writeShutdown := false;
      writeSequence, wnum, wpendTot, wpendBuf, wpendType, wpendRet, wpendPending := 0, 0, 0, 0, 0, 0, false;
      pendingFlight, pendingFlightOffset := None, 0;
      sealed := [];
    }

    /** tls_write_buffer_flush */
    method FlushWriteBuffer() returns (ret: int)
      requires writeBuffer.Valid() && writeBuffer.InRange()
      modifies bio, writeBuffer
      ensures writeBuffer.Valid() && writeBuffer.InRange()
      ensures writeBuffer.buf == null || writeBuffer.buf == old(writeBuffer.buf)
      ensures bio.sent + writeBuffer.Contents() == old(bio.sent + writeBuffer.Contents())
      ensures old(bio.sent) <= bio.sent && ret <= 1 && old(bio.Stalled()) <= bio.Stalled()
      ensures ret > 0 ==> writeBuffer.Contents() == []
      ensures ret > 0 <==> bio.Stalled() == old(bio.Stalled())
      ensures old(bio.Accepting()) ==> bio.Accepting() && ret > 0
    {
      hide SSLBuffer.Valid, SSLBuffer.InRange, SSLBuffer.Contents, Transport.Stalled, Transport.Accepting;
      while writeBuffer.size != 0
        invariant writeBuffer.Valid() && writeBuffer.InRange() && writeBuffer.buf == old(writeBuffer.buf)
        invariant bio.sent + writeBuffer.Contents() == old(bio.sent + writeBuffer.Contents())
        invariant old(bio.sent) <= bio.sent && bio.Stalled() == old(bio.Stalled())
        invariant old(bio.Accepting()) ==> bio.Accepting()
        decreases writeBuffer.size
      {
        ghost var sent, contents := bio.sent, writeBuffer.Contents();
        var span := writeBuffer.Data();
        ret := bio.Write(span);
        if ret <= 0 {
          return;
        }
        writeBuffer.Consume(ret);
        assert sent + contents == sent + contents[..ret] + contents[ret..];
      }
      writeBuffer.Clear();
      assert bio.sent + [] == bio.sent;
      ret := 1;
    }

    /** tls_seal_record for the next record. The AEAD may refuse. */
    method SealRecord(type_: byte, data: seq<byte>) returns (wire: Option<seq<byte>>)
      modifies this`writeSequence, this`sealed
      ensures wire == seal(old(writeSequence), type_, data)
      ensures wire.Some? ==>
        writeSequence == old(writeSequence) + 1 && sealed == old(sealed) + [Record(type_, data, wire.value)]
      ensures wire.None? ==> unchanged(this)
    {
      wire := seal(writeSequence, type_, data);
      if wire.Some? {
        writeSequence := writeSequence + 1;
        sealed := sealed + [Record(type_, data, wire.value)];
      }
    }

    /** ssl3_write_pending: the record that was sealed is what is written, whatever the caller
        now passes. */
    method WritePending(type_: byte, addr: nat, len: nat) returns (ret: int)
      requires Valid() && wpendPending
      modifies this`wpendPending, bio, writeBuffer
      ensures writeBuffer.buf == null || writeBuffer.buf == old(writeBuffer.buf)
      ensures old(bio.sent) <= bio.sent && Valid()
      ensures BadRetry(type_, addr, len) ==> ret == -1 && bio.sent == old(bio.sent)
      ensures if ret > 0 then ret == wpendRet && !wpendPending && writeBuffer.Contents() == [] && wpendTot <= len
              else wpendPending
      ensures ret > 0 ==> !BadRetry(type_, addr, len)
      ensures !BadRetry(type_, addr, len) ==> (ret > 0 <==> bio.Stalled() == old(bio.Stalled()))
      ensures BadRetry(type_, addr, len) ==> bio.Stalled() == old(bio.Stalled())
      ensures old(bio.Stalled()) <= bio.Stalled() && (old(bio.Accepting()) ==> bio.Accepting())
      ensures old(bio.Accepting()) && !BadRetry(type_, addr, len) ==> ret > 0
    {
      hide Wire, Stream, SealedBy, Bounded, SSLBuffer.Contents, Transport.Accepting, Transport.Stalled;
      if wpendTot > len || (!acceptMoving && wpendBuf != addr) || wpendType != type_ {
        return -1;
      }
      ret := FlushWriteBuffer();
      if ret <= 0 {
        return;
      }
      wpendPending := false;
      ret := wpendRet;
    }

    /** The part of do_ssl3_write that makes room: what is left of the pending flight goes into
        the write buffer, in front of the record to come. */
    method PrefixFlight(len: nat) returns (ok: bool)
      requires Valid() && Roomy(len) && !wpendPending && writeBuffer.size == 0 && 0 < len <= SSL3_RT_MAX_PLAIN_LENGTH
      modifies this`pendingFlight, this`pendingFlightOffset, writeBuffer, writeBuffer.buf
      ensures Valid() && FlightKept(old(FlightLeft())) && BufferKept()
      ensures ok == (old(|FlightLeft()|) + len + maxOverhead <= MAX_CAP)
      ensures if ok then FlightLeft() == [] && len + maxOverhead <= writeBuffer.cap - writeBuffer.size
              else FlightLeft() == old(FlightLeft())
    {
      hide Wire, Stream, SealedBy, Bounded, SSLBuffer.Contents;
      var flight := FlightLeft();
      var maxOut := len + maxOverhead + |flight|;
      var address: int := *;
      ok := writeBuffer.EnsureCap(|flight| + alignPrefixLen, maxOut, if address < 0 then 0 else address);
      if ok && pendingFlight.Some? {
        writeBuffer.Append(flight);
        pendingFlight, pendingFlightOffset := None, 0;
        assert bio.sent + flight + [] == bio.sent + ([] + flight);
      }
    }

    /** The part that seals and notes what is pending. */
    method SealIntoBuffer(type_: byte, addr: nat, data: seq<byte>) returns (ok: bool)
      requires Valid() && !wpendPending && 0 < |data| <= SSL3_RT_MAX_PLAIN_LENGTH && FlightLeft() == []
      requires |data| + maxOverhead <= writeBuffer.cap - writeBuffer.size
      modifies this`writeSequence, this`sealed, this`wpendTot, this`wpendBuf, this`wpendType, this`wpendRet,
        this`wpendPending, writeBuffer`size, writeBuffer.buf
      ensures Valid()
      ensures !ok ==> sealed == old(sealed) && !wpendPending
      ensures ok ==>
        && seal(|old(sealed)|, type_, data).Some?
        && sealed == old(sealed) + [Record(type_, data, seal(|old(sealed)|, type_, data).value)]
        && wpendPending && wpendType == type_ && wpendBuf == addr && wpendRet == wpendTot == |data|
      ensures ok == seal(old(writeSequence), type_, data).Some?
    {
      hide Wire, Stream, SealedBy, Bounded, SSLBuffer.Contents, SSLBuffer.Valid;
      ghost var contents := writeBuffer.Contents();
      var wire := SealRecord(type_, data);
      if wire.None? {
        return false;
      }
      WithinBound(writeSequence - 1, type_, data);
      OneMore(old(sealed), Record(type_, data, wire.value), SSL3_RT_APPLICATION_DATA);
      SealedMore(old(sealed), Record(type_, data, wire.value));
      writeBuffer.Append(wire.value);
      wpendTot, wpendBuf, wpendType, wpendRet, wpendPending := |data|, addr, type_, |data|, true;
      assert bio.sent + (contents + wire.value) + [] == bio.sent + contents + [] + wire.value;
      ok := true;
    }

    lemma SealedMore(records: seq<Record>, r: Record)
      requires SealedBy(seal, records) && seal(|records|, r.type_, r.plaintext) == Some(r.wire)
      ensures SealedBy(seal, records + [r])
    {
    }

    lemma WithinBound(n: nat, t: byte, p: seq<byte>)
      requires Bounded(seal, maxOverhead)
      ensures seal(n, t, p).Some? ==> |seal(n, t, p).value| <= |p| + maxOverhead
    {
    }

    /** do_ssl3_write. Either the record sealed earlier is written on, or one new record is
        sealed, behind what is left of the pending flight; a refusal leaves the records as they
        were. */
    method DoWrite(type_: byte, addr: nat, data: seq<byte>) returns (ret: int)
      requires Valid() && Roomy(|data|)
      modifies this, bio, writeBuffer, writeBuffer.buf
      ensures Valid() && FlightKept(old(FlightLeft())) && BufferKept()
      ensures wnum == old(wnum) && maxSendFragment == old(maxSendFragment) && writeShutdown == old(writeShutdown)
      ensures old(bio.sent) <= bio.sent && ret <= |data| && old(bio.Stalled()) <= bio.Stalled()
      ensures old(wpendPending) && old(BadRetry(type_, addr, |data|)) ==> ret == -1 && bio.sent == old(bio.sent)
      ensures ret > 0 ==>
        && old(CanWrite(type_, addr, |data|)) && !wpendPending && writeBuffer.size == 0
        && bio.sent + FlightLeft() == Wire(sealed) && |FlightLeft()| <= old(|FlightLeft()|)
      ensures var goes := old(CanWrite(type_, addr, |data|))
          && (old(wpendPending) || seal(|old(sealed)|, type_, data).Some?);
        && (ret > 0 <==> goes && bio.Stalled() == old(bio.Stalled()))
        && (!goes ==> bio.Stalled() == old(bio.Stalled()))
        && (!old(wpendPending) ==> (sealed != old(sealed) <==> goes))
      ensures old(bio.Accepting()) ==> bio.Accepting() && bio.Stalled() == old(bio.Stalled())
      ensures old(Sealable()) ==> Sealable()
      ensures old(wpendPending) ==>
        && sealed == old(sealed) && wpendType == old(wpendType) && wpendRet == old(wpendRet)
        && wpendBuf == old(wpendBuf)
        && if ret > 0 then ret == old(wpendRet) && type_ == wpendType else wpendPending
      ensures !old(wpendPending) ==>
        || (sealed == old(sealed) && ret <= 0 && !wpendPending)
        || (&& seal(|old(sealed)|, type_, data).Some?
            && sealed == old(sealed) + [Record(type_, data, seal(|old(sealed)|, type_, data).value)]
            && if ret > 0 then ret == |data|
               else wpendPending && wpendType == type_ && wpendBuf == addr && wpendRet == |data| > 0)
    {
      hide Wire, Stream, SealedBy, Bounded, SSLBuffer.Contents, SSLBuffer.Valid, Transport.Accepting, Transport.Stalled;
      if wpendPending {
        ret := WritePending(type_, addr, |data|);
        return;
      }
      if |data| > SSL3_RT_MAX_PLAIN_LENGTH || writeBuffer.size > 0 {
        return -1;
      }
      if |data| == 0 {
        return 0;
      }
      var ok := PrefixFlight(|data|);
      if ok {
        ok := SealIntoBuffer(type_, addr, data);
      }
      if !ok {
        return -1;
      }
      ret := WritePending(type_, addr, |data|);
    }

    /** Within a write: n bytes of data have been sealed since the application data stood at
        base, the last Pending() of them in the record being written. */
    ghost predicate Sealing(base: seq<byte>, data: seq<byte>, tot: nat)
      reads this
    {
      tot + Pending() <= |data| && App() == base + data[..tot + Pending()]
    }

    /** What one round tries to write of n bytes. */
    function ChunkOf(n: nat): nat
      reads this`maxSendFragment
    {
      if n > maxSendFragment then maxSendFragment else n
    }

    /** What the next record is to hold when a write has come to tot. */
    function ChunkAt(data: seq<byte>, tot: nat): seq<byte>
      requires tot <= |data|
      reads this`maxSendFragment
    {
      data[tot..tot + ChunkOf(|data| - tot)]
    }

    /** What the first round writes. */
    function FirstChunk(n: nat): nat
      reads this`wpendPending, this`wpendRet, this`maxSendFragment
    {
      if wpendPending then wpendRet else ChunkOf(n)
    }

    /** do_ssl3_write for the nw bytes of data from tot on. */
    method WriteApp(addr: nat, data: seq<byte>, tot: nat, nw: nat, ghost base: seq<byte>) returns (ret: int)
      requires Valid() && Roomy(nw) && tot + nw <= |data| && wnum == 0 && tot + Pending() <= |App()|
      requires nw <= maxSendFragment
      modifies this, bio, writeBuffer, writeBuffer.buf
      ensures Valid() && FlightKept(old(FlightLeft())) && BufferKept() && (old(FlightFits()) ==> FlightFits())
      ensures wnum == 0 && maxSendFragment == old(maxSendFragment) && writeShutdown == old(writeShutdown)
      ensures Later(old(Now()), Now(), nw) && ret <= nw
      ensures ret > 0 ==>
        && ret == (if old(wpendPending) then old(wpendRet) else nw)
        && old(CanWrite(SSL3_RT_APPLICATION_DATA, addr + tot, nw)) && !wpendPending && writeBuffer.size == 0
        && bio.sent + FlightLeft() == Wire(sealed) && bio.Stalled() == old(bio.Stalled())
      ensures ret <= 0 && old(CanWrite(SSL3_RT_APPLICATION_DATA, addr + tot, nw)) ==>
        Stopped(addr + tot, data[tot..tot + nw]) && (wpendPending <==> bio.Stalled() > old(bio.Stalled()))
      ensures old(Sealing(base, data, tot)) ==> Sealing(base, data, if ret > 0 then tot + ret else tot)
      ensures var tot' := if ret > 0 then tot + ret else tot;
        && old(tot + Pending()) <= tot' + Pending() <= |App()| && old(App()) <= App()
        && |App()| - (tot' + Pending()) == old(|App()| - (tot + Pending()))
    {
      hide Wire, Stream, SealedBy, Bounded, Valid, SSLBuffer.Valid, SSLBuffer.Contents, RoomFor, Sealable,
        Transport.Accepting, Transport.Stalled;
      SendFragmentPositive();
      ghost var chunk := data[tot..tot + nw];
      ghost var all := sealed;
      ret := DoWrite(SSL3_RT_APPLICATION_DATA, addr + tot, data[tot..tot + nw]);
      SendFragmentPositive();
      if sealed != all {
        OneMore(all, Record(SSL3_RT_APPLICATION_DATA, chunk, seal(|all|, SSL3_RT_APPLICATION_DATA, chunk).value),
                SSL3_RT_APPLICATION_DATA);
      }
      assert base + data[..tot] + chunk == base + data[..tot + nw];
    }

    /** One round of the loop in ssl3_write_app_data, which notes in wnum where it stopped. */
    method WriteChunk(addr: nat, data: seq<byte>, tot: nat, ghost base: seq<byte>) returns (ret: int)
      requires Valid() && tot <= |data| && wnum == 0 && tot + Pending() <= |App()| && Roomy(ChunkOf(|data| - tot))
      modifies this, bio, writeBuffer, writeBuffer.buf
      ensures Valid() && FlightKept(old(FlightLeft())) && BufferKept()
      ensures maxSendFragment == old(maxSendFragment) && writeShutdown == old(writeShutdown)
      ensures Later(old(Now()), Now(), maxSendFragment) && ret <= |data| - tot && (old(FlightFits()) ==> FlightFits())
      ensures wnum == if ret > 0 then 0 else tot
      ensures ret > 0 ==>
        && ret == old(FirstChunk(|data| - tot)) && old(CanStart(addr + tot, |data| - tot))
        && !wpendPending && writeBuffer.size == 0
        && bio.sent + FlightLeft() == Wire(sealed) && bio.Stalled() == old(bio.Stalled())
      ensures ret <= 0 && old(CanStart(addr + tot, |data| - tot)) ==>
        Stopped(addr + tot, ChunkAt(data, tot)) && (wpendPending <==> bio.Stalled() > old(bio.Stalled()))
      ensures old(Sealing(base, data, tot)) ==> Sealing(base, data, if ret > 0 then tot + ret else tot)
      ensures var tot' := if ret > 0 then tot + ret else tot;
        && old(tot + Pending()) <= tot' + Pending() <= |App()| && old(App()) <= App()
        && |App()| - (tot' + Pending()) == old(|App()| - (tot + Pending()))
    {
      hide Wire, Stream, SealedBy, Bounded, Valid, SSLBuffer.Valid, SSLBuffer.Contents, RoomFor, CanWrite, CanStart,
        Stopped, ChunkAt, Later, Now, App, Sealing, Transport.Stalled, FlightFits, FlightLeft, FlightKept;
      SendFragmentPositive();
      var n := |data| - tot;
      var nw := if n > maxSendFragment then maxSendFragment else n;
      StartsWith(addr + tot, n);
      ghost var before := Now();
      ret := WriteApp(addr, data, tot, nw, base);
      StillLater(before, before, Now(), nw, maxSendFragment);
      ChunkIs(data, tot);
      if ret <= 0 {
        SetWnum(tot, base, data);
      }
    }

    lemma ChunkIs(data: seq<byte>, tot: nat)
      requires tot <= |data|
      ensures ChunkAt(data, tot) == data[tot..tot + ChunkOf(|data| - tot)]
    {
    }

    lemma StartsWith(addr: nat, n: nat)
      ensures CanStart(addr, n) == CanWrite(SSL3_RT_APPLICATION_DATA, addr, ChunkOf(n))
    {
    }

    /** The loop of ssl3_write_app_data, from tot bytes on. */
    method WriteFrom(addr: nat, data: seq<byte>, start: nat, ghost base: seq<byte>) returns (ret: int)
      requires Valid() && wnum == 0 && start <= |data| && start + Pending() <= |App()|
      requires Roomy(ChunkOf(|data| - start))
      modifies this, bio, writeBuffer, writeBuffer.buf
      ensures Valid() && FlightKept(old(FlightLeft())) && BufferKept()
      ensures maxSendFragment == old(maxSendFragment) && writeShutdown == old(writeShutdown)
      ensures Later(old(Now()), Now(), maxSendFragment) && ret <= |data|
      ensures ret > 0 ==>
        && ret == (if partialWrite then start + old(FirstChunk(|data| - start)) else |data|)
        && old(CanStart(addr + start, |data| - start))
        && wnum == 0 && !wpendPending && writeBuffer.size == 0
        && bio.sent + FlightLeft() == Wire(sealed) && bio.Stalled() == old(bio.Stalled())
      ensures ret <= 0 && old(FlightFits() && CanStart(addr + start, |data| - start)) ==>
        && FlightFits() && start <= wnum <= |data| && Stopped(addr + wnum, ChunkAt(data, wnum))
        && (wpendPending <==> bio.Stalled() > old(bio.Stalled()))
      ensures old(Sealing(base, data, start)) ==> Sealing(base, data, if ret > 0 then ret else wnum)
      ensures ret <= 0 ==>
        && old(start + Pending()) <= Outstanding() <= |App()| && old(App()) <= App()
        && |App()| - Outstanding() == old(|App()| - (start + Pending()))
    {
      hide Wire, Stream, SealedBy, Bounded, Valid, SSLBuffer.Valid, SSLBuffer.Contents, RoomFor, Sealing, CanStart,
        Now, Transport.Stalled, Later, Stopped, ChunkAt, App, FlightFits, FlightLeft, Pending;
      var tot := start;
      var n := |data| - tot;
      ghost var before, flight, chunk := Now(), FlightLeft(), ChunkOf(n);
      ghost var app, pending, sealing, stalled := App(), Pending(), Sealing(base, data, tot), bio.Stalled();
      ghost var opens, takes, fits := CanStart(addr + tot, n), FirstChunk(n), FlightFits();
      StillLater(before, before, before, 0, maxSendFragment);
      while true
        invariant Valid() && FlightKept(flight) && BufferKept()
        invariant wnum == 0 && writeShutdown == old(writeShutdown) && maxSendFragment == old(maxSendFragment)
        invariant tot + n == |data| && 0 <= n
        invariant start + pending <= tot + Pending() <= |App()| && app <= App()
        invariant |App()| - (tot + Pending()) == |app| - (start + pending)
        invariant sealing ==> Sealing(base, data, tot)
        invariant if tot == start then CanStart(addr + tot, n) == opens && FirstChunk(n) == takes
          else !partialWrite && n > 0 && opens && (fits ==> CanStart(addr + tot, n))
        invariant bio.Stalled() == stalled && Later(before, Now(), maxSendFragment)
        invariant fits ==> FlightFits()
        decreases n
      {
        SendFragmentPositive();
        StillRoomy(flight, chunk, ChunkOf(n));
        ghost var now := Now();
        ret := WriteChunk(addr, data, tot, base);
        StillLater(before, now, Now(), maxSendFragment, maxSendFragment);
        if ret <= 0 {
          return;
        }
        if ret == n || partialWrite {
          return tot + ret;
        }
        n := n - ret;
        tot := tot + ret;
        if fits { IdleCanStart(addr + tot, n); }
      }
    }

    lemma IdleCanStart(addr: nat, n: nat)
      requires Valid() && !wpendPending && writeBuffer.size == 0 && FlightFits() && 0 < n
      ensures CanStart(addr, n)
    {
    }

    lemma SendFragmentPositive()
      requires Valid()
      ensures 0 < maxSendFragment <= SSL3_RT_MAX_PLAIN_LENGTH && Outstanding() <= |App()|
      ensures writeSequence == |sealed| && (wpendPending ==> 0 < wpendRet == wpendTot)
    {
    }

    method SetWnum(n: nat, ghost base: seq<byte>, ghost data: seq<byte>)
      requires Valid() && n + Pending() <= |App()|
      modifies this`wnum
      ensures Valid() && wnum == n && (old(Sealing(base, data, n)) ==> Sealing(base, data, n))
    {
      hide Wire, Stream, SealedBy, Bounded, SSLBuffer.Valid, SSLBuffer.Contents;
      wnum := n;
    }

    /** ssl3_write_app_data can go on with a write of len bytes. */
    predicate CanContinue(addr: nat, len: int)
      reads this, writeBuffer
    {
      !writeShutdown && wnum <= len && CanStart(addr + wnum, len - wnum)
    }

    lemma Retries(data: seq<byte>)
      requires Valid()
      ensures Acked() == Without(App(), Outstanding()) && Unacked() == Last(App(), Outstanding())
      ensures |Unacked()| == Outstanding()
      ensures Unacked() <= data ==>
        Outstanding() <= |data| && App() == Acked() + data[..Outstanding()] && Unacked() == data[..Outstanding()]
    {
      hide Without, App;
      SendFragmentPositive();
      if Unacked() <= data { LastOf(App(), Outstanding(), data); }
    }

    /** What a write that returned ret has done for a caller that passed data. */
    lemma Wrote(base: seq<byte>, data: seq<byte>, ret: int, before: nat)
      requires Valid() && Sealing(base, data, if ret > 0 then ret else wnum)
      requires if ret > 0 then Outstanding() == 0 else before <= Outstanding()
      ensures if ret > 0 then Acked() == base + data[..ret] && Unacked() == []
              else Acked() == base && data[..before] <= Unacked() <= data
    {
      WithoutData(base, data, if ret > 0 then ret else Outstanding());
      if ret <= 0 { PrefixOfPrefix(data, before, Outstanding()); }
    }

    /** What a write did to what counts as acknowledged, whatever the caller passed. */
    lemma Told(app: seq<byte>, before: nat)
      requires Valid() && before <= |app|
      ensures app <= App() && |App()| - Outstanding() == |app| - before ==> Acked() == Without(app, before)
      ensures app == App() && Outstanding() <= before ==>
        (Acked() != Without(app, before) <==> Outstanding() < before)
    {
      hide Without, App;
      SendFragmentPositive();
      if app <= App() && |App()| - Outstanding() == |app| - before { SameFront(app, before, App(), Outstanding()); }
      if app == App() && Outstanding() <= before { Forgotten(app, before, Outstanding()); }
    }

    lemma Outcome(app: seq<byte>, before: nat, data: seq<byte>, ret: int)
      requires Valid() && before <= |app| && ret <= |data|
      requires if ret > 0 then Outstanding() == 0
        else before <= Outstanding() && app <= App() && |App()| - Outstanding() == |app| - before
      ensures ret <= 0 ==> Acked() == Without(app, before)
      ensures Last(app, before) <= data && Sealing(Without(app, before), data, if ret > 0 then ret else wnum) ==>
        if ret > 0 then Acked() == Without(app, before) + data[..ret] && Unacked() == []
        else Acked() == Without(app, before) && Last(app, before) <= Unacked() <= data
    {
      hide Without, Last, App, Acked, Unacked, Sealing;
      if ret <= 0 { Told(app, before); }
      if Last(app, before) <= data && Sealing(Without(app, before), data, if ret > 0 then ret else wnum) {
        LastOf(app, before, data);
        Wrote(Without(app, before), data, ret, before);
      }
    }

    /** ssl3_write_app_data after its checks. Before it, the last bytes sealed were not acknowledged. */
    method WriteOn(addr: nat, data: seq<byte>, tot: nat, ghost before: nat) returns (ret: int)
      requires Valid() && wnum == 0 && tot <= |data| && before == tot + Pending() <= |App()|
      requires Roomy(ChunkOf(|data| - tot))
      modifies this, bio, writeBuffer, writeBuffer.buf
      ensures Valid() && FlightKept(old(FlightLeft())) && BufferKept()
      ensures maxSendFragment == old(maxSendFragment) && writeShutdown == old(writeShutdown)
      ensures Later(old(Now()), Now(), maxSendFragment) && ret <= |data|
      ensures ret > 0 ==>
        && ret == (if partialWrite then tot + old(FirstChunk(|data| - tot)) else |data|)
        && old(CanStart(addr + tot, |data| - tot)) && (old(FlightFits()) && !writeShutdown ==> Idle())
        && bio.sent + FlightLeft() == Wire(sealed) && bio.Stalled() == old(bio.Stalled())
      ensures ret <= 0 && old(FlightFits() && CanStart(addr + tot, |data| - tot)) ==>
        && FlightFits() && tot <= wnum <= |data| && Stopped(addr + wnum, ChunkAt(data, wnum))
        && (wpendPending <==> bio.Stalled() > old(bio.Stalled())) && !old(Willing())
      ensures ret <= 0 ==> Acked() == old(Without(App(), before))
      ensures old(Last(App(), before)) <= data ==>
        if ret > 0 then Acked() == old(Without(App(), before)) + data[..ret] && Unacked() == []
        else Acked() == old(Without(App(), before)) && old(Last(App(), before)) <= Unacked() <= data
    {
      hide Wire, Stream, SealedBy, Bounded, Valid, SSLBuffer.Valid, SSLBuffer.Contents, RoomFor, Last, CanStart,
        FirstChunk, Without, App, ChunkOf, ChunkAt, Acked, Unacked, Sealing, Later, Stopped, Transport.Stalled, Now,
        Willing, FlightLeft;
      ghost var app, now := App(), Now();
      ghost var base := Without(app, before);
      if Last(app, before) <= data {
        LastOf(app, before, data);
        SealingSince(base, data, tot);
      }
      WillingNow();
      ret := WriteFrom(addr, data, tot, base);
      Outcome(app, before, data, ret);
      if ret <= 0 && wnum <= |data| { NotWilling(now, addr + wnum, ChunkAt(data, wnum)); }
    }

    /** ssl3_write_app_data. When the caller retries with the data not acknowledged so far, or
        more, every byte is sealed once and in order, and with a willing AEAD and transport the
        write succeeds exactly when it can go on. Only a retry with less than what the loop had
        written makes the writer take for acknowledged what the caller was never told. */
    method WriteAppData(addr: nat, data: seq<byte>, len: int) returns (ret: int)
      requires Valid() && (len == |data| || len < 0) && (len >= 0 ==> Roomy(ChunkOf(len)))
      modifies this, bio, writeBuffer, writeBuffer.buf
      ensures Valid() && FlightKept(old(FlightLeft())) && BufferKept()
      ensures writeShutdown == old(writeShutdown) && maxSendFragment == old(maxSendFragment)
      ensures Later(old(Now()), Now(), maxSendFragment) && (ret <= len || ret == -1)
      ensures ret > 0 ==>
        && old(CanContinue(addr, len)) && (old(FlightFits()) ==> Idle())
        && ret == (if partialWrite then old(wnum + FirstChunk(len - wnum)) else len)
        && bio.sent + FlightLeft() == Wire(sealed) && bio.Stalled() == old(bio.Stalled())
      ensures ret <= 0 && old(FlightFits() && CanContinue(addr, len)) ==>
        && FlightFits() && old(wnum) <= wnum <= len && Stopped(addr + wnum, ChunkAt(data, wnum))
        && (wpendPending <==> bio.Stalled() > old(bio.Stalled()))
      ensures old(Willing() && FlightFits()) ==> (ret > 0 <==> old(CanContinue(addr, len)))
      ensures len >= 0 && old(Unacked()) <= data ==>
        if ret > 0 then Acked() == old(Acked()) + data[..ret] && Unacked() == []
        else Acked() == old(Acked()) && old(Unacked()) <= Unacked() <= data
      ensures old(writeShutdown) ==> ret == -1 && unchanged(this)
      ensures !old(writeShutdown) && len < old(wnum) ==>
        ret == -1 && wnum == 0 && sealed == old(sealed) && Pending() == old(Pending())
      ensures ret <= 0 ==> (Acked() != old(Acked()) <==> !old(writeShutdown) && old(wnum) > 0 && len < old(wnum))
    {
      hide Wire, Stream, SealedBy, Bounded, Valid, SSLBuffer.Valid, SSLBuffer.Contents, RoomFor, Last, CanStart,
        FirstChunk, Without, App, ChunkOf, ChunkAt, Acked, Unacked, Later, Stopped, Transport.Stalled, Now, Willing,
        FlightLeft;
      SendFragmentPositive();
      Retries(data);
      ghost var now := Now();
      StillLater(now, now, now, 0, maxSendFragment);
      if writeShutdown {
        return -1;
      }
      ghost var app, before := App(), Outstanding();
      var tot := wnum;
      SetWnum(0, [], data);
      if len < tot {
        Told(app, before);
        return -1;
      }
      ChunkFits(len - tot, len);
      StillRoomy(FlightLeft(), ChunkOf(len), ChunkOf(len - tot));
      ret := WriteOn(addr, data, tot, before);
    }

    lemma WillingNow()
      ensures Willing() <==> Now().accepting && Now().sealable
      ensures bio.Stalled() == Now().stalled
    {
    }

    /** A write that stopped had a reason. */
    lemma NotWilling(then_: Moment, addr: nat, chunk: seq<byte>)
      requires Later(then_, Now(), maxSendFragment)
      ensures Stopped(addr, chunk) && (wpendPending <==> bio.Stalled() > then_.stalled) ==>
        !(then_.accepting && then_.sealable)
    {
    }

    lemma SealingSince(base: seq<byte>, data: seq<byte>, tot: nat)
      ensures tot + Pending() <= |data| && App() == base + data[..tot + Pending()] ==> Sealing(base, data, tot)
    {
    }

    // ---- flights

    /** add_record_to_flight */
    method AddRecordToFlight(type_: byte, data: seq<byte>) returns (ok: bool)
      requires Valid() && pendingFlightOffset == 0
      modifies this`pendingFlight, this`writeSequence, this`sealed
      ensures Valid()
      ensures ok ==>
        && seal(|old(sealed)|, type_, data).Some?
        && sealed == old(sealed) + [Record(type_, data, seal(|old(sealed)|, type_, data).value)]
      ensures !ok ==> sealed == old(sealed) && FlightLeft() == old(FlightLeft())
      ensures ok == seal(old(writeSequence), type_, data).Some?
      ensures old(Sealable()) ==> Sealable() && ok
    {
      hide Wire, Stream, SealedBy, Bounded, SSLBuffer.Contents, SSLBuffer.Valid;
      if pendingFlight.None? {
        pendingFlight := Some([]);
      }
      var wire := SealRecord(type_, data);
      if wire.None? {
        return false;
      }
      OneMore(old(sealed), Record(type_, data, wire.value), SSL3_RT_APPLICATION_DATA);
      SealedMore(old(sealed), Record(type_, data, wire.value));
      ghost var before, flight := bio.sent + writeBuffer.Contents(), pendingFlight.value;
      pendingFlight := Some(pendingFlight.value + wire.value);
      assert before + (flight + wire.value) == before + flight + wire.value;
      ok := true;
    }

    /** The part of ssl3_add_message below the transcript: one record or more, all but the last as
        large as a fragment may be. */
    method AddMessage(msg: seq<byte>) returns (ok: bool)
      requires Valid() && pendingFlightOffset == 0
      modifies this`pendingFlight, this`writeSequence, this`sealed
      ensures Valid() && old(sealed) <= sealed
      ensures App() == old(App())
      ensures old(Sealable()) ==> Sealable() && ok
      ensures ok ==> Stream(sealed, SSL3_RT_HANDSHAKE) == Stream(old(sealed), SSL3_RT_HANDSHAKE) + msg
      ensures !ok ==> exists n | 0 <= n <= |msg| ::
        Stream(sealed, SSL3_RT_HANDSHAKE) == Stream(old(sealed), SSL3_RT_HANDSHAKE) + msg[..n]
      ensures forall i :: |old(sealed)| <= i < |sealed| ==> |sealed[i].plaintext| <= maxSendFragment
      ensures forall i :: |old(sealed)| <= i < |sealed| - 1 ==> |sealed[i].plaintext| == maxSendFragment
      ensures ok ==> |sealed| > |old(sealed)| && (msg != [] ==> sealed[|sealed| - 1].plaintext != [])
    {
      hide Wire, Stream, SealedBy, Bounded, Valid, SSLBuffer.Contents, SSLBuffer.Valid, Sealable;
      var done: nat := 0;
      var rest := msg;
      assert Stream(sealed, SSL3_RT_HANDSHAKE) == Stream(sealed, SSL3_RT_HANDSHAKE) + msg[..0];
      while true
        invariant Valid() && pendingFlightOffset == 0 && old(sealed) <= sealed
        invariant done <= |msg| && rest == msg[done..] && App() == old(App()) && (rest == [] ==> msg == [])
        invariant Stream(sealed, SSL3_RT_HANDSHAKE) == Stream(old(sealed), SSL3_RT_HANDSHAKE) + msg[..done]
        invariant forall i :: |old(sealed)| <= i < |sealed| ==> |sealed[i].plaintext| == maxSendFragment
        invariant old(Sealable()) ==> Sealable()
        decreases |rest|
      {
        SendFragmentPositive();
        var chunk := rest[..if |rest| <= maxSendFragment then |rest| else maxSendFragment];
        rest := rest[|chunk|..];
        ghost var all := sealed;
        ok := AddRecordToFlight(SSL3_RT_HANDSHAKE, chunk);
        if !ok {
          return;
        }
        OneMore(all, sealed[|all|], SSL3_RT_HANDSHAKE);
        OneMore(all, sealed[|all|], SSL3_RT_APPLICATION_DATA);
        assert Stream(old(sealed), SSL3_RT_HANDSHAKE) + msg[..done] + chunk ==
               Stream(old(sealed), SSL3_RT_HANDSHAKE) + msg[..done + |chunk|];
        done := done + |chunk|;
        if rest == [] {
          assert msg[..done] == msg;
          return;
        }
      }
    }

    /** One BIO_write of the pending flight. */
    method WriteFlight() returns (ret: int)
      requires Valid() && pendingFlight.Some? && FlightLeft() != [] && writeBuffer.size == 0
      modifies this`pendingFlightOffset, bio
      ensures Valid() && old(bio.sent) <= bio.sent
      ensures if ret > 0 then pendingFlightOffset > old(pendingFlightOffset) else unchanged(this)
      ensures bio.Stalled() == old(bio.Stalled()) + if ret > 0 then 0 else 1
      ensures old(bio.Accepting()) ==> bio.Accepting() && ret > 0
    {
      hide Wire, Stream, SealedBy, Bounded, SSLBuffer.Valid, Transport.Accepting, Transport.Stalled;
      ghost var sent, left := bio.sent, FlightLeft();
      ret := bio.Write(pendingFlight.value[pendingFlightOffset..]);
      if ret > 0 {
        pendingFlightOffset := pendingFlightOffset + ret;
        assert left[ret..] == FlightLeft();
        assert sent + [] + left == sent + left[..ret] + [] + left[ret..];
      }
    }

    lemma AllSent()
      requires Valid() && FlightLeft() == [] && writeBuffer.size == 0
      ensures bio.sent == Wire(sealed)
    {
      assert bio.sent + [] + [] == bio.sent;
    }

    /** ssl3_flush_flight. The write buffer goes first; on success everything sealed is out,
        unless there was no flight to begin with. */
    method FlushFlight() returns (ret: int)
      requires Valid()
      modifies this`pendingFlight, this`pendingFlightOffset, bio, writeBuffer
      ensures Valid() && BufferKept() && old(bio.sent) <= bio.sent
      ensures ret > 0 ==> pendingFlight.None?
      ensures ret > 0 && old(pendingFlight.Some?) ==> bio.sent == Wire(sealed)
      ensures ret > 0 <==> old(pendingFlight.None?) || (!writeShutdown && bio.Stalled() == old(bio.Stalled()))
      ensures old(bio.Stalled()) <= bio.Stalled()
      ensures old(bio.Accepting()) ==> bio.Accepting() && bio.Stalled() == old(bio.Stalled())
      ensures writeBuffer.size <= old(writeBuffer.size) && |FlightLeft()| <= old(|FlightLeft()|)
      ensures old(Idle()) ==> Idle()
      ensures ret <= 0 ==> pendingFlight == old(pendingFlight) && old(pendingFlightOffset) <= pendingFlightOffset
    {
      hide Wire, Stream, SealedBy, Bounded, SSLBuffer.Valid, SSLBuffer.Contents, Transport.Accepting,
        Transport.Stalled;
      if pendingFlight.None? {
        return 1;
      }
      if writeShutdown {
        return -1;
      }
      if writeBuffer.size != 0 {
        ret := FlushWriteBuffer();
        if ret <= 0 {
          return;
        }
      }
      while pendingFlightOffset < |pendingFlight.value|
        invariant Valid() && BufferKept() && old(bio.sent) <= bio.sent && writeBuffer.size == 0
        invariant pendingFlight == old(pendingFlight) && old(pendingFlightOffset) <= pendingFlightOffset
        invariant bio.Stalled() == old(bio.Stalled()) && (old(bio.Accepting()) ==> bio.Accepting())
        decreases |pendingFlight.value| - pendingFlightOffset
      {
        ret := WriteFlight();
        if ret <= 0 {
          return;
        }
      }
      var flushed := bio.Flush();
      if flushed <= 0 {
        return -1;
      }
      AllSent();
      pendingFlight, pendingFlightOffset := None, 0;
      ret := 1;
    }

    /** A flush between two writes. */
    method FlushBetween(ghost addr: nat)
      requires Valid()
      modifies this`pendingFlight, this`pendingFlightOffset, bio, writeBuffer
      ensures Valid() && BufferKept() && old(bio.sent) <= bio.sent && old(bio.Stalled()) <= bio.Stalled()
      ensures (old(InStep(addr)) ==> InStep(addr)) && (old(Idle()) ==> Idle())
    {
      hide Valid, Transport.Stalled, FlightLeft;
      var _ := FlushFlight();
    }

    /** A caller's next write: what is not yet acknowledged, or a part of it no shorter than what
        it passed before without success. */
    method WriteRest(addr: nat, data: seq<byte>, done: nat, len: nat, ghost start: seq<byte>) returns (done': nat)
      requires Valid() && Roomy(maxSendFragment) && done <= |data|
      requires Acked() == start + data[..done] && Unacked() <= data[done..]
      modifies this, bio, writeBuffer, writeBuffer.buf
      ensures Valid() && BufferKept() && Later(old(Now()), Now(), maxSendFragment)
      ensures maxSendFragment == old(maxSendFragment) && done <= done' <= |data|
      ensures Acked() == start + data[..done'] && Unacked() <= data[done'..]
      ensures old(Sealable() && InStep(addr + done)) ==>
        && InStep(addr + done')
        && (len > 0 && done < |data| ==> done' > done || bio.Stalled() > old(bio.Stalled()))
      ensures old(Sealable() && Idle()) && bio.Stalled() == old(bio.Stalled()) ==>
        Idle() && done' == done + Least(Least(len, if partialWrite then maxSendFragment else |data|), |data| - done)
    {
      hide Wire, Stream, SealedBy, Bounded, Valid, SSLBuffer.Valid, SSLBuffer.Contents, RoomFor, Without, Last, Idle,
        CanContinue, App, FirstChunk, FlightFits, Acked, Unacked, InStep, Later, Now, Sealable, Stopped, ChunkAt,
        Transport.Stalled, FlightLeft;
      Parts();
      ghost var u, now := Unacked(), Now();
      StillLater(now, now, now, 0, maxSendFragment);
      LaterStalls(now, now);
      IdleInStep(addr + done);
      var n: nat := if len >= |data| - done then |data| - done else if len <= Outstanding() then Outstanding() else len;
      if n == 0 {
        return done;
      }
      var chunk := data[done..][..n];
      WithinFront(u, data[done..], n);
      StepContinues(addr + done, n);
      ChunkFits(n, n);
      StillRoomy(FlightLeft(), maxSendFragment, ChunkOf(n));
      var ret := WriteAppData(addr + done, chunk, n);
      LaterStalls(now, Now());
      if ret <= 0 {
        WithinFront(Unacked(), data[done..], n);
        if wnum <= n && now.sealable { StopsInStep(now, addr + done, ChunkAt(chunk, wnum)); }
        return done;
      }
      IdleInStep(addr + done + ret);
      Further(start, data, done, n, ret);
      done' := done + ret;
    }

    /** A caller's whole run of writes, while flights come and go in between. However the
        transport behaves, the application data sealed is always what the caller had
        acknowledged followed by a prefix of the rest. If the AEAD refuses nothing, every write
        gets on unless the transport stalls in it, and without any stall by as much as it offers
        or by one record. So with a transport that stalls no more after a while, a caller that
        keeps trying gets everything through. */
    method Transfer(addr: nat, data: seq<byte>, actions: seq<Action>) returns (done: nat)
      requires Valid() && Unacked() == []
      modifies this, bio, writeBuffer, writeBuffer.buf
      ensures Valid() && old(bio.sent) <= bio.sent && done <= |data|
      ensures Acked() == old(App()) + data[..done] && Unacked() <= data[done..]
      ensures App() == old(App()) + data[..done] + Unacked()
      ensures old(Sealable() && Idle()) && NoneQueued(actions) ==>
        && (done == |data| || done + (bio.Stalled() - old(bio.Stalled())) >= Offers(actions))
        && (bio.Stalled() == old(bio.Stalled()) ==>
              done == Progress(actions, |data|, if partialWrite then maxSendFragment else |data|) && Unacked() == [])
      ensures forall m: nat :: bio.CalmFrom(m) && old(Sealable() && Idle()) && NoneQueued(actions) ==>
        Offers(actions) >= |data| + 2 * m ==> done == |data|
    {
            hide Wire, SealedBy, Bounded, Valid, SSLBuffer.Valid, RoomFor, Without, Last, Idle, Least, Progress,
        NoneQueued, App, InStep, Transport.Stalled, Transport.CalmFrom, Sealable, Offers, Later, Transport.Accepting;
      done := 0;
      ghost var start, stalled := App(), bio.Stalled();
      Parts();
      assert start == start + data[..0];
      NothingDone(actions, |data|, if partialWrite then maxSendFragment else |data|);
      ghost var goes := Sealable() && Idle() && NoneQueued(actions);
      ghost var limit := if partialWrite then maxSendFragment else |data|;
      IdleInStep(addr);
      var i := 0;
      while i < |actions|
        invariant i <= |actions| && Valid() && BufferKept() && old(bio.sent) <= bio.sent && done <= |data|
        invariant Acked() == start + data[..done] && Unacked() <= data[done..]
        invariant maxSendFragment == old(maxSendFragment) && stalled <= bio.Stalled()
        invariant goes ==>
          && Sealable() && InStep(addr + done)
          && (done == |data| || done + (bio.Stalled() - stalled) >= Offers(actions[..i]))
          && (bio.Stalled() == stalled ==> Idle() && done == Progress(actions[..i], |data|, limit))
        decreases |actions| - i
      {
        NextAction(actions, i, |data|, limit);
        match actions[i] {
        case Write(len) =>
          StepIsRoomy(addr + done);
          if Roomy(maxSendFragment) {
            ghost var now := Now();
            done := WriteRest(addr, data, done, len, start);
            LaterStalls(now, Now());
          }
        case FlushHandshake =>
          FlushBetween(addr + done);
        case QueueHandshake(msg) =>
          if pendingFlightOffset == 0 {
            var _ := AddMessage(msg);
          }
        }
        i := i + 1;
      }
      assert actions[..|actions|] == actions;
      Parts();
      forall m: nat | bio.CalmFrom(m) ensures goes && Offers(actions) >= |data| + 2 * m ==> done == |data| {
        bio.FewStalls(m);
      }
    }

    lemma Parts()
      requires Valid()
      ensures App() == Acked() + Unacked() && |Unacked()| == Outstanding()
      ensures Idle() ==> Outstanding() == 0
    {
    }

    lemma IdleInStep(addr: nat)
      ensures Idle() ==> InStep(addr)
    {
    }

    lemma FitsRoomy(n: nat)
      requires Valid() && FlightFits()
      ensures n <= SSL3_RT_MAX_PLAIN_LENGTH ==> Roomy(n)
      ensures ChunkOf(n) <= SSL3_RT_MAX_PLAIN_LENGTH
    {
    }

    /** Nothing sealed, nothing acknowledged. */
    lemma Fresh()
      requires Valid() && sealed == []
      ensures App() == Acked() == Unacked() == []
    {
    }

    lemma StepIsRoomy(addr: nat)
      requires Valid()
      ensures InStep(addr) ==> Roomy(maxSendFragment)
    {
    }

    /** A retry of no less than was offered before can go on. */
    lemma StepContinues(addr: nat, n: nat)
      requires Valid() && Outstanding() <= n && n > 0
      ensures InStep(addr) ==> CanContinue(addr, n) && FlightFits() && !writeShutdown
      ensures Idle() ==> wnum == 0 && FirstChunk(n) == ChunkOf(n)
    {
    }

    lemma StopsInStep(then_: Moment, addr: nat, chunk: seq<byte>)
      requires Valid() && Later(then_, Now(), maxSendFragment) && then_.sealable
      ensures Stopped(addr + wnum, chunk) && FlightFits() && !writeShutdown ==> wpendPending && InStep(addr)
    {
    }

    lemma LaterStalls(a: Moment, b: Moment)
      ensures Later(a, b, maxSendFragment) ==> a.stalled <= b.stalled && (a.sealable ==> b.sealable) && a.sent <= b.sent
      ensures b == Now() ==> b.stalled == bio.Stalled() && b.sealable == Sealable() && b.sent == bio.sent
    {
    }

    lemma ChunkFits(m: nat, n: nat)
      requires Valid() && m <= n
      ensures ChunkOf(m) <= ChunkOf(n) <= maxSendFragment <= SSL3_RT_MAX_PLAIN_LENGTH
    {
    }

  }

  predicate NoneQueued(actions: seq<Action>) {
    forall a :: a in actions ==> !a.QueueHandshake?
  }

  function Least(a: nat, b: nat): nat {
    if a <= b then a else b
  }

  /** How far writes get that each write what they offer, of what is left and up to a limit. */
  function Progress(actions: seq<Action>, total: nat, limit: nat): (p: nat)
    ensures p <= total
  {
    if actions == [] then 0
    else
      var last, before := actions[|actions| - 1], Progress(actions[..|actions| - 1], total, limit);
      if last.Write? then before + Least(Least(last.len, limit), total - before) else before
  }

  lemma NothingDone(actions: seq<Action>, total: nat, limit: nat)
    ensures Progress(actions[..0], total, limit) == 0 && Offers(actions[..0]) == 0
  {
  }

  lemma NextAction(actions: seq<Action>, i: nat, total: nat, limit: nat)
    requires i < |actions|
    ensures var before := Progress(actions[..i], total, limit);
      Progress(actions[..i + 1], total, limit) ==
      if actions[i].Write? then before + Least(Least(actions[i].len, limit), total - before) else before
    ensures NoneQueued(actions) ==> !actions[i].QueueHandshake?
    ensures Offers(actions[..i + 1]) == Offers(actions[..i]) + if actions[i].Write? && actions[i].len > 0 then 1 else 0
  {
    hide Least;
    assert actions[..i + 1][..i] == actions[..i];
    assert actions[i] in actions;
  }

  /** The number of writes that offer anything. */
  function Offers(actions: seq<Action>): nat {
    if actions == [] then 0
    else
      var last := actions[|actions| - 1];
      Offers(actions[..|actions| - 1]) + if last.Write? && last.len > 0 then 1 else 0
  }

  /** So a caller that keeps writing gets everything through, and one that offers all of it to a
      writer without partial writes does so at once. */
  lemma {:induction false} ProgressReaches(actions: seq<Action>, total: nat, limit: nat)
    requires limit > 0
    ensures Progress(actions, total, limit) >= Least(Offers(actions), total)
    ensures limit >= total && (exists a :: a in actions && a.Write? && a.len >= total) ==>
      Progress(actions, total, limit) == total
  {
    if actions != [] {
      var before, last := actions[..|actions| - 1], actions[|actions| - 1];
      ProgressReaches(before, total, limit);
      if exists a :: a in actions && a.Write? && a.len >= total {
        var a :| a in actions && a.Write? && a.len >= total;
        assert a in before || a == last;
      }
    }
  }

  // ---------------------------------------------------------------- an example

  /** An AEAD that refuses the second record. */
  function OnlyOnce(n: nat, t: byte, p: seq<byte>): Option<seq<byte>> {
    if n == 1 then None else Some(p)
  }

  /** Records of a byte each have as many bytes. */
  lemma {:induction false} ByteByByte(records: seq<Record>)
    requires MoreApp([], records, 1)
    ensures |Stream(records, SSL3_RT_APPLICATION_DATA)| == |records|
    decreases |records|
  {
    if records != [] { ByteByByte(records[..|records| - 1]); }
  }

  lemma JustOne(records: seq<Record>)
    ensures SealedBy(OnlyOnce, records) ==> |records| <= 1
  {
    if |records| > 1 { assert OnlyOnce(1, records[1].type_, records[1].plaintext) == None; }
  }

  /** Its write of two bytes, one a record, cannot but stop between them. */
  lemma StopsHalfway(w: Writer, before: Moment, ret: int)
    requires w.Valid() && w.seal == OnlyOnce && Later(before, w.Now(), 1) && before.sealed == [] && before.accepting
    requires
      if ret > 0 then ret == 2 && w.Acked() == [7, 8] && w.Unacked() == []
      else
        && w.wnum <= 2 && w.Stopped(w.wnum, w.ChunkAt([7, 8], w.wnum))
        && (w.wpendPending <==> w.bio.Stalled() > before.stalled) && w.Acked() == [] && w.Unacked() <= [7, 8]
    ensures ret <= 0 && !w.wpendPending && w.wnum == 1 && w.App() == [7]
  {
    hide Wire, Stream, SealedBy, Bounded, SSLBuffer.Valid, SSLBuffer.Contents;
    w.Parts();
    ByteByByte(w.sealed);
    JustOne(w.sealed);
  }

  /** Of [7, 8] one byte goes out in a record of its own before the write fails: wnum is 1, and the
      caller was told of nothing. */
  method OneByteOut() returns (w: Writer, ret: int)
    ensures fresh(w) && fresh(w.bio) && fresh(w.writeBuffer) && (w.writeBuffer.buf == null || fresh(w.writeBuffer.buf))
    ensures w.Valid() && w.FlightFits() && !w.writeShutdown && !w.wpendPending && w.wnum == 1
    ensures ret <= 0 && w.App() == [7] && w.Acked() == []
  {
    hide SSLBuffer.Valid, SSLBuffer.Contents, Wire, Stream, SealedBy, Later, MoreApp, Writer.Valid, Writer.CanStart,
      Writer.Stuck, Writer.RoomFor, Writer.Stopped, Writer.ChunkAt, Writer.App, Writer.Acked, Writer.Unacked,
      Writer.InStep, Writer.FlightLeft, Transport.Stalled, Writer.Sealable;
    w := new Writer(OnlyOnce, 0, 0, false, false, 1, n => 1, n => 1);
    w.Fresh();
    w.IdleInStep(0);
    w.StepContinues(0, 2);
    w.FitsRoomy(w.ChunkOf(2));
    ghost var before := w.Now();
    ret := w.WriteAppData(0, [7, 8], 2);
    StopsHalfway(w, before, ret);
  }

  /** A retry with no data is refused, and now the byte counts as acknowledged. */
  method ForgottenByte() returns (w: Writer, ret: int)
    ensures fresh(w) && ret == -1 && w.App() == [7] && w.Acked() == [7] && w.wnum == 0
  {
    hide Writer.Valid, Writer.RoomFor, SSLBuffer.Valid, SSLBuffer.Contents, Wire, Stream;
    w, ret := OneByteOut();
    w.FitsRoomy(w.ChunkOf(0));
    ret := w.WriteAppData(0, [], 0);
  }
}
