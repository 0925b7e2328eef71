/** Opening DTLS records: the replay window over 64-bit sequence numbers, whose top 16 bits
    are the epoch, and the record layer around it. */
module DtlsReplay {
  import opened Bits
  import opened Wrappers
  import opened DtlsFragment
  import opened DtlsReceive

  const WINDOW_SIZE: nat := 64
  const SSL3_RT_MAX_PLAIN_LENGTH: nat := 16384
  const SSL3_RT_MAX_ENCRYPTED_LENGTH: nat := 16384 + 256 + 64
  const DTLS1_VERSION_MAJOR: nat := 0xFE

  // ---------------------------------------------------------------- the window

  /** Bit i of the map says whether max - i was recorded. */
  ghost predicate WindowIs(map_: nat, max: nat, seen: set<nat>) {
    && map_ < TWO64
    && (forall n :: n in seen ==> n <= max)
    && (forall i :: 0 <= i < WINDOW_SIZE ==> (BitAt(map_, i) <==> i <= max && max - i in seen))
  }

  lemma EmptyWindow(max: nat)
    ensures WindowIs(0, max, {})
  {
    forall i | 0 <= i < WINDOW_SIZE ensures !BitAt(0, i) { ZeroBit(i); }
  }

  /** map & (1 << idx) */
  lemma TestBit(map_: nat, idx: nat)
    requires idx < WINDOW_SIZE
    ensures And(map_, Pow2(idx)) != 0 <==> BitAt(map_, idx)
  {
    hide And, Pow2, BitAt;
    var a := And(map_, Pow2(idx));
    AndBit(map_, Pow2(idx), idx);
    Pow2Bit(idx, idx);
    if a == 0 { ZeroBit(idx); }
    if a != 0 { SomeBit(a); var i :| BitAt(a, i); AndBit(map_, Pow2(idx), i); Pow2Bit(idx, i); }
  }

  lemma {:induction false} SomeBit(x: nat)
    requires x != 0
    ensures exists i: nat :: BitAt(x, i)
    decreases x
  {
    if x % 2 == 1 {
      assert BitAt(x, 0);
    } else {
      SomeBit(x / 2);
      var i: nat :| BitAt(x / 2, i);
      assert BitAt(x, i + 1);
    }
  }

  lemma ShiftBit(map_: nat, shift: nat, i: nat)
    requires i < WINDOW_SIZE
    ensures BitAt(Shl(TWO64, map_, shift), i) <==> i >= shift && BitAt(map_, i - shift)
  {
    hide Pow2, BitAt, Shl;
    assert Pow2(64) == TWO64 by { PowersOfTwo(); }
    ShlBit(64, map_, shift, i);
  }

  /** The window slid forward: its numbers, seen from the new maximum. */
  lemma Slide(map_: nat, max: nat, seen: set<nat>, n: nat)
    requires WindowIs(map_, max, seen) && n > max
    ensures WindowIs(if n - max >= WINDOW_SIZE then 0 else Shl(TWO64, map_, n - max), n, seen)
  {
    hide BitAt;
    var map' := if n - max >= WINDOW_SIZE then 0 else Shl(TWO64, map_, n - max);
    forall i | 0 <= i < WINDOW_SIZE ensures BitAt(map', i) <==> i <= n && n - i in seen {
      if n - max >= WINDOW_SIZE { ZeroBit(i); } else { ShiftBit(map_, n - max, i); }
    }
  }

  lemma SetBit(map_: nat, max: nat, seen: set<nat>, n: nat)
    requires WindowIs(map_, max, seen) && n <= max && max - n < WINDOW_SIZE
    ensures WindowIs(Or(map_, Pow2(max - n)), max, seen + {n})
  {
    hide Or, Pow2, BitAt;
    assert Pow2(64) == TWO64 by { PowersOfTwo(); }
    Pow2Mono(max - n, 63);
    assert Pow2(63) < TWO64 by { PowersOfTwo(); }
    OrBound(64, map_, Pow2(max - n));
    var map' := Or(map_, Pow2(max - n));
    forall i | 0 <= i < WINDOW_SIZE ensures BitAt(map', i) <==> i <= max && max - i in seen + {n} {
      OrBit(map_, Pow2(max - n), i);
      Pow2Bit(max - n, i);
    }
  }

  /** DTLS1_BITMAP */
  class Bitmap {
    var map_: nat
    var maxSeqNum: nat
    /** Every number recorded since the window was reset. */
    ghost var seen: set<nat>

    ghost predicate Valid()
      reads this
    {
      WindowIs(map_, maxSeqNum, seen) && maxSeqNum < TWO64
    }

    constructor ()
      ensures Valid() && seen == {} && maxSeqNum == 0
    {
      map_, maxSeqNum, seen := 0, 0, {};
      EmptyWindow(0);
    }

    /** dtls1_bitmap_should_discard */
    method ShouldDiscard(n: nat) returns (discard: bool)
      requires Valid() && n < TWO64
      ensures discard <==> n <= maxSeqNum && (maxSeqNum - n >= WINDOW_SIZE || n in seen)
    {
      if n > maxSeqNum {
        return false;
      }
      var idx := maxSeqNum - n;
      if idx < WINDOW_SIZE { TestBit(map_, idx); }
      discard := idx >= WINDOW_SIZE || And(map_, Pow2(idx)) != 0;
    }

    /** dtls1_bitmap_record */
    method Record(n: nat)
      requires Valid() && n < TWO64 && (n <= maxSeqNum ==> maxSeqNum - n < WINDOW_SIZE)
      modifies this
      ensures Valid() && seen == old(seen) + {n}
      ensures maxSeqNum == if n > old(maxSeqNum) then n else old(maxSeqNum)
    {
      hide WindowIs, Or, Shl, Pow2;
      if n > maxSeqNum {
        Slide(map_, maxSeqNum, seen, n);
        var shift := n - maxSeqNum;
        map_ := if shift >= WINDOW_SIZE then 0 else Shl(TWO64, map_, shift);
        maxSeqNum := n;
      }
      var idx := maxSeqNum - n;
      if idx < WINDOW_SIZE {
        SetBit(map_, maxSeqNum, seen, n);
        map_ := Or(map_, Pow2(idx));
      }
      seen := seen + {n};
    }

    /** The memset of dtls1_set_read_state. */
    method Reset()
      modifies this
      ensures Valid() && seen == {} && maxSeqNum == 0
    {
      map_, maxSeqNum, seen := 0, 0, {};
      EmptyWindow(0);
    }
  }

  // ---------------------------------------------------------------- the record layer

  /** A parsed DTLS record; its number is epoch and sequence in one. */
  datatype RawRecord = RawRecord(type_: byte, version: nat, number: nat, body: seq<byte>) {
    function Epoch(): nat { number / TWO48 }

    function Length(): nat { DTLS1_RT_HEADER_LENGTH + |body| }
  }

  /** The header checks of dtls_open_record. */
  function ParseRecord(s: seq<byte>): (r: Option<RawRecord>)
    ensures r.Some? ==> r.value.number < TWO64 && r.value.Length() <= |s|
  {
    if |s| < DTLS1_RT_HEADER_LENGTH then None
    else
      var len := BigValue(s[11..13]);
      if len > |s| - DTLS1_RT_HEADER_LENGTH || len > SSL3_RT_MAX_ENCRYPTED_LENGTH then None
      else
        NumberFits(s[3..11]);
        Some(RawRecord(s[0], BigValue(s[1..3]), BigValue(s[3..11]),
          s[DTLS1_RT_HEADER_LENGTH..DTLS1_RT_HEADER_LENGTH + len]))
  }

  /** The record dtls_seal_record puts out: type, version, epoch, the number in the epoch, the length
      of the ciphertext, and that. */
  function SealedRecord(type_: byte, version: nat, epoch: nat, number: nat, body: seq<byte>): seq<byte> {
    [type_] + BigEndian(version, 2) + BigEndian(epoch, 2) + BigEndian(number, 6) + BigEndian(|body|, 2) + body
  }

  lemma {:induction false} BigJoin(a: seq<byte>, b: seq<byte>)
    ensures BigValue(a + b) == BigValue(a) * Pow2(8 * |b|) + BigValue(b)
    decreases |b|
  {
    if b == [] {
      assert a + b == a;
    } else {
      var front := b[..|b| - 1];
      BigJoin(a, front);
      assert (a + b)[..|a + b| - 1] == a + front;
      Pow2Add(8, 8 * |front|);
      assert Pow2(8) == 256 by { SmallPowers(); }
      Times256(BigValue(a), Pow2(8 * |front|));
    }
  }

  lemma Times256(v: nat, p: nat)
    ensures v * (256 * p) == 256 * (v * p)
  {
  }

  /** The number on the wire: the epoch in front of the number in the epoch. */
  lemma EpochInFront(epoch: nat, number: nat)
    requires epoch < TWO16 && number < TWO48
    ensures BigValue(BigEndian(epoch, 2) + BigEndian(number, 6)) == epoch * TWO48 + number
  {
    hide BigValue, BigEndian, Pow2;
    assert Pow2(48) == TWO48 && Pow2(16) == TWO16 by { WideWidths(); }
    BigJoin(BigEndian(epoch, 2), BigEndian(number, 6));
    BigRoundTrip(epoch, 2);
    BigRoundTrip(number, 6);
  }

  lemma WideWidths()
    ensures Pow2(16) == TWO16 && Pow2(48) == TWO48
  {
    SmallPowers();
    PowersOfTwo();
    Pow2Add(8, 8);
    Pow2Add(16, 32);
  }

  /** Such a record in front of anything is parsed back. */
  lemma RecordRoundTrip(type_: byte, version: nat, epoch: nat, number: nat, body: seq<byte>, rest: seq<byte>)
    requires version < TWO16 && epoch < TWO16 && number < TWO48 && |body| <= SSL3_RT_MAX_ENCRYPTED_LENGTH
    ensures var s := SealedRecord(type_, version, epoch, number, body) + rest;
      ParseRecord(s) == Some(RawRecord(type_, version, epoch * TWO48 + number, body))
  {
    hide BigValue, BigEndian, Pow2;
    var s := SealedRecord(type_, version, epoch, number, body) + rest;
    assert s[1..3] == BigEndian(version, 2);
    assert s[3..11] == BigEndian(epoch, 2) + BigEndian(number, 6);
    assert s[11..13] == BigEndian(|body|, 2);
    assert s[13..13 + |body|] == body;
    assert Pow2(16) == TWO16 by { WideWidths(); }
    BigRoundTrip(version, 2);
    BigRoundTrip(|body|, 2);
    EpochInFront(epoch, number);
  }

  /** A packet starts with a record exactly if it holds the whole header and as many bytes as that
      announces, which are not too many; and the header's fields, byte by byte. */
  lemma RecordLayout(s: seq<byte>)
    ensures ParseRecord(s).Some? <==>
      && |s| >= DTLS1_RT_HEADER_LENGTH
      && 256 * (s[11] as nat) + s[12] <= |s| - DTLS1_RT_HEADER_LENGTH
      && 256 * (s[11] as nat) + s[12] <= SSL3_RT_MAX_ENCRYPTED_LENGTH
    ensures ParseRecord(s).Some? ==>
      var r := ParseRecord(s).value;
      && r.type_ == s[0] && r.version == 256 * (s[1] as nat) + s[2] && r.Epoch() == 256 * (s[3] as nat) + s[4]
      && r.number % TWO48 == BigValue(s[5..11]) && r.body == s[13..13 + 256 * (s[11] as nat) + s[12]]
  {
    hide BigValue, Pow2;
    if |s| >= DTLS1_RT_HEADER_LENGTH {
      TwoBytes(s[11..13]);
      TwoBytes(s[1..3]);
      TwoBytes(s[3..5]);
      assert s[3..11] == s[3..5] + s[5..11];
      BigJoin(s[3..5], s[5..11]);
      BigBound(s[5..11]);
      assert Pow2(48) == TWO48 by { WideWidths(); }
      ModUnique(BigValue(s[3..11]), TWO48, BigValue(s[3..5]), BigValue(s[5..11]));
    }
  }

  lemma NumberFits(s: seq<byte>)
    requires |s| == 8
    ensures BigValue(s) < TWO64
  {
    hide Pow2, BigValue;
    BigBound(s);
    assert Pow2(64) == TWO64 by { PowersOfTwo(); }
  }

  lemma ShiftInByte(ret: nat, b: byte)
    requires ret < TWO64 / 256
    ensures Or(Shl(TWO64, ret, 8), b) == 256 * ret + b
  {
    hide Or, Pow2;
    assert Pow2(8) == 256 by { SmallPowers(); }
    ModUnique(ret * 256, TWO64, 0, ret * 256);
    OrCommutes(ret * 256, b);
    OrIsSum(8, b, ret);
  }

  /** to_u64_be */
  method ToU64Be(s: seq<byte>) returns (ret: nat)
    requires |s| == 8
    ensures ret == BigValue(s)
  {
    hide Pow2, Or, Shl;
    ret := 0;
    var i := 0;
    while i < 8
      invariant i <= 8 && ret == BigValue(s[..i])
    {
      assert s[..i + 1][..i] == s[..i];
      BigBound(s[..i]);
      Pow2Mono(8 * i, 56);
      assert Pow2(56) == TWO64 / 256 by { Pow2Add(56, 8); SmallPowers(); PowersOfTwo(); }
      ShiftInByte(ret, s[i]);
      ret := Or(Shl(TWO64, ret, 8), s[i]);
      i := i + 1;
    }
    assert s[..8] == s;
  }

  lemma SealedIsNotEmpty(type_: byte, v: nat, epoch: nat, number: nat, body: seq<byte>, rest: seq<byte>)
    ensures SealedRecord(type_, v, epoch, number, body) + rest != []
  {
  }

  datatype RecordResult =
    | CloseNotify | NeedMore | Dropped(consumed: nat) | Refused(alert: Alert)
    | Received(type_: byte, plaintext: seq<byte>, consumed: nat)

  /** The read half of the record layer. */
  class RecordReader {
    const bitmap: Bitmap
    var rEpoch: nat
    var nullCipher: bool
    var version: nat
    /** Every record number accepted so far, in any epoch. */
    ghost var accepted: set<nat>
    /** The 16-bit epoch has wrapped around. */
    ghost var wrapped: bool

    ghost predicate Valid()
      reads this, bitmap
    {
      && bitmap.Valid() && rEpoch < TWO16
      && (!wrapped ==> forall n :: n in accepted ==> n / TWO48 <= rEpoch)
      && (!wrapped ==> forall n :: n in bitmap.seen <==> n in accepted && n / TWO48 == rEpoch)
    }

    constructor (version: nat)
      ensures Valid() && fresh(bitmap) && rEpoch == 0 && nullCipher && accepted == {} && !wrapped
    {
      bitmap := new Bitmap();
      rEpoch, nullCipher, accepted, wrapped := 0, true, {}, false;
      this.version := version;
    }

    /** The version check on a record header. */
    predicate VersionOk(v: nat)
      reads this
    {
      if nullCipher then v / 256 == DTLS1_VERSION_MAJOR else v == version
    }

    /** The number is not taken: never accepted, and not 64 or more behind the newest. */
    ghost predicate Acceptable(n: nat)
      reads this, bitmap
    {
      n / TWO48 == rEpoch && n !in bitmap.seen && n + WINDOW_SIZE > bitmap.maxSeqNum
    }

    /** What becomes of a packet, in terms of the set of numbers seen. */
    ghost function Verdict(packet: seq<byte>, closed: bool, open: RawRecord -> Option<seq<byte>>): RecordResult
      reads this, bitmap
    {
      if closed then CloseNotify
      else if packet == [] then NeedMore
      else
        match ParseRecord(packet)
        case None => Dropped(|packet|)
        case Some(h) =>
          if !VersionOk(h.version) then Dropped(|packet|)
          else if !Acceptable(h.number) || open(h).None? then Dropped(h.Length())
          else if |open(h).value| > SSL3_RT_MAX_PLAIN_LENGTH then Refused(RecordOverflow)
          else Received(h.type_, open(h).value, h.Length())
    }

    /** A genuine record of the epoch being read is received whenever its number is new and not 64 or
        more behind the newest, whatever follows it in the packet. */
    lemma GenuineIsReceived(
      type_: byte, v: nat, number: nat, body: seq<byte>, rest: seq<byte>, open: RawRecord -> Option<seq<byte>>)
      requires Valid() && !wrapped && number < TWO48 && |body| <= SSL3_RT_MAX_ENCRYPTED_LENGTH && v < TWO16
      requires if nullCipher then DTLS1_VERSION_MAJOR * 256 <= v < DTLS1_VERSION_MAJOR * 256 + 256 else v == version
      requires rEpoch * TWO48 + number !in accepted && rEpoch * TWO48 + number + WINDOW_SIZE > bitmap.maxSeqNum
      requires var plain := open(RawRecord(type_, v, rEpoch * TWO48 + number, body));
        plain.Some? && |plain.value| <= SSL3_RT_MAX_PLAIN_LENGTH
      ensures var plain := open(RawRecord(type_, v, rEpoch * TWO48 + number, body)).value;
        Verdict(SealedRecord(type_, v, rEpoch, number, body) + rest, false, open)
        == Received(type_, plain, DTLS1_RT_HEADER_LENGTH + |body|)
    {
      hide ParseRecord, SealedRecord, WindowIs;
      RecordRoundTrip(type_, v, rEpoch, number, body, rest);
      ModUnique(rEpoch * TWO48 + number, TWO48, rEpoch, number);
      SealedIsNotEmpty(type_, v, rEpoch, number, body, rest);
    }

    /** And no other record is. One of another version takes the rest of the packet with it; one of another
        epoch, seen before, too old or not genuine is passed over alone; and a genuine one that is
        too long ends the connection. */
    lemma OthersAreDropped(
      type_: byte, v: nat, epoch: nat, number: nat, body: seq<byte>, rest: seq<byte>,
      open: RawRecord -> Option<seq<byte>>)
      requires Valid() && v < TWO16 && epoch < TWO16 && number < TWO48 && |body| <= SSL3_RT_MAX_ENCRYPTED_LENGTH
      ensures var packet := SealedRecord(type_, v, epoch, number, body) + rest;
        var n, plain := epoch * TWO48 + number, open(RawRecord(type_, v, epoch * TWO48 + number, body));
        if (if nullCipher then v / 256 != DTLS1_VERSION_MAJOR else v != version) then
          Verdict(packet, false, open) == Dropped(|packet|)
        else if epoch != rEpoch || n in bitmap.seen || n + WINDOW_SIZE <= bitmap.maxSeqNum || plain.None? then
          Verdict(packet, false, open) == Dropped(13 + |body|)
        else |plain.value| > SSL3_RT_MAX_PLAIN_LENGTH ==> Verdict(packet, false, open) == Refused(RecordOverflow)
    {
      hide ParseRecord, SealedRecord, WindowIs;
      RecordRoundTrip(type_, v, epoch, number, body, rest);
      ModUnique(epoch * TWO48 + number, TWO48, epoch, number);
      SealedIsNotEmpty(type_, v, epoch, number, body, rest);
    }

    /** dtls_open_record; open is the AEAD of the current read epoch. */
    method OpenRecord(packet: seq<byte>, closed: bool, open: RawRecord -> Option<seq<byte>>) returns (r: RecordResult)
      requires Valid()
      modifies this`accepted, bitmap
      ensures Valid() && r == old(Verdict(packet, closed, open))
      ensures r.Received? ==>
        && ParseRecord(packet).Some?
        && var n := ParseRecord(packet).value.number;
          && accepted == old(accepted) + {n} && bitmap.seen == old(bitmap.seen) + {n}
          && (!wrapped ==> n !in old(accepted))
      ensures !r.Received? ==>
        accepted == old(accepted) && bitmap.map_ == old(bitmap.map_) && bitmap.maxSeqNum == old(bitmap.maxSeqNum)
        && bitmap.seen == old(bitmap.seen)
    {
      hide ParseRecord, BitAt;
      if closed {
        return CloseNotify;
      }
      if packet == [] {
        return NeedMore;
      }
      var header := ParseRecord(packet);
      if header.None? || !VersionOk(header.value.version) {
        return Dropped(|packet|);
      }
      var h := header.value;
      var discard := true;
      if h.Epoch() == rEpoch {
        discard := bitmap.ShouldDiscard(h.number);
      }
      if discard {
        return Dropped(h.Length());
      }
      var plaintext := open(h);
      if plaintext.None? {
        return Dropped(h.Length());
      }
      if |plaintext.value| > SSL3_RT_MAX_PLAIN_LENGTH {
        return Refused(RecordOverflow);
      }
      bitmap.Record(h.number);
      accepted := accepted + {h.number};
      r := Received(h.type_, plaintext.value, h.Length());
    }

    /** dtls1_set_read_state: refused while handshake data is left over. */
    method SetReadState(incoming: Incoming, version: nat) returns (ok: bool)
      requires Valid() && incoming.Valid()
      modifies this, bitmap
      ensures Valid() && accepted == old(accepted)
      ensures ok <==>
        && !incoming.hasChangeCipherSpec
        && forall n :: n in old(incoming.View()).held ==> incoming.hasMessage && n == incoming.readSeq
      ensures ok ==> rEpoch == (old(rEpoch) + 1) % TWO16 && !nullCipher && this.version == version && bitmap.seen == {}
      ensures ok ==> wrapped == (old(wrapped) || rEpoch == 0)
      ensures !ok ==>
        && rEpoch == old(rEpoch) && nullCipher == old(nullCipher) && wrapped == old(wrapped)
        && bitmap.seen == old(bitmap.seen) && bitmap.maxSeqNum == old(bitmap.maxSeqNum)
    {
      var leftover := incoming.HasUnprocessedHandshakeData();
      if leftover {
        return false;
      }
      rEpoch := (rEpoch + 1) % TWO16;
      bitmap.Reset();
      nullCipher, this.version, wrapped := false, version, wrapped || rEpoch == 0;
      ok := true;
    }
  }
}
