/** The Protocol Buffers wire primitives of nanopb as functions on byte strings:
    what the encoders append and what the decoders accept. The stream classes in
    PbStreams.dfy are proved against these functions. */
module PbWire {
  import opened Bits

  /** The messages nanopb hands to PB_RETURN_ERROR. */
  datatype PbError =
    | EndOfStream | VarintOverflow | InvalidWireType | ParentTooShort
    | ArrayOverflow | BytesOverflow | StringOverflow | IncorrectFixedLength
    | IntegerTooLarge | InvalidDataSize | MissingRequiredField | InvalidUnionTag
    | StreamFull | ArrayMaxSizeExceeded | BytesSizeExceeded | SubmsgSizeChanged

  datatype Result<+T> = Success(value: T) | Failure(error: PbError) {
    predicate IsFailure() { Failure? }

    function PropagateFailure<U>(): Result<U>
      requires Failure?
    {
      Failure(error)
    }

    function Extract(): T
      requires Success?
    {
      value
    }
  }

  /** A value read off the front of a byte string, with what follows it. */
  datatype Read<+T> = Got(value: T, rest: seq<byte>)

  datatype WireType = Varint | Wire64 | Delimited | Wire32 | OtherWire(code: nat)

  function WireCode(w: WireType): nat {
    match w
    case Varint => 0
    case Wire64 => 1
    case Delimited => 2
    case Wire32 => 5
    case OtherWire(code) => code
  }

  function WireOf(code: nat): (w: WireType)
    ensures WireCode(w) == code
  {
    if code == 0 then Varint
    else if code == 1 then Wire64
    else if code == 2 then Delimited
    else if code == 5 then Wire32
    else OtherWire(code)
  }

  // ---------------------------------------------------------------- varints

  /** The base-128 form of v, least significant group first. */
  function EncVarint(v: nat): (s: seq<byte>)
    ensures |s| >= 1
    decreases v
  {
    if v < 128 then [v] else [v % 128 + 128] + EncVarint(v / 128)
  }

  /** pb_decode_varint: the 64-bit loop from a given position and accumulator. */
  function DecVarint64From(s: seq<byte>, bitpos: nat, acc: nat): (r: Result<Read<nat>>)
    ensures r.Success? ==> |r.value.rest| < |s|
    decreases |s|
  {
    if bitpos >= 64 then Failure(VarintOverflow)
    else if s == [] then Failure(EndOfStream)
    else
      var acc' := Or(acc, Shl(TWO64, s[0] % 128, bitpos));
      if s[0] >= 128 then DecVarint64From(s[1..], bitpos + 7, acc')
      else Success(Got(acc', s[1..]))
  }

  function DecVarint64(s: seq<byte>): (r: Result<Read<nat>>)
    ensures r.Success? ==> |r.value.rest| < |s|
  {
    DecVarint64From(s, 0, 0)
  }

  /** The loop of pb_decode_varint32_eof; bitpos is an 8-bit counter. */
  function DecVarint32From(s: seq<byte>, bitpos: nat, acc: nat): (r: Result<Read<nat>>)
    ensures r.Success? ==> |r.value.rest| < |s|
    decreases |s|
  {
    if s == [] then Failure(EndOfStream)
    else
      var b := s[0];
      var signExtension := if bitpos < 63 then 0xFF else 0x01;
      if bitpos >= 32 && b % 128 != 0 && (acc / TWO31 == 0 || b != signExtension) then
        Failure(VarintOverflow)
      else
        var acc' := if bitpos >= 32 then acc else Or(acc, Shl(TWO32, b % 128, bitpos));
        var bitpos' := (bitpos + 7) % 256;
        if b >= 128 then DecVarint32From(s[1..], bitpos', acc')
        else if bitpos' == 35 && (b / 16) % 8 != 0 then Failure(VarintOverflow)
        else Success(Got(acc', s[1..]))
  }

  function DecVarint32(s: seq<byte>): (r: Result<Read<nat>>)
    ensures r.Success? ==> |r.value.rest| < |s|
  {
    if s == [] then Failure(EndOfStream)
    else if s[0] < 128 then Success(Got(s[0] as nat, s[1..]))
    else DecVarint32From(s[1..], 7, s[0] % 128)
  }

  /** A value below 2^(7k) takes at most k bytes: ten for 64 bits. */
  lemma {:induction false} VarintLength(v: nat, k: nat)
    requires k > 0 && v < Pow2(7 * k)
    ensures |EncVarint(v)| <= k
    decreases k
  {
    if v >= 128 {
      PowersOfTwo();
      Pow2Add(7, 7 * (k - 1));
      if k == 1 { assert false; }
      VarintLength(v / 128, k - 1);
    }
  }

  lemma VarintAtMostTenBytes(v: nat)
    requires v < TWO64
    ensures |EncVarint(v)| <= 10
  {
    PowersOfTwo();
    Pow2Mono(64, 70);
    VarintLength(v, 10);
  }

  lemma SmallMod(x: nat, m: nat)
    requires x < m
    ensures x % m == x
  {
  }

  /** The bits below bitpos and the group at bitpos do not overlap. */
  lemma GroupIsAdded(m: nat, acc: nat, g: nat, bitpos: nat)
    requires acc < Pow2(bitpos) && g * Pow2(bitpos) < m
    ensures Or(acc, Shl(m, g, bitpos)) == acc + g * Pow2(bitpos)
  {
    OrIsSum(bitpos, acc, g);
    SmallMod(g * Pow2(bitpos), m);
  }

  lemma Distribute(g: nat, q: nat, p: nat)
    ensures g * p + q * (128 * p) == (g + 128 * q) * p
    ensures 0 <= g * p && 0 <= q * (128 * p)
  {
  }

  /** Splitting v into its low group and the rest, scaled by p. */
  lemma SplitGroup(v: nat, p: nat)
    requires p > 0
    ensures (v % 128) * p + (v / 128) * (128 * p) == v * p
    ensures 0 <= (v % 128) * p <= v * p
    ensures v >= 128 ==> 128 * p <= v * p
  {
    var g, q := v % 128, v / 128;
    assert v == g + 128 * q;
    Distribute(g, q, p);
    if v >= 128 { Multiple(128 * p, q); }
  }

  lemma NextGroup(bitpos: nat)
    ensures Pow2(bitpos + 7) == 128 * Pow2(bitpos)
  {
    PowersOfTwo();
    Pow2Add(7, bitpos);
  }

  /** Room for another group as long as the value fits n bits. */
  lemma GroupHasRoom(v: nat, bitpos: nat, n: nat, m: nat)
    requires m == Pow2(n) && v >= 128 && v * Pow2(bitpos) < m
    ensures bitpos + 7 < n
  {
    SplitGroup(v, Pow2(bitpos));
    NextGroup(bitpos);
    if bitpos + 7 >= n { Pow2Mono(n, bitpos + 7); }
  }

  lemma GroupFits(g: nat, acc: nat, p: nat)
    requires g < 128 && acc < p
    ensures acc + g * p < 128 * p
  {
    assert 128 * p == g * p + (127 - g) * p + p;
    assert (127 - g) * p >= 0;
  }

  /** One turn of each decoding loop. */
  lemma Turn64(b: byte, tail: seq<byte>, bitpos: nat, acc: nat, acc': nat)
    requires bitpos < 64 && acc' == Or(acc, Shl(TWO64, b % 128, bitpos))
    ensures DecVarint64From([b] + tail, bitpos, acc)
         == if b >= 128 then DecVarint64From(tail, bitpos + 7, acc') else Success(Got(acc', tail))
  {
    hide Or, Shl;
    assert ([b] + tail)[1..] == tail;
  }

  lemma Turn32(b: byte, tail: seq<byte>, bitpos: nat, acc: nat, acc': nat)
    requires bitpos < 32 && acc' == Or(acc, Shl(TWO32, b % 128, bitpos))
    requires b < 128 && bitpos == 28 ==> b < 16
    ensures DecVarint32From([b] + tail, bitpos, acc)
         == if b >= 128 then DecVarint32From(tail, bitpos + 7, acc') else Success(Got(acc', tail))
  {
    hide Or, Shl;
    assert ([b] + tail)[1..] == tail;
  }

  /** What one group of v adds, and what is left of v after it. */
  lemma OneGroup(n: nat, m: nat, v: nat, bitpos: nat, acc: nat, p: nat) returns (acc': nat, p': nat)
    requires m == Pow2(n) && p == Pow2(bitpos) && acc < p && v * p < m
    ensures acc' == Or(acc, Shl(m, v % 128, bitpos))
    ensures v < 128 ==> acc' == acc + v * p
    ensures v >= 128 ==> bitpos + 7 < n && p' == Pow2(bitpos + 7) && acc' < p'
    ensures v >= 128 ==> (v / 128) * p' < m && acc' + (v / 128) * p' == acc + v * p
  {
    SplitGroup(v, p);
    GroupIsAdded(m, acc, v % 128, bitpos);
    acc', p' := acc + (v % 128) * p, 128 * p;
    if v >= 128 {
      GroupFits(v % 128, acc, p);
      NextGroup(bitpos);
      GroupHasRoom(v, bitpos, n, m);
    }
  }

  lemma VarintUnfold(v: nat)
    ensures v < 128 ==> EncVarint(v) == [v]
    ensures v >= 128 ==> EncVarint(v) == [v % 128 + 128] + EncVarint(v / 128)
  {
  }

  lemma {:induction false} Varint64RoundTripFrom(v: nat, rest: seq<byte>, bitpos: nat, acc: nat, p: nat)
    requires bitpos < 64 && p == Pow2(bitpos) && acc < p && v * p < TWO64
    ensures DecVarint64From(EncVarint(v) + rest, bitpos, acc) == Success(Got(acc + v * p, rest))
    decreases v
  {
    hide *;
    assert Pow2(64) == TWO64 by { PowersOfTwo(); }
    VarintUnfold(v);
    var acc', p' := OneGroup(64, TWO64, v, bitpos, acc, p);
    if v < 128 {
      Turn64(v, rest, bitpos, acc, acc');
    } else {
      Varint64RoundTripFrom(v / 128, rest, bitpos + 7, acc', p');
      Turn64(v % 128 + 128, EncVarint(v / 128) + rest, bitpos, acc, acc');
      assert EncVarint(v) + rest == [v % 128 + 128] + (EncVarint(v / 128) + rest);
    }
  }

  /** pb_decode_varint undoes pb_encode_varint and consumes exactly its bytes. */
  lemma Varint64RoundTrip(v: nat, rest: seq<byte>)
    requires v < TWO64
    ensures DecVarint64(EncVarint(v) + rest) == Success(Got(v, rest))
  {
    PowersOfTwo();
    Varint64RoundTripFrom(v, rest, 0, 0, 1);
  }

  lemma {:induction false} Varint32RoundTripFrom(v: nat, rest: seq<byte>, bitpos: nat, acc: nat, p: nat)
    requires 7 <= bitpos <= 28 && bitpos % 7 == 0 && p == Pow2(bitpos) && acc < p && v * p < TWO32
    ensures DecVarint32From(EncVarint(v) + rest, bitpos, acc) == Success(Got(acc + v * p, rest))
    decreases v
  {
    hide *;
    assert Pow2(32) == TWO32 by { PowersOfTwo(); }
    VarintUnfold(v);
    var acc', p' := OneGroup(32, TWO32, v, bitpos, acc, p);
    if v < 128 {
      if bitpos == 28 { LastGroupOf32(v); }
      Turn32(v, rest, bitpos, acc, acc');
    } else {
      Varint32RoundTripFrom(v / 128, rest, bitpos + 7, acc', p');
      Turn32(v % 128 + 128, EncVarint(v / 128) + rest, bitpos, acc, acc');
      assert EncVarint(v) + rest == [v % 128 + 128] + (EncVarint(v / 128) + rest);
    }
  }

  lemma LastGroupOf32(v: nat)
    requires v * Pow2(28) < TWO32
    ensures v < 16
  {
    hide Pow2;
    var p := Pow2(28);
    assert 16 * p == TWO32 by {
      Pow2Add(4, 28);
      SmallPowers();
      PowersOfTwo();
    }
    Multiple(p, v - 15);
    assert p * (v - 15) == v * p - 15 * p;
  }

  /** Every value below 2^32 also round-trips through pb_decode_varint32. */
  lemma Varint32RoundTrip(v: nat, rest: seq<byte>)
    requires v < TWO32
    ensures DecVarint32(EncVarint(v) + rest) == Success(Got(v, rest))
  {
    hide *;
    VarintUnfold(v);
    if v < 128 {
      First32(v, rest);
    } else {
      var tail := EncVarint(v / 128) + rest;
      First32(v % 128 + 128, tail);
      assert EncVarint(v) + rest == [v % 128 + 128] + tail;
      assert Pow2(7) == 128 by { PowersOfTwo(); }
      assert v % 128 + (v / 128) * 128 == v;
      Varint32RoundTripFrom(v / 128, rest, 7, v % 128, 128);
    }
  }

  lemma First32(b: byte, tail: seq<byte>)
    ensures DecVarint32([b] + tail)
         == if b >= 128 then DecVarint32From(tail, 7, b % 128) else Success(Got(b as nat, tail))
  {
    assert ([b] + tail)[1..] == tail;
  }

  /** One group, seen modulo 2^32. */
  lemma GroupModulo(acc: nat, g: nat, bitpos: nat)
    requires acc < TWO64 && g < 128 && bitpos < 64
    ensures Or(acc, Shl(TWO64, g, bitpos)) < TWO64
    ensures bitpos >= 32 ==> Or(acc, Shl(TWO64, g, bitpos)) % TWO32 == acc % TWO32
    ensures bitpos < 32 ==> Or(acc, Shl(TWO64, g, bitpos)) % TWO32 == Or(acc % TWO32, Shl(TWO32, g, bitpos))
  {
    PowersOfTwo();
    OrBound(64, acc, Shl(TWO64, g, bitpos));
    OrBound(32, acc % TWO32, Shl(TWO32, g, bitpos));
    var x := Or(acc, Shl(TWO64, g, bitpos)) % TWO32;
    var y := if bitpos >= 32 then acc % TWO32 else Or(acc % TWO32, Shl(TWO32, g, bitpos));
    forall i | 0 <= i < 32 ensures BitAt(x, i) == BitAt(y, i) {
      ModPow2Bit(32, Or(acc, Shl(TWO64, g, bitpos)), i);
      OrBit(acc, Shl(TWO64, g, bitpos), i);
      ShlBit(64, g, bitpos, i);
      ModPow2Bit(32, acc, i);
      OrBit(acc % TWO32, Shl(TWO32, g, bitpos), i);
      ShlBit(32, g, bitpos, i);
    }
    SameBits(32, x, y);
  }

  lemma {:induction false} DecodersAgreeFrom(s: seq<byte>, bitpos: nat, acc: nat, acc32: nat)
    requires acc < TWO64
    requires DecVarint64From(s, bitpos, acc).Success?
    requires acc32 == acc % TWO32 && DecVarint32From(s, bitpos, acc32).Success?
    ensures DecVarint64From(s, bitpos, acc).value.rest == DecVarint32From(s, bitpos, acc32).value.rest
    ensures DecVarint64From(s, bitpos, acc).value.value % TWO32 == DecVarint32From(s, bitpos, acc32).value.value
    decreases |s|
  {
    hide Or, Shl;
    GroupModulo(acc, s[0] % 128, bitpos);
    if s[0] >= 128 {
      DecodersAgreeFrom(s[1..], bitpos + 7, Or(acc, Shl(TWO64, s[0] % 128, bitpos)),
        if bitpos >= 32 then acc32 else Or(acc32, Shl(TWO32, s[0] % 128, bitpos)));
    }
  }

  /** On every input both decoders accept (the 64-bit one stops after ten bytes) they
      consume the same bytes, and the 32-bit result is the 64-bit one modulo 2^32. */
  lemma DecodersAgree(s: seq<byte>)
    requires DecVarint64(s).Success? && DecVarint32(s).Success?
    ensures DecVarint64(s).value.rest == DecVarint32(s).value.rest
    ensures DecVarint64(s).value.value % TWO32 == DecVarint32(s).value.value
  {
    hide Or, Shl;
    var g := s[0] % 128;
    GroupIsAdded(TWO64, 0, g, 0);
    Turn64(s[0], s[1..], 0, 0, g);
    assert s == [s[0]] + s[1..];
    if s[0] >= 128 {
      DecodersAgreeFrom(s[1..], 7, g, g);
    }
  }

  // ---------------------------------------------------------------- casts and zigzag

  /** (uint64_t)n for any integer n. */
  function U64(n: int): (u: nat)
    ensures u < TWO64
  {
    n % TWO64
  }

  /** (int64_t)u, two's complement. */
  function S64(u: nat): int
    requires u < TWO64
  {
    if u >= TWO63 then u - TWO64 else u
  }

  /** (int32_t)n for any integer n. */
  function S32(n: int): int {
    var u := n % TWO32;
    if u >= TWO31 then u - TWO32 else u
  }

  /** The value pb_encode_svarint hands to pb_encode_varint. */
  function Zigzag(n: int): nat {
    if n < 0 then Not(TWO64, Shl(TWO64, U64(n), 1)) else Shl(TWO64, U64(n), 1)
  }

  /** The conversion at the end of pb_decode_svarint. */
  function Unzigzag(u: nat): int
    requires u < TWO64
  {
    if u % 2 == 1 then S64(Not(TWO64, u / 2)) else S64(u / 2)
  }

  lemma DoubledModulo(u: nat)
    requires u < TWO64
    ensures Shl(TWO64, u, 1) == if u < TWO63 then 2 * u else 2 * u - TWO64
  {
    SmallPowers();
    ModUnique(2 * u, TWO64, if u < TWO63 then 0 else 1, if u < TWO63 then 2 * u else 2 * u - TWO64);
  }

  lemma ZigzagValue(n: int)
    requires -TWO63 <= n < TWO63
    ensures Zigzag(n) == if n < 0 then -2 * n - 1 else 2 * n
  {
    hide Shl;
    assert U64(n) == if n < 0 then n + TWO64 else n;
    DoubledModulo(U64(n));
  }

  lemma UnzigzagValue(u: nat)
    requires u < TWO64
    ensures Unzigzag(u) == if u % 2 == 1 then -(u / 2) - 1 else u / 2
  {
    PowersOfTwo();
  }

  /** Zigzag is a bijection between int64 and uint64. */
  lemma ZigzagRoundTrip(n: int)
    requires -TWO63 <= n < TWO63
    ensures Zigzag(n) < TWO64 && Unzigzag(Zigzag(n)) == n
  {
    ZigzagValue(n);
    UnzigzagValue(if n < 0 then -2 * n - 1 else 2 * n);
  }

  lemma UnzigzagRoundTrip(u: nat)
    requires u < TWO64
    ensures -TWO63 <= Unzigzag(u) < TWO63 && Zigzag(Unzigzag(u)) == u
  {
    UnzigzagValue(u);
    ZigzagValue(Unzigzag(u));
  }

  // ---------------------------------------------------------------- fixed width

  /** The k low bytes of v, little endian (pb_encode_fixed32, pb_encode_fixed64). */
  function EncFixed(v: nat, k: nat): (s: seq<byte>)
    ensures |s| == k
  {
    if k == 0 then [] else [v % 256] + EncFixed(v / 256, k - 1)
  }

  function FixedValue(s: seq<byte>): nat {
    if s == [] then 0 else s[0] + 256 * FixedValue(s[1..])
  }

  function Take(s: seq<byte>, k: nat): Result<Read<seq<byte>>> {
    if |s| < k then Failure(EndOfStream) else Success(Got(s[..k], s[k..]))
  }

  lemma {:induction false} FixedRoundTrip(v: nat, k: nat)
    requires v < Pow2(8 * k)
    ensures FixedValue(EncFixed(v, k)) == v
    decreases k
  {
    if k > 0 {
      Pow2Add(8, 8 * (k - 1));
      assert Pow2(8) == 2 * Pow2(7) == 256 by { PowersOfTwo(); }
      FixedRoundTrip(v / 256, k - 1);
      assert EncFixed(v, k)[1..] == EncFixed(v / 256, k - 1);
    }
  }

  lemma {:induction false} FixedBound(s: seq<byte>)
    ensures FixedValue(s) < Pow2(8 * |s|)
    decreases |s|
  {
    if s != [] {
      FixedBound(s[1..]);
      Pow2Add(8, 8 * (|s| - 1));
      assert Pow2(8) == 2 * Pow2(7) == 256 by { PowersOfTwo(); }
    }
  }

  // ---------------------------------------------------------------- keys, skipping, length prefixes

  datatype Key = Eof | Key(wire: WireType, tag: nat)

  /** pb_decode_tag: end of input and a zero key both read as end of message. */
  function DecKey(s: seq<byte>): (r: Result<Read<Key>>)
    ensures r.Success? && r.value.value.Key? ==> |r.value.rest| < |s|
    ensures r.Success? ==> |r.value.rest| <= |s|
  {
    if s == [] then Success(Got(Eof, s))
    else
      var k :- DecVarint32(s);
      if k.value == 0 then Success(Got(Eof, k.rest))
      else Success(Got(Key(WireOf(k.value % 8), k.value / 8), k.rest))
  }

  function EncKey(wire: WireType, tag: nat): (s: seq<byte>)
    ensures |s| >= 1
  {
    EncVarint(tag * 8 + WireCode(wire))
  }

  function SkipVarint(s: seq<byte>): (r: Result<seq<byte>>)
    ensures r.Success? ==> |r.value| < |s|
    decreases |s|
  {
    if s == [] then Failure(EndOfStream)
    else if s[0] >= 128 then SkipVarint(s[1..])
    else Success(s[1..])
  }

  /** A length prefix and that many bytes: pb_make_string_substream. */
  function DecDelimited(s: seq<byte>): (r: Result<Read<seq<byte>>>)
    ensures r.Success? ==> |r.value.value| < |s| && |r.value.rest| < |s|
  {
    var n :- DecVarint32(s);
    if |n.rest| < n.value then Failure(ParentTooShort)
    else Success(Got(n.rest[..n.value], n.rest[n.value..]))
  }

  /** pb_skip_string reads through pb_read, so its error differs from the substream's. */
  function SkipDelimited(s: seq<byte>): (r: Result<seq<byte>>)
    ensures r.Success? ==> |r.value| < |s|
  {
    var n :- DecVarint32(s);
    var t :- Take(n.rest, n.value);
    Success(t.rest)
  }

  function Skip(s: seq<byte>, wire: WireType): (r: Result<seq<byte>>)
    ensures r.Success? ==> |r.value| < |s|
  {
    match wire
    case Varint => SkipVarint(s)
    case Wire64 => var t :- Take(s, 8); Success(t.rest)
    case Delimited => SkipDelimited(s)
    case Wire32 => var t :- Take(s, 4); Success(t.rest)
    case OtherWire(_) => Failure(InvalidWireType)
  }

  /** What a length-delimited payload looks like on the wire. */
  function EncDelimited(payload: seq<byte>): (s: seq<byte>)
    ensures |s| > |payload|
  {
    EncVarint(|payload|) + payload
  }

  lemma KeyRoundTrip(wire: WireType, tag: nat, rest: seq<byte>)
    requires 1 <= tag < TWO32 / 8 && WireCode(wire) < 8 && WireOf(WireCode(wire)) == wire
    ensures DecKey(EncKey(wire, tag) + rest) == Success(Got(Key(wire, tag), rest))
  {
    var k := tag * 8 + WireCode(wire);
    Varint32RoundTrip(k, rest);
    assert k % 8 == WireCode(wire) && k / 8 == tag;
  }

  lemma DelimitedRoundTrip(payload: seq<byte>, rest: seq<byte>)
    requires |payload| < TWO32
    ensures DecDelimited(EncDelimited(payload) + rest) == Success(Got(payload, rest))
  {
    assert EncDelimited(payload) + rest == EncVarint(|payload|) + (payload + rest);
    Varint32RoundTrip(|payload|, payload + rest);
  }

  // ---------------------------------------------------------------- appending to the input

  /** A read that succeeds looks only at what it consumes. */
  lemma {:induction false} Varint64Appended(s: seq<byte>, bitpos: nat, acc: nat, t: seq<byte>)
    requires DecVarint64From(s, bitpos, acc).Success?
    ensures DecVarint64From(s + t, bitpos, acc)
         == Success(Got(DecVarint64From(s, bitpos, acc).value.value, DecVarint64From(s, bitpos, acc).value.rest + t))
    decreases |s|
  {
    assert (s + t)[1..] == s[1..] + t;
    if s[0] >= 128 {
      Varint64Appended(s[1..], bitpos + 7, Or(acc, Shl(TWO64, s[0] % 128, bitpos)), t);
    }
  }

  lemma {:induction false} Varint32AppendedFrom(s: seq<byte>, bitpos: nat, acc: nat, t: seq<byte>)
    requires DecVarint32From(s, bitpos, acc).Success?
    ensures DecVarint32From(s + t, bitpos, acc)
         == Success(Got(DecVarint32From(s, bitpos, acc).value.value, DecVarint32From(s, bitpos, acc).value.rest + t))
    decreases |s|
  {
    assert (s + t)[1..] == s[1..] + t;
    if s[0] >= 128 {
      var acc' := if bitpos >= 32 then acc else Or(acc, Shl(TWO32, s[0] % 128, bitpos));
      Varint32AppendedFrom(s[1..], (bitpos + 7) % 256, acc', t);
    }
  }

  lemma Varint32Appended(s: seq<byte>, t: seq<byte>)
    requires DecVarint32(s).Success?
    ensures DecVarint32(s + t) == Success(Got(DecVarint32(s).value.value, DecVarint32(s).value.rest + t))
  {
    assert (s + t)[1..] == s[1..] + t;
    if s[0] >= 128 { Varint32AppendedFrom(s[1..], 7, s[0] % 128, t); }
  }

  lemma KeyAppended(s: seq<byte>, t: seq<byte>)
    requires s != [] && DecKey(s).Success?
    ensures DecKey(s + t) == Success(Got(DecKey(s).value.value, DecKey(s).value.rest + t))
  {
    Varint32Appended(s, t);
  }

  lemma TakeAppended(s: seq<byte>, k: nat, t: seq<byte>)
    requires Take(s, k).Success?
    ensures Take(s + t, k) == Success(Got(Take(s, k).value.value, Take(s, k).value.rest + t))
  {
    assert (s + t)[..k] == s[..k];
    assert (s + t)[k..] == s[k..] + t;
  }

  lemma DelimitedAppended(s: seq<byte>, t: seq<byte>)
    requires DecDelimited(s).Success?
    ensures DecDelimited(s + t) == Success(Got(DecDelimited(s).value.value, DecDelimited(s).value.rest + t))
  {
    Varint32Appended(s, t);
    var n := DecVarint32(s).value;
    TakeAppended(n.rest, n.value, t);
  }

  lemma {:induction false} SkipVarintAppended(s: seq<byte>, t: seq<byte>)
    requires SkipVarint(s).Success?
    ensures SkipVarint(s + t) == Success(SkipVarint(s).value + t)
    decreases |s|
  {
    assert (s + t)[1..] == s[1..] + t;
    if s[0] >= 128 { SkipVarintAppended(s[1..], t); }
  }

  lemma SkipAppended(s: seq<byte>, wire: WireType, t: seq<byte>)
    requires Skip(s, wire).Success?
    ensures Skip(s + t, wire) == Success(Skip(s, wire).value + t)
  {
    match wire
    case Varint => SkipVarintAppended(s, t);
    case Wire64 => TakeAppended(s, 8, t);
    case Delimited =>
      Varint32Appended(s, t);
      var n := DecVarint32(s).value;
      TakeAppended(n.rest, n.value, t);
    case Wire32 => TakeAppended(s, 4, t);
  }
}
