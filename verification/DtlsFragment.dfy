/** DTLS handshake fragments: the 12-byte header, and hm_fragment, which reassembles one
    message from fragments that arrive in any order, with a bitmask of the bytes received. */
module DtlsFragment {
  import opened Bits
  import opened Wrappers

  const DTLS1_RT_HEADER_LENGTH: nat := 13
  const DTLS1_HM_HEADER_LENGTH: nat := 12

  // ---------------------------------------------------------------- numbers on the wire

  function BigEndian(v: nat, k: nat): (s: seq<byte>)
    ensures |s| == k
  {
    if k == 0 then [] else BigEndian(v / 256, k - 1) + [v % 256]
  }

  function BigValue(s: seq<byte>): nat {
    if s == [] then 0 else 256 * BigValue(s[..|s| - 1]) + s[|s| - 1]
  }

  lemma {:induction false} BigRoundTrip(v: nat, k: nat)
    requires v < Pow2(8 * k)
    ensures BigValue(BigEndian(v, k)) == v
    decreases k
  {
    if k > 0 {
      Pow2Add(8, 8 * (k - 1));
      assert Pow2(8) == 256;
      BigRoundTrip(v / 256, k - 1);
      assert BigEndian(v, k)[..k - 1] == BigEndian(v / 256, k - 1);
    }
  }

  lemma {:induction false} BigBound(s: seq<byte>)
    ensures BigValue(s) < Pow2(8 * |s|)
    decreases |s|
  {
    if s != [] {
      BigBound(s[..|s| - 1]);
      Pow2Add(8, 8 * (|s| - 1));
      assert Pow2(8) == 256;
    }
  }

  const TWO16: nat := 0x1_0000
  const TWO24: nat := 0x100_0000
  const TWO48: nat := 0x1_0000_0000_0000

  lemma SmallWidths()
    ensures Pow2(8 * 2) == TWO16 && Pow2(8 * 3) == TWO24
  {
    SmallPowers();
    Pow2Add(8, 8);
    Pow2Add(8, 16);
  }

  // ---------------------------------------------------------------- fragments on the wire

  /** hm_header_st */
  datatype FragHdr = FragHdr(type_: byte, msgLen: nat, seq_: nat, fragOff: nat, fragLen: nat) {
    predicate Fits() {
      msgLen < TWO24 && seq_ < TWO16 && fragOff < TWO24 && fragLen < TWO24
    }
  }

  function Header(h: FragHdr): (s: seq<byte>)
    ensures |s| == DTLS1_HM_HEADER_LENGTH
  {
    [h.type_] + BigEndian(h.msgLen, 3) + BigEndian(h.seq_, 2) + BigEndian(h.fragOff, 3) + BigEndian(h.fragLen, 3)
  }

  datatype Fragment = Fragment(hdr: FragHdr, body: seq<byte>) {
    predicate Fits() {
      hdr.Fits() && |body| == hdr.fragLen
    }

    function Bytes(): seq<byte> {
      Header(hdr) + body
    }
  }

  function HeaderOf(s: seq<byte>): (h: FragHdr)
    requires |s| >= DTLS1_HM_HEADER_LENGTH
    ensures h.Fits()
  {
    BigBound(s[1..4]); BigBound(s[4..6]); BigBound(s[6..9]); BigBound(s[9..12]);
    SmallWidths();
    FragHdr(s[0], BigValue(s[1..4]), BigValue(s[4..6]), BigValue(s[6..9]), BigValue(s[9..12]))
  }

  lemma HeaderRoundTrip(h: FragHdr, rest: seq<byte>)
    requires h.Fits()
    ensures HeaderOf(Header(h) + rest) == h
  {
    hide BigEndian, BigValue, Pow2;
    SmallWidths();
    BigRoundTrip(h.msgLen, 3);
    BigRoundTrip(h.seq_, 2);
    BigRoundTrip(h.fragOff, 3);
    BigRoundTrip(h.fragLen, 3);
    var s := Header(h) + rest;
    assert s[1..4] == BigEndian(h.msgLen, 3);
    assert s[4..6] == BigEndian(h.seq_, 2);
    assert s[6..9] == BigEndian(h.fragOff, 3);
    assert s[9..12] == BigEndian(h.fragLen, 3);
  }

  lemma TwoBytes(s: seq<byte>)
    requires |s| == 2
    ensures BigValue(s) == 256 * (s[0] as nat) + s[1]
  {
    assert BigValue(s[..1]) == s[0] by { assert s[..1][..0] == []; }
  }

  lemma ThreeBytes(s: seq<byte>)
    requires |s| == 3
    ensures BigValue(s) == TWO16 * (s[0] as nat) + 256 * (s[1] as nat) + s[2]
  {
    TwoBytes(s[..2]);
  }

  /** The fields of a header, byte by byte: type, length, number, offset and length of the fragment,
      each with its most significant byte first. */
  lemma HeaderLayout(s: seq<byte>)
    requires |s| >= DTLS1_HM_HEADER_LENGTH
    ensures var h := HeaderOf(s);
      && h.type_ == s[0] && h.seq_ == 256 * (s[4] as nat) + s[5]
      && h.msgLen == TWO16 * (s[1] as nat) + 256 * (s[2] as nat) + s[3]
      && h.fragOff == TWO16 * (s[6] as nat) + 256 * (s[7] as nat) + s[8]
      && h.fragLen == TWO16 * (s[9] as nat) + 256 * (s[10] as nat) + s[11]
  {
    hide BigValue;
    ThreeBytes(s[1..4]);
    TwoBytes(s[4..6]);
    ThreeBytes(s[6..9]);
    ThreeBytes(s[9..12]);
  }

  datatype Parsed = Parsed(fragment: Fragment, rest: seq<byte>)

  /** dtls1_parse_fragment */
  function ParseFragment(s: seq<byte>): (r: Option<Parsed>)
    ensures r.Some? ==> r.value.fragment.Fits() && |r.value.rest| < |s|
  {
    if |s| < DTLS1_HM_HEADER_LENGTH then None
    else
      var h := HeaderOf(s);
      var t := s[DTLS1_HM_HEADER_LENGTH..];
      if |t| < h.fragLen then None else Some(Parsed(Fragment(h, t[..h.fragLen]), t[h.fragLen..]))
  }

  lemma FragmentRoundTrip(f: Fragment, rest: seq<byte>)
    requires f.Fits()
    ensures ParseFragment(f.Bytes() + rest) == Some(Parsed(f, rest))
  {
    hide HeaderOf, Header;
    HeaderRoundTrip(f.hdr, f.body + rest);
    assert f.Bytes() + rest == Header(f.hdr) + (f.body + rest);
  }

  // ---------------------------------------------------------------- the bitmask

  /** The numbers from a up to but not including b. */
  function Range(a: nat, b: nat): set<nat> {
    set i | 0 <= i < b && Between(a, i, b)
  }

  predicate Between(a: nat, i: nat, b: nat) {
    a <= i < b
  }

  predicate Covers(got: set<nat>, len: nat) {
    forall i :: 0 <= i < len ==> i in got
  }

  /** Bit i of the mask says whether byte i was received. */
  ghost predicate MaskIs(mask: seq<byte>, got: set<nat>) {
    forall i :: 0 <= i < 8 * |mask| ==> (BitAt(mask[i / 8], i % 8) <==> i in got)
  }

  /** bit_range, in 32-bit arithmetic truncated to a byte. */
  function BitRange(start: nat, end: nat): byte {
    And(Not(TWO32, (Pow2(start) - 1) % TWO32), Pow2(end) - 1) % 256
  }

  lemma BitRangeBit(start: nat, end: nat, i: nat)
    requires start < 8 && end <= 8 && i < 8
    ensures BitAt(BitRange(start, end), i) <==> start <= i < end
  {
    hide And, Pow2, BitAt;
    assert Pow2(32) == TWO32 by { PowersOfTwo(); }
    assert Pow2(8) == 256 by { SmallPowers(); }
    Pow2Mono(start, 8);
    var low := Pow2(start) - 1;
    ModPow2Bit(8, And(Not(TWO32, low), Pow2(end) - 1), i);
    AndBit(Not(TWO32, low), Pow2(end) - 1, i);
    NotBit(32, low, i);
    OnesBit(start, i);
    OnesBit(end, i);
  }

  lemma OrByte(a: byte, b: byte)
    ensures Or(a, b) < 256
  {
    hide Or, Pow2;
    assert Pow2(8) == 256 by { SmallPowers(); }
    OrBound(8, a, b);
  }

  lemma SplitIndex(i: nat, j: nat)
    ensures i / 8 == j <==> 8 * j <= i < 8 * j + 8
    ensures i / 8 == j ==> i % 8 == i - 8 * j
  {
  }

  /** mask[j] |= bit_range(start, end) */
  lemma MarkPart(mask: seq<byte>, got: set<nat>, j: nat, start: nat, end: nat)
    requires MaskIs(mask, got) && j < |mask| && start < 8 && end <= 8
    ensures Or(mask[j], BitRange(start, end)) < 256
    ensures MaskIs(mask[j := Or(mask[j], BitRange(start, end))], got + Range(8 * j + start, 8 * j + end))
  {
    hide BitAt, Or, BitRange;
    OrByte(mask[j], BitRange(start, end));
    var mask' := mask[j := Or(mask[j], BitRange(start, end))];
    forall i | 0 <= i < 8 * |mask|
      ensures BitAt(mask'[i / 8], i % 8) <==> i in got + Range(8 * j + start, 8 * j + end)
    {
      SplitIndex(i, j);
      if i / 8 == j {
        OrBit(mask[j], BitRange(start, end), i % 8);
        BitRangeBit(start, end, i % 8);
      }
    }
  }

  lemma FullByteBits(i: nat)
    requires i < 8
    ensures BitAt(255, i)
  {
    hide Pow2;
    assert Pow2(8) == 256 by { SmallPowers(); }
    OnesBit(8, i);
  }

  /** mask[j] = 0xff */
  lemma MarkWhole(mask: seq<byte>, got: set<nat>, j: nat)
    requires MaskIs(mask, got) && j < |mask|
    ensures MaskIs(mask[j := 255], got + Range(8 * j, 8 * j + 8))
  {
    hide BitAt;
    var mask' := mask[j := 255];
    forall i | 0 <= i < 8 * |mask| ensures BitAt(mask'[i / 8], i % 8) <==> i in got + Range(8 * j, 8 * j + 8) {
      SplitIndex(i, j);
      if i / 8 == j { FullByteBits(i % 8); }
    }
  }

  lemma SameByte(a: byte, b: byte)
    requires forall i :: 0 <= i < 8 ==> BitAt(a, i) == BitAt(b, i)
    ensures a == b
  {
    hide Pow2, BitAt;
    assert Pow2(8) == 256 by { SmallPowers(); }
    SameBits(8, a, b);
  }

  predicate ByteSeen(got: set<nat>, j: nat, n: nat) {
    forall i :: 8 * j <= i < 8 * j + n ==> i in got
  }

  lemma MaskBit(mask: seq<byte>, got: set<nat>, j: nat, i: nat)
    requires MaskIs(mask, got) && j < |mask| && i < 8
    ensures BitAt(mask[j], i) <==> 8 * j + i in got
  {
    hide BitAt;
    SplitIndex(8 * j + i, j);
  }

  lemma WholeByteTest(mask: seq<byte>, got: set<nat>, j: nat)
    requires MaskIs(mask, got) && j < |mask|
    ensures mask[j] == 255 <==> ByteSeen(got, j, 8)
  {
    hide BitAt, MaskIs;
    forall i | 0 <= i < 8 ensures (BitAt(mask[j], i) <==> 8 * j + i in got) && BitAt(255, i) {
      MaskBit(mask, got, j, i);
      FullByteBits(i);
    }
    if ByteSeen(got, j, 8) { SameByte(mask[j], 255); }
    if mask[j] == 255 {
      forall k | 8 * j <= k < 8 * j + 8 ensures k in got { assert BitAt(mask[j], k - 8 * j); }
    }
  }

  lemma LastByteTest(mask: seq<byte>, got: set<nat>, j: nat, n: nat)
    requires MaskIs(mask, got) && j < |mask| && n <= 8
    requires forall i :: 8 * j + n <= i < 8 * j + 8 ==> i !in got
    ensures mask[j] == BitRange(0, n) <==> ByteSeen(got, j, n)
  {
    hide BitAt, MaskIs, BitRange;
    forall i | 0 <= i < 8
      ensures (BitAt(mask[j], i) <==> 8 * j + i in got) && (BitAt(BitRange(0, n), i) <==> i < n)
    {
      MaskBit(mask, got, j, i);
      BitRangeBit(0, n, i);
    }
    if ByteSeen(got, j, n) { SameByte(mask[j], BitRange(0, n)); }
    if mask[j] == BitRange(0, n) {
      forall k | 8 * j <= k < 8 * j + n ensures k in got { assert BitAt(mask[j], k - 8 * j); }
    }
  }

  /** What has been received of a message. */
  datatype Partial = Partial(type_: byte, msgLen: nat, bytes: map<nat, byte>) {
    predicate Complete() {
      Covers(bytes.Keys, msgLen)
    }

    function Body(): (body: seq<byte>)
      requires Complete()
      ensures |body| == msgLen && forall i :: 0 <= i < msgLen ==> body[i] == bytes[i]
    {
      seq(msgLen, i requires 0 <= i < msgLen => bytes[i])
    }

    /** The message in one piece, behind the header of an unfragmented message. */
    function Raw(seq_: nat): seq<byte>
      requires Complete()
    {
      Fragment(FragHdr(type_, msgLen, seq_, 0, msgLen), Body()).Bytes()
    }

    /** The message with a fragment's bytes laid over it; a complete message is left alone. */
    function Merge(off: nat, body: seq<byte>): Partial {
      if Complete() then this
      else
        var range := Range(off, off + |body|);
        Partial(type_, msgLen, bytes + map i | i in range :: body[i - off])
    }
  }

  /** The bytes of a buffer at the given places. */
  function Known(buffer: seq<byte>, got: set<nat>): (m: map<nat, byte>)
    requires forall i :: i in got ==> i < |buffer|
    ensures m.Keys == got
  {
    map i | i in got :: buffer[i]
  }

  lemma KnownAfterCopy(buffer: seq<byte>, got: set<nat>, off: nat, body: seq<byte>)
    requires (forall i :: i in got ==> i < |buffer|) && off + |body| <= |buffer|
    ensures var range := Range(off, off + |body|);
      Known(buffer[..off] + body + buffer[off + |body|..], got + range)
      == Known(buffer, got) + map i | i in range :: body[i - off]
  {
  }

  class HmFragment {
    const type_: byte
    const seq_: nat
    const msgLen: nat
    const data: array<byte>
    var reassembly: array?<byte>
    /** The bytes received. */
    ghost var got: set<nat>

    ghost function Footprint(): set<object>
      reads this
    {
      if reassembly == null then {this, data} else {this, data, reassembly}
    }

    ghost predicate Valid()
      reads this, Footprint()
    {
      && data.Length == DTLS1_HM_HEADER_LENGTH + msgLen
      && data[..DTLS1_HM_HEADER_LENGTH] == Header(FragHdr(type_, msgLen, seq_, 0, msgLen))
      && (forall i :: i in got ==> i < msgLen)
      && (reassembly == null <==> Covers(got, msgLen))
      && (reassembly != null ==>
            && reassembly != data && reassembly.Length == (msgLen + 7) / 8
            && MaskIs(reassembly[..], got))
    }

    ghost function View(): Partial
      requires Valid()
      reads this, Footprint()
    {
      Partial(type_, msgLen, Known(data[DTLS1_HM_HEADER_LENGTH..], got))
    }

    /** dtls1_hm_fragment_new */
    constructor (hdr: FragHdr)
      ensures Valid() && fresh(Footprint())
      ensures seq_ == hdr.seq_ && msgLen == hdr.msgLen && View() == Partial(hdr.type_, hdr.msgLen, map[])
    {
      type_, seq_, msgLen := hdr.type_, hdr.seq_, hdr.msgLen;
      var h := Header(FragHdr(hdr.type_, hdr.msgLen, hdr.seq_, 0, hdr.msgLen));
      data := new byte[DTLS1_HM_HEADER_LENGTH + hdr.msgLen](i => if 0 <= i < DTLS1_HM_HEADER_LENGTH then h[i] else 0);
      reassembly := null;
      got := {};
      new;
      if msgLen > 0 {
        var mask := new byte[(msgLen + 7) / 8](_ => 0);
        forall i | 0 <= i < 8 * mask.Length ensures !BitAt(mask[i / 8], i % 8) { ZeroBit(i % 8); }
        reassembly := mask;
        assert 0 !in got;
      }
      assert data[..DTLS1_HM_HEADER_LENGTH] == h;
    }

    /** The bits of [start, end). */
    method SetBits(start: nat, end: nat)
      requires reassembly != null && start < end <= 8 * reassembly.Length
      requires MaskIs(reassembly[..], got)
      modifies reassembly
      ensures MaskIs(reassembly[..], got + Range(start, end))
    {
      hide MaskIs, BitAt, Or, BitRange;
      ghost var mask := reassembly[..];
      var first, last := start / 8, end / 8;
      if first == last {
        MarkPart(mask, got, first, start % 8, end % 8);
        reassembly[first] := Or(reassembly[first], BitRange(start % 8, end % 8));
        assert Range(8 * first + start % 8, 8 * first + end % 8) == Range(start, end);
        assert reassembly[..] == mask[first := Or(mask[first], BitRange(start % 8, end % 8))];
      } else {
        MarkPart(mask, got, first, start % 8, 8);
        reassembly[first] := Or(reassembly[first], BitRange(start % 8, 8));
        assert reassembly[..] == mask[first := Or(mask[first], BitRange(start % 8, 8))];
        assert Range(8 * first + start % 8, 8 * first + 8) == Range(start, 8 * (first + 1));
        var i := first + 1;
        while i < last
          invariant first < i <= last
          invariant MaskIs(reassembly[..], got + Range(start, 8 * i))
        {
          mask := reassembly[..];
          MarkWhole(mask, got + Range(start, 8 * i), i);
          reassembly[i] := 255;
          assert reassembly[..] == mask[i := 255];
          assert got + Range(start, 8 * i) + Range(8 * i, 8 * i + 8) == got + Range(start, 8 * (i + 1));
          i := i + 1;
        }
        if end % 8 != 0 {
          mask := reassembly[..];
          MarkPart(mask, got + Range(start, 8 * last), last, 0, end % 8);
          reassembly[last] := Or(reassembly[last], BitRange(0, end % 8));
          assert reassembly[..] == mask[last := Or(mask[last], BitRange(0, end % 8))];
          assert got + Range(start, 8 * last) + Range(8 * last + 0, 8 * last + end % 8) == got + Range(start, end);
        }
      }
    }

    /** The completeness check: whole bytes, then the rest of the last one. */
    method IsComplete() returns (complete: bool)
      requires reassembly != null && msgLen > 0 && reassembly.Length == (msgLen + 7) / 8
      requires MaskIs(reassembly[..], got) && forall i :: i in got ==> i < msgLen
      ensures complete <==> Covers(got, msgLen)
    {
      hide MaskIs, BitAt, BitRange;
      var i := 0;
      while i < msgLen / 8
        invariant i <= msgLen / 8 && Covers(got, 8 * i)
      {
        WholeByteTest(reassembly[..], got, i);
        if reassembly[i] != 255 {
          return false;
        }
        i := i + 1;
      }
      if msgLen % 8 != 0 {
        LastByteTest(reassembly[..], got, msgLen / 8, msgLen % 8);
        if reassembly[msgLen / 8] != BitRange(0, msgLen % 8) {
          return false;
        }
      }
      complete := true;
    }

    /** dtls1_hm_fragment_mark */
    method Mark(start: nat, end: nat)
      requires Valid() && reassembly != null && start <= end <= msgLen
      modifies this`reassembly, this`got, reassembly
      ensures Valid() && got == old(got) + Range(start, end)
      ensures Footprint() <= old(Footprint()) && data[..] == old(data[..])
    {
      hide MaskIs, BitAt, Or, BitRange;
      if start == end {
        return;
      }
      ghost var got' := got + Range(start, end);
      SetBits(start, end);
      got := got';
      var complete := IsComplete();
      if complete {
        reassembly := null;
      }
    }

    /** OPENSSL_memcpy of a fragment's body into place. */
    method CopyBody(off: nat, body: seq<byte>)
      requires data.Length == DTLS1_HM_HEADER_LENGTH + msgLen && off + |body| <= msgLen
      modifies data
      ensures data[..DTLS1_HM_HEADER_LENGTH] == old(data[..DTLS1_HM_HEADER_LENGTH])
      ensures var buffer := old(data[DTLS1_HM_HEADER_LENGTH..]);
        data[DTLS1_HM_HEADER_LENGTH..] == buffer[..off] + body + buffer[off + |body|..]
    {
      forall i | 0 <= i < |body| {
        data[DTLS1_HM_HEADER_LENGTH + off + i] := body[i];
      }
    }

    /** What dtls1_open_handshake does with a fragment of this message: unless the message
        is complete, copy the body into place and mark it. */
    method Receive(off: nat, body: seq<byte>)
      requires Valid() && off + |body| <= msgLen
      modifies this`reassembly, this`got, Footprint()
      ensures Valid() && Footprint() <= old(Footprint())
      ensures View() == old(View()).Merge(off, body)
    {
      hide MaskIs, Header, Known, Covers;
      if reassembly == null {
        return;
      }
      KnownAfterCopy(data[DTLS1_HM_HEADER_LENGTH..], got, off, body);
      CopyBody(off, body);
      ghost var copied := data[..];
      Mark(off, off + |body|);
      assert data[DTLS1_HM_HEADER_LENGTH..] == copied[DTLS1_HM_HEADER_LENGTH..];
      assert data[..DTLS1_HM_HEADER_LENGTH] == copied[..DTLS1_HM_HEADER_LENGTH];
    }

    /** The raw bytes dtls1_get_message hands out. */
    method Raw() returns (raw: seq<byte>)
      requires Valid() && reassembly == null
      ensures View().Complete() && raw == View().Raw(seq_)
    {
      raw := data[..];
      assert raw == View().Raw(seq_) by {
        var body := View().Body();
        assert raw[DTLS1_HM_HEADER_LENGTH..] == body;
        assert raw == raw[..DTLS1_HM_HEADER_LENGTH] + raw[DTLS1_HM_HEADER_LENGTH..];
      }
    }
  }
}
