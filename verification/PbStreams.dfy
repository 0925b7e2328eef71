/** pb_istream_t and pb_ostream_t over memory buffers, with the primitive readers and
    writers, each proved to do what PbWire.dfy says. */
module PbStreams {
  import opened Wrappers
  import opened Bits
  import opened PbWire
  import opened PbTypes
  import opened PbCodec

  // ---------------------------------------------------------------- input

  /** A window of a buffer: state is the read position, bytesLeft what pb_read may take. */
  class PbIStream {
    const buf: seq<byte>
    var state: nat
    var bytesLeft: nat

    ghost predicate Valid()
      reads this
    {
      state + bytesLeft <= |buf|
    }

    ghost function Rest(): (s: seq<byte>)
      requires Valid()
      reads this
      ensures |s| == bytesLeft
    {
      buf[state..state + bytesLeft]
    }

    /** Where the window ends: reading moves the start only. */
    ghost function End(): nat
      reads this
    {
      state + bytesLeft
    }

    /** pb_istream_from_buffer */
    constructor (buf: seq<byte>)
      ensures Valid() && Rest() == buf
    {
      this.buf := buf;
      state, bytesLeft := 0, |buf|;
    }

    /** *substream = *stream; substream->bytes_left = size */
    constructor Window(s: PbIStream, size: nat)
      requires s.state + size <= |s.buf|
      ensures Valid() && buf == s.buf && state == s.state && bytesLeft == size
    {
      buf := s.buf;
      state, bytesLeft := s.state, size;
    }

    /** pb_read on a buffer stream. */
    method Read(count: nat) returns (r: Result<seq<byte>>)
      requires Valid()
      modifies this
      ensures Valid() && End() == old(End())
      ensures match Take(old(Rest()), count)
              case Success(t) => r == Success(t.value) && Rest() == t.rest && state == old(state) + count
              case Failure(e) => r == Failure(e) && Rest() == old(Rest())
    {
      if bytesLeft < count {
        return Failure(EndOfStream);
      }
      var data := buf[state..state + count];
      assert data == Rest()[..count] && buf[state + count..state + bytesLeft] == Rest()[count..];
      state := state + count;
      bytesLeft := bytesLeft - count;
      r := Success(data);
    }

    /** pb_readbyte */
    method ReadByte() returns (r: Result<byte>)
      requires Valid()
      modifies this
      ensures Valid() && End() == old(End())
      ensures old(Rest()) == [] ==> r == Failure(EndOfStream) && Rest() == []
      ensures old(Rest()) != [] ==> r == Success(old(Rest())[0]) && Rest() == old(Rest())[1..]
    {
      if bytesLeft == 0 {
        return Failure(EndOfStream);
      }
      var b := buf[state];
      state := state + 1;
      bytesLeft := bytesLeft - 1;
      r := Success(b);
    }

    /** The result of a reading method is what the function on the remaining bytes gives. */
    ghost predicate Reads<T(!new)>(r: Result<T>, spec: Result<Read<T>>)
      requires Valid()
      reads this
    {
      match spec
      case Success(g) => r == Success(g.value) && Rest() == g.rest
      case Failure(_) => r.Failure?
    }

    /** pb_decode_varint */
    method DecodeVarint() returns (r: Result<nat>)
      requires Valid()
      modifies this
      ensures Valid() && End() == old(End()) && Reads(r, DecUInt64(old(Rest())))
    {
      hide Or, Shl;
      ghost var s := Rest();
      var bitpos: nat, result: nat := 0, 0;
      while true
        invariant Valid() && End() == old(End()) && DecVarint64From(Rest(), bitpos, result) == DecVarint64(s)
        decreases bytesLeft
      {
        if bitpos >= 64 {
          return Failure(VarintOverflow);
        }
        var b :- ReadByte();
        result := Or(result, Shl(TWO64, b % 128, bitpos));
        bitpos := bitpos + 7;
        if b < 128 {
          return Success(result);
        }
      }
    }

    /** pb_decode_varint32 */
    method DecodeVarint32() returns (r: Result<nat>)
      requires Valid()
      modifies this
      ensures Valid() && End() == old(End()) && Reads(r, DecVarint32(old(Rest())))
    {
      hide Or, Shl;
      ghost var s := Rest();
      var b :- ReadByte();
      if b < 128 {
        return Success(b);
      }
      var bitpos: nat, result: nat := 7, b % 128;
      while true
        invariant Valid() && End() == old(End()) && DecVarint32From(Rest(), bitpos, result) == DecVarint32(s)
        decreases bytesLeft
      {
        b :- ReadByte();
        if bitpos >= 32 {
          var signExtension := if bitpos < 63 then 0xFF else 0x01;
          if b % 128 != 0 && (result / TWO31 == 0 || b != signExtension) {
            return Failure(VarintOverflow);
          }
        } else {
          result := Or(result, Shl(TWO32, b % 128, bitpos));
        }
        bitpos := (bitpos + 7) % 256;
        if b < 128 {
          if bitpos == 35 && (b / 16) % 8 != 0 {
            return Failure(VarintOverflow);
          }
          return Success(result);
        }
      }
    }

    /** pb_decode_tag */
    method DecodeTag() returns (r: Result<Key>)
      requires Valid()
      modifies this
      ensures Valid() && End() == old(End()) && Reads(r, DecKey(old(Rest())))
    {
      if bytesLeft == 0 {
        return Success(Eof);
      }
      var temp :- DecodeVarint32();
      if temp == 0 {
        return Success(Eof);
      }
      r := Success(Key(WireOf(temp % 8), temp / 8));
    }

    /** pb_skip_varint */
    method SkipVarintBytes() returns (r: Result<()>)
      requires Valid()
      modifies this
      ensures Valid() && End() == old(End())
      ensures match SkipVarint(old(Rest()))
              case Success(t) => r.Success? && Rest() == t
              case Failure(_) => r.Failure?
    {
      ghost var s := Rest();
      while true
        invariant Valid() && End() == old(End()) && SkipVarint(Rest()) == SkipVarint(s)
        decreases bytesLeft
      {
        var b :- ReadByte();
        if b < 128 {
          return Success(());
        }
      }
    }

    /** pb_skip_field */
    method SkipField(wire: WireType) returns (r: Result<()>)
      requires Valid()
      modifies this
      ensures Valid() && End() == old(End())
      ensures match Skip(old(Rest()), wire)
              case Success(t) => r.Success? && Rest() == t
              case Failure(_) => r.Failure?
      ensures wire == Wire64 || wire == Wire32 ==>
        var k := if wire == Wire64 then 8 else 4;
        (r.Success? <==> k <= |old(Rest())|) && (r.Success? ==> Rest() == old(Rest())[k..])
    {
      match wire
      case Varint => r := SkipVarintBytes();
      case Wire64 => var t :- Read(8); r := Success(());
      case Delimited =>
        var n :- DecodeVarint32();
        var t :- Read(n);
        r := Success(());
      case Wire32 => var t :- Read(4); r := Success(());
      case OtherWire(_) => r := Failure(InvalidWireType);
    }

    /** pb_make_string_substream: the parent keeps its position and gives up the bytes. */
    method MakeSubstream() returns (r: Result<PbIStream>)
      requires Valid()
      modifies this
      ensures Valid()
      ensures match DecDelimited(old(Rest()))
              case Failure(_) => r.Failure?
              case Success(g) =>
                && r.Success? && fresh(r.value) && r.value.Valid() && r.value.buf == buf
                && r.value.Rest() == g.value && r.value.End() + bytesLeft == old(End()) <= |buf|
                && buf[r.value.End()..old(End())] == g.rest
    {
      var size :- DecodeVarint32();
      if bytesLeft < size {
        return Failure(ParentTooShort);
      }
      var sub := new PbIStream.Window(this, size);
      bytesLeft := bytesLeft - size;
      r := Success(sub);
    }

    /** pb_close_string_substream: what the substream left unread is skipped. */
    method CloseSubstream(sub: PbIStream)
      requires sub.Valid() && sub.buf == buf && this != sub
      requires sub.End() + bytesLeft <= |buf|
      modifies this, sub
      ensures Valid() && state == old(sub.End()) && bytesLeft == old(bytesLeft)
    {
      if sub.bytesLeft > 0 {
        var skipped := sub.Read(sub.bytesLeft);
      }
      state := sub.state;
    }
  }

  // ---------------------------------------------------------------- output

  /** One piece of output after another; the first error stands. */
  function Then(a: Result<seq<byte>>, b: Result<seq<byte>>): Result<seq<byte>> {
    if a.Failure? then a else if b.Failure? then b else Success(a.value + b.value)
  }

  lemma ThenLaws(a: Result<seq<byte>>, b: Result<seq<byte>>, c: Result<seq<byte>>)
    ensures Then(Then(a, b), c) == Then(a, Then(b, c))
    ensures Then(Success([]), a) == a && Then(a, Success([])) == a
  {
    if a.Success? && b.Success? && c.Success? {
      assert a.value + b.value + c.value == a.value + (b.value + c.value);
    }
    if a.Success? { assert [] + a.value == a.value && a.value + [] == a.value; }
  }

  /** The loop of pb_encode_varint: groups with the top bit set, cleared on the last one. */
  method VarintBytes(value: nat) returns (bytes: seq<byte>)
    requires 0 < value < TWO64
    ensures bytes == EncVarint(value)
  {
    hide EncVarint;
    VarintAtMostTenBytes(value);
    var buffer := new byte[10](_ => 0);
    var i: nat, v: nat := 0, value;
    while v > 0
      invariant i <= 10
      invariant v > 0 ==> EncVarint(value) == buffer[..i] + EncVarint(v)
      invariant v == 0 ==> i > 0 && buffer[i - 1] >= 128
      invariant v == 0 ==> EncVarint(value) == buffer[..i - 1] + [buffer[i - 1] - 128]
    {
      VarintUnfold(v);
      ghost var done := buffer[..i];
      buffer[i] := v % 128 + 128;
      assert buffer[..i] == done && buffer[..i + 1] == done + [v % 128 + 128];
      v := v / 128;
      i := i + 1;
    }
    buffer[i - 1] := buffer[i - 1] - 128;
    bytes := buffer[..i];
  }

  /** callback == NULL is the sizing stream; state is what the callback has received. */
  class PbOStream {
    const sizing: bool
    var state: seq<byte>
    var maxSize: nat
    var bytesWritten: nat
    var errmsg: Option<PbError>

    /** The limit holds at every moment, and the two-pass check has never fired. */
    ghost predicate Valid()
      reads this
    {
      && (!sizing ==> bytesWritten <= maxSize)
      && errmsg != Some(SubmsgSizeChanged)
    }

    /** pb_ostream_from_buffer */
    constructor (bufsize: nat)
      ensures Valid() && !sizing && state == [] && maxSize == bufsize && bytesWritten == 0
    {
      sizing, state, maxSize, bytesWritten, errmsg := false, [], bufsize, 0, None;
    }

    /** PB_OSTREAM_SIZING */
    constructor Sizing()
      ensures Valid() && sizing && state == [] && bytesWritten == 0
    {
      sizing, state, maxSize, bytesWritten, errmsg := true, [], 0, 0, None;
    }

    /** A writing stream that goes on where s is, with its own limit. */
    constructor Window(s: PbOStream, size: nat)
      ensures Valid() && !sizing && state == s.state && maxSize == size && bytesWritten == 0
    {
      sizing, state, maxSize, bytesWritten, errmsg := false, s.state, size, 0, None;
    }

    /** How a writing method that stands for the bytes (or the error) w ends: it succeeds
        exactly when there are bytes and they fit, and then it has written just them. */
    ghost predicate Wrote(ok: bool, w: Result<seq<byte>>, state0: seq<byte>, written0: nat, max0: nat)
      reads this
    {
      && Valid() && maxSize == max0
      && (ok <==> w.Success? && (sizing || written0 + |w.value| <= max0))
      && (ok ==> bytesWritten == written0 + |w.value|)
      && (ok ==> state == if sizing then state0 else state0 + w.value)
    }

    /** Output written after the bytes of a, itself followed by rest if it succeeded. */
    lemma Continued(ok: bool, a: Result<seq<byte>>, w: Result<seq<byte>>, rest: Result<seq<byte>>,
                    state0: seq<byte>, written0: nat, max0: nat, state1: seq<byte>, written1: nat)
      requires a.Success? && written1 == written0 + |a.value| && (!sizing ==> written1 <= max0)
      requires state1 == if sizing then state0 else state0 + a.value
      requires Wrote(ok, w, state1, written1, max0)
      ensures ok ==> Wrote(true, Then(a, w), state0, written0, max0)
      ensures !ok ==> Wrote(false, Then(a, Then(w, rest)), state0, written0, max0)
    {
      if ok && !sizing { assert state0 + a.value + w.value == state0 + (a.value + w.value); }
    }

    /** PB_SET_ERROR keeps the first message. */
    method SetError(e: PbError)
      requires e != SubmsgSizeChanged && Valid()
      modifies this`errmsg
      ensures Valid()
    {
      if errmsg == None { errmsg := Some(e); }
    }

    /** buf_write */
    method BufWrite(data: seq<byte>)
      modifies this`state
      ensures state == old(state) + data
    {
      var i := 0;
      while i < |data|
        invariant i <= |data| && state == old(state) + data[..i]
      {
        state := state + [data[i]];
        i := i + 1;
      }
      assert data[..i] == data;
    }

    /** pb_write */
    method Write(data: seq<byte>) returns (ok: bool)
      requires Valid()
      modifies this
      ensures Wrote(ok, Success(data), old(state), old(bytesWritten), old(maxSize))
      ensures !ok ==> state == old(state) && bytesWritten == old(bytesWritten)
    {
      if !sizing {
        if bytesWritten + |data| > maxSize {
          SetError(StreamFull);
          return false;
        }
        BufWrite(data);
      }
      bytesWritten := bytesWritten + |data|;
      ok := true;
    }

    /** pb_write(stream, NULL, size) on a sizing stream. */
    method Count(size: nat)
      requires Valid() && sizing
      modifies this
      ensures Valid() && maxSize == old(maxSize) && state == old(state) && bytesWritten == old(bytesWritten) + size
    {
      bytesWritten := bytesWritten + size;
    }

    /** pb_encode_varint */
    method EncodeVarint(value: nat) returns (ok: bool)
      requires Valid() && value < TWO64
      modifies this
      ensures Wrote(ok, Success(EncVarint(value)), old(state), old(bytesWritten), old(maxSize))
    {
      if value <= 0x7F {
        ok := Write([value]);
      } else {
        var bytes := VarintBytes(value);
        ok := Write(bytes);
      }
    }

    /** pb_encode_svarint */
    method EncodeSVarint(value: int) returns (ok: bool)
      requires Valid() && -TWO63 <= value < TWO63
      modifies this
      ensures Wrote(ok, Success(EncVarint(Zigzag(value))), old(state), old(bytesWritten), old(maxSize))
    {
      ZigzagRoundTrip(value);
      var zigzagged := if value < 0 then Not(TWO64, Shl(TWO64, U64(value), 1)) else Shl(TWO64, U64(value), 1);
      ok := EncodeVarint(zigzagged);
    }

    /** pb_encode_fixed32 (k = 4) and pb_encode_fixed64 (k = 8). */
    method EncodeFixed(value: nat, k: nat) returns (ok: bool)
      requires Valid()
      modifies this
      ensures Wrote(ok, Success(EncFixed(value, k)), old(state), old(bytesWritten), old(maxSize))
    {
      var bytes: seq<byte>, v: nat, i := [], value, 0;
      while i < k
        invariant i <= k && EncFixed(value, k) == bytes + EncFixed(v, k - i)
      {
        bytes, v, i := bytes + [v % 256], v / 256, i + 1;
      }
      ok := Write(bytes);
    }

    /** pb_encode_tag */
    method EncodeTag(wire: WireType, tag: nat) returns (ok: bool)
      requires Valid() && tag <= PB_SIZE_MAX && WireCode(wire) < 8
      modifies this
      ensures Wrote(ok, Success(EncKey(wire, tag)), old(state), old(bytesWritten), old(maxSize))
    {
      ok := EncodeVarint(tag * 8 + WireCode(wire));
    }

    /** pb_encode_string */
    method EncodeString(data: seq<byte>) returns (ok: bool)
      requires Valid() && |data| < TWO64
      modifies this
      ensures Wrote(ok, Success(EncDelimited(data)), old(state), old(bytesWritten), old(maxSize))
    {
      ok := EncodeVarint(|data|);
      if !ok { return; }
      ok := Write(data);
    }
  }
}
