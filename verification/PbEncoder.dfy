/** pb_encode.c over output streams. Every method is proved to write exactly the bytes
    PbCodec.dfy assigns to its arguments, on sizing streams (where only the count moves)
    as on writing streams (where it succeeds exactly when the bytes fit). */
module PbEncoder {
  import opened Wrappers
  import opened Bits
  import opened PbWire
  import opened PbTypes
  import opened PbCodec
  import opened PbStreams
  import opened PbIter

  /** size_t does not overflow: no submessage encodes to 2^64 bytes or more. */
  predicate ItemFits(f: Field, it: Item)
    requires LaidField(f) && TypedItem(f, it)
    decreases f, 1
  {
    f.ltype == LSubmessage ==>
      && StructFits(f.sub, it.slots)
      && (EncFrom(f.sub, 0, it.slots).Success? ==> |EncFrom(f.sub, 0, it.slots).value| < TWO64)
  }

  predicate SlotFits(f: Field, s: Slot)
    requires LaidField(f) && TypedSlot(f, s)
    decreases f, 2
  {
    match f.htype
    case Repeated => forall k :: 0 <= k < |s.items| ==> ItemFits(f, s.items[k])
    case OneOf => s.which == f.tag ==> ItemFits(f, s.item)
    case Required | Optional => ItemFits(f, s.item)
  }

  predicate StructFits(fields: seq<Field>, slots: seq<Slot>)
    requires Laid(fields) && TypedStruct(fields, slots)
    decreases fields, 3
  {
    forall i :: 0 <= i < |fields| ==> LaidField(fields[i]) && SlotFits(fields[i], slots[Home(fields, i)])
  }

  lemma IntItemLength(f: Field, it: Item)
    requires LaidField(f) && TypedItem(f, it) && f.ltype.Packable() && EncItem(f, it).Success?
    ensures |EncItem(f, it).value| <= 10
  {
    match f.ltype
    case LVarint | LUVarint => VarintAtMostTenBytes(U64(it.n));
    case LSVarint =>
      ZigzagRoundTrip(it.n);
      VarintAtMostTenBytes(Zigzag(it.n));
    case _ =>
  }

  lemma {:induction false} PackedLength(f: Field, items: seq<Item>)
    requires LaidField(f) && f.ltype.Packable() && forall k :: 0 <= k < |items| ==> TypedItem(f, items[k])
    requires EncPacked(f, items).Success?
    ensures |EncPacked(f, items).value| <= 10 * |items|
    ensures f.ltype == LFixed32 ==> |EncPacked(f, items).value| == 4 * |items|
    ensures f.ltype == LFixed64 ==> |EncPacked(f, items).value| == 8 * |items|
    decreases |items|
  {
    if items != [] {
      IntItemLength(f, items[0]);
      PackedLength(f, items[1..]);
    }
  }

  lemma {:induction false} FixedAlwaysPacks(f: Field, items: seq<Item>)
    requires LaidField(f) && f.ltype in {LFixed32, LFixed64} && forall k :: 0 <= k < |items| ==> TypedItem(f, items[k])
    ensures EncPacked(f, items).Success?
    decreases |items|
  {
    if items != [] { FixedAlwaysPacks(f, items[1..]); }
  }

  function KeyAndItem(f: Field, it: Item): Result<seq<byte>>
    requires LaidField(f) && TypedItem(f, it)
  {
    Then(Success(EncKey(f.ltype.Wire(), f.tag)), EncItem(f, it))
  }

  /** The entries from i on: the next one and the rest. */
  lemma ItemsUnfold(f: Field, items: seq<Item>, i: nat)
    requires LaidField(f) && i < |items| && forall k :: 0 <= k < |items| ==> TypedItem(f, items[k])
    ensures EncPacked(f, items[i..]) == Then(EncItem(f, items[i]), EncPacked(f, items[i + 1..]))
    ensures EncEach(f, items[i..]) == Then(KeyAndItem(f, items[i]), EncEach(f, items[i + 1..]))
  {
    assert items[i..][0] == items[i] && items[i..][1..] == items[i + 1..];
  }

  /** The pb_enc_* functions. */
  method EncodeItem(stream: PbOStream, f: Field, it: Item) returns (ok: bool)
    requires stream.Valid() && LaidField(f) && TypedItem(f, it) && ItemFits(f, it)
    modifies stream
    ensures stream.Wrote(ok, EncItem(f, it), old(stream.state), old(stream.bytesWritten), old(stream.maxSize))
    decreases f, 0
  {
    hide TypedStruct, StructFits, Laid, EncFrom, EncVarint, EncFixed, EncDelimited, Zigzag;
    match f.ltype
    case LVarint | LUVarint =>
      if IntSize(f.dataSize) {
        ok := stream.EncodeVarint(U64(it.n));
      } else {
        stream.SetError(InvalidDataSize);
        ok := false;
      }
    case LSVarint =>
      if IntSize(f.dataSize) {
        ok := stream.EncodeSVarint(it.n);
      } else {
        stream.SetError(InvalidDataSize);
        ok := false;
      }
    case LFixed32 => ok := stream.EncodeFixed(it.n, 4);
    case LFixed64 => ok := stream.EncodeFixed(it.n, 8);
    case LBytes =>
      if it.size + BYTES_HEADER > f.dataSize {
        stream.SetError(BytesSizeExceeded);
        return false;
      }
      ok := stream.EncodeString(it.mem[..it.size]);
    case LString =>
      var size := 0;
      while size < f.dataSize && it.mem[size] != 0
        invariant size <= f.dataSize
        invariant StrLen(it.mem) == size + StrLen(it.mem[size..])
      {
        assert it.mem[size..][1..] == it.mem[size + 1..];
        size := size + 1;
      }
      ok := stream.EncodeString(it.mem[..size]);
    case LFixedBytes => ok := stream.EncodeString(it.mem);
    case LSubmessage => ok := EncodeSubmessage(stream, f.sub, it.slots);
  }

  /** pb_encode_submessage: a sizing pass, the length, and a writing pass that must come
      to the same length. */
  method EncodeSubmessage(stream: PbOStream, fields: seq<Field>, src: seq<Slot>) returns (ok: bool)
    requires stream.Valid() && Laid(fields) && TypedStruct(fields, src) && StructFits(fields, src)
    requires Encode(fields, src).Success? ==> |Encode(fields, src).value| < TWO64
    modifies stream
    ensures stream.Wrote(ok, Delimit(Encode(fields, src)), old(stream.state), old(stream.bytesWritten),
      old(stream.maxSize))
    decreases fields, 6
  {
    hide TypedStruct, StructFits, EncFrom, Laid, EncVarint;
    var substream := new PbOStream.Sizing();
    ok := EncodeMessage(substream, fields, src);
    if !ok {
      stream.errmsg := substream.errmsg;
      return;
    }
    var size := substream.bytesWritten;
    ok := stream.EncodeVarint(size);
    if !ok { return; }
    if stream.sizing {
      stream.Count(size);
      return true;
    }
    if stream.bytesWritten + size > stream.maxSize {
      stream.SetError(StreamFull);
      return false;
    }
    substream := new PbOStream.Window(stream, size);
    ok := EncodeMessage(substream, fields, src);
    stream.bytesWritten := stream.bytesWritten + substream.bytesWritten;
    stream.state := substream.state;
    stream.errmsg := substream.errmsg;
    if substream.bytesWritten != size {
      // "submsg size changed"
      assert false;
    }
  }

  function Delimit(r: Result<seq<byte>>): Result<seq<byte>> {
    if r.Success? then Success(EncDelimited(r.value)) else r
  }

  /** encode_array */
  method EncodeArray(stream: PbOStream, f: Field, count: nat, items: seq<Item>) returns (ok: bool)
    requires stream.Valid() && LaidField(f) && |items| == f.arraySize && f.htype == Repeated
    requires forall k :: 0 <= k < |items| ==> TypedItem(f, items[k]) && ItemFits(f, items[k])
    modifies stream
    ensures stream.Wrote(ok, EncArray(f, count, items), old(stream.state), old(stream.bytesWritten),
      old(stream.maxSize))
    decreases f, 4
  {
    if count == 0 {
      return true;
    }
    if count > f.arraySize {
      stream.SetError(ArrayMaxSizeExceeded);
      return false;
    }
    ghost var a := items[..count];
    assert forall k :: 0 <= k < count ==> a[k] == items[k];
    if f.ltype.Packable() {
      ok := EncodePackedArray(stream, f, items[..count]);
    } else {
      ok := EncodeEachEntry(stream, f, items[..count]);
    }
  }

  /** The packed branch: key, payload size, payload. */
  method EncodePackedArray(stream: PbOStream, f: Field, a: seq<Item>) returns (ok: bool)
    requires stream.Valid() && LaidField(f) && 0 < |a| <= PB_SIZE_MAX && f.ltype.Packable()
    requires forall k :: 0 <= k < |a| ==> TypedItem(f, a[k]) && ItemFits(f, a[k])
    modifies stream
    ensures stream.Wrote(ok, Then(Success(EncKey(Delimited, f.tag)), Delimit(EncPacked(f, a))),
                         old(stream.state), old(stream.bytesWritten), old(stream.maxSize))
    decreases f, 3
  {
    ok := stream.EncodeTag(Delimited, f.tag);
    if !ok { return; }
    ghost var state1, written1 := stream.state, stream.bytesWritten;
    ok := EncodePackedPayload(stream, f, a);
    stream.Continued(ok, Success(EncKey(Delimited, f.tag)), Delimit(EncPacked(f, a)), Success([]),
                     old(stream.state), old(stream.bytesWritten), old(stream.maxSize), state1, written1);
    ThenLaws(Delimit(EncPacked(f, a)), Success([]), Success([]));
  }

  /** The total size of the array, then its entries. */
  method EncodePackedPayload(stream: PbOStream, f: Field, a: seq<Item>) returns (ok: bool)
    requires stream.Valid() && LaidField(f) && 0 < |a| <= PB_SIZE_MAX && f.ltype.Packable()
    requires forall k :: 0 <= k < |a| ==> TypedItem(f, a[k]) && ItemFits(f, a[k])
    modifies stream
    ensures stream.Wrote(ok, Delimit(EncPacked(f, a)), old(stream.state), old(stream.bytesWritten), old(stream.maxSize))
    decreases f, 2
  {
    hide EncPacked, EncItem, TypedItem, ItemFits, LaidField, EncVarint;
    var size: nat;
    if f.ltype == LFixed32 {
      size := 4 * |a|;
      FixedAlwaysPacks(f, a);
    } else if f.ltype == LFixed64 {
      size := 8 * |a|;
      FixedAlwaysPacks(f, a);
    } else {
      var sizestream := new PbOStream.Sizing();
      ok := EncodePackedEntries(sizestream, f, a);
      if !ok { return; }
      size := sizestream.bytesWritten;
    }
    PackedLength(f, a);
    ghost var p := EncPacked(f, a);
    ok := stream.EncodeVarint(size);
    if !ok { return; }
    if stream.sizing {
      stream.Count(size);
      return true;
    }
    ghost var state1, written1 := stream.state, stream.bytesWritten;
    ok := EncodePackedEntries(stream, f, a);
    stream.Continued(ok, Success(EncVarint(size)), p, Success([]),
                     old(stream.state), old(stream.bytesWritten), old(stream.maxSize), state1, written1);
    ThenLaws(p, Success([]), Success([]));
  }

  method EncodePackedEntries(stream: PbOStream, f: Field, a: seq<Item>) returns (ok: bool)
    requires stream.Valid() && LaidField(f) && f.ltype.Packable()
    requires forall k :: 0 <= k < |a| ==> TypedItem(f, a[k]) && ItemFits(f, a[k])
    modifies stream
    ensures stream.Wrote(ok, EncPacked(f, a), old(stream.state), old(stream.bytesWritten), old(stream.maxSize))
    decreases f, 1
  {
    hide EncItem, EncEach, TypedItem, ItemFits, LaidField, Then;
    var i := 0;
    ghost var done: Result<seq<byte>> := Success([]);
    assert a[0..] == a;
    ThenLaws(EncPacked(f, a), Success([]), Success([]));
    while i < |a|
      invariant i <= |a| && EncPacked(f, a) == Then(done, EncPacked(f, a[i..])) && done.Success?
      invariant stream.Wrote(true, done, old(stream.state), old(stream.bytesWritten), old(stream.maxSize))
    {
      ItemsUnfold(f, a, i);
      ghost var w, rest := EncItem(f, a[i]), EncPacked(f, a[i + 1..]);
      ghost var state1, written1 := stream.state, stream.bytesWritten;
      ok := EncodeItem(stream, f, a[i]);
      stream.Continued(ok, done, w, rest,
                       old(stream.state), old(stream.bytesWritten), old(stream.maxSize), state1, written1);
      if !ok { return; }
      ThenLaws(done, w, rest);
      done := Then(done, w);
      i := i + 1;
    }
    ThenLaws(done, Success([]), Success([]));
    ok := true;
  }

  /** The unpacked branch: every entry behind its own key. */
  method EncodeEachEntry(stream: PbOStream, f: Field, a: seq<Item>) returns (ok: bool)
    requires stream.Valid() && LaidField(f)
    requires forall k :: 0 <= k < |a| ==> TypedItem(f, a[k]) && ItemFits(f, a[k])
    modifies stream
    ensures stream.Wrote(ok, EncEach(f, a), old(stream.state), old(stream.bytesWritten), old(stream.maxSize))
    decreases f, 2
  {
    hide EncItem, EncPacked, TypedItem, ItemFits, LaidField, KeyAndItem, Then;
    var i := 0;
    ghost var done: Result<seq<byte>> := Success([]);
    assert a[0..] == a;
    ThenLaws(EncEach(f, a), Success([]), Success([]));
    while i < |a|
      invariant i <= |a| && EncEach(f, a) == Then(done, EncEach(f, a[i..])) && done.Success?
      invariant stream.Wrote(true, done, old(stream.state), old(stream.bytesWritten), old(stream.maxSize))
    {
      ItemsUnfold(f, a, i);
      ghost var w, rest := KeyAndItem(f, a[i]), EncEach(f, a[i + 1..]);
      ghost var state1, written1 := stream.state, stream.bytesWritten;
      ok := EncodeWithKey(stream, f, a[i]);
      stream.Continued(ok, done, w, rest,
                       old(stream.state), old(stream.bytesWritten), old(stream.maxSize), state1, written1);
      if !ok { return; }
      ThenLaws(done, w, rest);
      done := Then(done, w);
      i := i + 1;
    }
    ThenLaws(done, Success([]), Success([]));
    ok := true;
  }

  /** A key and the object behind it. */
  method EncodeWithKey(stream: PbOStream, f: Field, it: Item) returns (ok: bool)
    requires stream.Valid() && LaidField(f) && TypedItem(f, it) && ItemFits(f, it)
    modifies stream
    ensures stream.Wrote(ok, KeyAndItem(f, it), old(stream.state), old(stream.bytesWritten), old(stream.maxSize))
    decreases f, 1
  {
    hide EncItem, TypedItem, ItemFits;
    ok := stream.EncodeTag(f.ltype.Wire(), f.tag);
    if !ok { return; }
    ghost var state1, written1 := stream.state, stream.bytesWritten;
    ok := EncodeItem(stream, f, it);
    stream.Continued(ok, Success(EncKey(f.ltype.Wire(), f.tag)), EncItem(f, it), Success([]),
                     old(stream.state), old(stream.bytesWritten), old(stream.maxSize), state1, written1);
    ThenLaws(EncItem(f, it), Success([]), Success([]));
  }

  /** pb_check_proto3_default_value */
  method CheckProto3DefaultValue(f: Field, s: Slot) returns (b: bool)
    requires LaidField(f) && TypedSlot(f, s)
    ensures b == DefaultField(f, s)
    decreases f, 1
  {
    if f.htype == Required {
      return false;
    } else if f.htype == Repeated {
      return s.count == 0;
    } else if f.htype == OneOf {
      return s.which == 0;
    } else if f.sizeOffset != 0 {
      return !s.has;
    }
    match f.ltype
    case LBytes => b := s.item.size == 0;
    case LString => b := s.item.mem[0] == 0;
    case LFixedBytes => b := f.dataSize == 0;
    case LSubmessage => b := CheckSubmessageDefault(f.sub, s.item.slots);
    case LVarint | LUVarint | LSVarint | LFixed32 | LFixed64 => b := s.item.n == 0;
  }

  /** The loop over the fields of a singular submessage. */
  method CheckSubmessageDefault(fields: seq<Field>, slots: seq<Slot>) returns (b: bool)
    requires Laid(fields) && TypedStruct(fields, slots)
    ensures b == DefaultFieldsFrom(fields, 0, slots)
    decreases fields, 2
  {
    hide TypedSlot, LaidField, DefaultField, Laid, TypedStruct, ReqIndex, Offset, Home;
    var iter := new PbFieldIter(fields, 0);
    var more := iter.Begin();
    while more
      invariant iter.Valid() && iter.start == fields && fresh(iter)
      invariant more ==> fields != []
      invariant DefaultFieldsFrom(fields, 0, slots) == (more ==> DefaultFieldsFrom(fields, iter.pos, slots))
      decreases more, |fields| - iter.pos
    {
      FieldsUnfold(fields, iter.pos, slots);
      var isDefault := CheckProto3DefaultValue(fields[iter.pos], slots[iter.slot]);
      if !isDefault {
        return false;
      }
      more := iter.Next();
    }
    b := true;
  }

  /** encode_basic_field */
  method EncodeBasicField(stream: PbOStream, f: Field, s: Slot) returns (ok: bool)
    requires stream.Valid() && LaidField(f) && TypedSlot(f, s) && SlotFits(f, s)
    modifies stream
    ensures stream.Wrote(ok, EncField(f, s), old(stream.state), old(stream.bytesWritten), old(stream.maxSize))
    decreases f, 5
  {
    var implicitHas := true;
    if f.sizeOffset == 0 && f.htype == Optional {
      var isDefault := CheckProto3DefaultValue(f, s);
      implicitHas := !isDefault;
    }
    match f.htype
    case Required => ok := EncodeWithKey(stream, f, s.item);
    case Optional =>
      if (f.sizeOffset != 0 && s.has) || (f.sizeOffset == 0 && implicitHas) {
        ok := EncodeWithKey(stream, f, s.item);
      } else {
        ok := true;
      }
    case Repeated => ok := EncodeArray(stream, f, s.count, s.items);
    case OneOf =>
      if s.which == f.tag {
        ok := EncodeWithKey(stream, f, s.item);
      } else {
        ok := true;
      }
  }

  /** The fields from i on: the next one and the rest. */
  lemma FieldsUnfold(fields: seq<Field>, i: nat, src: seq<Slot>)
    requires Laid(fields) && TypedStruct(fields, src) && i < |fields|
    ensures |src| == |fields| && LaidField(fields[i]) && TypedSlot(fields[i], src[Home(fields, i)])
    ensures EncFrom(fields, i, src) == Then(EncField(fields[i], src[Home(fields, i)]), EncFrom(fields, i + 1, src))
    ensures DefaultFieldsFrom(fields, i, src)
        <==> DefaultField(fields[i], src[Home(fields, i)]) && DefaultFieldsFrom(fields, i + 1, src)
  {
    hide EncField, DefaultField, DistinctTags;
  }

  lemma FitsAt(fields: seq<Field>, i: nat, src: seq<Slot>)
    requires Laid(fields) && TypedStruct(fields, src) && i < |fields| && StructFits(fields, src)
    ensures |src| == |fields| && LaidField(fields[i]) && TypedSlot(fields[i], src[Home(fields, i)])
    ensures SlotFits(fields[i], src[Home(fields, i)])
  {
  }

  /** pb_encode: it succeeds exactly when the struct can be encoded and, unless only
      sizing, the bytes fit; it then writes exactly those bytes. */
  method EncodeMessage(stream: PbOStream, fields: seq<Field>, src: seq<Slot>) returns (ok: bool)
    requires stream.Valid() && Laid(fields) && TypedStruct(fields, src) && StructFits(fields, src)
    modifies stream
    ensures stream.Wrote(ok, Encode(fields, src), old(stream.state), old(stream.bytesWritten), old(stream.maxSize))
    decreases fields, 5
  {
    hide EncField, TypedSlot, SlotFits, LaidField, Then, DefaultFieldsFrom, Laid, TypedStruct, StructFits;
    var iter := new PbFieldIter(fields, 0);
    var more := iter.Begin();
    ghost var done: Result<seq<byte>> := Success([]);
    ThenLaws(Encode(fields, src), Success([]), Success([]));
    while more
      invariant iter.Valid() && iter.start == fields && fresh(iter)
      invariant more ==> fields != []
      invariant done.Success?
      invariant Encode(fields, src) == Then(done, EncFrom(fields, if more then iter.pos else |fields|, src))
      invariant stream.Wrote(true, done, old(stream.state), old(stream.bytesWritten), old(stream.maxSize))
      decreases more, |fields| - iter.pos
    {
      ghost var i := iter.pos;
      FieldsUnfold(fields, i, src);
      FitsAt(fields, i, src);
      ghost var w, rest := EncField(fields[i], src[Home(fields, i)]), EncFrom(fields, i + 1, src);
      ghost var state1, written1 := stream.state, stream.bytesWritten;
      ok := EncodeBasicField(stream, fields[iter.pos], src[iter.slot]);
      stream.Continued(ok, done, w, rest,
                       old(stream.state), old(stream.bytesWritten), old(stream.maxSize), state1, written1);
      if !ok { return; }
      ThenLaws(done, w, rest);
      done := Then(done, w);
      more := iter.Next();
    }
    ThenLaws(done, Success([]), Success([]));
    ok := true;
  }

  /** pb_get_encoded_size */
  method GetEncodedSize(fields: seq<Field>, src: seq<Slot>) returns (r: Option<nat>)
    requires Laid(fields) && TypedStruct(fields, src) && StructFits(fields, src)
    ensures r == match Encode(fields, src) case Success(b) => Some(|b|) case Failure(_) => None
  {
    var stream := new PbOStream.Sizing();
    var ok := EncodeMessage(stream, fields, src);
    if !ok {
      return None;
    }
    r := Some(stream.bytesWritten);
  }

  /** Two passes agree: with the size the first one found, the second one succeeds exactly
      when the buffer has that much room, and fills it with the encoding. */
  method EncodeToBuffer(fields: seq<Field>, src: seq<Slot>, bufsize: nat)
    returns (size: Option<nat>, out: Option<seq<byte>>)
    requires Laid(fields) && TypedStruct(fields, src) && StructFits(fields, src)
    ensures out.Some? <==> size.Some? && size.value <= bufsize
    ensures out.Some? ==> |out.value| == size.value && Encode(fields, src) == Success(out.value)
  {
    size := GetEncodedSize(fields, src);
    var stream := new PbOStream(bufsize);
    var ok := EncodeMessage(stream, fields, src);
    if ok { assert [] + Encode(fields, src).value == Encode(fields, src).value; }
    out := if ok then Some(stream.state) else None;
  }
}
