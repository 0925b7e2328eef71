/** What nanopb's encoder writes and what its decoder computes, as functions on
    descriptors, structs and byte strings. PbEncoder.dfy and PbDecoder.dfy hold the
    stream code that is proved to compute exactly these. */
module PbCodec {
  import opened Wrappers
  import opened Bits
  import opened PbWire
  import opened PbTypes

  // ---------------------------------------------------------------- encoding

  /** The length pb_enc_string finds: up to the first NUL, at most the array. */
  function StrLen(mem: seq<byte>): (n: nat)
    ensures n <= |mem|
    ensures n < |mem| ==> mem[n] == 0
    ensures forall i :: 0 <= i < n ==> mem[i] != 0
  {
    if mem == [] || mem[0] == 0 then 0 else 1 + StrLen(mem[1..])
  }

  function EncItem(f: Field, it: Item): (r: Result<seq<byte>>)
    requires LaidField(f) && TypedItem(f, it)
    ensures r.Success? ==> |r.value| >= 1
    decreases f, 1
  {
    match f.ltype
    case LVarint | LUVarint =>
      if IntSize(f.dataSize) then Success(EncVarint(U64(it.n))) else Failure(InvalidDataSize)
    case LSVarint =>
      if IntSize(f.dataSize) then Success(EncVarint(Zigzag(it.n))) else Failure(InvalidDataSize)
    case LFixed32 => Success(EncFixed(it.n, 4))
    case LFixed64 => Success(EncFixed(it.n, 8))
    case LBytes =>
      if it.size + BYTES_HEADER > f.dataSize then Failure(BytesSizeExceeded)
      else Success(EncDelimited(it.mem[..it.size]))
    case LString => Success(EncDelimited(it.mem[..StrLen(it.mem)]))
    case LFixedBytes => Success(EncDelimited(it.mem))
    case LSubmessage =>
      var m :- EncFrom(f.sub, 0, it.slots);
      Success(EncDelimited(m))
  }

  /** The entries of a packed array, one after the other. */
  function EncPacked(f: Field, items: seq<Item>): (r: Result<seq<byte>>)
    requires LaidField(f) && forall k :: 0 <= k < |items| ==> TypedItem(f, items[k])
    decreases f, 2, |items|
  {
    if items == [] then Success([])
    else
      var a :- EncItem(f, items[0]);
      var b :- EncPacked(f, items[1..]);
      Success(a + b)
  }

  /** The entries of an unpacked array, each behind its own key. */
  function EncEach(f: Field, items: seq<Item>): (r: Result<seq<byte>>)
    requires LaidField(f) && forall k :: 0 <= k < |items| ==> TypedItem(f, items[k])
    decreases f, 2, |items|
  {
    if items == [] then Success([])
    else
      var a :- EncItem(f, items[0]);
      var b :- EncEach(f, items[1..]);
      Success(EncKey(f.ltype.Wire(), f.tag) + a + b)
  }

  function EncArray(f: Field, count: nat, items: seq<Item>): Result<seq<byte>>
    requires LaidField(f) && |items| == f.arraySize && forall k :: 0 <= k < |items| ==> TypedItem(f, items[k])
    decreases f, 3
  {
    if count == 0 then Success([])
    else if count > f.arraySize then Failure(ArrayMaxSizeExceeded)
    else if f.ltype.Packable() then
      var p :- EncPacked(f, items[..count]);
      Success(EncKey(Delimited, f.tag) + EncDelimited(p))
    else EncEach(f, items[..count])
  }

  /** The singular branch of pb_check_proto3_default_value. */
  predicate DefaultItem(f: Field, it: Item)
    requires LaidField(f) && TypedItem(f, it)
    decreases f, 1
  {
    match f.ltype
    case LBytes => it.size == 0
    case LString => it.mem[0] == 0
    case LFixedBytes => f.dataSize == 0
    case LSubmessage => DefaultFieldsFrom(f.sub, 0, it.slots)
    case LVarint | LUVarint | LSVarint | LFixed32 | LFixed64 => it.n == 0
  }

  /** pb_check_proto3_default_value. */
  predicate DefaultField(f: Field, s: Slot)
    requires LaidField(f) && TypedSlot(f, s)
    decreases f, 2
  {
    match f.htype
    case Required => false
    case Repeated => s.count == 0
    case OneOf => s.which == 0
    case Optional => if f.sizeOffset != 0 then !s.has else DefaultItem(f, s.item)
  }

  predicate DefaultFieldsFrom(fields: seq<Field>, i: nat, slots: seq<Slot>)
    requires Laid(fields) && i <= |fields| && TypedStruct(fields, slots)
    decreases fields, |fields| - i
  {
    i == |fields| ||
    (assert LaidField(fields[i]);
     DefaultField(fields[i], slots[Home(fields, i)]) && DefaultFieldsFrom(fields, i + 1, slots))
  }

  /** Whether encode_basic_field writes the field at all (arrays decide by their count). */
  predicate Present(f: Field, s: Slot)
    requires LaidField(f) && TypedSlot(f, s)
  {
    match f.htype
    case Required => true
    case Optional => if f.sizeOffset != 0 then s.has else !DefaultItem(f, s.item)
    case Repeated => s.count > 0
    case OneOf => s.which == f.tag
  }

  function EncField(f: Field, s: Slot): Result<seq<byte>>
    requires LaidField(f) && TypedSlot(f, s)
    decreases f, 4
  {
    if f.htype == Repeated then EncArray(f, s.count, s.items)
    else if Present(f, s) then
      var b :- EncItem(f, s.item);
      Success(EncKey(f.ltype.Wire(), f.tag) + b)
    else Success([])
  }

  /** pb_encode from field i on. */
  function EncFrom(fields: seq<Field>, i: nat, slots: seq<Slot>): Result<seq<byte>>
    requires Laid(fields) && i <= |fields| && TypedStruct(fields, slots)
    decreases fields, |fields| - i
  {
    if i == |fields| then Success([])
    else
      assert LaidField(fields[i]);
      var a :- EncField(fields[i], slots[Home(fields, i)]);
      var b :- EncFrom(fields, i + 1, slots);
      Success(a + b)
  }

  function Encode(fields: seq<Field>, slots: seq<Slot>): Result<seq<byte>>
    requires Laid(fields) && TypedStruct(fields, slots)
  {
    EncFrom(fields, 0, slots)
  }

  // ---------------------------------------------------------------- decoding

  /** pb_dec_varint: 64-bit fields keep the value, smaller ones go through int32_t. */
  function VarintValue(f: Field, v: nat): (r: Result<int>)
    requires v < TWO64
    ensures r.Success? ==> SignedFits(f.dataSize, r.value)
  {
    var n := if f.dataSize == 8 then S64(v) else S32(v);
    if !IntSize(f.dataSize) then Failure(InvalidDataSize)
    else if SignedCast(f.dataSize, n) != n then Failure(IntegerTooLarge)
    else Success(n)
  }

  function UVarintValue(f: Field, v: nat): (r: Result<int>)
    ensures r.Success? ==> UnsignedFits(f.dataSize, r.value)
  {
    if !IntSize(f.dataSize) then Failure(InvalidDataSize)
    else if UnsignedCast(f.dataSize, v) != v then Failure(IntegerTooLarge)
    else Success(v)
  }

  function SVarintValue(f: Field, v: nat): (r: Result<int>)
    requires v < TWO64
    ensures r.Success? ==> SignedFits(f.dataSize, r.value)
  {
    var n := Unzigzag(v);
    if !IntSize(f.dataSize) then Failure(InvalidDataSize)
    else if SignedCast(f.dataSize, n) != n then Failure(IntegerTooLarge)
    else Success(n)
  }

  lemma {:induction false} Varint64Bound(s: seq<byte>, bitpos: nat, acc: nat)
    requires acc < TWO64 && DecVarint64From(s, bitpos, acc).Success?
    ensures DecVarint64From(s, bitpos, acc).value.value < TWO64
    decreases |s|
  {
    hide Or, Shl;
    GroupModulo(acc, s[0] % 128, bitpos);
    if s[0] >= 128 { Varint64Bound(s[1..], bitpos + 7, Or(acc, Shl(TWO64, s[0] % 128, bitpos))); }
  }

  function DecUInt64(s: seq<byte>): (r: Result<Read<nat>>)
    ensures r == DecVarint64(s)
    ensures r.Success? ==> r.value.value < TWO64 && |r.value.rest| < |s|
  {
    if DecVarint64(s).Success? then Varint64Bound(s, 0, 0); DecVarint64(s) else DecVarint64(s)
  }

  /** The bytes new from the front of mem, the rest as it was. */
  function Overwrite(mem: seq<byte>, new_: seq<byte>): (r: seq<byte>)
    requires |new_| <= |mem|
    ensures |r| == |mem|
  {
    new_ + mem[|new_|..]
  }

  /** The pb_dec_* functions: read one object over the old one. */
  function DecItem(f: Field, s: seq<byte>, old_: Item): (r: Result<Read<Item>>)
    requires LaidField(f) && TypedItem(f, old_)
    ensures r.Success? ==> |r.value.rest| < |s| && TypedItem(f, r.value.value)
    decreases |s|, 0
  {
    match f.ltype
    case LVarint =>
      var v :- DecUInt64(s);
      var n :- VarintValue(f, v.value);
      Success(Got(Num(n), v.rest))
    case LUVarint =>
      var v :- DecUInt64(s);
      var n :- UVarintValue(f, v.value);
      Success(Got(Num(n), v.rest))
    case LSVarint =>
      var v :- DecUInt64(s);
      var n :- SVarintValue(f, v.value);
      Success(Got(Num(n), v.rest))
    case LFixed32 =>
      var t :- Take(s, 4);
      Fixed32Bound(t.value);
      Success(Got(Num(FixedValue(t.value)), t.rest))
    case LFixed64 =>
      var t :- Take(s, 8);
      Fixed64Bound(t.value);
      Success(Got(Num(FixedValue(t.value)), t.rest))
    case LBytes =>
      var n :- DecVarint32(s);
      if n.value > PB_SIZE_MAX || n.value + BYTES_HEADER > f.dataSize then Failure(BytesOverflow)
      else
        var t :- Take(n.rest, n.value);
        Success(Got(Bytes(n.value, Overwrite(old_.mem, t.value)), t.rest))
    case LString =>
      var n :- DecVarint32(s);
      if n.value + 1 > f.dataSize then Failure(StringOverflow)
      else
        var t :- Take(n.rest, n.value);
        Success(Got(Chars(Overwrite(old_.mem, t.value + [0])), t.rest))
    case LFixedBytes =>
      var n :- DecVarint32(s);
      if n.value > PB_SIZE_MAX then Failure(BytesOverflow)
      else if n.value == 0 then Success(Got(Chars(Zeros(f.dataSize)), n.rest))
      else if n.value != f.dataSize then Failure(IncorrectFixedLength)
      else
        var t :- Take(n.rest, n.value);
        Success(Got(Chars(t.value), t.rest))
    case LSubmessage =>
      var p :- DecDelimited(s);
      var base := if f.htype == Repeated then Default(f.sub, old_.slots) else old_.slots;
      var m :- DecodeNoInit(f.sub, p.value, base);
      Success(Got(Struct(m.value), p.rest))
  }

  lemma Fixed32Bound(s: seq<byte>)
    requires |s| == 4
    ensures FixedValue(s) < TWO32
  {
    FixedBound(s);
    PowersOfTwo();
  }

  lemma Fixed64Bound(s: seq<byte>)
    requires |s| == 8
    ensures FixedValue(s) < TWO64
  {
    FixedBound(s);
    PowersOfTwo();
  }

  /** The entries of a packed payload, appended at count. */
  function DecPacked(f: Field, s: seq<byte>, count: nat, items: seq<Item>): (r: Result<(nat, seq<Item>)>)
    requires LaidField(f) && count <= PB_SIZE_MAX && |items| == f.arraySize
    requires forall k :: 0 <= k < |items| ==> TypedItem(f, items[k])
    ensures r.Success? ==> r.value.0 <= PB_SIZE_MAX && |r.value.1| == f.arraySize
    ensures r.Success? ==> forall k :: 0 <= k < |r.value.1| ==> TypedItem(f, r.value.1[k])
    decreases |s|, 1
  {
    if s == [] then Success((count, items))
    else if count >= f.arraySize then Failure(ArrayOverflow)
    else
      var e :- DecItem(f, s, items[count]);
      DecPacked(f, e.rest, count + 1, items[count := e.value])
  }

  /** decode_static_field. */
  function DecSlot(f: Field, wire: WireType, s: seq<byte>, slot: Slot): (r: Result<Read<Slot>>)
    requires LaidField(f) && TypedSlot(f, slot)
    ensures r.Success? ==> |r.value.rest| < |s| && TypedSlot(f, r.value.value)
    ensures r.Success? && r.value.value.Union? ==> r.value.value.which == f.tag
    decreases |s|, 2
  {
    match f.htype
    case Required =>
      var e :- DecItem(f, s, slot.item);
      Success(Got(Single(slot.has, e.value), e.rest))
    case Optional =>
      var e :- DecItem(f, s, slot.item);
      Success(Got(Single(if f.sizeOffset != 0 then true else slot.has, e.value), e.rest))
    case Repeated =>
      if wire == Delimited && f.ltype.Packable() then
        var p :- DecDelimited(s);
        var a :- DecPacked(f, p.value, slot.count, slot.items);
        Success(Got(Array(a.0, a.1), p.rest))
      else if slot.count >= f.arraySize then Failure(ArrayOverflow)
      else
        var e :- DecItem(f, s, slot.items[slot.count]);
        Success(Got(Array(slot.count + 1, slot.items[slot.count := e.value]), e.rest))
    case OneOf =>
      var e :- DecItem(f, s, UnionBase(f, slot));
      Success(Got(Union(f.tag, e.value), e.rest))
  }

  /** The member's memory when its turn comes: submessages start from their defaults. */
  function UnionBase(f: Field, slot: Slot): (it: Item)
    requires LaidField(f) && slot.Union?
    ensures TypedItem(f, it)
  {
    if f.ltype == LSubmessage then Struct(Default(f.sub, ZeroSlots(f.sub, 0)))
    else Retyped(f, slot.item)
  }

  /** The struct being decoded and the required fields met so far. */
  datatype State = State(slots: seq<Slot>, seen: set<nat>)

  function Seen(fields: seq<Field>, i: nat, seen: set<nat>): set<nat>
    requires i < |fields|
  {
    if fields[i].htype == Required && ReqIndex(fields, i) < PB_MAX_REQUIRED_FIELDS
    then seen + {ReqIndex(fields, i)}
    else seen
  }

  /** The check of pb_release_union_field: the member that is to be released exists. */
  predicate Releasable(fields: seq<Field>, f: Field, slot: Slot) {
    slot.Union? && slot.which != 0 && slot.which != f.tag ==> FieldOf(fields, slot.which).Some?
  }

  /** One turn of the loop in pb_decode_noinit, after the key. An empty message type
      matches tag 0 with its own terminator, whose data size no decoder accepts. */
  function DecOne(fields: seq<Field>, wire: WireType, tag: nat, s: seq<byte>, st: State): (r: Result<Read<State>>)
    requires Laid(fields) && TypedStruct(fields, st.slots)
    ensures r.Success? ==> |r.value.rest| < |s| && TypedStruct(fields, r.value.value.slots)
    decreases |s|, 3
  {
    match FieldOf(fields, tag)
    case None =>
      if fields == [] && tag == 0 then Failure(InvalidDataSize)
      else
        var rest :- Skip(s, wire);
        Success(Got(st, rest))
    case Some(i) =>
      assert LaidField(fields[i]);
      var h := Home(fields, i);
      if PB_ENABLE_MALLOC && !Releasable(fields, fields[i], st.slots[h]) then Failure(InvalidUnionTag)
      else
        var e :- DecSlot(fields[i], wire, s, st.slots[h]);
        StoreTyped(fields, st.slots, i, e.value);
        Success(Got(State(st.slots[h := e.value], Seen(fields, i, st.seen)), e.rest))
  }

  /** The loop of pb_decode_noinit. What follows a zero key is left unread. */
  function DecLoop(fields: seq<Field>, s: seq<byte>, st: State): (r: Result<Read<State>>)
    requires Laid(fields) && TypedStruct(fields, st.slots)
    ensures r.Success? ==> TypedStruct(fields, r.value.value.slots) && |r.value.rest| <= |s|
    decreases |s|, 4
  {
    if s == [] then Success(Got(st, s))
    else
      var k :- DecKey(s);
      match k.value
      case Eof => Success(Got(st, k.rest))
      case Key(wire, tag) =>
        var o :- DecOne(fields, wire, tag, k.rest, st);
        DecLoop(fields, o.rest, o.value)
  }

  /** The number of required fields pb_decode_noinit keeps track of. */
  function TrackedRequired(fields: seq<Field>): (n: nat)
    ensures n <= PB_MAX_REQUIRED_FIELDS
  {
    var n := ReqIndex(fields, |fields|);
    if n > PB_MAX_REQUIRED_FIELDS then PB_MAX_REQUIRED_FIELDS else n
  }

  predicate AllRequiredSeen(fields: seq<Field>, seen: set<nat>) {
    forall k :: 0 <= k < TrackedRequired(fields) ==> k in seen
  }

  function DecodeNoInit(fields: seq<Field>, s: seq<byte>, slots: seq<Slot>): (r: Result<Read<seq<Slot>>>)
    requires Laid(fields) && TypedStruct(fields, slots)
    ensures r.Success? ==> TypedStruct(fields, r.value.value) && |r.value.rest| <= |s|
    decreases |s|, 5
  {
    var l :- DecLoop(fields, s, State(slots, {}));
    if AllRequiredSeen(fields, l.value.seen) then Success(Got(l.value.slots, l.rest))
    else Failure(MissingRequiredField)
  }

  function Decode(fields: seq<Field>, s: seq<byte>, slots: seq<Slot>): (r: Result<Read<seq<Slot>>>)
    requires Laid(fields) && TypedStruct(fields, slots)
    ensures r.Success? ==> TypedStruct(fields, r.value.value) && |r.value.rest| <= |s|
  {
    DecodeNoInit(fields, s, Default(fields, slots))
  }
}
