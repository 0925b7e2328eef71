/** nanopb's message descriptors and the C structs they describe.

    A descriptor is the pb_field_t array the generator emits: a finite tree, since
    statically allocated structs nest finitely. A struct is a store with one slot per
    field. The members of a C union share the slot of the first member, exactly as the
    PB_SIZE_MAX marker in data_offset makes them share an address. */
module PbTypes {
  import opened Wrappers
  import opened Bits
  import opened PbWire

  /** The greatest pb_size_t: its width is one byte, or two with PB_FIELD_16BIT, or four with
      PB_FIELD_32BIT. */
  type SizeMax = n: nat | n == 0xFF || n == 0xFFFF || n == 0xFFFF_FFFF witness 0xFF

  /** That of the build, which is left open: what is proved holds for each of the three. */
  const PB_SIZE_MAX: SizeMax

  /** offsetof(pb_bytes_array_t, bytes) for that build. */
  const BYTES_HEADER: nat := if PB_SIZE_MAX == 0xFF then 1 else if PB_SIZE_MAX == 0xFFFF then 2 else 4

  /** Whether the build has dynamic memory, which is left open as well. Then a decoder about to
      overwrite a union looks up its old member first. */
  const PB_ENABLE_MALLOC: bool

  /** Tags end here in protocol buffers (2^29). */
  const TAG_END: nat := 0x2000_0000

  const PB_MAX_REQUIRED_FIELDS: nat := 64

  datatype LType =
    | LVarint | LUVarint | LSVarint | LFixed32 | LFixed64
    | LBytes | LString | LSubmessage | LFixedBytes
  {
    /** At most PB_LTYPE_LAST_PACKABLE. */
    predicate Packable() {
      LVarint? || LUVarint? || LSVarint? || LFixed32? || LFixed64?
    }

    /** The wire type pb_encode_tag_for_field writes. */
    function Wire(): WireType {
      match this
      case LFixed32 => Wire32
      case LFixed64 => Wire64
      case LBytes | LString | LSubmessage | LFixedBytes => Delimited
      case LVarint | LUVarint | LSVarint => Varint
    }
  }

  datatype HType = Required | Optional | Repeated | OneOf

  /** pb_field_t. The C member ptr is sub for submessages and init (the default value)
      for every other type. */
  datatype Field = Field(
    tag: nat, htype: HType, ltype: LType,
    dataOffset: nat, sizeOffset: int, dataSize: nat, arraySize: nat,
    init: Option<Item>, sub: seq<Field>)

  /** One C object: a number, a pb_bytes_array_t, a char or byte array, a struct. */
  datatype Item =
    | Num(n: int)
    | Bytes(size: nat, mem: seq<byte>)
    | Chars(mem: seq<byte>)
    | Struct(slots: seq<Slot>)

  /** The storage of a field: the object with its has_ flag, an array with its _count,
      a union with its which_ selector. */
  datatype Slot =
    | Single(has: bool, item: Item)
    | Array(count: nat, items: seq<Item>)
    | Union(which: nat, item: Item)

  // ---------------------------------------------------------------- layout

  /** Whether field i continues the union of field i - 1. */
  predicate InUnion(fields: seq<Field>, i: nat)
    requires i < |fields|
  {
    i > 0 && fields[i].htype == OneOf && fields[i - 1].htype == OneOf && fields[i].dataOffset == PB_SIZE_MAX
  }

  /** The field whose address field i has. */
  function Home(fields: seq<Field>, i: nat): (h: nat)
    requires i < |fields|
    ensures h <= i
    ensures h < i ==> fields[i].htype == OneOf && fields[h].htype == OneOf
  {
    if InUnion(fields, i) then Home(fields, i - 1) else i
  }

  /** Only union members share a slot. */
  lemma HomeShared(fields: seq<Field>, i: nat, j: nat)
    requires i < |fields| && j < |fields| && i != j && Home(fields, i) == Home(fields, j)
    ensures fields[i].htype == OneOf && fields[j].htype == OneOf
  {
  }

  /** The number of required fields before field i. */
  function ReqIndex(fields: seq<Field>, i: nat): (k: nat)
    requires i <= |fields|
    ensures k <= i
  {
    if i == 0 then 0
    else ReqIndex(fields, i - 1) + (if fields[i - 1].htype == Required then 1 else 0)
  }

  predicate DistinctTags(fields: seq<Field>) {
    forall i, j :: 0 <= i < j < |fields| ==> fields[i].tag != fields[j].tag
  }

  /** The field with a given tag. */
  function FieldOf(fields: seq<Field>, tag: nat): (r: Option<nat>)
    ensures r.Some? ==> r.value < |fields| && fields[r.value].tag == tag
    ensures r.None? ==> forall i :: 0 <= i < |fields| ==> fields[i].tag != tag
  {
    FieldBefore(fields, |fields|, tag)
  }

  function FieldBefore(fields: seq<Field>, k: nat, tag: nat): (r: Option<nat>)
    requires k <= |fields|
    ensures r.Some? ==> r.value < k && fields[r.value].tag == tag
    ensures r.None? ==> forall i :: 0 <= i < k ==> fields[i].tag != tag
  {
    if k == 0 then None
    else if fields[k - 1].tag == tag then Some(k - 1)
    else FieldBefore(fields, k - 1, tag)
  }

  lemma FieldOfUnique(fields: seq<Field>, i: nat)
    requires DistinctTags(fields) && i < |fields|
    ensures FieldOf(fields, fields[i].tag) == Some(i)
  {
  }

  /** What the generator guarantees of a descriptor: pb_size_t members, distinct positive
      tags, counters where they belong, default values of the field's own type. Fixed-count
      arrays are the ones excluded by the Repeated clause. */
  predicate Laid(fields: seq<Field>)
    decreases fields, 1
  {
    && DistinctTags(fields)
    && forall i :: 0 <= i < |fields| ==> LaidField(fields[i])
  }

  predicate LaidField(f: Field)
    decreases f, 0
  {
    && 1 <= f.tag <= PB_SIZE_MAX && f.tag < TAG_END
    && f.arraySize <= PB_SIZE_MAX && f.dataSize <= PB_SIZE_MAX
    && (f.htype == Required ==> f.sizeOffset == 0)
    && (f.htype == Repeated || f.htype == OneOf ==> f.sizeOffset != 0)
    && (f.ltype == LString ==> f.dataSize >= 1)
    && (f.ltype == LBytes ==> f.dataSize >= BYTES_HEADER)
    && (f.ltype != LSubmessage ==> f.init.None? || TypedItem(f, f.init.value))
    && Laid(f.sub)
  }

  // ---------------------------------------------------------------- C types

  /** The sizes pb_enc_varint and its relatives know. */
  predicate IntSize(k: nat) {
    k == 1 || k == 2 || k == 4 || k == 8
  }

  /** Half the number of values of a k-byte integer. */
  function IntHalf(k: nat): (h: int)
    ensures 128 <= h <= TWO63
  {
    if k == 1 then 0x80 else if k == 2 then 0x8000 else if k == 4 then TWO31 else TWO63
  }

  predicate SignedFits(k: nat, n: int) { -IntHalf(k) <= n < IntHalf(k) }

  predicate UnsignedFits(k: nat, n: int) { 0 <= n < 2 * IntHalf(k) }

  /** A C cast to a k-byte signed integer. */
  function SignedCast(k: nat, n: int): (r: int)
    ensures SignedFits(k, r)
    ensures SignedFits(k, n) <==> r == n
  {
    var u := n % (2 * IntHalf(k));
    if u >= IntHalf(k) then u - 2 * IntHalf(k) else u
  }

  /** A C cast to a k-byte unsigned integer. */
  function UnsignedCast(k: nat, n: int): (r: int)
    ensures UnsignedFits(k, r)
    ensures UnsignedFits(k, n) <==> r == n
  {
    n % (2 * IntHalf(k))
  }

  /** The object has the C type the descriptor gives the field. */
  predicate TypedItem(f: Field, it: Item)
    decreases f, 0
  {
    match f.ltype
    case LVarint | LSVarint => it.Num? && SignedFits(f.dataSize, it.n)
    case LUVarint => it.Num? && UnsignedFits(f.dataSize, it.n)
    case LFixed32 => it.Num? && 0 <= it.n < TWO32
    case LFixed64 => it.Num? && 0 <= it.n < TWO64
    case LBytes => it.Bytes? && it.size <= PB_SIZE_MAX && |it.mem| + BYTES_HEADER == f.dataSize
    case LString | LFixedBytes => it.Chars? && |it.mem| == f.dataSize
    case LSubmessage => it.Struct? && TypedStruct(f.sub, it.slots)
  }

  predicate TypedSlot(f: Field, s: Slot)
    decreases f, 1
  {
    match f.htype
    case Required | Optional => s.Single? && TypedItem(f, s.item)
    case Repeated =>
      && s.Array? && s.count <= PB_SIZE_MAX && |s.items| == f.arraySize
      && forall k :: 0 <= k < |s.items| ==> TypedItem(f, s.items[k])
    case OneOf => s.Union? && s.which <= PB_SIZE_MAX && (s.which == f.tag ==> TypedItem(f, s.item))
  }

  predicate TypedStruct(fields: seq<Field>, slots: seq<Slot>)
    decreases fields, 2
  {
    && |slots| == |fields|
    && forall i :: 0 <= i < |fields| ==> TypedSlot(fields[i], slots[Home(fields, i)])
  }

  /** Storing a slot keeps the struct typed. */
  lemma StoreTyped(fields: seq<Field>, slots: seq<Slot>, i: nat, s: Slot)
    requires Laid(fields) && TypedStruct(fields, slots) && i < |fields| && TypedSlot(fields[i], s)
    requires s.Union? ==> s.which == fields[i].tag || s.which == 0
    ensures TypedStruct(fields, slots[Home(fields, i) := s])
  {
    var slots' := slots[Home(fields, i) := s];
    forall j | 0 <= j < |fields| ensures TypedSlot(fields[j], slots'[Home(fields, j)]) {
      assert LaidField(fields[j]);
      if j != i && Home(fields, j) == Home(fields, i) { HomeShared(fields, i, j); }
    }
  }

  // ---------------------------------------------------------------- zeroed and default memory

  function Zeros(k: nat): (s: seq<byte>)
    ensures |s| == k
    ensures forall i :: 0 <= i < k ==> s[i] == 0
  {
    seq(k, i => 0)
  }

  /** memset(dest, 0, data_size). */
  function ZeroItem(f: Field): (it: Item)
    requires LaidField(f)
    ensures TypedItem(f, it)
    decreases f, 1
  {
    match f.ltype
    case LVarint | LSVarint | LUVarint | LFixed32 | LFixed64 => Num(0)
    case LBytes => Bytes(0, Zeros(f.dataSize - BYTES_HEADER))
    case LString | LFixedBytes => Chars(Zeros(f.dataSize))
    case LSubmessage => Struct(ZeroSlots(f.sub, 0))
  }

  function ZeroSlot(f: Field): (s: Slot)
    requires LaidField(f)
    ensures TypedSlot(f, s)
    ensures s.Union? ==> s.which == 0
    decreases f, 2
  {
    match f.htype
    case Required | Optional => Single(false, ZeroItem(f))
    case Repeated => var z := ZeroItem(f); Array(0, seq(f.arraySize, i => z))
    case OneOf => Union(0, Num(0))
  }

  function ZeroSlots(fields: seq<Field>, i: nat): (slots: seq<Slot>)
    requires Laid(fields) && i <= |fields|
    ensures |slots| == |fields| - i
    ensures forall j :: i <= j < |fields| ==> slots[j - i] == ZeroSlot(fields[j])
    ensures i == 0 ==> TypedStruct(fields, slots)
    decreases fields, |fields| - i
  {
    if i == |fields| then []
    else
      assert LaidField(fields[i]);
      [ZeroSlot(fields[i])] + ZeroSlots(fields, i + 1)
  }

  /** The data part of pb_field_set_to_default. */
  function InitItem(f: Field, it: Item): (r: Item)
    requires LaidField(f) && TypedItem(f, it)
    ensures TypedItem(f, r)
    decreases f, 1
  {
    if f.ltype == LSubmessage then Struct(DefaultFrom(f.sub, 0, it.slots))
    else if f.init.Some? then f.init.value
    else ZeroItem(f)
  }

  /** pb_field_set_to_default for a static field. */
  function DefaultSlot(f: Field, s: Slot): (r: Slot)
    requires LaidField(f) && TypedSlot(f, s)
    ensures TypedSlot(f, r)
    ensures r.Union? ==> r.which == 0
    decreases f, 2
  {
    match f.htype
    case Required => Single(s.has, InitItem(f, s.item))
    case Optional => Single(if f.sizeOffset != 0 then false else s.has, InitItem(f, s.item))
    case Repeated => Array(0, s.items)
    case OneOf => Union(0, s.item)
  }

  /** pb_message_set_to_defaults from field i on. */
  function DefaultFrom(fields: seq<Field>, i: nat, slots: seq<Slot>): (r: seq<Slot>)
    requires Laid(fields) && i <= |fields| && TypedStruct(fields, slots)
    ensures TypedStruct(fields, r)
    decreases fields, |fields| - i
  {
    if i == |fields| then slots
    else
      var h := Home(fields, i);
      assert LaidField(fields[i]);
      var s := DefaultSlot(fields[i], slots[h]);
      StoreTyped(fields, slots, i, s);
      DefaultFrom(fields, i + 1, slots[h := s])
  }

  function Default(fields: seq<Field>, slots: seq<Slot>): (r: seq<Slot>)
    requires Laid(fields) && TypedStruct(fields, slots)
    ensures TypedStruct(fields, r)
  {
    DefaultFrom(fields, 0, slots)
  }

  /** What a union's bytes read as when another member is about to be written. The
      old bytes of a different member are never visible, so zeros stand for them. */
  function Retyped(f: Field, it: Item): (r: Item)
    requires LaidField(f)
    ensures TypedItem(f, r)
  {
    if TypedItem(f, it) then it else ZeroItem(f)
  }
}
