/** Decoding what was encoded gives back the visible value of the struct: everything but
    the bytes after a NUL, the array entries past the count, the inactive union members
    and the contents of absent optional fields. */
module PbRoundTrip {
  import opened Wrappers
  import opened Bits
  import opened PbWire
  import opened PbTypes
  import opened PbCodec

  // ---------------------------------------------------------------- the visible value

  predicate SameItem(f: Field, a: Item, b: Item)
    requires TypedItem(f, a) && TypedItem(f, b)
    decreases f, 0
  {
    match f.ltype
    case LVarint | LUVarint | LSVarint | LFixed32 | LFixed64 => a.n == b.n
    case LBytes => a.size == b.size && (a.size <= |a.mem| ==> a.mem[..a.size] == b.mem[..a.size])
    case LString => a.mem[..StrLen(a.mem)] == b.mem[..StrLen(b.mem)]
    case LFixedBytes => a.mem == b.mem
    case LSubmessage => SameStruct(f.sub, a.slots, b.slots)
  }

  predicate SameSlot(f: Field, a: Slot, b: Slot)
    requires TypedSlot(f, a) && TypedSlot(f, b)
    decreases f, 1
  {
    match f.htype
    case Required => SameItem(f, a.item, b.item)
    case Optional =>
      if f.sizeOffset == 0 then SameItem(f, a.item, b.item)
      else a.has == b.has && (a.has ==> SameItem(f, a.item, b.item))
    case Repeated =>
      a.count == b.count && forall k :: 0 <= k < a.count && k < f.arraySize ==> SameItem(f, a.items[k], b.items[k])
    case OneOf =>
      a.which == b.which && (a.which == f.tag ==> SameItem(f, a.item, b.item))
  }

  predicate SameStruct(fields: seq<Field>, a: seq<Slot>, b: seq<Slot>)
    requires TypedStruct(fields, a) && TypedStruct(fields, b)
    decreases fields, 2
  {
    forall i :: 0 <= i < |fields| ==> SameSlot(fields[i], a[Home(fields, i)], b[Home(fields, i)])
  }

  // ---------------------------------------------------------------- what the theorem asks for

  /** Integer members of a size nanopb supports; no default value on proto3 singular fields. */
  predicate Codable(fields: seq<Field>)
    decreases fields, 1
  {
    forall i :: 0 <= i < |fields| ==> CodableField(fields[i])
  }

  predicate CodableField(f: Field)
    decreases f, 0
  {
    && (f.ltype == LVarint || f.ltype == LUVarint || f.ltype == LSVarint ==> IntSize(f.dataSize))
    && (f.htype == Optional && f.sizeOffset == 0 && f.ltype != LSubmessage ==> f.init.None?)
    && Codable(f.sub)
  }

  /** Byte counts within the array, strings terminated inside theirs. */
  predicate SoundItem(f: Field, it: Item)
    requires LaidField(f) && TypedItem(f, it)
    decreases f, 0
  {
    match f.ltype
    case LBytes => it.size + BYTES_HEADER <= f.dataSize
    case LString => StrLen(it.mem) < |it.mem|
    case LSubmessage => SoundStruct(f.sub, it.slots)
    case _ => true
  }

  predicate SoundSlot(f: Field, s: Slot)
    requires LaidField(f) && TypedSlot(f, s)
    decreases f, 1
  {
    match f.htype
    case Repeated => s.count <= f.arraySize && forall k :: 0 <= k < s.count ==> SoundItem(f, s.items[k])
    case _ => Present(f, s) ==> SoundItem(f, s.item)
  }

  /** A union selector is 0 or the tag of one of the members. */
  predicate SoundSelector(fields: seq<Field>, i: nat, s: Slot)
    requires i < |fields|
  {
    s.Union? ==>
      s.which == 0 || exists j :: 0 <= j < |fields| && Home(fields, j) == Home(fields, i) && fields[j].tag == s.which
  }

  predicate SoundStruct(fields: seq<Field>, slots: seq<Slot>)
    requires Laid(fields) && TypedStruct(fields, slots)
    decreases fields, 2
  {
    forall i :: 0 <= i < |fields| ==>
      && LaidField(fields[i])
      && SoundSlot(fields[i], slots[Home(fields, i)])
      && SoundSelector(fields, i, slots[Home(fields, i)])
  }

  /** The length in front of an encoded object fits 32 bits. That of bytes and strings always does. */
  predicate ItemPrefixFits(f: Field, it: Item)
    requires LaidField(f) && TypedItem(f, it)
  {
    f.ltype == LSubmessage ==>
      var m := EncFrom(f.sub, 0, it.slots);
      m.Success? ==> |m.value| < TWO32
  }

  predicate SlotPrefixesFit(f: Field, s: Slot)
    requires LaidField(f) && TypedSlot(f, s)
  {
    if f.htype != Repeated then Present(f, s) ==> ItemPrefixFits(f, s.item)
    else if s.count > f.arraySize then true
    else if f.ltype.Packable() then
      var p := EncPacked(f, s.items[..s.count]);
      p.Success? ==> |p.value| < TWO32
    else forall k :: 0 <= k < s.count ==> ItemPrefixFits(f, s.items[k])
  }

  predicate PrefixesFit(fields: seq<Field>, slots: seq<Slot>)
    requires Laid(fields) && TypedStruct(fields, slots)
  {
    forall i :: 0 <= i < |fields| ==> LaidField(fields[i]) && SlotPrefixesFit(fields[i], slots[Home(fields, i)])
  }

  lemma {:induction false} ShortEntriesFit(f: Field, items: seq<Item>, k: nat)
    requires LaidField(f) && forall j :: 0 <= j < |items| ==> TypedItem(f, items[j])
    requires EncEach(f, items).Success? && |EncEach(f, items).value| < TWO32 && k < |items|
    ensures ItemPrefixFits(f, items[k])
    decreases |items|
  {
    hide TypedItem;
    ShortItemFits(f, items[0]);
    if k > 0 {
      assert items[k] == items[1..][k - 1];
      ShortEntriesFit(f, items[1..], k - 1);
    }
  }

  lemma ShortItemFits(f: Field, it: Item)
    requires LaidField(f) && TypedItem(f, it) && EncItem(f, it).Success? && |EncItem(f, it).value| < TWO32
    ensures ItemPrefixFits(f, it)
  {
    if f.ltype == LSubmessage { PackedFits(EncFrom(f.sub, 0, it.slots).value); }
  }

  lemma ShortFieldFits(f: Field, s: Slot)
    requires LaidField(f) && TypedSlot(f, s) && EncField(f, s).Success? && |EncField(f, s).value| < TWO32
    ensures SlotPrefixesFit(f, s)
  {
    hide TypedItem, EncItem, EncEach, EncPacked, ItemPrefixFits, DefaultItem, EncDelimited;
    if f.htype != Repeated {
      if Present(f, s) { ShortItemFits(f, s.item); }
    } else if 0 < s.count <= f.arraySize {
      var a := s.items[..s.count];
      if f.ltype.Packable() {
        PackedFits(EncPacked(f, a).value);
      } else {
        forall k | 0 <= k < s.count ensures ItemPrefixFits(f, s.items[k]) {
          assert s.items[k] == a[k];
          ShortEntriesFit(f, a, k);
        }
      }
    } else {
      NoEntriesFit(f, s);
    }
  }

  lemma NoEntriesFit(f: Field, s: Slot)
    requires LaidField(f) && TypedSlot(f, s) && f.htype == Repeated && (s.count == 0 || s.count > f.arraySize)
    ensures SlotPrefixesFit(f, s)
  {
    if s.count == 0 && s.count <= f.arraySize { assert s.items[..0] == []; }
  }

  /** An encoding below 2^32 bytes has no longer part. */
  lemma {:induction false} ShortEncodingFits(fields: seq<Field>, k: nat, slots: seq<Slot>)
    requires Laid(fields) && k <= |fields| && TypedStruct(fields, slots)
    requires EncFrom(fields, k, slots).Success? && |EncFrom(fields, k, slots).value| < TWO32
    ensures forall i :: k <= i < |fields| ==>
      LaidField(fields[i]) && SlotPrefixesFit(fields[i], slots[Home(fields, i)])
    decreases |fields| - k
  {
    hide LaidField, TypedSlot, EncField, SlotPrefixesFit, DistinctTags;
    if k < |fields| {
      assert LaidField(fields[k]) && TypedSlot(fields[k], slots[Home(fields, k)]);
      ShortFieldFits(fields[k], slots[Home(fields, k)]);
      ShortEncodingFits(fields, k + 1, slots);
    }
  }

  lemma ShortStructFits(fields: seq<Field>, slots: seq<Slot>)
    requires Laid(fields) && TypedStruct(fields, slots)
    requires EncFrom(fields, 0, slots).Success? && |EncFrom(fields, 0, slots).value| < TWO32
    ensures PrefixesFit(fields, slots)
  {
    ShortEncodingFits(fields, 0, slots);
  }

  lemma PackedFits(p: seq<byte>)
    ensures |p| < |EncDelimited(p)|
  {
  }

  // ---------------------------------------------------------------- freshly initialised memory

  /** An object without default value, as memset leaves it. */
  predicate EmptyItem(f: Field, it: Item)
    requires TypedItem(f, it)
  {
    match f.ltype
    case LBytes => it.size == 0
    case LString => |it.mem| > 0 && it.mem[0] == 0
    case LFixedBytes | LSubmessage => true
    case LVarint | LUVarint | LSVarint | LFixed32 | LFixed64 => it.n == 0
  }

  /** What decoding relies on in the struct it writes to. */
  predicate FreshSlot(f: Field, s: Slot)
    requires TypedSlot(f, s)
    decreases f, 1
  {
    match f.htype
    case Required =>
      assert TypedItem(f, s.item);
      f.ltype == LSubmessage ==> FreshStruct(f.sub, s.item.slots)
    case Optional =>
      assert TypedItem(f, s.item);
      if f.ltype == LSubmessage then FreshStruct(f.sub, s.item.slots) && (f.sizeOffset != 0 ==> !s.has)
      else if f.sizeOffset != 0 then !s.has
      else EmptyItem(f, s.item)
    case Repeated => s.count == 0
    case OneOf => s.which == 0
  }

  predicate FreshStruct(fields: seq<Field>, slots: seq<Slot>)
    requires TypedStruct(fields, slots)
    decreases fields, 2
  {
    forall i :: 0 <= i < |fields| ==> FreshSlot(fields[i], slots[Home(fields, i)])
  }

  lemma {:induction false} DefaultSlotIsFresh(f: Field, s: Slot)
    requires LaidField(f) && CodableField(f) && TypedSlot(f, s)
    ensures FreshSlot(f, DefaultSlot(f, s))
    decreases f, 1
  {
    if f.ltype == LSubmessage && (f.htype == Required || f.htype == Optional) {
      DefaultFromIsFresh(f.sub, 0, s.item.slots);
    }
  }

  lemma EmptyUnionIsFresh(f: Field, s: Slot)
    requires f.htype == OneOf && TypedSlot(f, s) && (s.Union? ==> s.which == 0)
    ensures FreshSlot(f, s)
  {
  }

  /** pb_message_set_to_defaults leaves every field it has passed fresh. */
  lemma {:induction false} DefaultFromIsFresh(fields: seq<Field>, k: nat, slots: seq<Slot>)
    requires Laid(fields) && Codable(fields) && k <= |fields| && TypedStruct(fields, slots)
    requires forall i :: 0 <= i < k ==> FreshSlot(fields[i], slots[Home(fields, i)])
    ensures FreshStruct(fields, DefaultFrom(fields, k, slots))
    decreases fields, |fields| - k
  {
    hide FreshSlot, TypedSlot, DefaultSlot, LaidField, CodableField, DistinctTags;
    if k < |fields| {
      assert LaidField(fields[k]) && CodableField(fields[k]);
      var h := Home(fields, k);
      var s := DefaultSlot(fields[k], slots[h]);
      DefaultSlotIsFresh(fields[k], slots[h]);
      StoreTyped(fields, slots, k, s);
      var slots' := slots[h := s];
      forall i | 0 <= i < k + 1 ensures FreshSlot(fields[i], slots'[Home(fields, i)]) {
        if i < k && Home(fields, i) == h {
          HomeShared(fields, i, k);
          EmptyUnionIsFresh(fields[i], s);
        }
      }
      DefaultFromIsFresh(fields, k + 1, slots');
    }
  }

  lemma DefaultIsFresh(fields: seq<Field>, slots: seq<Slot>)
    requires Laid(fields) && Codable(fields) && TypedStruct(fields, slots)
    ensures FreshStruct(fields, Default(fields, slots))
  {
    DefaultFromIsFresh(fields, 0, slots);
  }

  /** Whether a field of that description is ever recognised as default: never when it is required
      or a fixed-length byte array without presence, nor when it is a submessage without presence
      that holds such a field. */
  predicate TellsDefault(f: Field)
    decreases f
  {
    && f.htype != Required
    && (f.htype == Optional && f.sizeOffset == 0 ==>
      && (f.ltype == LFixedBytes ==> f.dataSize == 0)
      && (f.ltype == LSubmessage ==> forall i :: 0 <= i < |f.sub| ==> TellsDefault(f.sub[i])))
  }

  /** The encoder takes a field for default exactly when its description allows that and it looks
      like fresh memory. */
  lemma {:induction false} DefaultExactly(f: Field, a: Slot, b: Slot)
    requires LaidField(f) && TypedSlot(f, a) && TypedSlot(f, b) && FreshSlot(f, b)
    ensures DefaultField(f, a) <==> TellsDefault(f) && SameSlot(f, a, b)
    decreases f, 1
  {
    if f.htype == Optional && f.sizeOffset == 0 {
      if f.ltype == LSubmessage {
        var x, y := a.item.slots, b.item.slots;
        DefaultStructExactly(f.sub, 0, x, y);
        assert DefaultField(f, a) == DefaultFieldsFrom(f.sub, 0, x);
        assert SameSlot(f, a, b) == SameStruct(f.sub, x, y);
        assert SameStruct(f.sub, x, y) == forall i :: 0 <= i < |f.sub| ==>
          SameSlot(f.sub[i], x[Home(f.sub, i)], y[Home(f.sub, i)]);
      } else if f.ltype == LString {
        assert StrLen(b.item.mem) == 0;
        assert StrLen(a.item.mem) == 0 <==> a.item.mem[0] == 0;
      }
    }
  }

  lemma {:induction false} DefaultStructExactly(fields: seq<Field>, k: nat, a: seq<Slot>, b: seq<Slot>)
    requires Laid(fields) && k <= |fields| && TypedStruct(fields, a) && TypedStruct(fields, b)
    requires FreshStruct(fields, b)
    ensures DefaultFieldsFrom(fields, k, a) <==>
      forall i :: k <= i < |fields| ==>
        TellsDefault(fields[i]) && SameSlot(fields[i], a[Home(fields, i)], b[Home(fields, i)])
    decreases fields, |fields| - k
  {
    hide TypedSlot, FreshSlot, SameSlot, LaidField, DefaultField, DistinctTags, TellsDefault;
    if k < |fields| {
      var h := Home(fields, k);
      assert LaidField(fields[k]) && FreshSlot(fields[k], b[h]);
      DefaultExactly(fields[k], a[h], b[h]);
      DefaultStructExactly(fields, k + 1, a, b);
    }
  }

  /** For example, one zero byte of fixed length, which is its own default. */
  lemma DefaultMissed(f: Field)
    requires LaidField(f) && f.htype == Optional && f.sizeOffset == 0 && f.ltype == LFixedBytes && f.dataSize == 1
    ensures var s := Single(false, Chars([0]));
      TypedSlot(f, s) && FreshSlot(f, s) && SameSlot(f, s, ZeroSlot(f)) && !DefaultField(f, s)
  {
    assert Zeros(1) == [0];
  }

  // ---------------------------------------------------------------- defaults hide the old memory

  /** pb_field_set_to_default leaves nothing visible of what the slot held. */
  lemma {:induction false} DefaultForgets(f: Field, a: Slot, b: Slot)
    requires LaidField(f) && TypedSlot(f, a) && TypedSlot(f, b)
    ensures SameSlot(f, DefaultSlot(f, a), DefaultSlot(f, b))
    decreases f, 1
  {
    if f.ltype == LSubmessage && (f.htype == Required || f.htype == Optional) {
      DefaultStructForgets(f.sub, 0, a.item.slots, b.item.slots);
    }
  }

  lemma EmptyUnionsAreSame(f: Field, a: Slot, b: Slot)
    requires LaidField(f) && f.htype == OneOf && TypedSlot(f, a) && TypedSlot(f, b)
    requires a.Union? && b.Union? ==> a.which == b.which == 0
    ensures SameSlot(f, a, b)
  {
  }

  lemma {:induction false} DefaultStructForgets(fields: seq<Field>, k: nat, a: seq<Slot>, b: seq<Slot>)
    requires Laid(fields) && k <= |fields| && TypedStruct(fields, a) && TypedStruct(fields, b)
    requires forall i :: 0 <= i < k ==> SameSlot(fields[i], a[Home(fields, i)], b[Home(fields, i)])
    ensures SameStruct(fields, DefaultFrom(fields, k, a), DefaultFrom(fields, k, b))
    decreases fields, |fields| - k
  {
    hide SameSlot, TypedSlot, DefaultSlot, LaidField, DistinctTags;
    if k < |fields| {
      assert LaidField(fields[k]);
      var h := Home(fields, k);
      var s, t := DefaultSlot(fields[k], a[h]), DefaultSlot(fields[k], b[h]);
      DefaultForgets(fields[k], a[h], b[h]);
      StoreTyped(fields, a, k, s);
      StoreTyped(fields, b, k, t);
      var a', b' := a[h := s], b[h := t];
      forall i | 0 <= i < k + 1 ensures SameSlot(fields[i], a'[Home(fields, i)], b'[Home(fields, i)]) {
        if i < k && Home(fields, i) == h {
          HomeShared(fields, i, k);
          assert LaidField(fields[i]);
          EmptyUnionsAreSame(fields[i], s, t);
        }
      }
      DefaultStructForgets(fields, k + 1, a', b');
    }
  }

  // ---------------------------------------------------------------- one object

  lemma SignedRoundTrip(f: Field, n: int)
    requires IntSize(f.dataSize) && SignedFits(f.dataSize, n)
    ensures VarintValue(f, U64(n)) == Success(n)
  {
    if f.dataSize == 8 {
      assert S64(U64(n)) == n;
    } else {
      assert -TWO31 <= n < TWO31;
      S32OfU64(n);
    }
  }

  lemma S32OfU64(n: int)
    requires -TWO31 <= n < TWO31
    ensures S32(U64(n)) == n
  {
    ModMod(n);
  }

  lemma ModMod(n: int)
    ensures (n % TWO64) % TWO32 == n % TWO32
  {
    var q, u := n / TWO64, n % TWO64;
    var q', r := u / TWO32, u % TWO32;
    ModUnique(n, TWO32, TWO32 * q + q', r);
  }

  lemma StringRoundTrip(mem: seq<byte>, old_: seq<byte>)
    requires |mem| == |old_| && StrLen(mem) < |mem|
    ensures var t := mem[..StrLen(mem)];
      var r := Overwrite(old_, t + [0]);
      StrLen(r) == StrLen(mem) && r[..StrLen(r)] == t
  {
    var n := StrLen(mem);
    var r := Overwrite(old_, mem[..n] + [0]);
    assert forall i :: 0 <= i < n ==> r[i] == mem[i];
    assert r[n] == 0;
    var m := StrLen(r);
    assert m == n;
  }

  /** Integers, whatever the memory. */
  lemma NumberRoundTrip(f: Field, a: Item, bytes: seq<byte>, old_: Item, rest: seq<byte>)
    requires LaidField(f) && CodableField(f) && TypedItem(f, a) && TypedItem(f, old_) && f.ltype.Packable()
    requires EncItem(f, a) == Success(bytes)
    ensures DecItem(f, bytes + rest, old_) == Success(Got(a, rest))
  {
    hide DecVarint64From, EncVarint, Zigzag, Unzigzag, EncFixed, FixedValue, Laid, Codable;
    match f.ltype
    case LVarint =>
      Varint64RoundTrip(U64(a.n), rest);
      SignedRoundTrip(f, a.n);
    case LUVarint =>
      Varint64RoundTrip(U64(a.n), rest);
    case LSVarint =>
      ZigzagRoundTrip(a.n);
      Varint64RoundTrip(Zigzag(a.n), rest);
    case LFixed32 =>
      FixedItem(a.n, 4, rest);
    case LFixed64 =>
      FixedItem(a.n, 8, rest);
    case _ =>
  }

  /** Byte and character arrays: the visible part arrives, the rest of the memory stays. */
  lemma BlobRoundTrip(f: Field, a: Item, bytes: seq<byte>, old_: Item, rest: seq<byte>) returns (b: Item)
    requires LaidField(f) && TypedItem(f, a) && TypedItem(f, old_) && SoundItem(f, a)
    requires f.ltype == LBytes || f.ltype == LString || f.ltype == LFixedBytes
    requires EncItem(f, a) == Success(bytes)
    ensures DecItem(f, bytes + rest, old_) == Success(Got(b, rest))
    ensures TypedItem(f, b) && SameItem(f, a, b)
  {
    hide DecVarint32, EncVarint, EncDelimited, Laid;
    match f.ltype
    case LBytes =>
      var t := a.mem[..a.size];
      PrefixRoundTrip(t, rest);
      b := Bytes(a.size, Overwrite(old_.mem, t));
      assert b.mem[..a.size] == t;
    case LString =>
      var t := a.mem[..StrLen(a.mem)];
      PrefixRoundTrip(t, rest);
      StringRoundTrip(a.mem, old_.mem);
      b := Chars(Overwrite(old_.mem, t + [0]));
    case LFixedBytes =>
      PrefixRoundTrip(a.mem, rest);
      b := a;
  }

  /** Decoding one encoded object over fresh memory. */
  lemma {:induction false} ItemRoundTrip(f: Field, a: Item, bytes: seq<byte>, old_: Item, rest: seq<byte>)
    returns (b: Item)
    requires LaidField(f) && CodableField(f) && TypedItem(f, a) && TypedItem(f, old_) && SoundItem(f, a)
    requires EncItem(f, a) == Success(bytes) && ItemPrefixFits(f, a)
    requires f.ltype == LSubmessage && f.htype != Repeated ==> FreshStruct(f.sub, old_.slots)
    ensures DecItem(f, bytes + rest, old_) == Success(Got(b, rest))
    ensures TypedItem(f, b) && SameItem(f, a, b)
    decreases f, 5
  {
    if f.ltype.Packable() {
      NumberRoundTrip(f, a, bytes, old_, rest);
      b := a;
    } else if f.ltype == LSubmessage {
      b := SubmessageRoundTrip(f, a, bytes, old_, rest);
    } else {
      b := BlobRoundTrip(f, a, bytes, old_, rest);
    }
  }

  lemma {:induction false} SubmessageRoundTrip(f: Field, a: Item, bytes: seq<byte>, old_: Item, rest: seq<byte>)
    returns (b: Item)
    requires LaidField(f) && CodableField(f) && TypedItem(f, a) && TypedItem(f, old_) && SoundItem(f, a)
    requires f.ltype == LSubmessage && EncItem(f, a) == Success(bytes) && ItemPrefixFits(f, a)
    requires f.htype != Repeated ==> FreshStruct(f.sub, old_.slots)
    ensures DecItem(f, bytes + rest, old_) == Success(Got(b, rest))
    ensures TypedItem(f, b) && SameItem(f, a, b)
    decreases f, 4
  {
    hide Laid, Codable, TypedStruct, SoundStruct, SameStruct, FreshStruct, DecodeNoInit, EncFrom, EncDelimited,
      PrefixesFit;
    var m := EncFrom(f.sub, 0, a.slots).value;
    ShortStructFits(f.sub, a.slots);
    DelimitedRoundTrip(m, rest);
    var base := if f.htype == Repeated then Default(f.sub, old_.slots) else old_.slots;
    if f.htype == Repeated { DefaultIsFresh(f.sub, old_.slots); }
    var slots := StructRoundTrip(f.sub, a.slots, m, base);
    b := Struct(slots);
  }

  lemma FixedItem(n: nat, k: nat, rest: seq<byte>)
    requires (k == 4 && n < TWO32) || (k == 8 && n < TWO64)
    ensures Take(EncFixed(n, k) + rest, k) == Success(Got(EncFixed(n, k), rest))
    ensures FixedValue(EncFixed(n, k)) == n
  {
    PowersOfTwo();
    FixedRoundTrip(n, k);
  }

  /** The length prefix of bytes and strings, and the payload behind it. */
  lemma PrefixRoundTrip(t: seq<byte>, rest: seq<byte>)
    requires |t| < TWO32
    ensures DecVarint32(EncDelimited(t) + rest) == Success(Got(|t|, t + rest))
    ensures Take(t + rest, |t|) == Success(Got(t, rest))
  {
    assert EncDelimited(t) + rest == EncVarint(|t|) + (t + rest);
    Varint32RoundTrip(|t|, t + rest);
    assert (t + rest)[..|t|] == t && (t + rest)[|t|..] == rest;
  }

  // ---------------------------------------------------------------- one field

  /** A key in front of a body the field accepts is one turn of the decoding loop. */
  lemma OneTurn(fields: seq<Field>, i: nat, wire: WireType, body: seq<byte>, rest: seq<byte>, st: State, s: Slot)
    requires Laid(fields) && TypedStruct(fields, st.slots) && i < |fields| && LaidField(fields[i])
    requires wire in {Varint, Wire64, Delimited, Wire32}
    requires DecSlot(fields[i], wire, body + rest, st.slots[Home(fields, i)]) == Success(Got(s, rest))
    requires Releasable(fields, fields[i], st.slots[Home(fields, i)])
    ensures TypedStruct(fields, st.slots[Home(fields, i) := s])
    ensures DecLoop(fields, EncKey(wire, fields[i].tag) + body + rest, st)
         == DecLoop(fields, rest, State(st.slots[Home(fields, i) := s], Seen(fields, i, st.seen)))
  {
    var key := EncKey(wire, fields[i].tag);
    assert key + body + rest == key + (body + rest);
    KeyRoundTrip(wire, fields[i].tag, body + rest);
    FieldOfUnique(fields, i);
    StoreTyped(fields, st.slots, i, s);
  }

  /** The packed payload, decoded from entry k on. */
  lemma {:induction false} PackedRoundTrip(f: Field, a: seq<Item>, bytes: seq<byte>, k: nat, items: seq<Item>)
    returns (r: seq<Item>)
    requires LaidField(f) && CodableField(f) && f.ltype.Packable() && f.htype == Repeated
    requires |items| == f.arraySize && k + |a| <= f.arraySize
    requires forall j :: 0 <= j < |items| ==> TypedItem(f, items[j])
    requires forall j :: 0 <= j < |a| ==> TypedItem(f, a[j]) && SoundItem(f, a[j])
    requires EncPacked(f, a) == Success(bytes)
    ensures DecPacked(f, bytes, k, items) == Success((k + |a|, r))
    ensures |r| == f.arraySize && forall j :: 0 <= j < |r| ==> TypedItem(f, r[j])
    ensures r[..k] == items[..k]
    ensures forall j :: 0 <= j < |a| ==> SameItem(f, a[j], r[k + j])
    decreases f, 6, |a|
  {
    hide TypedItem, SoundItem, SameItem, DecItem, EncItem, EncEach, CodableField;
    if a == [] {
      r := items;
    } else {
      var x, y := EncItem(f, a[0]).value, EncPacked(f, a[1..]).value;
      var b := ItemRoundTrip(f, a[0], x, items[k], y);
      r := PackedRoundTrip(f, a[1..], y, k + 1, items[k := b]);
      assert r[k] == r[..k + 1][k] == b;
      assert r[..k] == r[..k + 1][..k] == items[..k];
      forall j | 0 <= j < |a| ensures SameItem(f, a[j], r[k + j]) {
        if j > 0 { assert a[j] == a[1..][j - 1]; }
      }
    }
  }

  lemma EntryTurn(f: Field, s: seq<byte>, rest: seq<byte>, k: nat, items: seq<Item>, b: Item)
    requires LaidField(f) && f.htype == Repeated && k < |items| == f.arraySize
    requires forall j :: 0 <= j < |items| ==> TypedItem(f, items[j])
    requires DecItem(f, s, items[k]) == Success(Got(b, rest))
    ensures TypedSlot(f, Array(k, items)) && TypedSlot(f, Array(k + 1, items[k := b]))
    ensures DecSlot(f, f.ltype.Wire(), s, Array(k, items)) == Success(Got(Array(k + 1, items[k := b]), rest))
  {
    hide DecItem, TypedItem;
  }

  /** The unpacked entries of field i, decoded from entry k on. */
  lemma {:induction false} EachRoundTrip(
    fields: seq<Field>, i: nat, a: seq<Item>, bytes: seq<byte>, k: nat, items: seq<Item>, rest: seq<byte>, st: State)
    returns (r: seq<Item>)
    requires Laid(fields) && Codable(fields) && TypedStruct(fields, st.slots) && i < |fields|
    requires LaidField(fields[i]) && fields[i].htype == Repeated
    requires st.slots[Home(fields, i)] == Array(k, items) && |items| == fields[i].arraySize
    requires forall j :: 0 <= j < |items| ==> TypedItem(fields[i], items[j])
    requires k + |a| <= fields[i].arraySize
    requires forall j :: 0 <= j < |a| ==> TypedItem(fields[i], a[j]) && SoundItem(fields[i], a[j])
    requires EncEach(fields[i], a) == Success(bytes)
    requires forall j :: 0 <= j < |a| ==> ItemPrefixFits(fields[i], a[j])
    ensures |r| == fields[i].arraySize && forall j :: 0 <= j < |r| ==> TypedItem(fields[i], r[j])
    ensures TypedStruct(fields, st.slots[Home(fields, i) := Array(k + |a|, r)])
    ensures DecLoop(fields, bytes + rest, st)
         == DecLoop(fields, rest, State(st.slots[Home(fields, i) := Array(k + |a|, r)], st.seen))
    ensures r[..k] == items[..k]
    ensures forall j :: 0 <= j < |a| ==> SameItem(fields[i], a[j], r[k + j])
    decreases fields, 0, |a|
  {
    hide DecLoop, DecSlot, DecItem, EncItem, TypedItem, SoundItem, SameItem, LaidField, CodableField,
      DistinctTags, TypedSlot;
    var f, h := fields[i], Home(fields, i);
    if a == [] {
      r := items;
      assert bytes + rest == rest && st.slots[h := Array(k, r)] == st.slots;
    } else {
      assert CodableField(f);
      var x, y := EncItem(f, a[0]).value, EncEach(f, a[1..]).value;
      var b := ItemRoundTrip(f, a[0], x, items[k], y + rest);
      var s := Array(k + 1, items[k := b]);
      EntryTurn(f, x + (y + rest), y + rest, k, items, b);
      OneTurn(fields, i, f.ltype.Wire(), x, y + rest, st, s);
      assert bytes + rest == EncKey(f.ltype.Wire(), f.tag) + x + (y + rest);
      var st1 := State(st.slots[h := s], st.seen);
      r := EachRoundTrip(fields, i, a[1..], y, k + 1, items[k := b], rest, st1);
      assert st1.slots[h := Array(k + |a|, r)] == st.slots[h := Array(k + |a|, r)];
      assert r[k] == r[..k + 1][k] == b;
      assert r[..k] == r[..k + 1][..k] == items[..k];
      forall j | 0 <= j < |a| ensures SameItem(f, a[j], r[k + j]) {
        if j > 0 { assert a[j] == a[1..][j - 1]; }
      }
    }
  }

  // ---------------------------------------------------------------- a struct, field by field

  /** Between fields k - 1 and k: decoded ones agree with the source, later ones are fresh,
      and a union is set only once the pass has met its active member. */
  predicate MidwaySlot(f: Field, done: bool, a: Slot, b: Slot)
    requires TypedSlot(f, a) && TypedSlot(f, b)
  {
    if f.htype == OneOf then
      && (b.which != 0 ==> b.which == a.which)
      && (a.which == f.tag ==> if done then SameSlot(f, a, b) else b.which == 0)
    else if done then SameSlot(f, a, b)
    else FreshSlot(f, b)
  }

  predicate Midway(fields: seq<Field>, k: nat, a: seq<Slot>, b: seq<Slot>)
    requires k <= |fields| && TypedStruct(fields, a) && TypedStruct(fields, b)
  {
    forall i :: 0 <= i < |fields| ==> MidwaySlot(fields[i], i < k, a[Home(fields, i)], b[Home(fields, i)])
  }

  lemma MidwayAt(fields: seq<Field>, k: nat, a: seq<Slot>, b: seq<Slot>)
    requires k < |fields| && TypedStruct(fields, a) && TypedStruct(fields, b) && Midway(fields, k, a, b)
    ensures |a| == |b| == |fields|
    ensures TypedSlot(fields[k], a[Home(fields, k)]) && TypedSlot(fields[k], b[Home(fields, k)])
    ensures MidwaySlot(fields[k], false, a[Home(fields, k)], b[Home(fields, k)])
  {
  }

  /** Writing the slot of field k takes the pass from k to k + 1. */
  lemma MidwayStep(fields: seq<Field>, k: nat, a: seq<Slot>, b: seq<Slot>, s: Slot)
    requires Laid(fields) && k < |fields| && TypedStruct(fields, a) && TypedStruct(fields, b)
    requires Midway(fields, k, a, b)
    requires TypedSlot(fields[k], s) && TypedStruct(fields, b[Home(fields, k) := s])
    requires MidwaySlot(fields[k], true, a[Home(fields, k)], s)
    requires s.Union? ==> s.which == fields[k].tag == a[Home(fields, k)].which || s == b[Home(fields, k)]
    ensures Midway(fields, k + 1, a, b[Home(fields, k) := s])
  {
    var h := Home(fields, k);
    var b' := b[h := s];
    forall i | 0 <= i < |fields|
      ensures MidwaySlot(fields[i], i < k + 1, a[Home(fields, i)], b'[Home(fields, i)])
    {
      assert MidwaySlot(fields[i], i < k, a[Home(fields, i)], b[Home(fields, i)]);
      if i != k && Home(fields, i) == h {
        HomeShared(fields, i, k);
        assert fields[i].tag != fields[k].tag;
      }
    }
  }

  lemma MidwayEnd(fields: seq<Field>, a: seq<Slot>, b: seq<Slot>)
    requires Laid(fields) && TypedStruct(fields, a) && TypedStruct(fields, b)
    requires SoundStruct(fields, a) && Midway(fields, |fields|, a, b)
    ensures SameStruct(fields, a, b)
  {
    hide TypedItem, SameItem, LaidField, SoundSlot, DistinctTags;
    forall i | 0 <= i < |fields| ensures SameSlot(fields[i], a[Home(fields, i)], b[Home(fields, i)]) {
      assert MidwaySlot(fields[i], true, a[Home(fields, i)], b[Home(fields, i)]);
      if fields[i].htype == OneOf { SelectorArrives(fields, i, a, b); }
    }
  }

  lemma SelectorArrives(fields: seq<Field>, i: nat, a: seq<Slot>, b: seq<Slot>)
    requires Laid(fields) && TypedStruct(fields, a) && TypedStruct(fields, b)
    requires Midway(fields, |fields|, a, b) && i < |fields| && fields[i].htype == OneOf
    requires SoundSelector(fields, i, a[Home(fields, i)])
    ensures a[Home(fields, i)].Union? && b[Home(fields, i)].Union?
    ensures a[Home(fields, i)].which == b[Home(fields, i)].which
  {
    hide TypedItem, SameItem, LaidField, DistinctTags;
    var h := Home(fields, i);
    assert TypedSlot(fields[i], a[h]) && TypedSlot(fields[i], b[h]);
    assert MidwaySlot(fields[i], true, a[h], b[h]);
    if a[h].which != 0 {
      var j :| 0 <= j < |fields| && Home(fields, j) == h && fields[j].tag == a[h].which;
      if j != i { HomeShared(fields, i, j); }
      assert MidwaySlot(fields[j], true, a[h], b[h]);
    }
  }

  lemma FreshIsMidway(fields: seq<Field>, a: seq<Slot>, b: seq<Slot>)
    requires Laid(fields) && TypedStruct(fields, a) && TypedStruct(fields, b) && FreshStruct(fields, b)
    ensures Midway(fields, 0, a, b)
  {
    forall i | 0 <= i < |fields| ensures MidwaySlot(fields[i], false, a[Home(fields, i)], b[Home(fields, i)]) {
      assert FreshSlot(fields[i], b[Home(fields, i)]);
    }
  }

  /** Reading s from st comes down to reading rest from st'. */
  ghost predicate LeadsTo(fields: seq<Field>, s: seq<byte>, st: State, rest: seq<byte>, st': State)
    requires Laid(fields) && TypedStruct(fields, st.slots)
  {
    TypedStruct(fields, st'.slots) && DecLoop(fields, s, st) == DecLoop(fields, rest, st')
  }

  lemma OmittedField(f: Field, x: Slot, y: Slot)
    requires LaidField(f) && TypedSlot(f, x) && TypedSlot(f, y)
    requires MidwaySlot(f, false, x, y) && !Present(f, x)
    ensures EncField(f, x) == Success([]) && MidwaySlot(f, true, x, y)
  {
    if f.htype != OneOf { DefaultExactly(f, x, y); }
  }

  /** A packed repeated field with entries: one key, one payload. */
  lemma {:induction false} PackedField(
    fields: seq<Field>, k: nat, a: seq<Item>, bytes: seq<byte>, items: seq<Item>, rest: seq<byte>, st: State)
    returns (r: seq<Item>)
    requires Laid(fields) && Codable(fields) && k < |fields| && LaidField(fields[k]) && CodableField(fields[k])
    requires TypedStruct(fields, st.slots) && fields[k].htype == Repeated && fields[k].ltype.Packable()
    requires st.slots[Home(fields, k)] == Array(0, items) && |items| == fields[k].arraySize
    requires forall j :: 0 <= j < |items| ==> TypedItem(fields[k], items[j])
    requires |a| <= fields[k].arraySize
    requires forall j :: 0 <= j < |a| ==> TypedItem(fields[k], a[j]) && SoundItem(fields[k], a[j])
    requires EncPacked(fields[k], a).Success? && |EncPacked(fields[k], a).value| < TWO32
    requires bytes == EncKey(Delimited, fields[k].tag) + EncDelimited(EncPacked(fields[k], a).value)
    ensures |r| == fields[k].arraySize && forall j :: 0 <= j < |r| ==> TypedItem(fields[k], r[j])
    ensures forall j :: 0 <= j < |a| ==> SameItem(fields[k], a[j], r[j])
    ensures LeadsTo(fields, bytes + rest, st, rest, State(st.slots[Home(fields, k) := Array(|a|, r)], st.seen))
    decreases fields, 1
  {
    hide DecLoop, DecItem, EncPacked, TypedItem, SoundItem, SameItem, CodableField, DistinctTags, DecPacked, Home,
      EncDelimited;
    var f := fields[k];
    var p := EncPacked(f, a).value;
    r := PackedRoundTrip(f, a, p, 0, items);
    assert forall j :: 0 <= j < |a| ==> r[0 + j] == r[j];
    DelimitedRoundTrip(p, rest);
    OneTurn(fields, k, Delimited, EncDelimited(p), rest, st, Array(|a|, r));
  }

  /** A repeated field with entries. */
  lemma {:induction false} ArrayField(
    fields: seq<Field>, k: nat, x: Slot, bytes: seq<byte>, rest: seq<byte>, st: State)
    returns (s: Slot)
    requires Laid(fields) && Codable(fields) && k < |fields| && LaidField(fields[k]) && CodableField(fields[k])
    requires TypedSlot(fields[k], x) && SoundSlot(fields[k], x) && fields[k].htype == Repeated && x.count > 0
    requires TypedStruct(fields, st.slots)
    requires TypedSlot(fields[k], st.slots[Home(fields, k)])
    requires MidwaySlot(fields[k], false, x, st.slots[Home(fields, k)])
    requires EncField(fields[k], x) == Success(bytes) && SlotPrefixesFit(fields[k], x)
    ensures TypedSlot(fields[k], s) && MidwaySlot(fields[k], true, x, s) && s.Array?
    ensures LeadsTo(fields, bytes + rest, st, rest, State(st.slots[Home(fields, k) := s], st.seen))
    decreases fields, 2
  {
    hide DecLoop, EncItem, EncEach, EncPacked, TypedItem, SoundItem, SameItem, CodableField, DistinctTags, Home,
         EncDelimited, EncKey;
    var f, items := fields[k], st.slots[Home(fields, k)].items;
    var a := x.items[..x.count];
    assert forall j :: 0 <= j < |a| ==> a[j] == x.items[j];
    var r: seq<Item>;
    if f.ltype.Packable() {
      r := PackedField(fields, k, a, bytes, items, rest, st);
    } else {
      r := EachRoundTrip(fields, k, a, bytes, 0, items, rest, st);
      assert forall j :: 0 <= j < |a| ==> r[0 + j] == r[j];
    }
    s := Array(x.count, r);
  }

  /** A field with one object. */
  lemma {:induction false} SingleField(
    fields: seq<Field>, k: nat, x: Slot, bytes: seq<byte>, rest: seq<byte>, st: State)
    returns (s: Slot)
    requires Laid(fields) && Codable(fields) && k < |fields| && LaidField(fields[k]) && CodableField(fields[k])
    requires TypedSlot(fields[k], x) && SoundSlot(fields[k], x) && fields[k].htype != Repeated && Present(fields[k], x)
    requires TypedStruct(fields, st.slots) && TypedSlot(fields[k], st.slots[Home(fields, k)])
    requires MidwaySlot(fields[k], false, x, st.slots[Home(fields, k)])
    requires EncField(fields[k], x) == Success(bytes) && SlotPrefixesFit(fields[k], x)
    ensures TypedSlot(fields[k], s) && MidwaySlot(fields[k], true, x, s)
    ensures s.Union? ==> s.which == fields[k].tag == x.which
    ensures LeadsTo(fields, bytes + rest, st, rest, State(st.slots[Home(fields, k) := s], Seen(fields, k, st.seen)))
    decreases fields, 2
  {
    hide DecLoop, DecItem, EncItem, TypedItem, SoundItem, SameItem, CodableField, DistinctTags, Seen;
    var f, y := fields[k], st.slots[Home(fields, k)];
    var body := EncItem(f, x.item).value;
    var old_ := if f.htype == OneOf then UnionBase(f, y) else y.item;
    if f.htype == OneOf && f.ltype == LSubmessage { UnionBaseIsFresh(f, y); }
    if f.htype != OneOf && f.ltype == LSubmessage { SubmessageIsFresh(f, y); }
    var b := ItemRoundTrip(f, x.item, body, old_, rest);
    s := DecSlot(f, f.ltype.Wire(), body + rest, y).value.value;
    OneTurn(fields, k, f.ltype.Wire(), body, rest, st, s);
  }

  lemma UnionBaseIsFresh(f: Field, y: Slot)
    requires LaidField(f) && CodableField(f) && y.Union? && f.ltype == LSubmessage
    ensures UnionBase(f, y).Struct? && TypedStruct(f.sub, UnionBase(f, y).slots)
    ensures FreshStruct(f.sub, UnionBase(f, y).slots)
  {
    DefaultIsFresh(f.sub, ZeroSlots(f.sub, 0));
  }

  lemma SubmessageIsFresh(f: Field, y: Slot)
    requires TypedSlot(f, y) && f.htype in {Required, Optional} && f.ltype == LSubmessage && FreshSlot(f, y)
    ensures y.item.Struct? && TypedStruct(f.sub, y.item.slots) && FreshStruct(f.sub, y.item.slots)
  {
  }

  lemma SoundAt(fields: seq<Field>, k: nat, a: seq<Slot>)
    requires Laid(fields) && Codable(fields) && k < |fields| && TypedStruct(fields, a) && SoundStruct(fields, a)
    ensures LaidField(fields[k]) && CodableField(fields[k])
    ensures TypedSlot(fields[k], a[Home(fields, k)]) && SoundSlot(fields[k], a[Home(fields, k)])
  {
  }

  /** The bytes of field k, decoded in front of anything. */
  lemma {:induction false} FieldRoundTrip(
    fields: seq<Field>, k: nat, a: seq<Slot>, bytes: seq<byte>, rest: seq<byte>, st: State)
    returns (st': State)
    requires Laid(fields) && Codable(fields) && k < |fields| && LaidField(fields[k])
    requires TypedStruct(fields, a) && SoundStruct(fields, a) && TypedStruct(fields, st.slots)
    requires Midway(fields, k, a, st.slots)
    requires TypedSlot(fields[k], a[Home(fields, k)])
    requires EncField(fields[k], a[Home(fields, k)]) == Success(bytes) && SlotPrefixesFit(fields[k], a[Home(fields, k)])
    ensures LeadsTo(fields, bytes + rest, st, rest, st')
    ensures Midway(fields, k + 1, a, st'.slots)
    ensures st'.seen == Seen(fields, k, st.seen)
    decreases fields, 3
  {
    hide TypedSlot, TypedStruct, SoundSlot, SoundStruct, MidwaySlot, Midway, Laid, LaidField, Codable, CodableField,
         DecLoop, EncField, Home, DefaultItem;
    MidwayAt(fields, k, a, st.slots);
    SoundAt(fields, k, a);
    var f, h := fields[k], Home(fields, k);
    var x, y := a[h], st.slots[h];
    var s: Slot;
    if !Present(f, x) {
      OmittedField(f, x, y);
      s := y;
      assert bytes + rest == rest && st.slots[h := y] == st.slots;
      st' := st;
    } else if f.htype == Repeated {
      s := ArrayField(fields, k, x, bytes, rest, st);
      st' := State(st.slots[h := s], st.seen);
    } else {
      s := SingleField(fields, k, x, bytes, rest, st);
      st' := State(st.slots[h := s], Seen(fields, k, st.seen));
    }
    MidwayStep(fields, k, a, st.slots, s);
  }

  lemma SeenStep(fields: seq<Field>, k: nat, seen: set<nat>)
    requires k < |fields|
    requires forall r :: 0 <= r < ReqIndex(fields, k) && r < PB_MAX_REQUIRED_FIELDS ==> r in seen
    ensures forall r :: 0 <= r < ReqIndex(fields, k + 1) && r < PB_MAX_REQUIRED_FIELDS ==> r in Seen(fields, k, seen)
  {
  }

  lemma {:induction false} FromRoundTrip(fields: seq<Field>, k: nat, a: seq<Slot>, bytes: seq<byte>, st: State)
    returns (b: seq<Slot>, seen: set<nat>)
    requires Laid(fields) && Codable(fields) && k <= |fields|
    requires TypedStruct(fields, a) && SoundStruct(fields, a) && TypedStruct(fields, st.slots)
    requires Midway(fields, k, a, st.slots)
    requires forall r :: 0 <= r < ReqIndex(fields, k) && r < PB_MAX_REQUIRED_FIELDS ==> r in st.seen
    requires EncFrom(fields, k, a) == Success(bytes) && PrefixesFit(fields, a)
    ensures TypedStruct(fields, b) && SameStruct(fields, a, b) && AllRequiredSeen(fields, seen)
    ensures DecLoop(fields, bytes, st) == Success(Got(State(b, seen), []))
    decreases fields, 4, |fields| - k
  {
    if k == |fields| {
      b, seen := st.slots, st.seen;
      MidwayEnd(fields, a, b);
    } else {
      assert LaidField(fields[k]);
      var x, y := EncField(fields[k], a[Home(fields, k)]).value, EncFrom(fields, k + 1, a).value;
      var st' := FieldRoundTrip(fields, k, a, x, y, st);
      SeenStep(fields, k, st.seen);
      b, seen := FromRoundTrip(fields, k + 1, a, y, st');
    }
  }

  lemma {:induction false} StructRoundTrip(fields: seq<Field>, a: seq<Slot>, bytes: seq<byte>, base: seq<Slot>)
    returns (b: seq<Slot>)
    requires Laid(fields) && Codable(fields)
    requires TypedStruct(fields, a) && SoundStruct(fields, a)
    requires TypedStruct(fields, base) && FreshStruct(fields, base)
    requires EncFrom(fields, 0, a) == Success(bytes) && PrefixesFit(fields, a)
    ensures DecodeNoInit(fields, bytes, base) == Success(Got(b, []))
    ensures TypedStruct(fields, b) && SameStruct(fields, a, b)
    decreases fields, 5
  {
    FreshIsMidway(fields, a, base);
    var seen: set<nat>;
    b, seen := FromRoundTrip(fields, 0, a, bytes, State(base, {}));
  }

  // ---------------------------------------------------------------- the theorem

  /** Sound structs can be encoded. */
  lemma {:induction false} SoundItemEncodes(f: Field, a: Item)
    requires LaidField(f) && CodableField(f) && TypedItem(f, a) && SoundItem(f, a)
    ensures EncItem(f, a).Success?
    decreases f, 0
  {
    if f.ltype == LSubmessage { SoundEncodesFrom(f.sub, 0, a.slots); }
  }

  lemma {:induction false} SoundItemsEncode(f: Field, a: seq<Item>)
    requires LaidField(f) && CodableField(f)
    requires forall k :: 0 <= k < |a| ==> TypedItem(f, a[k]) && SoundItem(f, a[k])
    ensures EncPacked(f, a).Success? && EncEach(f, a).Success?
    decreases f, 1, |a|
  {
    if a != [] {
      SoundItemEncodes(f, a[0]);
      SoundItemsEncode(f, a[1..]);
    }
  }

  lemma {:induction false} SoundFieldEncodes(f: Field, s: Slot)
    requires LaidField(f) && CodableField(f) && TypedSlot(f, s) && SoundSlot(f, s)
    ensures EncField(f, s).Success?
    decreases f, 2
  {
    hide EncItem, TypedItem, SoundItem, DefaultItem, CodableField, EncPacked, EncEach;
    if f.htype == Repeated {
      var a := s.items[..s.count];
      assert forall j :: 0 <= j < |a| ==> a[j] == s.items[j];
      SoundItemsEncode(f, a);
    } else if Present(f, s) {
      SoundItemEncodes(f, s.item);
    }
  }

  lemma {:induction false} SoundEncodesFrom(fields: seq<Field>, k: nat, a: seq<Slot>)
    requires Laid(fields) && Codable(fields) && k <= |fields| && TypedStruct(fields, a) && SoundStruct(fields, a)
    ensures EncFrom(fields, k, a).Success?
    decreases fields, |fields| - k
  {
    hide LaidField, CodableField, TypedSlot, SoundSlot, EncField, DistinctTags, SoundSelector;
    if k < |fields| {
      var f, s := fields[k], a[Home(fields, k)];
      assert LaidField(f) && CodableField(f) && TypedSlot(f, s) && SoundSlot(f, s);
      SoundFieldEncodes(f, s);
      SoundEncodesFrom(fields, k + 1, a);
    }
  }

  /** Message round trip: a sound struct encodes, and if no submessage or packed array of it takes
      2^32 bytes or more, as none does in an encoding shorter than that, then decoding over any
      memory succeeds, consumes all of it and yields the same visible value. */
  lemma MessageRoundTrip(fields: seq<Field>, a: seq<Slot>, memory: seq<Slot>)
    requires Laid(fields) && Codable(fields)
    requires TypedStruct(fields, a) && SoundStruct(fields, a) && TypedStruct(fields, memory)
    ensures Encode(fields, a).Success?
    ensures |Encode(fields, a).value| < TWO32 ==> PrefixesFit(fields, a)
    ensures PrefixesFit(fields, a) ==>
      var r := Decode(fields, Encode(fields, a).value, memory);
      r.Success? && r.value.rest == [] && SameStruct(fields, a, r.value.value)
  {
    hide PrefixesFit, Laid, Codable, TypedStruct, SoundStruct, SameStruct, FreshStruct;
    SoundEncodesFrom(fields, 0, a);
    if |Encode(fields, a).value| < TWO32 { ShortStructFits(fields, a); }
    if PrefixesFit(fields, a) {
      DefaultIsFresh(fields, memory);
      var b := StructRoundTrip(fields, a, Encode(fields, a).value, Default(fields, memory));
    }
  }
}
