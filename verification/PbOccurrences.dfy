/** What a decoder makes of a field that comes more than once. */
module PbOccurrences {
  import opened Wrappers
  import opened Bits
  import opened PbWire
  import opened PbTypes
  import opened PbCodec
  import opened PbRoundTrip
  import opened PbMerge
  import opened PbDefaults
  import opened PbUnknown

  /** An array of numbers is read alike whether it is packed or its entries come one by one: they
      join those already there. */
  lemma PackedOrNot(fields: seq<Field>, i: nat, a: seq<Item>, rest: seq<byte>, st: State)
    returns (packed: seq<Item>, each: seq<Item>)
    requires Laid(fields) && Codable(fields) && TypedStruct(fields, st.slots) && i < |fields|
    requires LaidField(fields[i]) && fields[i].htype == Repeated && fields[i].ltype.Packable()
    requires TypedSlot(fields[i], st.slots[Home(fields, i)])
    requires st.slots[Home(fields, i)].count + |a| <= fields[i].arraySize
    requires forall j :: 0 <= j < |a| ==> TypedItem(fields[i], a[j])
    requires EncPacked(fields[i], a).Success? && |EncPacked(fields[i], a).value| < TWO32
    requires EncEach(fields[i], a).Success?
    ensures var f, h := fields[i], Home(fields, i);
      var k := st.slots[h].count;
      && |packed| == |each| == f.arraySize && packed[..k] == each[..k] == st.slots[h].items[..k]
      && packed[k..k + |a|] == each[k..k + |a|] == a
      && LeadsTo(fields, EncKey(Delimited, f.tag) + EncDelimited(EncPacked(f, a).value) + rest, st, rest,
                 State(st.slots[h := Array(k + |a|, packed)], st.seen))
      && LeadsTo(fields, EncEach(f, a).value + rest, st, rest, State(st.slots[h := Array(k + |a|, each)], st.seen))
  {
    hide DecLoop, DecItem, EncPacked, EncEach, SoundItem, DistinctTags, DecPacked, EncDelimited, Home, Laid;
    var f, slot := fields[i], st.slots[Home(fields, i)];
    var k, p := slot.count, EncPacked(f, a).value;
    NumbersAreSound(f, a);
    assert CodableField(f);
    packed := PackedRoundTrip(f, a, p, k, slot.items);
    SameNumbers(f, a, packed, k);
    DelimitedRoundTrip(p, rest);
    OneTurn(fields, i, Delimited, EncDelimited(p), rest, st, Array(k + |a|, packed));
    each := EachRoundTrip(fields, i, a, EncEach(f, a).value, k, slot.items, rest, st);
    SameNumbers(f, a, each, k);
  }

  lemma NumbersAreSound(f: Field, a: seq<Item>)
    requires LaidField(f) && f.ltype.Packable() && forall j :: 0 <= j < |a| ==> TypedItem(f, a[j])
    ensures forall j :: 0 <= j < |a| ==> SoundItem(f, a[j]) && ItemPrefixFits(f, a[j])
  {
  }

  lemma SameNumbers(f: Field, a: seq<Item>, r: seq<Item>, k: nat)
    requires f.ltype.Packable() && k + |a| <= |r|
    requires forall j :: 0 <= j < |a| ==> TypedItem(f, a[j])
    requires forall j :: 0 <= j < |r| ==> TypedItem(f, r[j])
    requires forall j :: 0 <= j < |a| ==> SameItem(f, a[j], r[k + j])
    ensures r[k..k + |a|] == a
  {
    forall j | 0 <= j < |a| ensures r[k..k + |a|][j] == a[j] {
      assert SameItem(f, a[j], r[k + j]);
    }
  }

  // ---------------------------------------------------------------- more entries than there is room for

  /** A field that cannot be stored ends the decoding loop. */
  lemma TurnFails(fields: seq<Field>, i: nat, wire: WireType, s: seq<byte>, st: State, error: PbError)
    requires Laid(fields) && TypedStruct(fields, st.slots) && i < |fields| && LaidField(fields[i])
    requires wire in {Varint, Wire64, Delimited, Wire32} && fields[i].htype == Repeated
    requires TypedSlot(fields[i], st.slots[Home(fields, i)]) && st.slots[Home(fields, i)].Array?
    requires DecSlot(fields[i], wire, s, st.slots[Home(fields, i)]) == Failure(error)
    ensures DecLoop(fields, EncKey(wire, fields[i].tag) + s, st) == Failure(error)
  {
    hide DecSlot, DecKey, EncKey, TypedSlot, FieldOf, Home;
    FieldOfUnique(fields, i);
    hide Laid, LaidField;
    KeyIsRead(wire, fields[i].tag, s);
  }

  lemma {:induction false} TooManyPacked(f: Field, a: seq<Item>, k: nat, items: seq<Item>)
    requires LaidField(f) && CodableField(f) && f.ltype.Packable() && f.htype == Repeated
    requires |items| == f.arraySize && k <= f.arraySize < k + |a|
    requires forall j :: 0 <= j < |items| ==> TypedItem(f, items[j])
    requires forall j :: 0 <= j < |a| ==> TypedItem(f, a[j])
    requires EncPacked(f, a).Success?
    ensures DecPacked(f, EncPacked(f, a).value, k, items) == Failure(ArrayOverflow)
    decreases |a|
  {
    hide TypedItem, DecItem, EncItem, EncEach, CodableField;
    if k < f.arraySize {
      var x, y := EncItem(f, a[0]).value, EncPacked(f, a[1..]).value;
      NumberRoundTrip(f, a[0], x, items[k], y);
      TooManyPacked(f, a[1..], k + 1, items[k := a[0]]);
    }
  }

  lemma {:induction false} TooManyEach(
    fields: seq<Field>, i: nat, a: seq<Item>, k: nat, items: seq<Item>, rest: seq<byte>, st: State)
    requires Laid(fields) && Codable(fields) && TypedStruct(fields, st.slots) && i < |fields|
    requires LaidField(fields[i]) && fields[i].htype == Repeated
    requires st.slots[Home(fields, i)] == Array(k, items) && |items| == fields[i].arraySize
    requires forall j :: 0 <= j < |items| ==> TypedItem(fields[i], items[j])
    requires k <= fields[i].arraySize < k + |a|
    requires forall j :: 0 <= j < |a| ==> TypedItem(fields[i], a[j]) && SoundItem(fields[i], a[j])
    requires EncEach(fields[i], a).Success? && forall j :: 0 <= j < |a| ==> ItemPrefixFits(fields[i], a[j])
    ensures DecLoop(fields, EncEach(fields[i], a).value + rest, st) == Failure(ArrayOverflow)
    decreases |a|
  {
    hide DecLoop, DecSlot, DecItem, EncItem, TypedItem, SoundItem, LaidField, CodableField, DistinctTags, TypedSlot,
      EncKey, ItemPrefixFits;
    var f, h := fields[i], Home(fields, i);
    var x, y := EncItem(f, a[0]).value, EncEach(f, a[1..]).value;
    var bytes := EncEach(f, a).value + rest;
    assert CodableField(f);
    if k == f.arraySize {
      FullArray(f, k, items, x + y + rest);
      TurnFails(fields, i, f.ltype.Wire(), x + y + rest, st, ArrayOverflow);
      assert bytes == EncKey(f.ltype.Wire(), f.tag) + (x + y + rest);
    } else {
      var b := ItemRoundTrip(f, a[0], x, items[k], y + rest);
      var s := Array(k + 1, items[k := b]);
      EntryTurn(f, x + (y + rest), y + rest, k, items, b);
      OneTurn(fields, i, f.ltype.Wire(), x, y + rest, st, s);
      assert bytes == EncKey(f.ltype.Wire(), f.tag) + x + (y + rest);
      TooManyEach(fields, i, a[1..], k + 1, items[k := b], rest, State(st.slots[h := s], st.seen));
    }
  }

  lemma FullArray(f: Field, k: nat, items: seq<Item>, s: seq<byte>)
    requires LaidField(f) && f.htype == Repeated && k == |items| == f.arraySize
    requires forall j :: 0 <= j < |items| ==> TypedItem(f, items[j])
    ensures TypedSlot(f, Array(k, items))
    ensures DecSlot(f, f.ltype.Wire(), s, Array(k, items)) == Failure(ArrayOverflow)
  {
    hide TypedItem, DecItem;
  }

  /** An array with one entry more than there is room for fails the decoding, packed or not. */
  lemma TooMany(fields: seq<Field>, i: nat, a: seq<Item>, rest: seq<byte>, st: State)
    requires Laid(fields) && Codable(fields) && TypedStruct(fields, st.slots) && i < |fields|
    requires LaidField(fields[i]) && fields[i].htype == Repeated
    requires TypedSlot(fields[i], st.slots[Home(fields, i)])
    requires st.slots[Home(fields, i)].count <= fields[i].arraySize < st.slots[Home(fields, i)].count + |a|
    requires forall j :: 0 <= j < |a| ==>
      TypedItem(fields[i], a[j]) && SoundItem(fields[i], a[j]) && ItemPrefixFits(fields[i], a[j])
    requires EncEach(fields[i], a).Success?
    ensures DecLoop(fields, EncEach(fields[i], a).value + rest, st) == Failure(ArrayOverflow)
    ensures var p := EncPacked(fields[i], a);
      fields[i].ltype.Packable() && p.Success? && |p.value| < TWO32 ==>
      var body := EncDelimited(p.value) + rest;
      DecLoop(fields, EncKey(Delimited, fields[i].tag) + body, st) == Failure(ArrayOverflow)
  {
    hide DecLoop, DecItem, EncPacked, EncEach, SoundItem, DistinctTags, DecPacked, EncDelimited, Home, Laid, TypedItem;
    var f, slot := fields[i], st.slots[Home(fields, i)];
    TooManyEach(fields, i, a, slot.count, slot.items, rest, st);
    if f.ltype.Packable() && EncPacked(f, a).Success? && |EncPacked(f, a).value| < TWO32 {
      var p := EncPacked(f, a).value;
      assert CodableField(f);
      TooManyPacked(f, a, slot.count, slot.items);
      DelimitedRoundTrip(p, rest);
      TurnFails(fields, i, Delimited, EncDelimited(p) + rest, st, ArrayOverflow);
    }
  }

  // ---------------------------------------------------------------- submessages

  lemma SingleSubmessage(f: Field, wire: WireType, p: seq<byte>, rest: seq<byte>, slot: Slot)
    requires LaidField(f) && TypedSlot(f, slot) && f.htype in {Required, Optional} && f.ltype == LSubmessage
    requires |p| < TWO32
    ensures slot.item.Struct? && TypedStruct(f.sub, slot.item.slots)
    ensures var m := DecodeNoInit(f.sub, p, slot.item.slots);
      DecSlot(f, wire, EncDelimited(p) + rest, slot) ==
      if m.Failure? then Failure(m.error)
      else
        var has := if f.htype == Optional && f.sizeOffset != 0 then true else slot.has;
        Success(Got(Single(has, Struct(m.value.value)), rest))
  {
    hide DecDelimited, DecodeNoInit, EncDelimited, TypedStruct, Laid;
    DelimitedRoundTrip(p, rest);
  }

  /** Two occurrences of a singular submessage are read like one that holds both payloads: the
      second is merged into the first. */
  lemma SubmessagesMerge(f: Field, wire: WireType, a: seq<byte>, b: seq<byte>, rest: seq<byte>, slot: Slot)
    requires LaidField(f) && TypedSlot(f, slot) && f.htype in {Required, Optional} && f.ltype == LSubmessage
    requires |a| + |b| < TWO32 && NoRequired(f.sub)
    requires slot.item.Struct? && TypedStruct(f.sub, slot.item.slots) && Complete(f.sub, a, State(slot.item.slots, {}))
    ensures var first := DecSlot(f, wire, EncDelimited(a) + (EncDelimited(b) + rest), slot);
      && first.Success? && first.value.rest == EncDelimited(b) + rest && TypedSlot(f, first.value.value)
      && DecSlot(f, wire, first.value.rest, first.value.value) == DecSlot(f, wire, EncDelimited(a + b) + rest, slot)
  {
    hide DecSlot, DecodeNoInit, EncDelimited, Complete, TypedStruct, Laid;
    var later := EncDelimited(b) + rest;
    assert Laid(f.sub);
    MergeLaw(f.sub, a, b, slot.item.slots);
    SingleSubmessage(f, wire, a, later, slot);
    SingleSubmessage(f, wire, b, rest, DecSlot(f, wire, EncDelimited(a) + later, slot).value.value);
    SingleSubmessage(f, wire, a + b, rest, slot);
  }

  /** Each entry of a repeated submessage starts anew: a field that is not in its payload has its
      declared default, whatever the entry's memory held. */
  lemma EntryStartsAnew(f: Field, p: seq<byte>, rest: seq<byte>, memory: Item, i: nat)
    requires LaidField(f) && f.htype == Repeated && f.ltype == LSubmessage && TypedItem(f, memory) && |p| < TWO32
    requires DecItem(f, EncDelimited(p) + rest, memory).Success? && Laid(f.sub) && i < |f.sub|
    requires Untouched(f.sub, i, Met(f.sub, p, State(Default(f.sub, memory.slots), {})))
    ensures var e := DecItem(f, EncDelimited(p) + rest, memory).value;
      && e.rest == rest && e.value.Struct? && TypedStruct(f.sub, e.value.slots)
      && TypedSlot(f.sub[i], e.value.slots[Home(f.sub, i)])
      && DeclaredSlot(f.sub[i], e.value.slots[Home(f.sub, i)])
  {
    hide DecDelimited, DecodeNoInit, EncDelimited, Laid, Met, Untouched, DeclaredSlot, Home;
    DelimitedRoundTrip(p, rest);
    AbsentIsDeclared(f.sub, p, memory.slots, i);
  }

  /** A union's submessage replaces what the union held, be it the same member. */
  lemma UnionReplaces(f: Field, wire: WireType, s: seq<byte>, x: Slot, y: Slot)
    requires LaidField(f) && f.htype == OneOf && f.ltype == LSubmessage && TypedSlot(f, x) && TypedSlot(f, y)
    ensures DecSlot(f, wire, s, x) == DecSlot(f, wire, s, y)
  {
    hide DecItem, Default, ZeroSlots;
  }

  /** And starts from its defaults. */
  lemma UnionStartsAnew(f: Field, wire: WireType, p: seq<byte>, rest: seq<byte>, slot: Slot, i: nat)
    requires LaidField(f) && f.htype == OneOf && f.ltype == LSubmessage && TypedSlot(f, slot) && |p| < TWO32
    requires DecSlot(f, wire, EncDelimited(p) + rest, slot).Success? && Laid(f.sub) && i < |f.sub|
    requires Untouched(f.sub, i, Met(f.sub, p, State(Default(f.sub, ZeroSlots(f.sub, 0)), {})))
    ensures var u := DecSlot(f, wire, EncDelimited(p) + rest, slot).value;
      && u.rest == rest && u.value.Union? && u.value.which == f.tag && u.value.item.Struct?
      && TypedStruct(f.sub, u.value.item.slots)
      && TypedSlot(f.sub[i], u.value.item.slots[Home(f.sub, i)])
      && DeclaredSlot(f.sub[i], u.value.item.slots[Home(f.sub, i)])
  {
    hide DecDelimited, DecodeNoInit, EncDelimited, Laid, Met, Untouched, DeclaredSlot, Home, ZeroSlots, Default;
    DelimitedRoundTrip(p, rest);
    AbsentIsDeclared(f.sub, p, ZeroSlots(f.sub, 0), i);
  }
}
