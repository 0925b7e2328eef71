/** Fields a descriptor does not know, as an encoder with another descriptor writes them. */
module PbUnknown {
  import opened Wrappers
  import opened Bits
  import opened PbWire
  import opened PbTypes
  import opened PbCodec
  import opened PbRoundTrip
  import opened PbMerge

  // ---------------------------------------------------------------- one object

  lemma {:induction false} SkipsVarint(v: nat, rest: seq<byte>)
    ensures SkipVarint(EncVarint(v) + rest) == Success(rest)
    decreases v
  {
    hide EncVarint;
    VarintUnfold(v);
    if v < 128 {
      assert (EncVarint(v) + rest)[1..] == rest;
    } else {
      SkipsVarint(v / 128, rest);
      assert (EncVarint(v) + rest)[1..] == EncVarint(v / 128) + rest;
    }
  }

  lemma SkipsDelimited(t: seq<byte>, rest: seq<byte>)
    requires |t| < TWO32
    ensures Skip(EncDelimited(t) + rest, Delimited) == Success(rest)
  {
    hide DecVarint32, EncDelimited;
    PrefixRoundTrip(t, rest);
  }

  lemma SkipsFixed(v: nat, k: nat, rest: seq<byte>)
    ensures Take(EncFixed(v, k) + rest, k) == Success(Got(EncFixed(v, k), rest))
  {
  }

  /** pb_skip_field passes over exactly the bytes of an object of any type, given the wire type in
      its key. */
  lemma SkipsItem(f: Field, it: Item, rest: seq<byte>)
    requires LaidField(f) && TypedItem(f, it) && EncItem(f, it).Success? && ItemPrefixFits(f, it)
    ensures Skip(EncItem(f, it).value + rest, f.ltype.Wire()) == Success(rest)
  {
    hide EncVarint, EncFixed, Zigzag, EncDelimited, SkipVarint, SkipDelimited, Laid, TypedStruct, EncFrom;
    match f.ltype
    case LVarint | LUVarint => SkipsVarint(U64(it.n), rest);
    case LSVarint => SkipsVarint(Zigzag(it.n), rest);
    case LFixed32 => SkipsFixed(it.n, 4, rest);
    case LFixed64 => SkipsFixed(it.n, 8, rest);
    case LBytes => SkipsDelimited(it.mem[..it.size], rest);
    case LString => SkipsDelimited(it.mem[..StrLen(it.mem)], rest);
    case LFixedBytes => SkipsDelimited(it.mem, rest);
    case LSubmessage => SkipsDelimited(EncFrom(f.sub, 0, it.slots).value, rest);
  }

  // ---------------------------------------------------------------- one field

  lemma KeyIsRead(wire: WireType, tag: nat, rest: seq<byte>)
    requires 1 <= tag < TAG_END && wire in {Varint, Wire64, Delimited, Wire32}
    ensures DecKey(EncKey(wire, tag) + rest) == Success(Got(Key(wire, tag), rest))
  {
    hide EncKey, DecKey;
    KeyRoundTrip(wire, tag, rest);
  }

  lemma OneSkips(fields: seq<Field>, wire: WireType, tag: nat, s: seq<byte>, rest: seq<byte>, st: State)
    requires Laid(fields) && TypedStruct(fields, st.slots) && FieldOf(fields, tag).None? && 1 <= tag
    requires Skip(s, wire) == Success(rest)
    ensures DecOne(fields, wire, tag, s, st) == Success(Got(st, rest))
  {
    hide Skip, DecSlot, Laid, TypedStruct, FieldOf, Releasable;
  }

  /** One turn of the decoding loop. */
  lemma LoopTurns(fields: seq<Field>, s: seq<byte>, st: State, k: Key, r: seq<byte>, st': State, rest: seq<byte>)
    requires Laid(fields) && TypedStruct(fields, st.slots) && s != [] && k.Key? && DecKey(s) == Success(Got(k, r))
    requires DecOne(fields, k.wire, k.tag, r, st) == Success(Got(st', rest))
    ensures TypedStruct(fields, st'.slots) && DecLoop(fields, s, st) == DecLoop(fields, rest, st')
  {
    hide DecKey, DecOne, Laid, TypedStruct;
  }

  /** A key the descriptor does not know, and a body that is skipped. */
  lemma LoopSkips(fields: seq<Field>, wire: WireType, tag: nat, body: seq<byte>, rest: seq<byte>, st: State)
    requires Laid(fields) && TypedStruct(fields, st.slots) && FieldOf(fields, tag).None? && 1 <= tag < TAG_END
    requires wire in {Varint, Wire64, Delimited, Wire32} && Skip(body + rest, wire) == Success(rest)
    ensures DecLoop(fields, EncKey(wire, tag) + body + rest, st) == DecLoop(fields, rest, st)
  {
    hide *;
    OneSkips(fields, wire, tag, body + rest, rest, st);
    KeyIsRead(wire, tag, body + rest);
    LoopTurns(fields, EncKey(wire, tag) + (body + rest), st, Key(wire, tag), body + rest, st, rest);
    assert EncKey(wire, tag) + body + rest == EncKey(wire, tag) + (body + rest);
  }

  lemma {:induction false} LoopSkipsEach(fields: seq<Field>, f: Field, items: seq<Item>, rest: seq<byte>, st: State)
    requires Laid(fields) && TypedStruct(fields, st.slots) && FieldOf(fields, f.tag).None? && LaidField(f)
    requires forall k :: 0 <= k < |items| ==> TypedItem(f, items[k]) && ItemPrefixFits(f, items[k])
    requires EncEach(f, items).Success?
    ensures DecLoop(fields, EncEach(f, items).value + rest, st) == DecLoop(fields, rest, st)
    decreases |items|
  {
    hide TypedItem, ItemPrefixFits, EncItem, Skip, DecLoop, EncKey, TypedStruct, Laid, FieldOf;
    if items == [] {
      assert EncEach(f, items).value + rest == rest;
    } else {
      var a, b := EncItem(f, items[0]).value, EncEach(f, items[1..]).value;
      SkipsItem(f, items[0], b + rest);
      LoopSkips(fields, f.ltype.Wire(), f.tag, a, b + rest, st);
      LoopSkipsEach(fields, f, items[1..], rest, st);
      assert EncEach(f, items).value + rest == EncKey(f.ltype.Wire(), f.tag) + a + (b + rest);
    }
  }

  /** Whatever an encoder writes for a field the descriptor does not know is passed over. */
  lemma LoopSkipsField(fields: seq<Field>, f: Field, s: Slot, rest: seq<byte>, st: State)
    requires Laid(fields) && TypedStruct(fields, st.slots) && FieldOf(fields, f.tag).None?
    requires LaidField(f) && TypedSlot(f, s) && EncField(f, s).Success? && SlotPrefixesFit(f, s)
    ensures DecLoop(fields, EncField(f, s).value + rest, st) == DecLoop(fields, rest, st)
  {
    hide EncItem, EncEach, EncPacked, Skip, DecLoop, EncKey, TypedStruct, Laid, FieldOf, TypedItem, ItemPrefixFits,
      EncDelimited, DefaultItem;
    if f.htype == Repeated && s.count > 0 {
      var a := s.items[..s.count];
      assert forall k :: 0 <= k < |a| ==> a[k] == s.items[k];
      if f.ltype.Packable() {
        var p := EncPacked(f, a).value;
        SkipsDelimited(p, rest);
        LoopSkips(fields, Delimited, f.tag, EncDelimited(p), rest, st);
      } else {
        LoopSkipsEach(fields, f, a, rest, st);
      }
    } else if f.htype != Repeated && Present(f, s) {
      var body := EncItem(f, s.item).value;
      SkipsItem(f, s.item, rest);
      LoopSkips(fields, f.ltype.Wire(), f.tag, body, rest, st);
    } else {
      assert EncField(f, s).value + rest == rest;
    }
  }

  /** So inserting such a field between complete ones changes nothing. */
  lemma UnknownEncodingIgnored(fields: seq<Field>, a: seq<byte>, f: Field, s: Slot, b: seq<byte>, slots: seq<Slot>)
    requires Laid(fields) && TypedStruct(fields, slots) && FieldOf(fields, f.tag).None?
    requires LaidField(f) && TypedSlot(f, s) && EncField(f, s).Success? && SlotPrefixesFit(f, s)
    requires Complete(fields, a, State(slots, {}))
    ensures DecodeNoInit(fields, a + EncField(f, s).value + b, slots) == DecodeNoInit(fields, a + b, slots)
  {
    hide EncField, DecLoop, Complete, Laid, TypedStruct, FieldOf, LaidField, TypedSlot, SlotPrefixesFit;
    var u, st := EncField(f, s).value, State(slots, {});
    LoopMerges(fields, a, u + b, st);
    LoopMerges(fields, a, b, st);
    assert a + u + b == a + (u + b);
    LoopSkipsField(fields, f, s, b, DecLoop(fields, a, st).value.value);
  }

  // ---------------------------------------------------------------- what is not skipped

  /** A zero in place of a key ends the message, whatever follows. */
  lemma ZeroKeyEnds(fields: seq<Field>, s: seq<byte>, st: State)
    requires Laid(fields) && TypedStruct(fields, st.slots) && s != [] && s[0] == 0
    ensures DecLoop(fields, s, st) == Success(Got(st, s[1..]))
  {
    hide Laid, TypedStruct, DecOne;
  }

  /** An unknown field of a wire type that is not one of the four, such as a group, fails. */
  lemma GroupsAreRefused(fields: seq<Field>, code: nat, tag: nat, rest: seq<byte>, st: State)
    requires Laid(fields) && TypedStruct(fields, st.slots) && FieldOf(fields, tag).None? && 1 <= tag < TAG_END
    requires code in {3, 4, 6, 7}
    ensures DecLoop(fields, EncVarint(8 * tag + code) + rest, st) == Failure(InvalidWireType)
  {
    hide Laid, TypedStruct, FieldOf, EncVarint, DecVarint32, Releasable, DecSlot;
    var s := EncVarint(8 * tag + code) + rest;
    Varint32RoundTrip(8 * tag + code, rest);
    assert (8 * tag + code) % 8 == code && (8 * tag + code) / 8 == tag;
    assert DecKey(s) == Success(Got(Key(OtherWire(code), tag), rest));
  }
}
