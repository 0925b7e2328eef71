/** Which value stands in a field that was not in the input: the one its descriptor declares. */
module PbDefaults {
  import opened Wrappers
  import opened Bits
  import opened PbWire
  import opened PbTypes
  import opened PbCodec
  import opened PbMerge

  predicate AllZero(mem: seq<byte>) {
    forall i :: 0 <= i < |mem| ==> mem[i] == 0
  }

  /** The object has the declared default value: the one in the descriptor or, without that, zero;
      a submessage has those of its fields. */
  predicate DeclaredItem(f: Field, it: Item)
    requires TypedItem(f, it)
    decreases f, 0
  {
    if f.ltype == LSubmessage then DeclaredStruct(f.sub, it.slots)
    else if f.init.Some? then it == f.init.value
    else
      match it
      case Num(n) => n == 0
      case Bytes(size, mem) => size == 0 && AllZero(mem)
      case Chars(mem) => AllZero(mem)
      case Struct(_) => false
  }

  /** The field has its default value and is marked as absent where that is possible. */
  predicate DeclaredSlot(f: Field, s: Slot)
    requires TypedSlot(f, s)
    decreases f, 1
  {
    match f.htype
    case Required => DeclaredItem(f, s.item)
    case Optional => DeclaredItem(f, s.item) && (f.sizeOffset != 0 ==> !s.has)
    case Repeated => s.count == 0
    case OneOf => s.which == 0
  }

  predicate DeclaredStruct(fields: seq<Field>, slots: seq<Slot>)
    requires TypedStruct(fields, slots)
    decreases fields, 2
  {
    forall i :: 0 <= i < |fields| ==> DeclaredSlot(fields[i], slots[Home(fields, i)])
  }

  lemma {:induction false} SlotIsDeclared(f: Field, s: Slot)
    requires LaidField(f) && TypedSlot(f, s)
    ensures DeclaredSlot(f, DefaultSlot(f, s))
    decreases f, 1
  {
    if f.ltype == LSubmessage && (f.htype == Required || f.htype == Optional) {
      StructIsDeclared(f.sub, 0, s.item.slots);
    }
  }

  lemma EmptyUnionIsDeclared(f: Field, s: Slot)
    requires f.htype == OneOf && TypedSlot(f, s) && (s.Union? ==> s.which == 0)
    ensures DeclaredSlot(f, s)
  {
  }

  /** pb_message_set_to_defaults gives every field it passes its declared default. */
  lemma {:induction false} StructIsDeclared(fields: seq<Field>, k: nat, slots: seq<Slot>)
    requires Laid(fields) && k <= |fields| && TypedStruct(fields, slots)
    requires forall i :: 0 <= i < k ==> DeclaredSlot(fields[i], slots[Home(fields, i)])
    ensures DeclaredStruct(fields, DefaultFrom(fields, k, slots))
    decreases fields, |fields| - k
  {
    hide DeclaredSlot, TypedSlot, DefaultSlot, LaidField, DistinctTags;
    if k < |fields| {
      assert LaidField(fields[k]);
      var h := Home(fields, k);
      var s := DefaultSlot(fields[k], slots[h]);
      SlotIsDeclared(fields[k], slots[h]);
      StoreTyped(fields, slots, k, s);
      var slots' := slots[h := s];
      forall i | 0 <= i < k + 1 ensures DeclaredSlot(fields[i], slots'[Home(fields, i)]) {
        if i < k && Home(fields, i) == h {
          HomeShared(fields, i, k);
          EmptyUnionIsDeclared(fields[i], s);
        }
      }
      StructIsDeclared(fields, k + 1, slots');
    }
  }

  // ---------------------------------------------------------------- fields not in the input

  /** No field that shares field i's storage was met. */
  predicate Untouched(fields: seq<Field>, i: nat, met: set<nat>)
    requires i < |fields|
  {
    forall j :: 0 <= j < |fields| && j in met ==> Home(fields, j) != Home(fields, i)
  }

  lemma OneKeeps(fields: seq<Field>, wire: WireType, tag: nat, s: seq<byte>, st: State, i: nat)
    requires Laid(fields) && TypedStruct(fields, st.slots) && DecOne(fields, wire, tag, s, st).Success?
    requires i < |fields| && Untouched(fields, i, Named(fields, tag))
    ensures |DecOne(fields, wire, tag, s, st).value.value.slots| == |st.slots| == |fields|
    ensures DecOne(fields, wire, tag, s, st).value.value.slots[Home(fields, i)] == st.slots[Home(fields, i)]
  {
    hide DecSlot, LaidField, TypedSlot, Skip, Laid, Home;
  }

  /** Decoding leaves alone what the input does not name. */
  lemma {:induction false} LoopKeeps(fields: seq<Field>, s: seq<byte>, st: State, i: nat)
    requires Laid(fields) && TypedStruct(fields, st.slots) && DecLoop(fields, s, st).Success?
    requires i < |fields| && Untouched(fields, i, Met(fields, s, st))
    ensures |DecLoop(fields, s, st).value.value.slots| == |st.slots| == |fields|
    ensures DecLoop(fields, s, st).value.value.slots[Home(fields, i)] == st.slots[Home(fields, i)]
    decreases |s|
  {
    hide DecOne, LaidField, TypedSlot, Laid, DecKey, Named, Home;
    if s != [] && DecKey(s).value.value.Key? {
      var k := DecKey(s).value;
      var o := DecOne(fields, k.value.wire, k.value.tag, k.rest, st).value;
      assert Met(fields, s, st) == Named(fields, k.value.tag) + Met(fields, o.rest, o.value);
      OneKeeps(fields, k.value.wire, k.value.tag, k.rest, st, i);
      LoopKeeps(fields, o.rest, o.value, i);
    }
  }

  /** After pb_decode over any memory, a field that is not in the input, and no member of whose
      union is, has its declared default value, no presence and no entries. */
  lemma AbsentIsDeclared(fields: seq<Field>, s: seq<byte>, memory: seq<Slot>, i: nat)
    requires Laid(fields) && TypedStruct(fields, memory) && Decode(fields, s, memory).Success?
    requires i < |fields| && Untouched(fields, i, Met(fields, s, State(Default(fields, memory), {})))
    ensures var slots := Decode(fields, s, memory).value.value;
      TypedSlot(fields[i], slots[Home(fields, i)]) && DeclaredSlot(fields[i], slots[Home(fields, i)])
  {
    hide DecLoop, DeclaredSlot, TypedSlot, Laid, Met, Home, Untouched;
    var st := State(Default(fields, memory), {});
    StructIsDeclared(fields, 0, memory);
    LoopKeeps(fields, s, st, i);
  }

  /** For example, an optional int32 with the default value 7. */
  lemma SevenByDefault(memory: seq<Slot>)
    requires var fields := [Field(1, Optional, LVarint, 0, 1, 4, 0, Some(Num(7)), [])]; TypedStruct(fields, memory)
    ensures var fields := [Field(1, Optional, LVarint, 0, 1, 4, 0, Some(Num(7)), [])];
      Laid(fields) && Decode(fields, [], memory) == Success(Got([Single(false, Num(7))], []))
  {
    var f := Field(1, Optional, LVarint, 0, 1, 4, 0, Some(Num(7)), []);
    var fields := [f];
    assert LaidField(f) && Laid(fields);
    assert TypedSlot(f, memory[Home(fields, 0)]);
    assert DefaultFrom(fields, 0, memory) == DefaultFrom(fields, 1, memory[0 := DefaultSlot(f, memory[0])]);
    assert Default(fields, memory) == [Single(false, Num(7))];
    assert TrackedRequired(fields) == 0 by { assert ReqIndex(fields, 1) == ReqIndex(fields, 0) == 0; }
  }
}
