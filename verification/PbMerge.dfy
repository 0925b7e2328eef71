/** What pb_decode_noinit does with concatenated input: merging, unknown fields, and which
    required fields it insists on. */
module PbMerge {
  import opened Wrappers
  import opened Bits
  import opened PbWire
  import opened PbTypes
  import opened PbCodec

  // ---------------------------------------------------------------- more input behind

  lemma NumberAppended(f: Field, s: seq<byte>, old_: Item, t: seq<byte>)
    requires LaidField(f) && TypedItem(f, old_) && f.ltype.Packable() && DecItem(f, s, old_).Success?
    ensures DecItem(f, s + t, old_) == Success(Got(DecItem(f, s, old_).value.value, DecItem(f, s, old_).value.rest + t))
  {
    hide DecVarint64From, FixedValue, Laid, VarintValue, UVarintValue, SVarintValue, Take;
    match f.ltype
    case LVarint | LUVarint | LSVarint => Varint64Appended(s, 0, 0, t);
    case LFixed32 => TakeAppended(s, 4, t);
    case LFixed64 => TakeAppended(s, 8, t);
    case _ =>
  }

  lemma BlobAppended(f: Field, s: seq<byte>, old_: Item, t: seq<byte>)
    requires LaidField(f) && TypedItem(f, old_) && !f.ltype.Packable() && f.ltype != LSubmessage
    requires DecItem(f, s, old_).Success?
    ensures DecItem(f, s + t, old_) == Success(Got(DecItem(f, s, old_).value.value, DecItem(f, s, old_).value.rest + t))
  {
    hide DecVarint32, Laid;
    Varint32Appended(s, t);
    var n := DecVarint32(s).value;
    if |n.rest| >= n.value { TakeAppended(n.rest, n.value, t); }
  }

  /** An object is decoded from its own bytes only. */
  lemma ItemAppended(f: Field, s: seq<byte>, old_: Item, t: seq<byte>)
    requires LaidField(f) && TypedItem(f, old_) && DecItem(f, s, old_).Success?
    ensures DecItem(f, s + t, old_) == Success(Got(DecItem(f, s, old_).value.value, DecItem(f, s, old_).value.rest + t))
  {
    if f.ltype.Packable() {
      NumberAppended(f, s, old_, t);
    } else if f.ltype == LSubmessage {
      hide DecDelimited, DecodeNoInit, TypedStruct, Laid;
      DelimitedAppended(s, t);
    } else {
      BlobAppended(f, s, old_, t);
    }
  }

  lemma SlotAppended(f: Field, wire: WireType, s: seq<byte>, slot: Slot, t: seq<byte>)
    requires LaidField(f) && TypedSlot(f, slot) && DecSlot(f, wire, s, slot).Success?
    ensures DecSlot(f, wire, s + t, slot)
         == Success(Got(DecSlot(f, wire, s, slot).value.value, DecSlot(f, wire, s, slot).value.rest + t))
  {
    hide DecItem, DecPacked, TypedItem, DecDelimited, LaidField, UnionBase;
    match f.htype
    case Required | Optional => ItemAppended(f, s, slot.item, t);
    case Repeated =>
      if wire == Delimited && f.ltype.Packable() {
        DelimitedAppended(s, t);
      } else if slot.count < f.arraySize {
        ItemAppended(f, s, slot.items[slot.count], t);
      }
    case OneOf => ItemAppended(f, s, UnionBase(f, slot), t);
  }

  lemma OneAppended(fields: seq<Field>, wire: WireType, tag: nat, s: seq<byte>, st: State, t: seq<byte>)
    requires Laid(fields) && TypedStruct(fields, st.slots) && DecOne(fields, wire, tag, s, st).Success?
    ensures DecOne(fields, wire, tag, s + t, st)
         == Success(Got(DecOne(fields, wire, tag, s, st).value.value, DecOne(fields, wire, tag, s, st).value.rest + t))
  {
    hide DecSlot, TypedSlot, LaidField, Skip;
    match FieldOf(fields, tag)
    case None => SkipAppended(s, wire, t);
    case Some(i) =>
      assert LaidField(fields[i]) && TypedSlot(fields[i], st.slots[Home(fields, i)]);
      SlotAppended(fields[i], wire, s, st.slots[Home(fields, i)], t);
  }

  // ---------------------------------------------------------------- merging

  /** The input is a sequence of complete fields without a zero key. */
  ghost predicate Complete(fields: seq<Field>, s: seq<byte>, st: State)
    requires Laid(fields) && TypedStruct(fields, st.slots)
    decreases |s|
  {
    if s == [] then true
    else if DecKey(s).Failure? || DecKey(s).value.value.Eof? then false
    else
      var k := DecKey(s).value;
      var o := DecOne(fields, k.value.wire, k.value.tag, k.rest, st);
      o.Success? && Complete(fields, o.value.rest, o.value.value)
  }

  /** The loop on a ++ b is the loop on b from where a led. */
  lemma {:induction false} LoopMerges(fields: seq<Field>, a: seq<byte>, b: seq<byte>, st: State)
    requires Laid(fields) && TypedStruct(fields, st.slots) && Complete(fields, a, st)
    ensures DecLoop(fields, a, st).Success? && DecLoop(fields, a, st).value.rest == []
    ensures DecLoop(fields, a + b, st) == DecLoop(fields, b, DecLoop(fields, a, st).value.value)
    decreases |a|
  {
    hide DecOne, DecKey, Laid, TypedStruct;
    if a == [] {
      assert a + b == b;
    } else {
      var k := DecKey(a).value;
      KeyAppended(a, b);
      OneAppended(fields, k.value.wire, k.value.tag, k.rest, st, b);
      var o := DecOne(fields, k.value.wire, k.value.tag, k.rest, st).value;
      LoopMerges(fields, o.rest, b, o.value);
    }
  }

  predicate NoRequired(fields: seq<Field>) {
    forall i :: 0 <= i < |fields| ==> fields[i].htype != Required
  }

  lemma {:induction false} NoneCounted(fields: seq<Field>, i: nat)
    requires NoRequired(fields) && i <= |fields|
    ensures ReqIndex(fields, i) == 0
    decreases i
  {
    if i > 0 { NoneCounted(fields, i - 1); }
  }

  lemma {:induction false} NoneSeen(fields: seq<Field>, s: seq<byte>, st: State)
    requires Laid(fields) && TypedStruct(fields, st.slots) && NoRequired(fields) && DecLoop(fields, s, st).Success?
    ensures DecLoop(fields, s, st).value.value.seen == st.seen
    decreases |s|
  {
    hide DecSlot, LaidField, TypedSlot, Skip, DecKey;
    if s != [] && DecKey(s).value.value.Key? {
      var k := DecKey(s).value;
      var o := DecOne(fields, k.value.wire, k.value.tag, k.rest, st).value;
      NoneSeen(fields, o.rest, o.value);
    }
  }

  /** Merge law: without required fields, decoding a ++ b is decoding b on top of a. */
  lemma MergeLaw(fields: seq<Field>, a: seq<byte>, b: seq<byte>, slots: seq<Slot>)
    requires Laid(fields) && TypedStruct(fields, slots) && NoRequired(fields)
    requires Complete(fields, a, State(slots, {}))
    ensures DecodeNoInit(fields, a, slots).Success?
    ensures DecodeNoInit(fields, a + b, slots) == DecodeNoInit(fields, b, DecodeNoInit(fields, a, slots).value.value)
  {
    hide DecLoop, Complete, Laid, TypedStruct, NoRequired;
    var st := State(slots, {});
    NoneCounted(fields, |fields|);
    LoopMerges(fields, a, b, st);
    NoneSeen(fields, a, st);
  }

  /** A well-formed field the descriptor does not know. */
  ghost predicate UnknownField(fields: seq<Field>, u: seq<byte>) {
    && u != [] && DecKey(u).Success? && DecKey(u).value.value.Key?
    && DecKey(u).value.value.tag >= 1
    && FieldOf(fields, DecKey(u).value.value.tag).None?
    && Skip(DecKey(u).value.rest, DecKey(u).value.value.wire) == Success([])
  }

  /** Unknown fields between complete fields change nothing, required fields or not. */
  lemma UnknownFieldIgnored(fields: seq<Field>, a: seq<byte>, u: seq<byte>, b: seq<byte>, slots: seq<Slot>)
    requires Laid(fields) && TypedStruct(fields, slots) && UnknownField(fields, u)
    requires Complete(fields, a, State(slots, {}))
    ensures DecodeNoInit(fields, a + u + b, slots) == DecodeNoInit(fields, a + b, slots)
  {
    hide Laid, TypedStruct, Complete, DecKey, Skip, FieldOf;
    var st := State(slots, {});
    LoopMerges(fields, a, u + b, st);
    LoopMerges(fields, a, b, st);
    assert a + u + b == a + (u + b);
    var st' := DecLoop(fields, a, st).value.value;
    KeyAppended(u, b);
    var k := DecKey(u).value;
    SkipAppended(k.rest, k.value.wire, b);
    assert [] + b == b;
    assert DecLoop(fields, u + b, st') == DecLoop(fields, b, st');
  }

  // ---------------------------------------------------------------- required fields

  /** The field a tag names, as a set. */
  ghost function Named(fields: seq<Field>, tag: nat): set<nat> {
    match FieldOf(fields, tag)
    case Some(i) => {i}
    case None => {}
  }

  /** The fields whose keys occur in the input. */
  ghost function Met(fields: seq<Field>, s: seq<byte>, st: State): set<nat>
    requires Laid(fields) && TypedStruct(fields, st.slots)
    decreases |s|
  {
    if s == [] || DecKey(s).Failure? || DecKey(s).value.value.Eof? then {}
    else
      var k := DecKey(s).value;
      var o := DecOne(fields, k.value.wire, k.value.tag, k.rest, st);
      if o.Failure? then {} else Named(fields, k.value.tag) + Met(fields, o.value.rest, o.value.value)
  }

  predicate Tracked(fields: seq<Field>, i: nat)
    requires i < |fields|
  {
    fields[i].htype == Required && ReqIndex(fields, i) < PB_MAX_REQUIRED_FIELDS
  }

  /** A tracked required field with number r is in met. */
  ghost predicate NumberMet(fields: seq<Field>, met: set<nat>, r: nat) {
    exists i :: 0 <= i < |fields| && i in met && Tracked(fields, i) && ReqIndex(fields, i) == r
  }

  lemma SeenIsNamed(fields: seq<Field>, wire: WireType, tag: nat, s: seq<byte>, st: State, r: nat)
    requires Laid(fields) && TypedStruct(fields, st.slots) && DecOne(fields, wire, tag, s, st).Success?
    ensures r in DecOne(fields, wire, tag, s, st).value.value.seen
       <==> r in st.seen || NumberMet(fields, Named(fields, tag), r)
  {
    hide DecSlot, LaidField, TypedSlot, Skip, TypedStruct, Laid;
    match FieldOf(fields, tag)
    case None =>
    case Some(i) =>
      assert i in Named(fields, tag);
  }

  lemma MetUnion(fields: seq<Field>, a: set<nat>, b: set<nat>, r: nat)
    ensures NumberMet(fields, a + b, r) <==> NumberMet(fields, a, r) || NumberMet(fields, b, r)
  {
    if NumberMet(fields, a + b, r) {
      var i :| 0 <= i < |fields| && i in a + b && Tracked(fields, i) && ReqIndex(fields, i) == r;
      assert i in a || i in b;
    }
    if NumberMet(fields, a, r) {
      var i :| 0 <= i < |fields| && i in a && Tracked(fields, i) && ReqIndex(fields, i) == r;
      assert i in a + b;
    }
    if NumberMet(fields, b, r) {
      var i :| 0 <= i < |fields| && i in b && Tracked(fields, i) && ReqIndex(fields, i) == r;
      assert i in a + b;
    }
  }

  /** The numbers in seen are those of the tracked required fields met. */
  lemma {:induction false} SeenAreMet(fields: seq<Field>, s: seq<byte>, st: State, r: nat)
    requires Laid(fields) && TypedStruct(fields, st.slots) && DecLoop(fields, s, st).Success?
    ensures r in DecLoop(fields, s, st).value.value.seen <==> r in st.seen || NumberMet(fields, Met(fields, s, st), r)
    decreases |s|
  {
    hide DecOne, LaidField, TypedStruct, Laid, DecKey, Named, NumberMet;
    if s != [] && DecKey(s).value.value.Key? {
      var k := DecKey(s).value;
      var o := DecOne(fields, k.value.wire, k.value.tag, k.rest, st).value;
      SeenIsNamed(fields, k.value.wire, k.value.tag, k.rest, st, r);
      SeenAreMet(fields, o.rest, o.value, r);
      MetUnion(fields, Named(fields, k.value.tag), Met(fields, o.rest, o.value), r);
    } else {
      NothingMet(fields, r);
    }
  }

  lemma NothingMet(fields: seq<Field>, r: nat)
    ensures !NumberMet(fields, {}, r)
  {
  }

  lemma {:induction false} ReqIndexStrict(fields: seq<Field>, i: nat, j: nat)
    requires i < j <= |fields| && fields[i].htype == Required
    ensures ReqIndex(fields, i) < ReqIndex(fields, j)
    decreases j
  {
    if i + 1 < j { ReqIndexStrict(fields, i, j - 1); }
  }

  /** Every number below the count belongs to a required field. */
  lemma {:induction false} ReqIndexOnto(fields: seq<Field>, n: nat, r: nat) returns (i: nat)
    requires n <= |fields| && r < ReqIndex(fields, n)
    ensures i < n && fields[i].htype == Required && ReqIndex(fields, i) == r
    decreases n
  {
    if fields[n - 1].htype == Required && ReqIndex(fields, n - 1) == r {
      i := n - 1;
    } else {
      i := ReqIndexOnto(fields, n - 1, r);
    }
  }

  /** When the fields themselves decode, pb_decode_noinit succeeds exactly when each of the
      first 64 required fields occurs in the input. */
  lemma RequiredCheck(fields: seq<Field>, s: seq<byte>, slots: seq<Slot>)
    requires Laid(fields) && TypedStruct(fields, slots) && DecLoop(fields, s, State(slots, {})).Success?
    ensures DecodeNoInit(fields, s, slots).Success?
       <==> forall i :: 0 <= i < |fields| && Tracked(fields, i) ==> i in Met(fields, s, State(slots, {}))
  {
    hide DecLoop, Met, LaidField, TypedSlot, Laid, TypedStruct;
    var st := State(slots, {});
    var seen := DecLoop(fields, s, st).value.value.seen;
    var met := Met(fields, s, st);
    if DecodeNoInit(fields, s, slots).Success? {
      forall i | 0 <= i < |fields| && Tracked(fields, i) ensures i in met {
        ReqIndexStrict(fields, i, |fields|);
        SeenAreMet(fields, s, st, ReqIndex(fields, i));
        var j :| 0 <= j < |fields| && j in met && Tracked(fields, j) && ReqIndex(fields, j) == ReqIndex(fields, i);
        if j < i { ReqIndexStrict(fields, j, i); }
        if i < j { ReqIndexStrict(fields, i, j); }
      }
    }
    if forall i :: 0 <= i < |fields| && Tracked(fields, i) ==> i in met {
      forall r | 0 <= r < TrackedRequired(fields) ensures r in seen {
        var i := ReqIndexOnto(fields, |fields|, r);
        assert Tracked(fields, i);
        SeenAreMet(fields, s, st, r);
      }
    }
  }
}
