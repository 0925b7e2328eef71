/** pb_decode.c over input streams: every method reads exactly what PbCodec.dfy says and
    leaves exactly that struct behind, or fails where the function fails. After a failure
    the struct is whatever had been written by then; nothing is claimed about it. */
module PbDecoder {
  import opened Wrappers
  import opened Bits
  import opened PbWire
  import opened PbTypes
  import opened PbCodec
  import opened PbDefaults
  import opened PbStreams
  import opened PbIter
  import opened PbRequired

  /** The memory of a message struct. */
  class Dest {
    var slots: seq<Slot>

    constructor (slots: seq<Slot>)
      ensures this.slots == slots
    {
      this.slots := slots;
    }
  }

  /** pb_field_set_to_default */
  method FieldSetToDefault(f: Field, s: Slot) returns (r: Slot)
    requires LaidField(f) && TypedSlot(f, s)
    ensures r == DefaultSlot(f, s) && DeclaredSlot(f, r)
    decreases f, 1
  {
    SlotIsDeclared(f, s);
    match f.htype
    case Repeated => return Array(0, s.items);
    case OneOf => return Union(0, s.item);
    case Required | Optional =>
      var has := if f.htype == Optional && f.sizeOffset != 0 then false else s.has;
      if f.ltype == LSubmessage {
        var sub := new Dest(s.item.slots);
        MessageSetToDefaults(f.sub, sub);
        r := Single(has, Struct(sub.slots));
      } else if f.init.Some? {
        r := Single(has, f.init.value);
      } else {
        r := Single(has, ZeroItem(f));
      }
  }

  /** Field i set to its default, the rest still to do. */
  lemma DefaultUnfold(fields: seq<Field>, i: nat, slots: seq<Slot>)
    requires Laid(fields) && TypedStruct(fields, slots) && i < |fields|
    ensures var h := Home(fields, i);
      && h < |slots| && LaidField(fields[i]) && TypedSlot(fields[i], slots[h])
      && var slots' := slots[h := DefaultSlot(fields[i], slots[h])];
      && TypedStruct(fields, slots')
      && DefaultFrom(fields, i, slots) == DefaultFrom(fields, i + 1, slots')
  {
    hide TypedSlot, LaidField, DistinctTags, DefaultSlot;
    var h := Home(fields, i);
    assert LaidField(fields[i]);
    StoreTyped(fields, slots, i, DefaultSlot(fields[i], slots[h]));
  }

  /** pb_message_set_to_defaults */
  method MessageSetToDefaults(fields: seq<Field>, dest: Dest)
    requires Laid(fields) && TypedStruct(fields, dest.slots)
    modifies dest
    ensures dest.slots == Default(fields, old(dest.slots)) && DeclaredStruct(fields, dest.slots)
    decreases fields, 2
  {
    hide Laid, TypedStruct, TypedSlot, LaidField, DefaultSlot, DeclaredStruct, DeclaredSlot;
    StructIsDeclared(fields, 0, dest.slots);
    var iter := new PbFieldIter(fields, 0);
    var more := iter.Begin();
    while more
      invariant iter.Valid() && iter.start == fields && fresh(iter)
      invariant more ==> fields != []
      invariant TypedStruct(fields, dest.slots)
      invariant Default(fields, old(dest.slots))
             == DefaultFrom(fields, if more then iter.pos else |fields|, dest.slots)
      decreases more, |fields| - iter.pos
    {
      DefaultUnfold(fields, iter.pos, dest.slots);
      var s := FieldSetToDefault(fields[iter.pos], dest.slots[iter.slot]);
      dest.slots := dest.slots[iter.slot := s];
      more := iter.Next();
    }
  }

  /** The pb_dec_* functions. */
  method DecodeItem(stream: PbIStream, f: Field, old_: Item) returns (r: Result<Item>)
    requires stream.Valid() && LaidField(f) && TypedItem(f, old_)
    modifies stream
    ensures stream.Valid() && stream.Reads(r, DecItem(f, old(stream.Rest()), old_))
    ensures r.Success? ==> stream.End() == old(stream.End())
    decreases f, 0
  {
    hide TypedStruct, FixedValue, DecVarint32, DecVarint64From, Laid, VarintValue, UVarintValue, SVarintValue;
    match f.ltype
    case LVarint =>
      var v :- stream.DecodeVarint();
      var n :- VarintValue(f, v);
      r := Success(Num(n));
    case LUVarint =>
      var v :- stream.DecodeVarint();
      var n :- UVarintValue(f, v);
      r := Success(Num(n));
    case LSVarint =>
      var v :- stream.DecodeVarint();
      var n :- SVarintValue(f, v);
      r := Success(Num(n));
    case LFixed32 =>
      var t :- stream.Read(4);
      r := Success(Num(FixedValue(t)));
    case LFixed64 =>
      var t :- stream.Read(8);
      r := Success(Num(FixedValue(t)));
    case LBytes =>
      var size :- stream.DecodeVarint32();
      if size > PB_SIZE_MAX || size + BYTES_HEADER > f.dataSize {
        return Failure(BytesOverflow);
      }
      var t :- stream.Read(size);
      r := Success(Bytes(size, Overwrite(old_.mem, t)));
    case LString =>
      var size :- stream.DecodeVarint32();
      if size + 1 > f.dataSize {
        return Failure(StringOverflow);
      }
      var t :- stream.Read(size);
      r := Success(Chars(Overwrite(old_.mem, t + [0])));
    case LFixedBytes =>
      var size :- stream.DecodeVarint32();
      if size > PB_SIZE_MAX {
        return Failure(BytesOverflow);
      }
      if size == 0 {
        return Success(Chars(Zeros(f.dataSize)));
      }
      if size != f.dataSize {
        return Failure(IncorrectFixedLength);
      }
      var t :- stream.Read(f.dataSize);
      r := Success(Chars(t));
    case LSubmessage => r := DecodeSubmessage(stream, f, old_);
  }

  /** pb_dec_submessage */
  method DecodeSubmessage(stream: PbIStream, f: Field, old_: Item) returns (r: Result<Item>)
    requires stream.Valid() && LaidField(f) && TypedItem(f, old_) && f.ltype == LSubmessage
    modifies stream
    ensures stream.Valid() && stream.Reads(r, DecItem(f, old(stream.Rest()), old_))
    ensures r.Success? ==> stream.End() == old(stream.End())
    decreases f.sub, 6
  {
    hide TypedStruct, Laid, DecodeNoInit, DecVarint32;
    var substream :- stream.MakeSubstream();
    var dest := new Dest(old_.slots);
    if f.htype == Repeated {
      var ok :- DecodeMessage(substream, f.sub, dest);
    } else {
      var ok :- DecodeMessageNoInit(substream, f.sub, dest);
    }
    stream.CloseSubstream(substream);
    r := Success(Struct(dest.slots));
  }

  /** The packed branch of decode_static_field. */
  method DecodePacked(stream: PbIStream, f: Field, slot: Slot) returns (r: Result<Slot>)
    requires stream.Valid() && LaidField(f) && TypedSlot(f, slot) && f.htype == Repeated && f.ltype.Packable()
    modifies stream
    ensures stream.Valid() && stream.Reads(r, DecSlot(f, Delimited, old(stream.Rest()), slot))
    ensures r.Success? ==> stream.End() == old(stream.End())
    decreases f, 1
  {
    hide DecItem, TypedItem, Laid, DecDelimited;
    var substream :- stream.MakeSubstream();
    ghost var payload := substream.Rest();
    var count, items := slot.count, slot.items;
    while substream.bytesLeft > 0 && count < f.arraySize
      modifies substream
      invariant substream.Valid() && count <= PB_SIZE_MAX && |items| == f.arraySize
      invariant substream.End() + stream.bytesLeft == old(stream.End())
      invariant forall k :: 0 <= k < |items| ==> TypedItem(f, items[k])
      invariant DecPacked(f, substream.Rest(), count, items) == DecPacked(f, payload, slot.count, slot.items)
      decreases f.arraySize - count
    {
      var e :- DecodeItem(substream, f, items[count]);
      items := items[count := e];
      count := count + 1;
    }
    if substream.bytesLeft != 0 {
      return Failure(ArrayOverflow);
    }
    stream.CloseSubstream(substream);
    r := Success(Array(count, items));
  }

  /** decode_static_field */
  method DecodeStaticField(stream: PbIStream, wire: WireType, f: Field, slot: Slot) returns (r: Result<Slot>)
    requires stream.Valid() && LaidField(f) && TypedSlot(f, slot)
    modifies stream
    ensures stream.Valid() && stream.Reads(r, DecSlot(f, wire, old(stream.Rest()), slot))
    ensures r.Success? ==> stream.End() == old(stream.End())
    decreases f, 2
  {
    hide DecItem, TypedItem, DecPacked;
    match f.htype
    case Required =>
      var it :- DecodeItem(stream, f, slot.item);
      r := Success(Single(slot.has, it));
    case Optional =>
      var has := if f.sizeOffset != 0 then true else slot.has;
      var it :- DecodeItem(stream, f, slot.item);
      r := Success(Single(has, it));
    case Repeated =>
      if wire == Delimited && f.ltype.Packable() {
        r := DecodePacked(stream, f, slot);
      } else if slot.count >= f.arraySize {
        return Failure(ArrayOverflow);
      } else {
        var it :- DecodeItem(stream, f, slot.items[slot.count]);
        r := Success(Array(slot.count + 1, slot.items[slot.count := it]));
      }
    case OneOf =>
      var base := Retyped(f, slot.item);
      if f.ltype == LSubmessage {
        var fresh_ := new Dest(ZeroSlots(f.sub, 0));
        MessageSetToDefaults(f.sub, fresh_);
        base := Struct(fresh_.slots);
      }
      assert base == UnionBase(f, slot);
      var it :- DecodeItem(stream, f, base);
      r := Success(Union(f.tag, it));
  }

  // ---------------------------------------------------------------- messages

  lemma DecOneKnown(fields: seq<Field>, wire: WireType, i: nat, s: seq<byte>, st: State)
    requires Laid(fields) && TypedStruct(fields, st.slots) && i < |fields|
    ensures var h := Home(fields, i);
      && h < |st.slots| && LaidField(fields[i]) && TypedSlot(fields[i], st.slots[h])
      && DecOne(fields, wire, fields[i].tag, s, st) ==
           if PB_ENABLE_MALLOC && !Releasable(fields, fields[i], st.slots[h]) then Failure(InvalidUnionTag)
           else match DecSlot(fields[i], wire, s, st.slots[h])
             case Failure(e) => Failure(e)
             case Success(g) => Success(Got(State(st.slots[h := g.value], Seen(fields, i, st.seen)), g.rest))
  {
    hide DecSlot, TypedSlot, LaidField;
    FieldOfUnique(fields, i);
    assert LaidField(fields[i]) && TypedSlot(fields[i], st.slots[Home(fields, i)]);
  }

  /** Only unions have something to release. */
  lemma ReleasableSlot(fields: seq<Field>, i: nat, slots: seq<Slot>)
    requires Laid(fields) && TypedStruct(fields, slots) && i < |fields|
    ensures DistinctTags(fields) && |slots| == |fields|
    ensures fields[i].htype != OneOf ==> Releasable(fields, fields[i], slots[Home(fields, i)])
  {
    assert TypedSlot(fields[i], slots[Home(fields, i)]);
  }

  /** pb_release_union_field, which finds its way to the old member and back. A static member holds
      nothing to release. */
  method ReleaseUnionField(iter: PbFieldIter, slot: Slot) returns (ok: bool)
    requires iter.Valid() && iter.start != [] && DistinctTags(iter.start)
    modifies iter
    ensures iter.Valid() && ok == Releasable(iter.start, iter.start[old(iter.pos)], slot)
    ensures ok ==> iter.pos == old(iter.pos)
  {
    var newTag := iter.start[iter.pos].tag;
    if !slot.Union? || slot.which == 0 || slot.which == newTag {
      return true;
    }
    ok := iter.Find(slot.which);
    if !ok {
      return;
    }
    ok := iter.Find(newTag);
  }

  /** One turn of the loop in pb_decode_noinit. */
  method DecodeOne(stream: PbIStream, wire: WireType, tag: nat, iter: PbFieldIter, dest: Dest,
                   words: array<nat>, ghost seen: set<nat>) returns (r: Result<()>, ghost seen': set<nat>)
    requires stream.Valid() && iter.Valid() && Laid(iter.start) && TypedStruct(iter.start, dest.slots)
    requires words.Length == 2 && SeenWords(words[..], seen)
    requires forall k :: k in seen ==> k < TrackedRequired(iter.start)
    modifies stream, iter, dest, words
    ensures stream.Valid() && iter.Valid()
    ensures match DecOne(iter.start, wire, tag, old(stream.Rest()), State(old(dest.slots), seen))
            case Failure(_) => r.Failure?
            case Success(g) =>
              && r.Success? && stream.Rest() == g.rest && stream.End() == old(stream.End())
              && g.value == State(dest.slots, seen')
              && SeenWords(words[..], seen') && forall k :: k in seen' ==> k < TrackedRequired(iter.start)
    decreases iter.start, 3
  {
    hide DecSlot, TypedSlot, LaidField, SeenWords, Seen, TrackedRequired, Home, TypedStruct, Laid, Releasable,
      DistinctTags;
    seen' := seen;
    var fields := iter.start;
    var found := iter.Find(tag);
    if !found {
      assert DecOne(fields, wire, tag, stream.Rest(), State(dest.slots, seen)).Success?
        ==> FieldOf(fields, tag).None?;
      var ok :- stream.SkipField(wire);
      return Success(()), seen;
    }
    if fields == [] {
      // The terminator reads as a required varint field of no size.
      var v :- stream.DecodeVarint();
      return Failure(InvalidDataSize), seen;
    }
    var i := iter.pos;
    DecOneKnown(fields, wire, i, stream.Rest(), State(dest.slots, seen));
    seen' := MarkField(iter, words, seen);
    ReleasableSlot(fields, i, dest.slots);
    if PB_ENABLE_MALLOC && fields[i].htype == OneOf {
      var ok := ReleaseUnionField(iter, dest.slots[iter.slot]);
      if !ok {
        return Failure(InvalidUnionTag), seen;
      }
    }
    var s :- DecodeStaticField(stream, wire, fields[i], dest.slots[iter.slot]);
    dest.slots := dest.slots[iter.slot := s];
    r := Success(());
  }

  /** pb_decode_noinit */
  method DecodeMessageNoInit(stream: PbIStream, fields: seq<Field>, dest: Dest) returns (r: Result<()>)
    requires stream.Valid() && Laid(fields) && TypedStruct(fields, dest.slots)
    modifies stream, dest
    ensures stream.Valid()
    ensures match DecodeNoInit(fields, old(stream.Rest()), old(dest.slots))
            case Success(g) =>
              r.Success? && dest.slots == g.value && stream.Rest() == g.rest && stream.End() == old(stream.End())
            case Failure(_) => r.Failure?
    decreases fields, 4
  {
    hide DecOne, Laid, TypedStruct, TrackedRequired, SeenWords;
    ghost var whole := DecLoop(fields, stream.Rest(), State(dest.slots, {}));
    var words := new nat[2](_ => 0);
    assert SeenWords(words[..], {}) by { NothingSeen(words[..]); }
    var iter := new PbFieldIter(fields, 0);
    ghost var seen: set<nat> := {};
    var eof := false;
    while !eof && stream.bytesLeft > 0
      invariant stream.Valid() && iter.Valid() && iter.start == fields && fresh(iter) && fresh(words)
      invariant stream.End() == old(stream.End())
      invariant TypedStruct(fields, dest.slots)
      invariant words.Length == 2 && SeenWords(words[..], seen)
      invariant forall k :: k in seen ==> k < TrackedRequired(fields)
      invariant whole == if eof then Success(Got(State(dest.slots, seen), stream.Rest()))
                         else DecLoop(fields, stream.Rest(), State(dest.slots, seen))
      decreases !eof, stream.bytesLeft
    {
      var key :- stream.DecodeTag();
      match key
      case Eof => eof := true;
      case Key(wire, tag) =>
        var one: Result<()>;
        one, seen := DecodeOne(stream, wire, tag, iter, dest, words, seen);
        if one.Failure? {
          return one;
        }
    }
    var count := CountRequired(iter);
    var ok := CheckRequired(words, count, seen);
    if !ok {
      return Failure(MissingRequiredField);
    }
    r := Success(());
  }

  /** pb_decode */
  method DecodeMessage(stream: PbIStream, fields: seq<Field>, dest: Dest) returns (r: Result<()>)
    requires stream.Valid() && Laid(fields) && TypedStruct(fields, dest.slots)
    modifies stream, dest
    ensures stream.Valid()
    ensures match Decode(fields, old(stream.Rest()), old(dest.slots))
            case Success(g) =>
              r.Success? && dest.slots == g.value && stream.Rest() == g.rest && stream.End() == old(stream.End())
            case Failure(_) => r.Failure?
    decreases fields, 5
  {
    MessageSetToDefaults(fields, dest);
    r := DecodeMessageNoInit(stream, fields, dest);
  }
}
