/** pb_field_iter_t: the cyclic walk over a descriptor that carries the address of the
    current field and the count of required fields before it. */
module PbIter {
  import opened Wrappers
  import opened PbWire
  import opened PbTypes

  /** Bytes a field occupies from its address on. */
  function FieldSize(f: Field): nat {
    if f.htype == Repeated then f.dataSize * f.arraySize else f.dataSize
  }

  /** The address of field i, summed up from the relative offsets in the descriptor. */
  function Offset(fields: seq<Field>, i: nat): nat
    requires i < |fields|
  {
    if i == 0 then fields[0].dataOffset
    else if InUnion(fields, i) then Offset(fields, i - 1)
    else Offset(fields, i - 1) + FieldSize(fields[i - 1]) + fields[i].dataOffset
  }

  /** The generator's macros: offsets of members relative to the end of the previous one,
      PB_SIZE_MAX inside a union. at[i] is offsetof(struct, member i). */
  predicate Describes(fields: seq<Field>, at: seq<nat>, union: seq<bool>)
  {
    && |at| == |fields| == |union|
    && forall i :: 0 <= i < |fields| ==>
      if i == 0 then fields[0].dataOffset == at[0] && !union[0]
      else if union[i] then
        && fields[i].dataOffset == PB_SIZE_MAX && at[i] == at[i - 1]
        && fields[i].htype == OneOf && fields[i - 1].htype == OneOf
      else fields[i].dataOffset == at[i] - at[i - 1] - FieldSize(fields[i - 1])
  }

  /** The offset from the end of one union to the start of the next is not PB_SIZE_MAX,
      which the iterator could not tell from the union marker. */
  predicate UnionsApart(fields: seq<Field>, union: seq<bool>)
    requires |fields| == |union|
  {
    forall i :: 0 < i < |fields| && !union[i] && fields[i].htype == OneOf && fields[i - 1].htype == OneOf ==>
      fields[i].dataOffset != PB_SIZE_MAX
  }

  lemma {:induction false} OffsetIsMember(fields: seq<Field>, at: seq<nat>, union: seq<bool>, i: nat)
    requires Describes(fields, at, union) && UnionsApart(fields, union) && i < |fields|
    ensures Offset(fields, i) == at[i]
    ensures InUnion(fields, i) <==> union[i]
  {
    if i > 0 {
      OffsetIsMember(fields, at, union, i - 1);
      if union[i] {
        assert InUnion(fields, i) && Offset(fields, i) == Offset(fields, i - 1);
      } else {
        assert fields[i].dataOffset == at[i] - at[i - 1] - FieldSize(fields[i - 1]);
        assert !InUnion(fields, i);
        assert Offset(fields, i) == Offset(fields, i - 1) + FieldSize(fields[i - 1]) + fields[i].dataOffset;
      }
    }
  }

  /** The addresses the iterator sums up are the members' own exactly when no gap between
      two unions is mistaken for the marker. */
  lemma OffsetsAreMembersIff(fields: seq<Field>, at: seq<nat>, union: seq<bool>)
    requires Describes(fields, at, union)
    ensures UnionsApart(fields, union) <==> forall i :: 0 <= i < |fields| ==> Offset(fields, i) == at[i]
  {
    if UnionsApart(fields, union) {
      forall i | 0 <= i < |fields| ensures Offset(fields, i) == at[i] {
        OffsetIsMember(fields, at, union, i);
      }
    } else {
      var i :| 0 < i < |fields| && !union[i] && fields[i].htype == OneOf && fields[i - 1].htype == OneOf
        && fields[i].dataOffset == PB_SIZE_MAX;
      assert at[i] == at[i - 1] + FieldSize(fields[i - 1]) + PB_SIZE_MAX;
      assert Offset(fields, i) == Offset(fields, i - 1);
      assert Offset(fields, i) != at[i] || Offset(fields, i - 1) != at[i - 1];
    }
  }

  /** Such a gap: a union as large as a member can be, read last through its smallest member, and
      another union right behind it. */
  lemma MisreadUnion() returns (fields: seq<Field>, at: seq<nat>, union: seq<bool>)
    ensures Laid(fields) && Describes(fields, at, union) && !UnionsApart(fields, union)
    ensures |fields| == 3 && !union[2] && Offset(fields, 2) == at[0] != at[2]
  {
    var large := Field(1, OneOf, LFixedBytes, 8, 8, PB_SIZE_MAX, 0, None, []);
    var small := Field(2, OneOf, LFixedBytes, PB_SIZE_MAX, 8, 1, 0, None, []);
    var next := Field(3, OneOf, LFixedBytes, PB_SIZE_MAX, 8, 1, 0, None, []);
    fields, at, union := [large, small, next], [8, 8, 8 + 1 + PB_SIZE_MAX], [false, true, false];
    assert LaidField(large) && LaidField(small) && LaidField(next);
    assert Offset(fields, 1) == Offset(fields, 0) == 8;
    assert !union[2] && fields[2].htype == fields[2 - 1].htype == OneOf && fields[2].dataOffset == PB_SIZE_MAX;
  }

  /** Fields share a slot exactly when they share an address, if none is empty. */
  lemma {:induction false} HomeIsAddress(fields: seq<Field>, i: nat, j: nat)
    requires i <= j < |fields| && forall k :: 0 <= k < |fields| ==> FieldSize(fields[k]) > 0
    ensures Offset(fields, i) <= Offset(fields, j)
    ensures Home(fields, i) == Home(fields, j) <==> Offset(fields, i) == Offset(fields, j)
    decreases j
  {
    if i < j { HomeIsAddress(fields, i, j - 1); }
  }

  /** The k-th field after start in cyclic order. */
  function Cyclic(n: nat, start: nat, k: nat): (p: nat)
    requires start < n && k < n
    ensures p < n
  {
    if start + k < n then start + k else start + k - n
  }

  class PbFieldIter {
    const start: seq<Field>
    const dest: int
    var pos: nat
    var requiredFieldIndex: nat
    var pData: int
    var pSize: int
    /** The slot stored at pData. */
    var slot: nat

    /** pos is the terminator only for an empty message type. */
    ghost predicate Valid()
      reads this
    {
      if start == [] then pos == 0 && requiredFieldIndex == 0
      else
        && pos < |start|
        && requiredFieldIndex == ReqIndex(start, pos)
        && pData == dest + Offset(start, pos)
        && pSize == pData + start[Home(start, pos)].sizeOffset
        && slot == Home(start, pos)
    }

    /** The address registers before pb_field_iter_begin. */
    constructor (fields: seq<Field>, dest: int)
      ensures Valid() && pos == 0 && start == fields && this.dest == dest
    {
      start, this.dest := fields, dest;
      pos, requiredFieldIndex, slot, pData, pSize := 0, 0, 0, dest, dest;
      new;
      var ok := Begin();
    }

    /** pb_field_iter_begin */
    method Begin() returns (ok: bool)
      modifies this
      ensures Valid() && pos == 0
      ensures ok <==> start != []
    {
      pos, requiredFieldIndex, slot := 0, 0, 0;
      if start != [] {
        pData := dest + start[pos].dataOffset;
        pSize := pData + start[pos].sizeOffset;
      }
      ok := start != [];
    }

    /** pb_field_iter_next: false when it wraps around to the first field. */
    method Next() returns (more: bool)
      requires Valid()
      modifies this
      ensures Valid()
      ensures more <==> old(pos) + 1 < |start|
      ensures pos == if more then old(pos) + 1 else 0
    {
      if start == [] {
        return false;
      }
      var prev := start[pos];
      pos := pos + 1;
      if pos == |start| {
        var ok := Begin();
        return false;
      }
      var prevSize := prev.dataSize;
      if prev.htype == OneOf && start[pos].htype == OneOf && start[pos].dataOffset == PB_SIZE_MAX {
        return true;
      } else if prev.htype == Repeated {
        prevSize := prevSize * prev.arraySize;
      }
      if prev.htype == Required {
        requiredFieldIndex := requiredFieldIndex + 1;
      }
      pData := pData + prevSize + start[pos].dataOffset;
      pSize := pData + start[pos].sizeOffset;
      slot := pos;
      more := true;
    }

    /** pos is the first field with the tag, counting cyclically from a given one. */
    ghost predicate FirstFrom(from: nat, tag: nat)
      requires from < |start|
      reads this
    {
      && pos < |start| && start[pos].tag == tag
      && exists k | 0 <= k < |start| :: pos == Cyclic(|start|, from, k) && NoneBefore(from, k, tag)
    }

    ghost predicate NoneBefore(from: nat, k: nat, tag: nat)
      requires from < |start| && k < |start|
    {
      forall j :: 0 <= j < k ==> start[Cyclic(|start|, from, j)].tag != tag
    }

    /** pb_field_iter_find: the first field with the tag in cyclic order from the current
        one, or the current one again when there is none. */
    method Find(tag: nat) returns (found: bool)
      requires Valid()
      modifies this
      ensures Valid()
      ensures start == [] ==> found == (tag == 0)
      ensures start != [] ==> (found <==> exists i :: 0 <= i < |start| && start[i].tag == tag)
      ensures start != [] && found ==> FirstFrom(old(pos), tag)
      ensures !found ==> pos == old(pos)
    {
      if start == [] {
        // The terminator has tag 0.
        return tag == 0;
      }
      var first := pos;
      ghost var k := 0;
      while true
        invariant Valid() && k < |start| && pos == Cyclic(|start|, first, k)
        invariant NoneBefore(first, k, tag)
        decreases |start| - k
      {
        if start[pos].tag == tag {
          return true;
        }
        var more := Next();
        if pos == first {
          AllSeen(first, k, tag);
          return false;
        }
        k := k + 1;
      }
    }

    lemma AllSeen(first: nat, k: nat, tag: nat)
      requires first < |start| && k + 1 == |start|
      requires forall j :: 0 <= j <= k ==> start[Cyclic(|start|, first, j)].tag != tag
      ensures forall i :: 0 <= i < |start| ==> start[i].tag != tag
    {
      forall i | 0 <= i < |start| ensures start[i].tag != tag {
        var j := if i >= first then i - first else i + |start| - first;
        assert Cyclic(|start|, first, j) == i;
      }
    }
  }
}
