/** The wire format written down apart from the codec: what the bytes of numbers mean, examples of
    whole encodings, and which values and lengths a field takes. */
module PbFormat {
  import opened Wrappers
  import opened Bits
  import opened PbWire
  import opened PbTypes
  import opened PbCodec
  import opened PbRoundTrip

  // ---------------------------------------------------------------- numbers

  /** The groups of seven bits, the one in byte i worth 2^(7i). */
  function Groups(s: seq<byte>): nat {
    if s == [] then 0 else Groups(s[..|s| - 1]) + (s[|s| - 1] % 128) * Pow2(7 * (|s| - 1))
  }

  /** Every byte but the last says that more follow, and the last is not superfluous. */
  predicate IsVarint(s: seq<byte>) {
    && s != [] && s[|s| - 1] < 128 && (forall i :: 0 <= i < |s| - 1 ==> s[i] >= 128)
    && (|s| > 1 ==> s[|s| - 1] != 0)
  }

  lemma {:induction false} GroupsFront(b: byte, s: seq<byte>)
    ensures Groups([b] + s) == b % 128 + 128 * Groups(s)
    decreases |s|
  {
    var t := [b] + s;
    if s == [] {
      assert t[..0] == [];
    } else {
      var k := |s| - 1;
      assert t[..|t| - 1] == [b] + s[..k];
      GroupsFront(b, s[..k]);
      NextGroup(7 * k);
      Scale(s[k] % 128, Pow2(7 * k));
    }
  }

  lemma Scale(g: nat, p: nat)
    ensures g * (128 * p) == 128 * (g * p)
  {
  }

  /** A varint is the shortest base-128 form of its value, the least significant group first. */
  lemma {:induction false} VarintIsBase128(v: nat)
    ensures IsVarint(EncVarint(v)) && Groups(EncVarint(v)) == v
    decreases v
  {
    hide EncVarint, Pow2;
    VarintUnfold(v);
    if v < 128 {
      GroupsFront(v, []);
      assert [v] + [] == [v];
    } else {
      VarintIsBase128(v / 128);
      GroupsFront(v % 128 + 128, EncVarint(v / 128));
      if |EncVarint(v / 128)| == 1 { OneGroupOnly(v / 128); }
    }
  }

  lemma OneGroupOnly(v: nat)
    requires v > 0 && |EncVarint(v)| == 1
    ensures EncVarint(v)[0] != 0
  {
  }

  /** Byte n is the first that says that none follow. */
  predicate EndsAt(s: seq<byte>, n: nat) {
    n < |s| && s[n] < 128 && forall i :: 0 <= i < n ==> s[i] >= 128
  }

  /** The group at a place of ten, added below 2^64; of the tenth only one bit counts. */
  lemma PlaceGroup(acc: nat, g: nat, j: nat)
    requires j < 10 && acc < Pow2(7 * j) && g < 128
    ensures var acc' := Or(acc, Shl(TWO64, g, 7 * j));
      && acc' == (acc + g * Pow2(7 * j)) % TWO64
      && (j < 9 ==> acc' == acc + g * Pow2(7 * j) < Pow2(7 * j + 7))
  {
    hide Or, Shl, Pow2;
    var p := Pow2(7 * j);
    NextGroup(7 * j);
    GroupFits(g, acc, p);
    assert Pow2(63) == TWO63 by { PowersOfTwo(); }
    if j < 9 {
      Pow2Mono(7 * j + 7, 63);
      GroupIsAdded(TWO64, acc, g, 7 * j);
      SmallMod(acc + g * p, TWO64);
    } else {
      LastGroup(acc, g, p);
      GroupIsAdded(TWO64, acc, g % 2, 63);
    }
  }

  lemma LastGroup(acc: nat, g: nat, p: nat)
    requires p == TWO63 && acc < p && Pow2(63) == p
    ensures Shl(TWO64, g, 63) == Shl(TWO64, g % 2, 63)
    ensures acc + (g % 2) * p == (acc + g * p) % TWO64
    ensures (g % 2) * p < TWO64
  {
    hide Pow2;
    ModUnique(g * p, TWO64, g / 2, (g % 2) * p);
    SmallMod((g % 2) * p, TWO64);
    ModUnique(acc + g * p, TWO64, g / 2, acc + (g % 2) * p);
  }

  lemma {:induction false} TakenFrom(s: seq<byte>, n: nat, j: nat, acc: nat)
    requires EndsAt(s, n) && n + j < 10 && acc < Pow2(7 * j)
    ensures DecVarint64From(s, 7 * j, acc)
         == Success(Got((acc + Groups(s[..n + 1]) * Pow2(7 * j)) % TWO64, s[n + 1..]))
    decreases n
  {
    hide Or, Shl, Pow2, Groups, DecVarint64From;
    var g: nat := s[0] % 128;
    var acc' := Or(acc, Shl(TWO64, g, 7 * j));
    PlaceGroup(acc, g, j);
    Turn64(s[0], s[1..], 7 * j, acc, acc');
    assert s == [s[0]] + s[1..];
    GroupsFront(s[0], s[1..n + 1]);
    assert s[..n + 1] == [s[0]] + s[1..n + 1];
    if n == 0 {
      assert s[1..n + 1] == [] && Groups([]) == 0 by { NoGroups(); }
    } else {
      TakenFrom(s[1..], n - 1, j + 1, acc');
      assert s[1..][..n] == s[1..n + 1] && s[1..][n..] == s[n + 1..];
      NextGroup(7 * j);
      Distribute(g, Groups(s[1..n + 1]), Pow2(7 * j));
    }
  }

  lemma NoGroups()
    ensures Groups([]) == 0
  {
  }

  lemma {:induction false} RefusedFrom(s: seq<byte>, j: nat, acc: nat)
    requires j <= 10 && forall i :: 0 <= i < |s| && i + j < 10 ==> s[i] >= 128
    ensures DecVarint64From(s, 7 * j, acc) == Failure(if |s| + j < 10 then EndOfStream else VarintOverflow)
    decreases 10 - j
  {
    hide Or, Shl;
    if j < 10 && s != [] { RefusedFrom(s[1..], j + 1, Or(acc, Shl(TWO64, s[0] % 128, 7 * j))); }
  }

  /** pb_decode_varint takes exactly what ends within ten bytes, for the number it stands for modulo
      2^64; anything else is too short or too long. */
  lemma VarintTaken(s: seq<byte>, n: nat)
    ensures EndsAt(s, n) && n < 10 ==> DecUInt64(s) == Success(Got(Groups(s[..n + 1]) % TWO64, s[n + 1..]))
    ensures (forall i :: 0 <= i < |s| && i < 10 ==> s[i] >= 128) ==>
      DecUInt64(s) == Failure(if |s| < 10 then EndOfStream else VarintOverflow)
  {
    assert Pow2(7 * 0) == 1;
    hide Groups, DecVarint64From, Pow2;
    if EndsAt(s, n) && n < 10 { TakenFrom(s, n, 0, 0); }
    if forall i :: 0 <= i < |s| && i < 10 ==> s[i] >= 128 { RefusedFrom(s, 0, 0); }
  }

  lemma NarrowTurn(s: seq<byte>, bitpos: nat, acc: nat, acc': nat)
    requires s != [] && bitpos < 249
    requires if bitpos < 32 then acc' == Or(acc, Shl(TWO32, s[0] % 128, bitpos)) else acc' == acc && s[0] % 128 == 0
    requires bitpos == 28 ==> s[0] % 128 < 16
    ensures DecVarint32From(s, bitpos, acc)
         == if s[0] >= 128 then DecVarint32From(s[1..], bitpos + 7, acc') else Success(Got(acc', s[1..]))
  {
    hide Or, Shl;
    SmallMod(bitpos + 7, 256);
  }

  lemma {:induction false} ZerosTaken(s: seq<byte>, n: nat, bitpos: nat, acc: nat)
    requires EndsAt(s, n) && Groups(s[..n + 1]) == 0 && 32 <= bitpos && bitpos + 7 * n < 249
    ensures DecVarint32From(s, bitpos, acc) == Success(Got(acc, s[n + 1..]))
    decreases n
  {
    hide Groups, DecVarint32From;
    assert s[..n + 1] == [s[0]] + s[1..n + 1];
    GroupsFront(s[0], s[1..n + 1]);
    NarrowTurn(s, bitpos, acc, acc);
    if n > 0 {
      assert s[1..][..n] == s[1..n + 1];
      ZerosTaken(s[1..], n - 1, bitpos + 7, acc);
    }
  }

  lemma {:induction false} NarrowFrom(s: seq<byte>, n: nat, j: nat, acc: nat)
    requires EndsAt(s, n) && 1 <= j <= 4 && n + j <= 35 && acc < Pow2(7 * j)
    requires acc + Groups(s[..n + 1]) * Pow2(7 * j) < TWO32
    ensures DecVarint32From(s, 7 * j, acc)
         == Success(Got(acc + Groups(s[..n + 1]) * Pow2(7 * j), s[n + 1..]))
    decreases n
  {
    hide Or, Shl, Pow2, Groups, DecVarint32From;
    var g: nat, p, tail := s[0] % 128, Pow2(7 * j), Groups(s[1..n + 1]);
    GroupsFront(s[0], s[1..n + 1]);
    assert s[..n + 1] == [s[0]] + s[1..n + 1];
    Distribute(g, tail, p);
    NextGroup(7 * j);
    GroupFits(g, acc, p);
    GroupIsAdded(TWO32, acc, g, 7 * j);
    if j == 4 { FewBits(g, tail, p); }
    NarrowTurn(s, 7 * j, acc, acc + g * p);
    if n == 0 {
      assert s[1..n + 1] == [];
      NoGroups();
    } else {
      assert s[1..][..n] == s[1..n + 1] && s[1..][n..] == s[n + 1..];
      if j < 4 { NarrowFrom(s[1..], n - 1, j + 1, acc + g * p); } else { ZerosTaken(s[1..], n - 1, 35, acc + g * p); }
    }
  }

  /** Above bit 28 of 32 there is room for four bits. */
  lemma FewBits(g: nat, q: nat, p: nat)
    requires p == Pow2(28) && g * p + q * (128 * p) < TWO32
    ensures g < 16 && q == 0
  {
    hide Pow2;
    assert 16 * p == TWO32 by {
      Pow2Add(4, 28);
      SmallPowers();
      PowersOfTwo();
    }
    Multiple(p, g - 15);
    Multiple(128 * p, q);
  }

  /** pb_decode_varint32 takes every form of a number below 2^32 of up to 36 bytes, those with
      superfluous zeros behind it included, so that no key or length it should take is refused. */
  lemma NarrowTaken(s: seq<byte>, n: nat)
    requires EndsAt(s, n) && n < 36 && Groups(s[..n + 1]) < TWO32
    ensures DecVarint32(s) == Success(Got(Groups(s[..n + 1]), s[n + 1..]))
  {
    hide Groups, DecVarint32From;
    GroupsFront(s[0], s[1..n + 1]);
    assert s[..n + 1] == [s[0]] + s[1..n + 1];
    assert Pow2(7) == 128 by { PowersOfTwo(); }
    if n == 0 {
      assert s[1..n + 1] == [];
      NoGroups();
    } else {
      assert s[1..][..n] == s[1..n + 1] && s[1..][n..] == s[n + 1..];
      NarrowFrom(s[1..], n - 1, 1, s[0] % 128);
    }
  }

  /** Byte i of a fixed-width number is worth 2^(8i). */
  lemma {:induction false} FixedIsLittleEndian(v: nat, k: nat, i: nat)
    requires i < k
    ensures EncFixed(v, k)[i] == (v / Pow2(8 * i)) % 256
    decreases k
  {
    if i > 0 {
      FixedIsLittleEndian(v / 256, k - 1, i - 1);
      Pow2Add(8, 8 * (i - 1));
      assert Pow2(8) == 256 by { SmallPowers(); }
      DivTwice(v, Pow2(8 * (i - 1)));
    }
  }

  lemma DivTwice(v: nat, p: nat)
    requires p > 0
    ensures (v / 256) / p == v / (256 * p)
  {
    var a, r := v / 256, v % 256;
    var q, s := a / p, a % p;
    assert a == p * q + s;
    calc {
      v;
      256 * (p * q + s) + r;
      { Reorder(p, q, s); }
      (256 * p) * q + (256 * s + r);
    }
    ModUnique(v, 256 * p, q, 256 * s + r);
  }

  lemma Reorder(p: nat, q: nat, s: nat)
    ensures 256 * (p * q + s) == (256 * p) * q + 256 * s
  {
  }

  /** The keys of field 1. */
  lemma KnownKeys()
    ensures EncKey(Varint, 1) == [0x08] && EncKey(Wire64, 1) == [0x09]
    ensures EncKey(Delimited, 1) == [0x0A] && EncKey(Wire32, 1) == [0x0D]
  {
  }

  lemma TwoBytes(v: nat)
    requires 128 <= v < 128 * 128
    ensures EncVarint(v) == [v % 128 + 128, v / 128]
  {
    VarintUnfold(v);
    VarintUnfold(v / 128);
  }

  /** A message of an int32 with the value 150, the string "testing" and the packed numbers 3, 270
      and 86942, as in the description of the format. */
  lemma KnownMessage(c: Field, s: Field, r: Field, slots: seq<Slot>)
    requires LaidField(c) && c.tag == 1 && c.htype == Required && c.ltype == LVarint && c.dataSize == 4
    requires LaidField(s) && s.tag == 2 && s.htype == Required && s.ltype == LString && s.dataSize == 8
    requires LaidField(r) && r.tag == 4 && r.htype == Repeated && r.ltype == LVarint && r.dataSize == 4
    requires r.arraySize == 3
    requires slots == [
      Single(true, Num(150)), Single(true, Chars([0x74, 0x65, 0x73, 0x74, 0x69, 0x6E, 0x67, 0])),
      Array(3, [Num(3), Num(270), Num(86942)])]
    ensures Laid([c, s, r]) && TypedStruct([c, s, r], slots)
    ensures Encode([c, s, r], slots) == Success(
      [0x08, 0x96, 0x01] +
      [0x12, 0x07, 0x74, 0x65, 0x73, 0x74, 0x69, 0x6E, 0x67] +
      [0x22, 0x06, 0x03, 0x8E, 0x02, 0x9E, 0xA7, 0x05])
  {
    hide EncVarint, EncField, TypedItem;
    var fields := [c, s, r];
    KnownNumber(c, 150);
    KnownString(s, slots[1].item.mem);
    KnownArray(r, 3, 270, 86942);
    assert Laid(fields);
    assert Home(fields, 0) == 0 && Home(fields, 1) == 1 && Home(fields, 2) == 2;
    assert TypedStruct(fields, slots);
    KnownParts(c, s, r, slots);
  }

  lemma SmallNumber(f: Field, n: nat)
    requires LaidField(f) && f.ltype == LVarint && f.dataSize == 4 && n < TWO31
    ensures TypedItem(f, Num(n)) && EncItem(f, Num(n)) == Success(EncVarint(n))
  {
    hide EncVarint;
    SmallMod(n, TWO64);
  }

  lemma OneEntry(f: Field, n: nat, more: seq<Item>)
    requires LaidField(f) && f.ltype == LVarint && f.dataSize == 4 && n < TWO31
    requires forall k :: 0 <= k < |more| ==> TypedItem(f, more[k])
    requires EncPacked(f, more).Success?
    ensures forall k :: 0 <= k < |[Num(n)] + more| ==> TypedItem(f, ([Num(n)] + more)[k])
    ensures EncPacked(f, [Num(n)] + more) == Success(EncVarint(n) + EncPacked(f, more).value)
  {
    hide EncVarint, EncItem, TypedItem;
    SmallNumber(f, n);
    assert ([Num(n)] + more)[1..] == more;
  }

  lemma OneByteKey(wire: WireType, tag: nat)
    requires tag * 8 + WireCode(wire) < 128
    ensures EncKey(wire, tag) == [tag * 8 + WireCode(wire)]
  {
    hide EncVarint;
    VarintUnfold(tag * 8 + WireCode(wire));
  }

  lemma KnownNumber(c: Field, n: nat)
    requires LaidField(c) && c.tag == 1 && c.htype == Required && c.ltype == LVarint && c.dataSize == 4 && n == 150
    ensures TypedSlot(c, Single(true, Num(n))) && EncField(c, Single(true, Num(n))) == Success([0x08, 0x96, 0x01])
  {
    hide EncVarint, EncKey, EncItem;
    OneByteKey(c.ltype.Wire(), c.tag);
    TwoBytes(n);
    SmallNumber(c, n);
    assert EncKey(c.ltype.Wire(), c.tag) == [0x08] && EncItem(c, Num(n)) == Success([0x96, 0x01]);
    assert EncField(c, Single(true, Num(n))).value == [0x08, 0x96, 0x01];
  }

  lemma KnownString(s: Field, mem: seq<byte>)
    requires LaidField(s) && s.tag == 2 && s.htype == Required && s.ltype == LString && s.dataSize == 8
    requires mem == [0x74, 0x65, 0x73, 0x74, 0x69, 0x6E, 0x67, 0]
    ensures TypedSlot(s, Single(true, Chars(mem)))
    ensures EncField(s, Single(true, Chars(mem))) == Success([0x12, 0x07, 0x74, 0x65, 0x73, 0x74, 0x69, 0x6E, 0x67])
  {
    hide StrLen, EncVarint, EncKey;
    OneByteKey(s.ltype.Wire(), s.tag);
    assert forall i :: 0 <= i < 7 ==> mem[i] != 0;
    assert mem[7] == 0 && StrLen(mem) == 7;
    var t := mem[..StrLen(mem)];
    VarintUnfold(|t|);
    assert t == [0x74, 0x65, 0x73, 0x74, 0x69, 0x6E, 0x67];
    assert EncKey(s.ltype.Wire(), s.tag) == [0x12] && EncDelimited(t) == [0x07] + t;
    assert EncItem(s, Chars(mem)) == Success([0x07] + t);
    assert EncField(s, Single(true, Chars(mem))).value == [0x12, 0x07, 0x74, 0x65, 0x73, 0x74, 0x69, 0x6E, 0x67];
  }

  lemma KnownArray(r: Field, x: nat, y: nat, z: nat)
    requires LaidField(r) && r.tag == 4 && r.htype == Repeated && r.ltype == LVarint && r.dataSize == 4
    requires r.arraySize == 3 && x == 3 && y == 270 && z == 86942
    ensures var a := Array(3, [Num(x), Num(y), Num(z)]);
      TypedSlot(r, a) && EncField(r, a) == Success([0x22, 0x06, 0x03, 0x8E, 0x02, 0x9E, 0xA7, 0x05])
  {
    hide EncVarint, EncKey, EncItem, EncPacked, EncEach;
    var items := [Num(x), Num(y), Num(z)];
    OneByteKey(Delimited, r.tag);
    VarintUnfold(x);
    TwoBytes(y);
    VarintUnfold(z);
    TwoBytes(z / 128);
    NoEntries(r);
    OneEntry(r, z, []);
    OneEntry(r, y, [Num(z)] + []);
    OneEntry(r, x, [Num(y)] + ([Num(z)] + []));
    assert items[..3] == items == [Num(x)] + ([Num(y)] + ([Num(z)] + []));
    var p := EncPacked(r, items).value;
    assert p == [0x03, 0x8E, 0x02, 0x9E, 0xA7, 0x05];
    VarintUnfold(|p|);
    assert EncKey(Delimited, r.tag) == [0x22] && EncDelimited(p) == [0x06] + p;
    assert EncArray(r, 3, items) == Success([0x22] + ([0x06] + p));
    assert EncField(r, Array(3, items)).value == [0x22, 0x06, 0x03, 0x8E, 0x02, 0x9E, 0xA7, 0x05];
  }

  lemma NoEntries(r: Field)
    requires LaidField(r)
    ensures EncPacked(r, []) == Success([])
  {
  }

  lemma KnownParts(c: Field, s: Field, r: Field, slots: seq<Slot>)
    requires Laid([c, s, r]) && LaidField(c) && LaidField(s) && LaidField(r) && |slots| == 3
    requires c.htype == Required && s.htype == Required && r.htype == Repeated
    requires TypedStruct([c, s, r], slots) && TypedSlot(c, slots[0]) && TypedSlot(s, slots[1]) && TypedSlot(r, slots[2])
    requires EncField(c, slots[0]).Success? && EncField(s, slots[1]).Success? && EncField(r, slots[2]).Success?
    ensures Encode([c, s, r], slots)
         == Success(EncField(c, slots[0]).value + EncField(s, slots[1]).value + EncField(r, slots[2]).value)
  {
    hide EncField, LaidField, TypedSlot, DistinctTags;
    var fields := [c, s, r];
    assert EncFrom(fields, 3, slots) == Success([]);
    assert EncFrom(fields, 2, slots) == Success(EncField(r, slots[2]).value + []);
    assert EncFrom(fields, 1, slots) == Success(EncField(s, slots[1]).value + (EncField(r, slots[2]).value + []));
    var x, y, z := EncField(c, slots[0]).value, EncField(s, slots[1]).value, EncField(r, slots[2]).value;
    assert x + (y + (z + [])) == x + y + z;
  }

  /** The keys and sizes of fixed-width numbers. */
  lemma KnownFixed(f: Field, n: nat, bytes: seq<byte>)
    requires LaidField(f) && f.tag == 1 && f.ltype in {LFixed32, LFixed64}
    requires TypedItem(f, Num(n)) && n < 256
    requires bytes == if f.ltype == LFixed32 then [0x0D, n, 0, 0, 0] else [0x09, n, 0, 0, 0, 0, 0, 0, 0]
    ensures EncItem(f, Num(n)).Success? && EncKey(f.ltype.Wire(), 1) + EncItem(f, Num(n)).value == bytes
  {
    KnownKeys();
    SmallFixed(n);
  }

  lemma SmallFixed(n: nat)
    requires n < 256
    ensures EncFixed(n, 4) == [n, 0, 0, 0] && EncFixed(n, 8) == [n, 0, 0, 0, 0, 0, 0, 0]
  {
    assert EncFixed(0, 3) == [0, 0, 0];
    assert EncFixed(0, 4) == [0, 0, 0, 0];
    assert EncFixed(0, 7) == [0, 0, 0] + EncFixed(0, 4);
  }

  // ---------------------------------------------------------------- which structs can be encoded

  /** The integer has a size the encoder knows, and no count in the object is larger than its array. */
  predicate EncodableItem(f: Field, it: Item)
    requires LaidField(f) && TypedItem(f, it)
    decreases f, 0
  {
    match f.ltype
    case LVarint | LUVarint | LSVarint => f.dataSize in {1, 2, 4, 8}
    case LBytes => it.size <= |it.mem|
    case LSubmessage => EncodableStruct(f.sub, it.slots)
    case _ => true
  }

  predicate EncodableSlot(f: Field, s: Slot)
    requires LaidField(f) && TypedSlot(f, s)
    decreases f, 1
  {
    match f.htype
    case Repeated => s.count <= f.arraySize && forall k :: 0 <= k < s.count ==> EncodableItem(f, s.items[k])
    case _ => Present(f, s) ==> EncodableItem(f, s.item)
  }

  predicate EncodableStruct(fields: seq<Field>, slots: seq<Slot>)
    requires Laid(fields) && TypedStruct(fields, slots)
    decreases fields, 2
  {
    forall i :: 0 <= i < |fields| ==> LaidField(fields[i]) && EncodableSlot(fields[i], slots[Home(fields, i)])
  }

  lemma {:induction false} ItemEncodes(f: Field, it: Item)
    requires LaidField(f) && TypedItem(f, it)
    ensures EncItem(f, it).Success? <==> EncodableItem(f, it)
    decreases f, 1
  {
    if f.ltype == LSubmessage { EncodesExactly(f.sub, 0, it.slots); }
  }

  lemma {:induction false} ItemsEncode(f: Field, a: seq<Item>)
    requires LaidField(f) && forall k :: 0 <= k < |a| ==> TypedItem(f, a[k])
    ensures EncPacked(f, a).Success? <==> forall k :: 0 <= k < |a| ==> EncodableItem(f, a[k])
    ensures EncEach(f, a).Success? <==> forall k :: 0 <= k < |a| ==> EncodableItem(f, a[k])
    decreases f, 2, |a|
  {
    hide EncItem, EncodableItem, TypedItem;
    if a != [] {
      ItemEncodes(f, a[0]);
      ItemsEncode(f, a[1..]);
      assert forall k :: 0 < k < |a| ==> a[k] == a[1..][k - 1];
      assert forall k :: 0 <= k < |a| - 1 ==> a[1..][k] == a[k + 1];
    }
  }

  lemma {:induction false} FieldEncodes(f: Field, s: Slot)
    requires LaidField(f) && TypedSlot(f, s)
    ensures EncField(f, s).Success? <==> EncodableSlot(f, s)
    decreases f, 3
  {
    hide EncItem, EncodableItem, TypedItem, EncPacked, EncEach, DefaultItem;
    if f.htype != Repeated {
      if Present(f, s) { ItemEncodes(f, s.item); }
    } else if s.count <= f.arraySize {
      var a := s.items[..s.count];
      ItemsEncode(f, a);
      assert forall k :: 0 <= k < s.count ==> a[k] == s.items[k];
    }
  }

  /** pb_encode succeeds exactly on the structs of which every field that is present has an integer
      size the encoder knows and counts that its arrays have room for, at any depth. */
  lemma {:induction false} EncodesExactly(fields: seq<Field>, k: nat, slots: seq<Slot>)
    requires Laid(fields) && k <= |fields| && TypedStruct(fields, slots)
    ensures EncFrom(fields, k, slots).Success? <==>
      forall i :: k <= i < |fields| ==> LaidField(fields[i]) && EncodableSlot(fields[i], slots[Home(fields, i)])
    decreases fields, |fields| - k
  {
    hide LaidField, TypedSlot, EncodableSlot, EncField, DistinctTags;
    if k < |fields| {
      assert LaidField(fields[k]);
      FieldEncodes(fields[k], slots[Home(fields, k)]);
      EncodesExactly(fields, k + 1, slots);
    }
  }

  // ---------------------------------------------------------------- what a field takes

  /** The integer a varint stands for in a field of k bytes: for eight bytes the int64, for fewer
      the int32 with the same low bits. */
  predicate StandsFor(k: nat, v: nat, n: int) {
    if k == 8 then -TWO63 <= n < TWO63 && (v - n) % TWO64 == 0
    else -TWO31 <= n < TWO31 && (v - n) % TWO32 == 0
  }

  /** A signed field takes exactly the varints that stand for a value of its type. */
  lemma SignedField(f: Field, s: seq<byte>, old_: Item, n: int)
    requires LaidField(f) && TypedItem(f, old_) && f.ltype == LVarint && IntSize(f.dataSize) && DecUInt64(s).Success?
    requires StandsFor(f.dataSize, DecUInt64(s).value.value, n)
    ensures var rest := DecUInt64(s).value.rest;
      DecItem(f, s, old_)
      == if SignedFits(f.dataSize, n) then Success(Got(Num(n), rest)) else Failure(IntegerTooLarge)
  {
    hide DecUInt64, VarintValue, SignedFits, StandsFor, Laid;
    SignedValue(f, DecUInt64(s).value.value, n);
  }

  lemma SignedValue(f: Field, v: nat, n: int)
    requires IntSize(f.dataSize) && v < TWO64 && StandsFor(f.dataSize, v, n)
    ensures VarintValue(f, v) == if SignedFits(f.dataSize, n) then Success(n) else Failure(IntegerTooLarge)
  {
    hide SignedCast, IntHalf;
    if f.dataSize == 8 { SameLow(v, n, TWO64); SmallMod(v, TWO64); } else { SameLow(v, n, TWO32); }
  }

  lemma SameLow(v: nat, n: int, m: nat)
    requires m > 0 && m % 2 == 0 && (v - n) % m == 0 && -(m / 2) <= n < m / 2
    ensures n == if v % m >= m / 2 then v % m - m else v % m
  {
    var d := (v - n) / m;
    assert v - n == m * d;
    if n >= 0 { ModUnique(v, m, d, n); } else { ShiftDown(m, d); ModUnique(v, m, d - 1, n + m); }
  }

  lemma ShiftDown(m: int, d: int)
    ensures m * (d - 1) == m * d - m
  {
  }

  lemma UnsignedField(f: Field, s: seq<byte>, old_: Item)
    requires LaidField(f) && TypedItem(f, old_) && f.ltype == LUVarint && IntSize(f.dataSize) && DecUInt64(s).Success?
    ensures var v := DecUInt64(s).value;
      DecItem(f, s, old_)
      == if UnsignedFits(f.dataSize, v.value) then Success(Got(Num(v.value), v.rest)) else Failure(IntegerTooLarge)
  {
    hide DecUInt64;
  }

  lemma ZigzagField(f: Field, s: seq<byte>, old_: Item)
    requires LaidField(f) && TypedItem(f, old_) && f.ltype == LSVarint && IntSize(f.dataSize) && DecUInt64(s).Success?
    ensures var v := DecUInt64(s).value;
      var n := if v.value % 2 == 1 then -(v.value / 2) - 1 else v.value / 2;
      DecItem(f, s, old_)
      == if SignedFits(f.dataSize, n) then Success(Got(Num(n), v.rest)) else Failure(IntegerTooLarge)
  {
    hide DecUInt64, Unzigzag;
    UnzigzagValue(DecUInt64(s).value.value);
  }

  predicate Takes(f: Field, t: seq<byte>) {
    match f.ltype
    case LBytes => |t| + BYTES_HEADER <= f.dataSize
    case LString => |t| + 1 <= f.dataSize
    case _ => |t| == f.dataSize || t == []
  }

  predicate Holds(f: Field, it: Item, t: seq<byte>)
    requires TypedItem(f, it) && f.ltype in {LBytes, LString, LFixedBytes}
  {
    if f.ltype == LBytes then it.size == |t| && t <= it.mem
    else if f.ltype == LString then t + [0] <= it.mem
    else it.mem == if t == [] then Zeros(f.dataSize) else t
  }

  /** A byte or character array takes exactly the payloads that fit, a string with its terminator;
      one of fixed length only its own length, or nothing at all, which is read as zeros. */
  lemma BlobField(f: Field, t: seq<byte>, rest: seq<byte>, old_: Item)
    requires LaidField(f) && TypedItem(f, old_) && f.ltype in {LBytes, LString, LFixedBytes} && |t| < TWO32
    ensures var d := DecItem(f, EncDelimited(t) + rest, old_);
      && (d.Success? <==> Takes(f, t))
      && (d.Success? ==> d.value.rest == rest && Holds(f, d.value.value, t))
  {
    hide DecVarint32, EncDelimited, Laid;
    PrefixRoundTrip(t, rest);
  }
}
