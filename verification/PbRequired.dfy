/** The fields_seen bitmap of pb_decode_noinit: two 32-bit words that stand for the set of
    required fields met so far. */
module PbRequired {
  import opened Bits
  import opened PbWire
  import opened PbTypes
  import opened PbCodec
  import opened PbIter

  /** Bit k of the two words says whether required field k was met. */
  ghost predicate SeenWords(words: seq<nat>, seen: set<nat>) {
    && |words| == 2 && words[0] < TWO32 && words[1] < TWO32
    && forall k :: 0 <= k < PB_MAX_REQUIRED_FIELDS ==> (BitAt(words[k / 32], k % 32) <==> k in seen)
  }

  lemma NothingSeen(words: seq<nat>)
    requires words == [0, 0]
    ensures SeenWords(words, {})
  {
    forall k: nat | k < PB_MAX_REQUIRED_FIELDS ensures !BitAt(words[k / 32], k % 32) { ZeroBit(k % 32); }
  }

  lemma OneBitWord(k: nat)
    requires k < 32
    ensures Pow2(k) < TWO32
  {
    hide Pow2;
    assert Pow2(31) == TWO31 by { PowersOfTwo(); }
    Pow2Mono(k, 31);
  }

  lemma OrWords(a: nat, b: nat)
    requires a < TWO32 && b < TWO32
    ensures Or(a, b) < TWO32
  {
    hide Or, Pow2;
    assert Pow2(32) == TWO32 by { PowersOfTwo(); }
    OrBound(32, a, b);
  }

  /** fields_seen[k >> 5] |= 1 << (k & 31) adds k. */
  lemma MarkSeen(words: seq<nat>, seen: set<nat>, k: nat)
    requires SeenWords(words, seen) && k < PB_MAX_REQUIRED_FIELDS
    ensures SeenWords(words[k / 32 := Or(words[k / 32], Pow2(k % 32))], seen + {k})
  {
    hide Or, Pow2, BitAt;
    var w := Or(words[k / 32], Pow2(k % 32));
    OneBitWord(k % 32);
    OrWords(words[k / 32], Pow2(k % 32));
    var words' := words[k / 32 := w];
    forall j | 0 <= j < PB_MAX_REQUIRED_FIELDS ensures BitAt(words'[j / 32], j % 32) <==> j in seen + {k} {
      if j / 32 == k / 32 {
        OrBit(words[k / 32], Pow2(k % 32), j % 32);
        Pow2Bit(k % 32, j % 32);
      }
    }
  }

  /** allbits >> (32 - m) */
  lemma PartialMask(m: nat)
    requires 0 < m < 32
    ensures (TWO32 - 1) / Pow2(32 - m) == Pow2(m) - 1
  {
    hide Pow2;
    var p, q := Pow2(32 - m), Pow2(m);
    assert p * q == TWO32 by {
      Pow2Add(32 - m, m);
      assert Pow2(32) == TWO32 by { PowersOfTwo(); }
    }
    assert p * (q - 1) == p * q - p;
    ModUnique(TWO32 - 1, p, q - 1, p - 1);
  }

  predicate LowBitsSet(w: nat, m: nat) {
    forall i :: 0 <= i < m ==> BitAt(w, i)
  }

  predicate AllSeen(seen: set<nat>, from: nat, to: nat) {
    forall k :: from <= k < to ==> k in seen
  }

  /** A word with no bit from m on equals the mask exactly when its first m bits are set. */
  lemma WordIsMask(w: nat, m: nat, mask: nat)
    requires w < TWO32 && m <= 32 && mask == Pow2(m) - 1 && forall i :: m <= i < 32 ==> !BitAt(w, i)
    ensures w == mask <==> LowBitsSet(w, m)
  {
    hide Pow2;
    assert Pow2(32) == TWO32 by { PowersOfTwo(); }
    Pow2Mono(m, 32);
    forall i | 0 <= i < 32 ensures BitAt(mask, i) == (i < m) { OnesBit(m, i); }
    if w == mask {
      forall i | 0 <= i < m ensures BitAt(w, i) { assert BitAt(mask, i); }
    } else if LowBitsSet(w, m) {
      SameBits(32, w, mask);
    }
  }

  lemma WordBits(words: seq<nat>, seen: set<nat>, i: nat)
    requires SeenWords(words, seen) && i < 2
    ensures forall j :: 0 <= j < 32 ==> (BitAt(words[i], j) <==> 32 * i + j in seen)
  {
    hide BitAt;
    forall j | 0 <= j < 32 ensures BitAt(words[i], j) <==> 32 * i + j in seen {
      assert (32 * i + j) / 32 == i && (32 * i + j) % 32 == j;
    }
  }

  /** Comparing word i with the mask of m bits tests the fields 32i to 32i + m. */
  lemma WordTest(words: seq<nat>, seen: set<nat>, i: nat, m: nat, mask: nat)
    requires SeenWords(words, seen) && i < 2 && m <= 32 && mask == Pow2(m) - 1
    requires forall k :: k in seen && k >= 32 * i ==> k < 32 * i + m || k >= 32 * i + 32
    ensures words[i] == mask <==> AllSeen(seen, 32 * i, 32 * i + m)
  {
    hide Pow2;
    WordBits(words, seen, i);
    forall j | m <= j < 32 ensures !BitAt(words[i], j) { assert 32 * i + j !in seen; }
    WordIsMask(words[i], m, mask);
    if LowBitsSet(words[i], m) {
      forall k | 32 * i <= k < 32 * i + m ensures k in seen { assert BitAt(words[i], k - 32 * i); }
    }
    if AllSeen(seen, 32 * i, 32 * i + m) {
      forall j | 0 <= j < m ensures BitAt(words[i], j) { assert 32 * i + j in seen; }
    }
  }

  /** The final check of pb_decode_noinit: whole words, then the rest of the last one. It
      accepts exactly when all the counted fields were seen. */
  method CheckRequired(words: array<nat>, count: nat, ghost seen: set<nat>) returns (ok: bool)
    requires words.Length == 2 && SeenWords(words[..], seen)
    requires count <= PB_MAX_REQUIRED_FIELDS && forall k :: k in seen ==> k < count
    ensures ok <==> AllSeen(seen, 0, count)
  {
    hide Pow2, SeenWords;
    assert Pow2(32) == TWO32 by { PowersOfTwo(); }
    var i := 0;
    while i < count / 32
      invariant i <= count / 32
      invariant AllSeen(seen, 0, 32 * i)
    {
      WordTest(words[..], seen, i, 32, TWO32 - 1);
      if words[i] != TWO32 - 1 {
        return false;
      }
      i := i + 1;
    }
    if count % 32 != 0 {
      PartialMask(count % 32);
      WordTest(words[..], seen, i, count % 32, Pow2(count % 32) - 1);
      if words[count / 32] != (TWO32 - 1) / Pow2(32 - count % 32) {
        return false;
      }
    }
    ok := true;
  }

  /** Walking to the end of the descriptor to count the required fields, with the fixup
      for a required last field. */
  method CountRequired(iter: PbFieldIter) returns (count: nat)
    requires iter.Valid()
    modifies iter
    ensures count == TrackedRequired(iter.start)
  {
    var lastRequired := true;
    count := 0;
    var more := true;
    while more
      invariant iter.Valid()
      invariant !more && iter.start != [] ==> count == ReqIndex(iter.start, |iter.start| - 1)
      invariant !more && iter.start != [] ==> lastRequired == (iter.start[|iter.start| - 1].htype == Required)
      invariant !more && iter.start == [] ==> count == 0
      decreases more, |iter.start| - iter.pos
    {
      count := iter.requiredFieldIndex;
      lastRequired := iter.start == [] || iter.start[iter.pos].htype == Required;
      more := iter.Next();
    }
    if lastRequired && iter.start != [] {
      count := count + 1;
    }
    if count > PB_MAX_REQUIRED_FIELDS {
      count := PB_MAX_REQUIRED_FIELDS;
    }
  }

  lemma ReqIndexMono(fields: seq<Field>, i: nat, j: nat)
    requires i <= j <= |fields|
    ensures ReqIndex(fields, i) <= ReqIndex(fields, j)
    decreases j
  {
    if i < j { ReqIndexMono(fields, i, j - 1); }
  }

  /** Marking the iterator's field as met, if it is one of the tracked required fields. */
  method MarkField(iter: PbFieldIter, words: array<nat>, ghost seen: set<nat>) returns (ghost seen': set<nat>)
    requires iter.Valid() && iter.start != []
    requires words.Length == 2 && SeenWords(words[..], seen)
    requires forall k :: k in seen ==> k < TrackedRequired(iter.start)
    modifies words
    ensures seen' == Seen(iter.start, iter.pos, seen)
    ensures SeenWords(words[..], seen')
    ensures forall k :: k in seen' ==> k < TrackedRequired(iter.start)
  {
    hide SeenWords, Or, Pow2;
    seen' := seen;
    if iter.start[iter.pos].htype == Required && iter.requiredFieldIndex < PB_MAX_REQUIRED_FIELDS {
      var k := iter.requiredFieldIndex;
      ReqIndexMono(iter.start, iter.pos + 1, |iter.start|);
      MarkSeen(words[..], seen, k);
      ghost var w := words[..];
      words[k / 32] := Or(words[k / 32], Pow2(k % 32));
      assert words[..] == w[k / 32 := Or(w[k / 32], Pow2(k % 32))];
      seen' := seen + {k};
    }
  }
}
