/** Unsigned machine words read as natural numbers: single bits and the bitwise
    operators the C sources use, defined by halving so that every law about them
    is a short induction. A word of width n is a number below Pow2(n). */
module Bits {

  type byte = x: nat | x < 256

  const TWO31: int := 0x8000_0000
  const TWO32: int := 0x1_0000_0000
  const TWO63: int := 0x8000_0000_0000_0000
  const TWO64: int := 0x1_0000_0000_0000_0000

  function Pow2(n: nat): (p: nat)
    ensures p > 0
  {
    if n == 0 then 1 else 2 * Pow2(n - 1)
  }

  /** Bit i of x. */
  predicate BitAt(x: nat, i: nat) {
    if i == 0 then x % 2 == 1 else BitAt(x / 2, i - 1)
  }

  function BitOf(b: bool): nat {
    if b then 1 else 0
  }

  /** C's a | b. */
  function Or(a: nat, b: nat): nat
    decreases a
  {
    if a == 0 then b else BitOf(a % 2 == 1 || b % 2 == 1) + 2 * Or(a / 2, b / 2)
  }

  /** C's a & b. */
  function And(a: nat, b: nat): nat
    decreases a
  {
    if a == 0 then 0 else BitOf(a % 2 == 1 && b % 2 == 1) + 2 * And(a / 2, b / 2)
  }

  /** C's ~x in a word with m values. */
  function Not(m: nat, x: nat): nat
    requires x < m
  {
    m - 1 - x
  }

  /** C's x << k in a word with m values. */
  function Shl(m: nat, x: nat, k: nat): nat
    requires m > 0
  {
    (x * Pow2(k)) % m
  }

  lemma {:induction false} ZeroBit(i: nat)
    ensures !BitAt(0, i)
  {
    if i > 0 { ZeroBit(i - 1); }
  }

  lemma {:induction false} OrBit(a: nat, b: nat, i: nat)
    ensures BitAt(Or(a, b), i) == (BitAt(a, i) || BitAt(b, i))
    decreases i
  {
    if a == 0 {
      ZeroBit(i);
    } else if i > 0 {
      OrBit(a / 2, b / 2, i - 1);
      assert Or(a, b) / 2 == Or(a / 2, b / 2);
    }
  }

  lemma {:induction false} AndBit(a: nat, b: nat, i: nat)
    ensures BitAt(And(a, b), i) == (BitAt(a, i) && BitAt(b, i))
    decreases i
  {
    if a == 0 {
      ZeroBit(i);
    } else if i > 0 {
      AndBit(a / 2, b / 2, i - 1);
      assert And(a, b) / 2 == And(a / 2, b / 2);
    }
  }

  lemma {:induction false} NotBit(n: nat, x: nat, i: nat)
    requires x < Pow2(n) && i < n
    ensures BitAt(Not(Pow2(n), x), i) == !BitAt(x, i)
    decreases n
  {
    if i > 0 {
      assert Not(Pow2(n), x) / 2 == Not(Pow2(n - 1), x / 2);
      NotBit(n - 1, x / 2, i - 1);
    }
  }

  lemma {:induction false} BitBeyond(n: nat, x: nat, i: nat)
    requires x < Pow2(n) && n <= i
    ensures !BitAt(x, i)
    decreases n
  {
    if n == 0 { ZeroBit(i); } else { BitBeyond(n - 1, x / 2, i - 1); }
  }

  /** The bits of 2^n - 1 are the n lowest. */
  lemma {:induction false} OnesBit(n: nat, i: nat)
    ensures BitAt(Pow2(n) - 1, i) == (i < n)
    decreases n
  {
    if n == 0 {
      ZeroBit(i);
    } else if i > 0 {
      assert (Pow2(n) - 1) / 2 == Pow2(n - 1) - 1;
      OnesBit(n - 1, i - 1);
    }
  }

  lemma {:induction false} Pow2Bit(k: nat, i: nat)
    ensures BitAt(Pow2(k), i) == (i == k)
    decreases k
  {
    if i > 0 {
      if k == 0 {
        ZeroBit(i - 1);
      } else {
        assert Pow2(k) / 2 == Pow2(k - 1);
        Pow2Bit(k - 1, i - 1);
      }
    }
  }

  lemma {:induction false} MulPow2Bit(x: nat, k: nat, i: nat)
    ensures BitAt(x * Pow2(k), i) == (i >= k && BitAt(x, i - k))
    decreases k
  {
    if k == 0 {
      assert x * Pow2(0) == x;
    } else {
      var y := x * Pow2(k - 1);
      assert x * Pow2(k) == 2 * y;
      if i > 0 {
        assert (2 * y) / 2 == y;
        MulPow2Bit(x, k - 1, i - 1);
      }
    }
  }

  lemma {:induction false} ModPow2Bit(n: nat, x: nat, i: nat)
    requires i < n
    ensures BitAt(x % Pow2(n), i) == BitAt(x, i)
    decreases n
  {
    HalfMod(x, Pow2(n - 1));
    if i > 0 {
      ModPow2Bit(n - 1, x / 2, i - 1);
    }
  }

  lemma HalfMod(x: nat, m: nat)
    requires m > 0
    ensures (x % (2 * m)) / 2 == (x / 2) % m && (x % (2 * m)) % 2 == x % 2
  {
    var q, r := x / 2 / m, (x / 2) % m;
    var s := 2 * r + x % 2;
    assert x == 2 * m * q + s by {
      assert x / 2 == m * q + r;
      assert 2 * m * q == 2 * (m * q);
    }
    ModUnique(x, 2 * m, q, s);
  }

  lemma ModUnique(x: int, m: int, q: int, s: int)
    requires m > 0 && 0 <= s < m && x == m * q + s
    ensures x % m == s && x / m == q
  {
    var q', s' := x / m, x % m;
    assert m * (q - q') == s' - s by {
      assert x == m * q' + s';
      assert m * (q - q') == m * q - m * q';
    }
    Multiple(m, q - q');
  }

  lemma Multiple(m: int, d: int)
    requires m > 0
    ensures d >= 1 ==> m * d >= m
    ensures d <= -1 ==> m * d <= -m
  {
    if d >= 1 {
      assert m * d == m * (d - 1) + m;
    } else if d <= -1 {
      assert m * d == m * (d + 1) - m;
    }
  }

  lemma ShlBit(n: nat, x: nat, k: nat, i: nat)
    requires i < n
    ensures BitAt(Shl(Pow2(n), x, k), i) == (i >= k && BitAt(x, i - k))
  {
    ModPow2Bit(n, x * Pow2(k), i);
    MulPow2Bit(x, k, i);
  }

  /** Two words with the same bits are equal. */
  lemma {:induction false} SameBits(n: nat, a: nat, b: nat)
    requires a < Pow2(n) && b < Pow2(n)
    requires forall i :: 0 <= i < n ==> BitAt(a, i) == BitAt(b, i)
    ensures a == b
    decreases n
  {
    if n > 0 {
      forall i | 0 <= i < n - 1 ensures BitAt(a / 2, i) == BitAt(b / 2, i) {
        assert BitAt(a, i + 1) == BitAt(b, i + 1);
      }
      SameBits(n - 1, a / 2, b / 2);
      assert BitAt(a, 0) == BitAt(b, 0);
    }
  }

  lemma {:induction false} OrBound(n: nat, a: nat, b: nat)
    requires a < Pow2(n) && b < Pow2(n)
    ensures Or(a, b) < Pow2(n)
    decreases n
  {
    if n > 0 && a > 0 { OrBound(n - 1, a / 2, b / 2); }
  }

  lemma {:induction false} AndBound(n: nat, a: nat, b: nat)
    requires a < Pow2(n)
    ensures And(a, b) < Pow2(n)
    decreases n
  {
    if n > 0 && a > 0 { AndBound(n - 1, a / 2, b / 2); }
  }

  lemma {:induction false} OrCommutes(a: nat, b: nat)
    ensures Or(a, b) == Or(b, a)
    decreases a
  {
    if a == 0 {
      OrZero(b);
    } else if b == 0 {
      OrZero(a);
    } else {
      OrCommutes(a / 2, b / 2);
    }
  }

  lemma {:induction false} OrZero(a: nat)
    ensures Or(a, 0) == a
  {
    if a > 0 { OrZero(a / 2); }
  }

  /** Or of numbers without common bits is their sum. */
  lemma {:induction false} OrIsSum(k: nat, a: nat, b: nat)
    requires a < Pow2(k)
    ensures Or(a, b * Pow2(k)) == a + b * Pow2(k)
    decreases k
  {
    if k > 0 && a > 0 {
      var y := b * Pow2(k - 1);
      assert b * Pow2(k) == 2 * y;
      OrIsSum(k - 1, a / 2, b);
    }
  }

  lemma {:induction false} Pow2Add(a: nat, b: nat)
    ensures Pow2(a + b) == Pow2(a) * Pow2(b)
    decreases a
  {
    if a > 0 {
      Pow2Add(a - 1, b);
      assert Pow2(a + b) == 2 * Pow2(a - 1 + b);
    }
  }

  lemma {:induction false} Pow2Mono(a: nat, b: nat)
    requires a <= b
    ensures Pow2(a) <= Pow2(b)
    decreases b
  {
    if a < b { Pow2Mono(a, b - 1); }
  }

  lemma PowersOfTwo()
    ensures Pow2(7) == 128 && Pow2(31) == TWO31 && Pow2(32) == TWO32
    ensures Pow2(63) == TWO63 && Pow2(64) == TWO64
  {
    hide Pow2;
    SmallPowers();
    Pow2Add(8, 8);
    Pow2Add(16, 16);
    Pow2Add(32, 32);
    Pow2Add(1, 31);
    Pow2Add(1, 63);
  }

  lemma SmallPowers()
    ensures Pow2(1) == 2 && Pow2(4) == 16 && Pow2(7) == 128 && Pow2(8) == 256
  {
  }
}
