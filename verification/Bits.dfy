/** Machine words as natural numbers, seen bit by bit. Every operator the source applies to a u8,
    u32 or u64 is defined here by recursion on binary digits, and each has one law that says what
    it does to bit `i`. */
module Bits {

  predicate Bit(x: nat, i: nat)
    decreases i
  {
    if i == 0 then x % 2 == 1 else Bit(x / 2, i - 1)
  }

  function Pow2(k: nat): (r: nat)
    ensures r > 0
  {
    if k == 0 then 1 else 2 * Pow2(k - 1)
  }

  const U8_MAX: nat := 0xFF
  const U16_MAX: nat := 0xFFFF
  const U32_MAX: nat := 0xFFFF_FFFF
  const U64_MAX: nat := 0xFFFF_FFFF_FFFF_FFFF

  type byte = x: nat | x <= 0xFF
  type u32 = x: nat | x <= 0xFFFF_FFFF
  type u64 = x: nat | x <= 0xFFFF_FFFF_FFFF_FFFF

  datatype Gate = And | Or | Xor
  {
    predicate On(a: bool, b: bool) {
      match this
      case And => a && b
      case Or => a || b
      case Xor => a != b
    }
  }

  function Digit(b: bool): (r: nat)
    ensures r <= 1
  {
    if b then 1 else 0
  }

  /** Bitwise `&`, `|` and `^`. */
  function Bitwise(g: Gate, a: nat, b: nat): nat
    decreases a + b
  {
    if a == 0 && b == 0 then 0
    else Digit(g.On(a % 2 == 1, b % 2 == 1)) + 2 * Bitwise(g, a / 2, b / 2)
  }

  function BitAnd(a: nat, b: nat): nat { Bitwise(And, a, b) }

  function BitOr(a: nat, b: nat): nat { Bitwise(Or, a, b) }

  /** `x << k` before truncation to a word. */
  function Shl(x: nat, k: nat): nat
    decreases k
  {
    if k == 0 then x else 2 * Shl(x, k - 1)
  }

  function Shr(x: nat, k: nat): nat
    decreases k
  {
    if k == 0 then x else Shr(x / 2, k - 1)
  }

  /** The low `k` bits of `x`: what a cast or a wrapping operation keeps. */
  function Truncate(x: nat, k: nat): (r: nat)
    ensures r < Pow2(k)
    decreases k
  {
    if k == 0 then 0 else x % 2 + 2 * Truncate(x / 2, k - 1)
  }

  /** `!x` on a word of `k` bits. */
  function Complement(x: nat, k: nat): nat
    requires x < Pow2(k)
  {
    Pow2(k) - 1 - x
  }

  lemma {:induction false} ZeroBits(i: nat)
    ensures !Bit(0, i)
  {
    if i > 0 { ZeroBits(i - 1); }
  }

  lemma {:induction false} BitwiseBit(g: Gate, a: nat, b: nat, i: nat)
    ensures Bit(Bitwise(g, a, b), i) == g.On(Bit(a, i), Bit(b, i))
    decreases i
  {
    if a == 0 && b == 0 {
      ZeroBits(i);
    } else if i > 0 {
      assert Bitwise(g, a, b) / 2 == Bitwise(g, a / 2, b / 2);
      BitwiseBit(g, a / 2, b / 2, i - 1);
    }
  }

  lemma {:induction false} ShlBit(x: nat, k: nat, i: nat)
    ensures Bit(Shl(x, k), i) == (i >= k && Bit(x, i - k))
    decreases k
  {
    if k > 0 && i > 0 {
      assert Shl(x, k) / 2 == Shl(x, k - 1);
      ShlBit(x, k - 1, i - 1);
    }
  }

  lemma {:induction false} ShrBit(x: nat, k: nat, i: nat)
    ensures Bit(Shr(x, k), i) == Bit(x, i + k)
    decreases k
  {
    if k > 0 { ShrBit(x / 2, k - 1, i); }
  }

  lemma {:induction false} TruncateBit(x: nat, k: nat, i: nat)
    ensures Bit(Truncate(x, k), i) == (i < k && Bit(x, i))
    decreases k
  {
    if k == 0 {
      ZeroBits(i);
    } else if i > 0 {
      assert Truncate(x, k) / 2 == Truncate(x / 2, k - 1);
      TruncateBit(x / 2, k - 1, i - 1);
    }
  }

  lemma {:induction false} ComplementBit(x: nat, k: nat, i: nat)
    requires x < Pow2(k)
    ensures Bit(Complement(x, k), i) == (i < k && !Bit(x, i))
    decreases k
  {
    if k == 0 {
      ZeroBits(i);
    } else if i > 0 {
      assert Complement(x, k) / 2 == Complement(x / 2, k - 1);
      ComplementBit(x / 2, k - 1, i - 1);
    }
  }

  /** A number below `2^k` has no bit at `k` or above. */
  lemma {:induction false} HighBitsClear(x: nat, k: nat, i: nat)
    requires x < Pow2(k) && i >= k
    ensures !Bit(x, i)
    decreases k
  {
    if k == 0 { ZeroBits(i); } else { HighBitsClear(x / 2, k - 1, i - 1); }
  }

  /** And the other way round. */
  lemma {:induction false} ClearHighBitsBound(x: nat, k: nat)
    requires forall i: nat :: i >= k ==> !Bit(x, i)
    ensures x < Pow2(k)
    decreases x
  {
    if x > 0 {
      if k == 0 {
        LeadingBit(x);
      } else {
        forall i: nat | i >= k - 1 ensures !Bit(x / 2, i) {
          assert !Bit(x, i + 1);
        }
        ClearHighBitsBound(x / 2, k - 1);
      }
    }
  }

  lemma {:induction false} LeadingBit(x: nat)
    requires x > 0
    ensures exists i: nat :: Bit(x, i)
  {
    if x == 1 {
      assert Bit(x, 0);
    } else {
      LeadingBit(x / 2);
      var i: nat :| Bit(x / 2, i);
      assert Bit(x, i + 1);
    }
  }

  /** Two words with the same bits are the same word. */
  lemma {:induction false} SameBits(x: nat, y: nat)
    requires forall i: nat :: Bit(x, i) == Bit(y, i)
    ensures x == y
    decreases x + y
  {
    if x + y > 0 {
      assert Bit(x, 0) == Bit(y, 0);
      forall i: nat ensures Bit(x / 2, i) == Bit(y / 2, i) {
        assert Bit(x, i + 1) == Bit(y, i + 1);
      }
      SameBits(x / 2, y / 2);
    }
  }

  lemma {:induction false} Pow2Sum(a: nat, b: nat)
    ensures Pow2(a + b) == Pow2(a) * Pow2(b)
    decreases a
  {
    if a > 0 { Pow2Sum(a - 1, b); }
  }

  lemma {:induction false} Pow2Grows(a: nat, b: nat)
    requires a <= b
    ensures Pow2(a) <= Pow2(b)
    decreases b
  {
    if a < b { Pow2Grows(a, b - 1); }
  }

  lemma WordSizes()
    ensures Pow2(8) == U8_MAX + 1
    ensures Pow2(16) == U16_MAX + 1
    ensures Pow2(32) == U32_MAX + 1
    ensures Pow2(64) == U64_MAX + 1
  {
    assert Pow2(8) == 256 by { assert Pow2(4) == 16; }
    assert Pow2(16) == 0x1_0000 by { Pow2Sum(8, 8); }
    assert Pow2(32) == 0x1_0000_0000 by { Pow2Sum(16, 16); }
    assert Pow2(64) == 0x1_0000_0000_0000_0000 by { Pow2Sum(32, 32); }
  }

  lemma {:induction false} TruncateIsMod(x: nat, k: nat)
    ensures Truncate(x, k) == x % Pow2(k)
    decreases k
  {
    if k > 0 {
      TruncateIsMod(x / 2, k - 1);
      HalfMod(x, Pow2(k - 1));
    }
  }

  lemma HalfMod(x: nat, p: nat)
    requires p > 0
    ensures x % (2 * p) == 2 * ((x / 2) % p) + x % 2
  {
    var q, r := (x / 2) / p, (x / 2) % p;
    Doubled(q, p);
    DivModUnique(x, 2 * p, q, 2 * r + x % 2);
  }

  lemma Doubled(q: nat, p: nat)
    ensures q * (2 * p) == 2 * (q * p)
  {
  }

  lemma DivModUnique(x: nat, m: nat, q: nat, r: nat)
    requires m > 0 && r < m && x == q * m + r
    ensures x / m == q && x % m == r
  {
    var d := x / m - q;
    assert x == (x / m) * m + x % m;
    assert d * m == r - x % m by { assert d * m == (x / m) * m - q * m; }
  }

  lemma {:induction false} ShlIsTimes(x: nat, k: nat)
    ensures Shl(x, k) == x * Pow2(k)
    decreases k
  {
    if k > 0 { ShlIsTimes(x, k - 1); }
  }

  /** Bitwise operators on words of `k` bits stay within `k` bits. */
  lemma {:induction false} BitwiseBound(g: Gate, a: nat, b: nat, k: nat)
    requires a < Pow2(k) && b < Pow2(k)
    ensures Bitwise(g, a, b) < Pow2(k)
    decreases k
  {
    if k > 0 && (a > 0 || b > 0) { BitwiseBound(g, a / 2, b / 2, k - 1); }
  }

  /** `|` of words that share no bit is `+`. */
  lemma {:induction false} DisjointOr(a: nat, b: nat, k: nat)
    requires a < Pow2(k)
    ensures BitOr(a, Shl(b, k)) == a + Shl(b, k)
    decreases k
  {
    if k == 0 {
      OrZero(b);
    } else if a > 0 || Shl(b, k) > 0 {
      assert Shl(b, k) / 2 == Shl(b, k - 1);
      DisjointOr(a / 2, b, k - 1);
    }
  }

  lemma {:induction false} OrZero(b: nat)
    ensures BitOr(0, b) == b
  {
    if b > 0 { OrZero(b / 2); }
  }

  lemma {:induction false} OnesBit(k: nat, i: nat)
    ensures Bit(Pow2(k) - 1, i) == (i < k)
    decreases k
  {
    if k == 0 {
      ZeroBits(i);
    } else if i > 0 {
      assert (Pow2(k) - 1) / 2 == Pow2(k - 1) - 1;
      OnesBit(k - 1, i - 1);
    }
  }

  /** Bit `i` is the binary digit of weight `2^i`. */
  lemma {:induction false} BitIsDigit(x: nat, i: nat)
    ensures Bit(x, i) == (x / Pow2(i) % 2 == 1)
    decreases i
  {
    if i > 0 {
      BitIsDigit(x / 2, i - 1);
      HalvedTwice(x, Pow2(i - 1));
    }
  }

  lemma HalvedTwice(x: nat, p: nat)
    requires p > 0
    ensures x / 2 / p == x / (2 * p)
  {
    var q, r := (x / 2) / p, (x / 2) % p;
    Doubled(q, p);
    DivModUnique(x, 2 * p, q, 2 * r + x % 2);
  }
}
