/** Go's unsigned machine words, modelled on the natural numbers: the shifts and the
    bitwise or the Rubix codec uses, each with the law that says what it does to one bit. */
module Words {

  type byte = x: int | 0 <= x < 256

  function Pow2(n: nat): (p: nat)
    ensures p >= 1
  {
    if n == 0 then 1 else 2 * Pow2(n - 1)
  }

  /** Bit j of v, counted from the least significant end. */
  predicate Bit(v: nat, j: nat)
  {
    if j == 0 then v % 2 == 1 else Bit(v / 2, j - 1)
  }

  /** `v << k` on uint64: what moves past bit 63 is lost. */
  function Shl64(v: nat, k: nat): nat
  {
    v * Pow2(k) % Pow2(64)
  }

  /** `v >> k` on an unsigned word. */
  function Shr(v: nat, k: nat): nat
  {
    QuotientIsNat(v, Pow2(k));
    v / Pow2(k)
  }

  lemma QuotientIsNat(v: nat, m: nat)
    requires m > 0
    ensures v / m >= 0
  {
    assert v == v / m * m + v % m;
    if v / m < 0 {
      NonzeroMultiple(v / m, m);
    }
  }

  /** `a | b`. */
  function Or(a: nat, b: nat): nat
  {
    if a == 0 then b
    else if b == 0 then a
    else 2 * Or(a / 2, b / 2) + (if a % 2 == 1 || b % 2 == 1 then 1 else 0)
  }

  /** `a & b`. */
  function And(a: nat, b: nat): nat
  {
    if a == 0 then 0
    else 2 * And(a / 2, b / 2) + (if a % 2 == 1 && b % 2 == 1 then 1 else 0)
  }

  /** `a &^ b`. */
  function AndNot(a: nat, b: nat): nat
  {
    if a == 0 then 0
    else 2 * AndNot(a / 2, b / 2) + (if a % 2 == 1 && b % 2 == 0 then 1 else 0)
  }

  /** `a ^ b`. */
  function Xor(a: nat, b: nat): nat
  {
    if a == 0 then b
    else if b == 0 then a
    else 2 * Xor(a / 2, b / 2) + (if a % 2 != b % 2 then 1 else 0)
  }

  /** `byte(v)`: the low eight bits. */
  function ToByte(v: nat): byte
  {
    v % 256
  }

  // ------------------------------------------------------------------ arithmetic

  lemma NonzeroMultiple(k: int, m: nat)
    requires k != 0
    ensures k * m >= m || k * m + m <= 0
  {
    if k > 0 {
      assert (k - 1) * m >= 0;
    } else {
      assert (-k - 1) * m >= 0;
    }
  }

  lemma DivModUnique(v: nat, m: nat, q: nat, r: nat)
    requires m > 0 && r < m && v == q * m + r
    ensures v / m == q && v % m == r
  {
    assert v == v / m * m + v % m;
    assert (v / m - q) * m == r - v % m;
    if v / m != q {
      NonzeroMultiple(v / m - q, m);
    }
  }

  lemma HalveDivMod(v: nat, m: nat)
    requires m > 0
    ensures v / (2 * m) == v / 2 / m
    ensures v % (2 * m) == 2 * (v / 2 % m) + v % 2
  {
    var q, r := v / 2 / m, v / 2 % m;
    assert v / 2 == q * m + r;
    assert v == q * (2 * m) + (2 * r + v % 2);
    DivModUnique(v, 2 * m, q, 2 * r + v % 2);
  }

  lemma {:induction false} Pow2Add(a: nat, b: nat)
    ensures Pow2(a + b) == Pow2(a) * Pow2(b)
  {
    if a > 0 {
      Pow2Add(a - 1, b);
    }
  }

  lemma {:induction false} Pow2Monotone(a: nat, b: nat)
    requires a <= b
    ensures Pow2(a) <= Pow2(b)
  {
    Pow2Add(a, b - a);
    assert Pow2(a) * 1 <= Pow2(a) * Pow2(b - a);
  }

  lemma Pow2Strict(a: nat, b: nat)
    requires a < b
    ensures Pow2(a) < Pow2(b)
  {
    Pow2Monotone(a, b - 1);
  }

  lemma SmallMod(v: nat, m: nat)
    requires v < m
    ensures v % m == v
  {}

  /** `1 << k` keeps its bit below position 64. */
  lemma Shl64One(k: nat)
    requires k < 64
    ensures Shl64(1, k) == Pow2(k)
  {
    hide Pow2;
    Pow2Strict(k, 64);
    SmallMod(Pow2(k), Pow2(64));
  }

  // ------------------------------------------------------------------ one bit of each operation

  lemma {:induction false} BitOfZero(j: nat)
    ensures !Bit(0, j)
  {
    if j > 0 {
      BitOfZero(j - 1);
    }
  }

  lemma {:induction false} BitOfProduct(v: nat, k: nat, j: nat)
    ensures Bit(v * Pow2(k), j) == (k <= j && Bit(v, j - k))
  {
    if k > 0 {
      var half := v * Pow2(k - 1);
      assert v * Pow2(k) == 2 * half;
      if j > 0 {
        BitOfProduct(v, k - 1, j - 1);
      }
    }
  }

  lemma {:induction false} BitOfMod(v: nat, n: nat, j: nat)
    ensures Bit(v % Pow2(n), j) == (j < n && Bit(v, j))
  {
    if n == 0 {
      BitOfZero(j);
    } else {
      HalveDivMod(v, Pow2(n - 1));
      if j > 0 {
        BitOfMod(v / 2, n - 1, j - 1);
      }
    }
  }

  lemma {:induction false} BitOfShr(v: nat, k: nat, j: nat)
    ensures Bit(Shr(v, k), j) == Bit(v, j + k)
  {
    if k > 0 {
      HalveDivMod(v, Pow2(k - 1));
      BitOfShr(v / 2, k - 1, j);
    }
  }

  lemma BitOfShl64(v: nat, k: nat, j: nat)
    ensures Bit(Shl64(v, k), j) == (k <= j < 64 && Bit(v, j - k))
  {
    BitOfMod(v * Pow2(k), 64, j);
    BitOfProduct(v, k, j);
  }

  lemma {:induction false} BitOfOr(a: nat, b: nat, j: nat)
    ensures Bit(Or(a, b), j) == (Bit(a, j) || Bit(b, j))
  {
    if a == 0 || b == 0 {
      BitOfZero(j);
    } else if j > 0 {
      BitOfOr(a / 2, b / 2, j - 1);
    }
  }

  lemma {:induction false} BitOfAndNot(a: nat, b: nat, j: nat)
    ensures Bit(AndNot(a, b), j) == (Bit(a, j) && !Bit(b, j))
  {
    if a == 0 {
      BitOfZero(j);
    } else if j > 0 {
      BitOfAndNot(a / 2, b / 2, j - 1);
    }
  }

  lemma {:induction false} BitOfAnd(a: nat, b: nat, j: nat)
    ensures Bit(And(a, b), j) == (Bit(a, j) && Bit(b, j))
  {
    if a == 0 {
      BitOfZero(j);
    } else if j > 0 {
      BitOfAnd(a / 2, b / 2, j - 1);
    }
  }

  lemma {:induction false} BitOfXor(a: nat, b: nat, j: nat)
    ensures Bit(Xor(a, b), j) == (Bit(a, j) != Bit(b, j))
  {
    if a == 0 || b == 0 {
      BitOfZero(j);
    } else if j > 0 {
      BitOfXor(a / 2, b / 2, j - 1);
    }
  }

  lemma {:induction false} BitOfMask(n: nat, j: nat)
    ensures Bit(Pow2(n) - 1, j) == (j < n)
  {
    if n == 0 {
      BitOfZero(j);
    } else if j > 0 {
      assert (Pow2(n) - 1) / 2 == Pow2(n - 1) - 1;
      BitOfMask(n - 1, j - 1);
    }
  }

  lemma BitOfPow2(n: nat, j: nat)
    ensures Bit(Pow2(n), j) == (j == n)
  {
    BitOfProduct(1, n, j);
    if n < j {
      BitOfZero(j - n - 1);
    }
  }

  lemma BitOfToByte(v: nat, j: nat)
    ensures Bit(ToByte(v), j) == (j < 8 && Bit(v, j))
  {
    assert Pow2(8) == 256;
    BitOfMod(v, 8, j);
  }

  lemma {:induction false} BitAboveRange(v: nat, n: nat, j: nat)
    requires v < Pow2(n) && n <= j
    ensures !Bit(v, j)
  {
    if n == 0 {
      BitOfZero(j);
    } else {
      BitAboveRange(v / 2, n - 1, j - 1);
    }
  }

  /** Two words below 2^n with the same low n bits are the same word. */
  lemma {:induction false} SameBitsSameWord(a: nat, b: nat, n: nat)
    requires a < Pow2(n) && b < Pow2(n)
    requires forall j: nat | j < n :: Bit(a, j) == Bit(b, j)
    ensures a == b
  {
    if n > 0 {
      assert Bit(a, 0) == Bit(b, 0);
      forall j: nat | j < n - 1
        ensures Bit(a / 2, j) == Bit(b / 2, j)
      {
        assert Bit(a, j + 1) == Bit(b, j + 1);
      }
      SameBitsSameWord(a / 2, b / 2, n - 1);
    }
  }

  /** A word with no bit from n up is below 2^n. */
  lemma {:induction false} NoBitsFrom(v: nat, n: nat)
    requires forall j: nat | n <= j :: !Bit(v, j)
    ensures v < Pow2(n)
  {
    assert !Bit(v, n);
    var m := if n == 0 then 0 else n - 1;
    forall j: nat | m <= j
      ensures !Bit(v / 2, j)
    {
      assert !Bit(v, j + 1);
    }
    if v > 0 {
      NoBitsFrom(v / 2, m);
    }
  }
}
