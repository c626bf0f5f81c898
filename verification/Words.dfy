/** Unsigned 32-bit machine words and their bitwise operators, defined on numbers bit by bit. */
module Words {

  type Word = x: int | 0 <= x < 0x1_0000_0000

  function Pow2(n: nat): (r: nat)
    ensures r > 0
  {
    if n == 0 then 1 else 2 * Pow2(n - 1)
  }

  lemma {:induction false} Pow2Sum(m: nat, n: nat)
    ensures Pow2(m + n) == Pow2(m) * Pow2(n)
  {
    if n > 0 { Pow2Sum(m, n - 1); }
  }

  lemma Pow2Of32()
    ensures Pow2(32) == 0x1_0000_0000
  {
    assert Pow2(2) == 4;
    Pow2Sum(2, 2);
    Pow2Sum(4, 4);
    Pow2Sum(8, 8);
    Pow2Sum(16, 16);
  }

  /** Bit `i` of `x`, counted from the least significant one. */
  predicate Bit(x: nat, i: nat) {
    if i == 0 then x % 2 == 1 else Bit(x / 2, i - 1)
  }

  /** The word of `n` bits whose bits are the negated bits of `x`. */
  function Complement(x: nat, n: nat): (r: nat)
    ensures r < Pow2(n)
  {
    if n == 0 then 0 else 2 * Complement(x / 2, n - 1) + (1 - x % 2)
  }

  function And(x: nat, y: nat): (r: nat)
    ensures r <= x && r <= y
  {
    if x == 0 || y == 0 then 0 else 2 * And(x / 2, y / 2) + (if x % 2 == 1 && y % 2 == 1 then 1 else 0)
  }

  function Xor(x: nat, y: nat): nat {
    if x == 0 && y == 0 then 0 else 2 * Xor(x / 2, y / 2) + (if x % 2 != y % 2 then 1 else 0)
  }

  function Or(x: nat, y: nat): nat {
    if x == 0 && y == 0 then 0 else 2 * Or(x / 2, y / 2) + (if x % 2 == 1 || y % 2 == 1 then 1 else 0)
  }

  lemma {:induction false} ZeroHasNoBits(i: nat)
    ensures !Bit(0, i)
  {
    if i > 0 { ZeroHasNoBits(i - 1); }
  }

  lemma Doubled(r: nat, b: nat)
    requires b < 2
    ensures (2 * r + b) / 2 == r && (2 * r + b) % 2 == b
  {
  }

  lemma AndHalves(x: nat, y: nat)
    ensures And(x, y) / 2 == And(x / 2, y / 2)
    ensures And(x, y) % 2 == 1 <==> x % 2 == 1 && y % 2 == 1
  {
    if !(x == 0 || y == 0) { Doubled(And(x / 2, y / 2), if x % 2 == 1 && y % 2 == 1 then 1 else 0); }
  }

  lemma {:induction false} AndBit(x: nat, y: nat, i: nat)
    ensures Bit(And(x, y), i) <==> Bit(x, i) && Bit(y, i)
  {
    AndHalves(x, y);
    hide And;
    if i > 0 { AndBit(x / 2, y / 2, i - 1); }
  }

  lemma XorHalves(x: nat, y: nat)
    ensures Xor(x, y) / 2 == Xor(x / 2, y / 2)
    ensures Xor(x, y) % 2 == 1 <==> x % 2 != y % 2
  {
    if !(x == 0 && y == 0) { Doubled(Xor(x / 2, y / 2), if x % 2 != y % 2 then 1 else 0); }
  }

  lemma {:induction false} XorBit(x: nat, y: nat, i: nat)
    ensures Bit(Xor(x, y), i) <==> Bit(x, i) != Bit(y, i)
  {
    XorHalves(x, y);
    hide Xor;
    if i > 0 { XorBit(x / 2, y / 2, i - 1); }
  }

  lemma OrHalves(x: nat, y: nat)
    ensures Or(x, y) / 2 == Or(x / 2, y / 2)
    ensures Or(x, y) % 2 == 1 <==> x % 2 == 1 || y % 2 == 1
  {
    if !(x == 0 && y == 0) { Doubled(Or(x / 2, y / 2), if x % 2 == 1 || y % 2 == 1 then 1 else 0); }
  }

  lemma {:induction false} OrBit(x: nat, y: nat, i: nat)
    ensures Bit(Or(x, y), i) <==> Bit(x, i) || Bit(y, i)
  {
    OrHalves(x, y);
    hide Or;
    if i > 0 { OrBit(x / 2, y / 2, i - 1); }
  }

  lemma {:induction false} ComplementBit(x: nat, n: nat, i: nat)
    ensures Bit(Complement(x, n), i) <==> i < n && !Bit(x, i)
  {
    if n == 0 {
      ZeroHasNoBits(i);
    } else if i > 0 {
      ComplementBit(x / 2, n - 1, i - 1);
    }
  }

  lemma {:induction false} HighBitsAreZero(x: nat, n: nat, i: nat)
    requires x < Pow2(n) <= Pow2(i)
    ensures !Bit(x, i)
  {
    if n == 0 {
      ZeroHasNoBits(i);
    } else if i > 0 {
      HighBitsAreZero(x / 2, n - 1, i - 1);
    }
  }

  lemma {:induction false} Pow2Monotone(n: nat, i: nat)
    requires n <= i
    ensures Pow2(n) <= Pow2(i)
  {
    if n < i { Pow2Monotone(n, i - 1); }
  }

  /** Two numbers with the same bits are equal. */
  lemma {:induction false} SameBitsAreEqual(x: nat, y: nat)
    requires forall i: nat :: Bit(x, i) <==> Bit(y, i)
    ensures x == y
    decreases x
  {
    assert Bit(x, 0) <==> Bit(y, 0);
    if x > 0 {
      forall i: nat ensures Bit(x / 2, i) <==> Bit(y / 2, i) {
        assert Bit(x, i + 1) <==> Bit(y, i + 1);
      }
      SameBitsAreEqual(x / 2, y / 2);
    } else if y > 0 {
      var i := SomeBit(y);
      ZeroHasNoBits(i);
    }
  }

  lemma {:induction false} SomeBit(y: nat) returns (i: nat)
    requires y > 0
    ensures Bit(y, i)
  {
    if y % 2 == 1 {
      i := 0;
    } else {
      i := SomeBit(y / 2);
      i := i + 1;
    }
  }

  ghost predicate AgreeOn(x: nat, y: nat, mask: nat) {
    forall i: nat :: Bit(mask, i) ==> (Bit(x, i) <==> Bit(y, i))
  }

  /** `(x & mask) == (y & mask)` says that `x` and `y` have the same value on every bit of `mask`. */
  lemma MaskedEqual(x: nat, y: nat, mask: nat)
    ensures And(x, mask) == And(y, mask) <==> AgreeOn(x, y, mask)
  {
    if And(x, mask) == And(y, mask) {
      forall i: nat | Bit(mask, i) ensures Bit(x, i) <==> Bit(y, i) {
        AndBit(x, mask, i);
        AndBit(y, mask, i);
      }
    }
    if AgreeOn(x, y, mask) {
      forall i: nat ensures Bit(And(x, mask), i) <==> Bit(And(y, mask), i) {
        AndBit(x, mask, i);
        AndBit(y, mask, i);
      }
      SameBitsAreEqual(And(x, mask), And(y, mask));
    }
  }

  lemma {:induction false} OnesBit(n: nat, i: nat)
    ensures Bit(Pow2(n) - 1, i) <==> i < n
  {
    if n == 0 {
      ZeroHasNoBits(i);
    } else if i > 0 {
      OnesBit(n - 1, i - 1);
      assert (Pow2(n) - 1) / 2 == Pow2(n - 1) - 1;
    }
  }

  lemma WordBits(x: Word, i: nat)
    requires i >= 32
    ensures !Bit(x, i)
  {
    Pow2Of32();
    Pow2Monotone(32, i);
    HighBitsAreZero(x, 32, i);
  }

  lemma {:induction false} PowerBit(n: nat, i: nat)
    ensures Bit(Pow2(n), i) <==> i == n
  {
    if n == 0 {
      if i > 0 { ZeroHasNoBits(i - 1); }
    } else if i > 0 {
      PowerBit(n - 1, i - 1);
    }
  }

  /** A conversion to an unsigned type of `n` bits keeps the low `n` bits. */
  function Truncate(x: nat, n: nat): (r: nat)
    ensures r < Pow2(n)
  {
    if n == 0 then 0 else 2 * Truncate(x / 2, n - 1) + x % 2
  }

  lemma {:induction false} TruncateBit(x: nat, n: nat, i: nat)
    ensures Bit(Truncate(x, n), i) <==> i < n && Bit(x, i)
  {
    if n == 0 {
      ZeroHasNoBits(i);
    } else if i > 0 {
      TruncateBit(x / 2, n - 1, i - 1);
      assert Truncate(x, n) / 2 == Truncate(x / 2, n - 1);
    }
  }
}
