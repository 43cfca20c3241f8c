/** Unsigned machine arithmetic on unbounded integers: powers of two and bitwise or. */
module Bits {
  type byte = b: int | 0 <= b < 256

  function Pow2(n: nat): (p: nat)
    ensures p > 0
  {
    if n == 0 then 1 else 2 * Pow2(n - 1)
  }

  /** `v << n` without truncation. */
  function ShiftLeft(v: nat, n: nat): nat
  {
    if n == 0 then v else 2 * ShiftLeft(v, n - 1)
  }

  /** The bitwise or of two unsigned numbers, bit by bit. */
  function Or(a: nat, b: nat): nat
  {
    if a == 0 then b
    else if b == 0 then a
    else (if a % 2 == 1 || b % 2 == 1 then 1 else 0) + 2 * Or(a / 2, b / 2)
  }

  lemma Pow2Add(m: nat, n: nat)
    ensures Pow2(m + n) == Pow2(m) * Pow2(n)
  {
    if m != 0 {
      Pow2Add(m - 1, n);
      assert Pow2(m + n) == 2 * Pow2(m - 1 + n);
    }
  }

  lemma Pow2Monotone(m: nat, n: nat)
    requires m <= n
    ensures Pow2(m) <= Pow2(n)
  {
    if m < n {
      Pow2Monotone(m, n - 1);
    }
  }

  lemma Pow2Values()
    ensures Pow2(7) == 128 && Pow2(28) == 0x1000_0000 && Pow2(32) == 0x1_0000_0000 && Pow2(31) == 0x8000_0000
    ensures Pow2(14) == 0x4000 && Pow2(21) == 0x20_0000
    ensures Pow2(63) == 0x8000_0000_0000_0000 && Pow2(64) == 0x1_0000_0000_0000_0000 && Pow2(35) == 0x8_0000_0000 && Pow2(4) == 16
  {
    assert Pow2(4) == 16;
    assert Pow2(7) == 8 * Pow2(4);
    Pow2Add(7, 7); Pow2Add(14, 7); Pow2Add(14, 14); Pow2Add(28, 4); Pow2Add(28, 7); Pow2Add(32, 32);
    assert Pow2(32) == 2 * Pow2(31);
    assert Pow2(64) == 2 * Pow2(63);
  }

  lemma {:induction false} OrBound(a: nat, b: nat, k: nat)
    requires a < Pow2(k) && b < Pow2(k)
    ensures Or(a, b) < Pow2(k)
  {
    if a != 0 && b != 0 {
      assert k > 0;
      OrBound(a / 2, b / 2, k - 1);
    }
  }

  /** Bit k of a number. */
  predicate Bit(v: nat, k: nat)
  {
    if k == 0 then v % 2 == 1 else Bit(v / 2, k - 1)
  }

  lemma {:induction false} OrBits(a: nat, b: nat, k: nat)
    ensures Bit(Or(a, b), k) <==> Bit(a, k) || Bit(b, k)
    decreases k
  {
    NoBits(k);
    if a != 0 && b != 0 {
      var r := if a % 2 == 1 || b % 2 == 1 then 1 else 0;
      Halve(r, Or(a / 2, b / 2));
      if k > 0 {
        OrBits(a / 2, b / 2, k - 1);
      }
    }
  }

  lemma Halve(r: nat, q: nat)
    requires r < 2
    ensures (r + 2 * q) % 2 == r && (r + 2 * q) / 2 == q
  {}

  lemma NoBits(k: nat)
    ensures !Bit(0, k)
  {
    if k > 0 {
      NoBits(k - 1);
    }
  }

  lemma {:induction false} Pow2Bits(i: nat, k: nat)
    ensures Bit(Pow2(i), k) <==> i == k
  {
    if i == 0 {
      if k > 0 { NoBits(k - 1); }
    } else {
      Halve(0, Pow2(i - 1));
      if k > 0 {
        Pow2Bits(i - 1, k - 1);
      }
    }
  }

  /** The number whose n lowest bits are set, and no other. */
  function Ones(n: nat): (v: nat)
    ensures v == Pow2(n) - 1
  {
    if n == 0 then 0 else 1 + 2 * Ones(n - 1)
  }

  lemma {:induction false} OnesBits(n: nat, k: nat)
    ensures Bit(Ones(n), k) <==> k < n
  {
    if n == 0 {
      NoBits(k);
    } else {
      Halve(1, Ones(n - 1));
      if k > 0 {
        OnesBits(n - 1, k - 1);
      }
    }
  }

  /** Numbers below 2^n with the same n lowest bits are equal. */
  lemma {:induction false} SameBits(v: nat, w: nat, n: nat)
    requires v < Pow2(n) && w < Pow2(n)
    requires forall k :: 0 <= k < n ==> (Bit(v, k) <==> Bit(w, k))
    ensures v == w
  {
    if n > 0 {
      assert Bit(v, 0) <==> Bit(w, 0);
      forall k | 0 <= k < n - 1
        ensures Bit(v / 2, k) <==> Bit(w / 2, k)
      {
        assert Bit(v, k + 1) <==> Bit(w, k + 1);
      }
      SameBits(v / 2, w / 2, n - 1);
    }
  }

  /** The bitwise and of two unsigned numbers. */
  function And(a: nat, b: nat): nat
  {
    if a == 0 || b == 0 then 0
    else (if a % 2 == 1 && b % 2 == 1 then 1 else 0) + 2 * And(a / 2, b / 2)
  }

  lemma {:induction false} AndBits(a: nat, b: nat, k: nat)
    ensures Bit(And(a, b), k) <==> Bit(a, k) && Bit(b, k)
    decreases k
  {
    NoBits(k);
    if a != 0 && b != 0 {
      var r := if a % 2 == 1 && b % 2 == 1 then 1 else 0;
      Halve(r, And(a / 2, b / 2));
      if k > 0 {
        AndBits(a / 2, b / 2, k - 1);
      }
    }
  }

  lemma {:induction false} AndBound(a: nat, b: nat)
    ensures And(a, b) <= b
  {
    if a != 0 && b != 0 {
      AndBound(a / 2, b / 2);
    }
  }

  /** The n lowest bits of a number: its conversion to an unsigned type of n bits. */
  function Low(v: nat, n: nat): (w: nat)
    ensures w < Pow2(n)
  {
    if n == 0 then 0 else v % 2 + 2 * Low(v / 2, n - 1)
  }

  lemma {:induction false} LowBits(v: nat, n: nat, k: nat)
    ensures Bit(Low(v, n), k) <==> k < n && Bit(v, k)
  {
    if n == 0 {
      NoBits(k);
    } else {
      Halve(v % 2, Low(v / 2, n - 1));
      if k > 0 {
        LowBits(v / 2, n - 1, k - 1);
      }
    }
  }

  lemma {:induction false} ShiftBits(v: nat, n: nat, k: nat)
    ensures Bit(ShiftLeft(v, n), k) <==> n <= k && Bit(v, k - n)
  {
    if n > 0 {
      Halve(0, ShiftLeft(v, n - 1));
      if k > 0 {
        ShiftBits(v, n - 1, k - 1);
      }
    }
  }

  lemma {:induction false} PowerIsShift(n: nat)
    ensures ShiftLeft(1, n) == Pow2(n)
  {
    if n > 0 {
      PowerIsShift(n - 1);
    }
  }

  /** Complementing the n lowest bits. */
  lemma {:induction false} ComplementBits(v: nat, n: nat, k: nat)
    requires v < Pow2(n)
    ensures v <= Ones(n)
    ensures Bit(Ones(n) - v, k) <==> k < n && !Bit(v, k)
  {
    if n == 0 {
      NoBits(k);
    } else {
      ComplementBits(v / 2, n - 1, if k > 0 then k - 1 else 0);
      Halve(1 - v % 2, Ones(n - 1) - v / 2);
      assert Ones(n) - v == 1 - v % 2 + 2 * (Ones(n - 1) - v / 2);
    }
  }

  lemma ShiftAdds(v: nat, m: nat, n: nat)
    ensures ShiftLeft(v, m + n) == ShiftLeft(ShiftLeft(v, m), n)
  {
    if n > 0 {
      ShiftAdds(v, m, n - 1);
    }
  }

  lemma ShiftValues(v: nat)
    ensures ShiftLeft(v, 7) == 0x80 * v && ShiftLeft(v, 14) == 0x4000 * v
    ensures ShiftLeft(v, 21) == 0x20_0000 * v && ShiftLeft(v, 28) == 0x1000_0000 * v
  {
    ShiftSeven(v);
    ShiftSeven(0x80 * v);
    ShiftSeven(0x4000 * v);
    ShiftSeven(0x20_0000 * v);
    ShiftAdds(v, 7, 7); ShiftAdds(v, 14, 7); ShiftAdds(v, 21, 7);
  }

  lemma ShiftSeven(v: nat)
    ensures ShiftLeft(v, 7) == 0x80 * v
  {
    assert ShiftLeft(v, 1) == 2 * v;
    assert ShiftLeft(v, 3) == 8 * v;
    assert ShiftLeft(v, 5) == 32 * v;
  }

  /** Or of numbers that share no bit position is their sum. */
  lemma {:induction false} OrDisjoint(a: nat, b: nat, k: nat)
    requires a < Pow2(k)
    ensures Or(a, ShiftLeft(b, k)) == a + ShiftLeft(b, k)
  {
    if a != 0 && ShiftLeft(b, k) != 0 {
      OrDisjoint(a / 2, b, k - 1);
    }
  }

  /** The bitwise exclusive or of two unsigned numbers. */
  function Xor(a: nat, b: nat): nat
  {
    if a == 0 then b
    else if b == 0 then a
    else (if a % 2 == b % 2 then 0 else 1) + 2 * Xor(a / 2, b / 2)
  }

  lemma {:induction false} XorBits(a: nat, b: nat, k: nat)
    ensures Bit(Xor(a, b), k) <==> (Bit(a, k) <==> !Bit(b, k))
    decreases k
  {
    NoBits(k);
    if a != 0 && b != 0 {
      var r := if a % 2 == b % 2 then 0 else 1;
      Halve(r, Xor(a / 2, b / 2));
      if k > 0 {
        XorBits(a / 2, b / 2, k - 1);
      }
    }
  }

  lemma {:induction false} XorBound(a: nat, b: nat, k: nat)
    requires a < Pow2(k) && b < Pow2(k)
    ensures Xor(a, b) < Pow2(k)
  {
    if a != 0 && b != 0 {
      assert k > 0;
      XorBound(a / 2, b / 2, k - 1);
    }
  }

  lemma XorCancels(a: nat, b: nat, c: nat, n: nat)
    requires a < Pow2(n) && b < Pow2(n) && Xor(a, c) == Xor(b, c)
    ensures a == b
  {
    forall k: nat
      ensures Bit(a, k) <==> Bit(b, k)
    {
      XorBits(a, c, k);
      XorBits(b, c, k);
    }
    SameBits(a, b, n);
  }

  lemma EightBits()
    ensures Pow2(8) == 256
  {
    assert Pow2(4) == 16;
  }

  function XorBytes(a: byte, b: byte): byte
  {
    EightBits();
    XorBound(a, b, 8);
    Xor(a, b)
  }

  lemma ByteXorCancels(a: byte, b: byte, c: byte)
    ensures XorBytes(a, c) == XorBytes(b, c) <==> a == b
  {
    EightBits();
    if XorBytes(a, c) == XorBytes(b, c) {
      XorCancels(a, b, c, 8);
    }
  }
}
