/** Port bit masks: Go's 64-bit `int` as the number its bit pattern spells, bit 0 lowest. */
module Masks {

  /** The ports of the one supported model. */
  const PORTS := 8

  const WIDTH := 64

  function Pow2(n: nat): (r: int)
    ensures r > 0
  {
    if n == 0 then 1 else 2 * Pow2(n - 1)
  }

  /** `m & (1 << i) != 0` for `i` below the width, said without the operators. */
  predicate Bit(m: nat, i: nat) {
    if i == 0 then m % 2 == 1 else Bit(m / 2, i - 1)
  }

  /** `1 << n`: a shift by the width or more leaves nothing. */
  function Shifted(n: nat): nat {
    if n < WIDTH then Pow2(n) else 0
  }

  function Or(a: nat, b: nat): nat
    decreases a + b
  {
    if a == 0 then b else if b == 0 then a
    else 2 * Or(a / 2, b / 2) + if a % 2 == 1 || b % 2 == 1 then 1 else 0
  }

  function And(a: nat, b: nat): nat
    decreases a
  {
    if a == 0 then 0 else 2 * And(a / 2, b / 2) + if a % 2 == 1 && b % 2 == 1 then 1 else 0
  }

  lemma {:induction false} ZeroBits(i: nat)
    ensures !Bit(0, i)
  {
    if i > 0 {
      ZeroBits(i - 1);
    }
  }

  lemma {:induction false} OrBit(a: nat, b: nat, i: nat)
    ensures Bit(Or(a, b), i) <==> Bit(a, i) || Bit(b, i)
  {
    ZeroBits(i);
    if a != 0 && b != 0 && i > 0 {
      OrBit(a / 2, b / 2, i - 1);
      assert Or(a, b) / 2 == Or(a / 2, b / 2);
    }
  }

  lemma {:induction false} AndBit(a: nat, b: nat, i: nat)
    ensures Bit(And(a, b), i) <==> Bit(a, i) && Bit(b, i)
  {
    ZeroBits(i);
    if a != 0 && i > 0 {
      AndBit(a / 2, b / 2, i - 1);
      assert And(a, b) / 2 == And(a / 2, b / 2);
    }
  }

  lemma {:induction false} Pow2Bit(n: nat, i: nat)
    ensures Bit(Pow2(n), i) <==> i == n
  {
    if n == 0 {
      if i > 0 {
        ZeroBits(i - 1);
      }
    } else {
      assert Pow2(n) / 2 == Pow2(n - 1);
      if i > 0 {
        Pow2Bit(n - 1, i - 1);
      }
    }
  }

  /** A number other than zero has a bit. */
  lemma {:induction false} SomeBit(m: nat) returns (i: nat)
    requires m > 0
    ensures Bit(m, i)
  {
    if m % 2 == 1 {
      i := 0;
    } else {
      i := SomeBit(m / 2);
      i := i + 1;
    }
  }

  /** Masks are the sets of their bits. */
  lemma {:induction false} SameBits(a: nat, b: nat)
    requires forall i: nat :: Bit(a, i) <==> Bit(b, i)
    ensures a == b
    decreases a + b
  {
    if a == 0 && b > 0 {
      var i := SomeBit(b);
      ZeroBits(i);
    } else if b == 0 && a > 0 {
      var i := SomeBit(a);
      ZeroBits(i);
    } else if a > 0 {
      assert Bit(a, 0) <==> Bit(b, 0);
      forall i: nat ensures Bit(a / 2, i) <==> Bit(b / 2, i) {
        assert Bit(a, i + 1) <==> Bit(b, i + 1);
      }
      SameBits(a / 2, b / 2);
    }
  }

  /** `m |= 1 << n`. */
  lemma SetsBit(m: nat, n: nat, i: nat)
    ensures Bit(Or(m, Shifted(n)), i) <==> Bit(m, i) || (i == n && n < WIDTH)
  {
    OrBit(m, Shifted(n), i);
    if n < WIDTH {
      Pow2Bit(n, i);
    } else {
      ZeroBits(i);
    }
  }

  /** `m & (1 << n) != 0`. */
  lemma TestsBit(m: nat, n: nat)
    ensures And(m, Shifted(n)) != 0 <==> n < WIDTH && Bit(m, n)
  {
    var t := And(m, Shifted(n));
    if n < WIDTH {
      if t != 0 {
        var i := SomeBit(t);
        AndBit(m, Pow2(n), i);
        Pow2Bit(n, i);
      } else {
        AndBit(m, Pow2(n), n);
        Pow2Bit(n, n);
        ZeroBits(n);
      }
    } else if t != 0 {
      var i := SomeBit(t);
      AndBit(m, 0, i);
      ZeroBits(i);
    }
  }

  /** The mask whose bits below the width are those that `f` names. */
  function MaskOf(f: nat -> bool, n: nat): (m: nat)
    requires n <= WIDTH
    decreases n
  {
    if n == 0 then 0 else Or(MaskOf(f, n - 1), if f(n - 1) then Shifted(n - 1) else 0)
  }

  lemma {:induction false} MaskOfBit(f: nat -> bool, n: nat, i: nat)
    requires n <= WIDTH
    ensures Bit(MaskOf(f, n), i) <==> i < n && f(i)
  {
    if n == 0 {
      ZeroBits(i);
    } else {
      MaskOfBit(f, n - 1, i);
      SetsBit(MaskOf(f, n - 1), n - 1, i);
      OrBit(MaskOf(f, n - 1), 0, i);
      ZeroBits(i);
    }
  }

  // --------------------------------------------------- two's complement

  const HALF := 0x8000_0000_0000_0000

  /** The values of Go's `int`. */
  type Int64 = n: int | -0x8000_0000_0000_0000 <= n < 0x8000_0000_0000_0000

  predicate IsWord(m: nat) {
    m < 2 * HALF
  }

  /** The number that a bit pattern stands for. */
  function Signed(m: nat): Int64
    requires IsWord(m)
  {
    if m < HALF then m else m - 2 * HALF
  }

  /** The bit pattern of a number. */
  function Word(n: Int64): (m: nat)
    ensures IsWord(m)
  {
    if n < 0 then n + 2 * HALF else n
  }

  lemma WordOfSigned(m: nat)
    requires IsWord(m)
    ensures Word(Signed(m)) == m
  {
  }

  lemma {:induction false} BitsBound(m: nat, n: nat)
    requires forall i: nat :: i >= n ==> !Bit(m, i)
    ensures m < Pow2(n)
  {
    if n == 0 {
      if m > 0 {
        var i := SomeBit(m);
      }
    } else {
      forall i: nat | i >= n - 1 ensures !Bit(m / 2, i) {
        assert !Bit(m, i + 1);
      }
      BitsBound(m / 2, n - 1);
    }
  }

  lemma {:induction false} Pow2Sum(m: nat, n: nat)
    ensures Pow2(m + n) == Pow2(m) * Pow2(n)
  {
    if m > 0 {
      Pow2Sum(m - 1, n);
    }
  }

  lemma Pow2Width()
    ensures Pow2(WIDTH) == 2 * HALF
  {
    assert Pow2(4) == 2 * (2 * Pow2(2)) == 16;
    Pow2Sum(4, 4);
    Pow2Sum(8, 8);
    Pow2Sum(16, 16);
    Pow2Sum(32, 32);
  }

  lemma MaskOfIsWord(f: nat -> bool, n: nat)
    requires n <= WIDTH
    ensures IsWord(MaskOf(f, n))
  {
    forall i: nat | i >= WIDTH ensures !Bit(MaskOf(f, n), i) {
      MaskOfBit(f, n, i);
    }
    BitsBound(MaskOf(f, n), WIDTH);
    Pow2Width();
  }
}
