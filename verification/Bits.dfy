/** Bitwise operators on naturals, as Python's unbounded integers have them, and what they do to one bit. */
module Bits {

  ghost predicate Bit(x: nat, k: nat) {
    if k == 0 then x % 2 == 1 else Bit(x / 2, k - 1)
  }

  function B2(b: bool): nat { if b then 1 else 0 }

  function Or(a: nat, b: nat): nat
    decreases a + b
  {
    if a == 0 && b == 0 then 0 else B2(a % 2 == 1 || b % 2 == 1) + 2 * Or(a / 2, b / 2)
  }

  function And(a: nat, b: nat): nat {
    if a == 0 then 0 else B2(a % 2 == 1 && b % 2 == 1) + 2 * And(a / 2, b / 2)
  }

  /** a & ~b */
  function AndNot(a: nat, b: nat): nat {
    if a == 0 then 0 else B2(a % 2 == 1 && b % 2 == 0) + 2 * AndNot(a / 2, b / 2)
  }

  function Shl(x: nat, n: nat): nat { if n == 0 then x else 2 * Shl(x, n - 1) }

  function Shr(x: nat, n: nat): nat { if n == 0 then x else Shr(x / 2, n - 1) }

  lemma {:induction false} ZeroBit(k: nat)
    ensures !Bit(0, k)
  {
    if k > 0 {
      ZeroBit(k - 1);
    }
  }

  lemma {:induction false} OrBit(a: nat, b: nat, k: nat)
    ensures Bit(Or(a, b), k) <==> Bit(a, k) || Bit(b, k)
    decreases k
  {
    if a == 0 && b == 0 {
      ZeroBit(k);
    } else if k > 0 {
      OrBit(a / 2, b / 2, k - 1);
    }
  }

  lemma {:induction false} AndBit(a: nat, b: nat, k: nat)
    ensures Bit(And(a, b), k) <==> Bit(a, k) && Bit(b, k)
    decreases k
  {
    if a == 0 {
      ZeroBit(k);
    } else if k > 0 {
      AndBit(a / 2, b / 2, k - 1);
    }
  }

  lemma {:induction false} AndNotBit(a: nat, b: nat, k: nat)
    ensures Bit(AndNot(a, b), k) <==> Bit(a, k) && !Bit(b, k)
    decreases k
  {
    if a == 0 {
      ZeroBit(k);
    } else if k > 0 {
      AndNotBit(a / 2, b / 2, k - 1);
    }
  }

  lemma {:induction false} ShlBit(x: nat, n: nat, k: nat)
    ensures Bit(Shl(x, n), k) <==> k >= n && Bit(x, k - n)
  {
    if n > 0 && k > 0 {
      ShlBit(x, n - 1, k - 1);
    }
  }

  lemma {:induction false} ShrBit(x: nat, n: nat, k: nat)
    ensures Bit(Shr(x, n), k) <==> Bit(x, n + k)
  {
    if n > 0 {
      ShrBit(x / 2, n - 1, k);
    }
  }

  /** A number without a bit from n on is below 2**n. */
  lemma {:induction false} Narrow(x: nat, n: nat)
    requires forall k: nat :: k >= n ==> !Bit(x, k)
    ensures x < Shl(1, n)
    decreases n
  {
    if n == 0 {
      if x > 0 {
        var k := HighBit(x);
      }
    } else {
      forall k: nat | k >= n - 1 ensures !Bit(x / 2, k) {
        assert !Bit(x, k + 1);
      }
      Narrow(x / 2, n - 1);
    }
  }

  /** A number below 2**n has no bit from n on. */
  lemma {:induction false} NoHigh(x: nat, n: nat, k: nat)
    requires x < Shl(1, n) && k >= n
    ensures !Bit(x, k)
    decreases n
  {
    if n == 0 {
      ZeroBit(k);
    } else {
      NoHigh(x / 2, n - 1, k - 1);
    }
  }

  /** Some bit of a positive number is set. */
  lemma {:induction false} HighBit(x: nat) returns (k: nat)
    requires x > 0
    ensures Bit(x, k)
  {
    if x % 2 == 1 {
      k := 0;
    } else {
      var j := HighBit(x / 2);
      k := j + 1;
    }
  }

  lemma Eight()
    ensures Shl(1, 8) == 256
  {
    assert Shl(1, 4) == 16;
    assert Shl(1, 6) == 64;
  }

  /** Every bit of 2**n - 1 below n is set, and no other. */
  lemma {:induction false} OnesBit(n: nat, k: nat)
    ensures Shl(1, n) >= 1 && (Bit(Shl(1, n) - 1, k) <==> k < n)
    decreases n
  {
    if n == 0 {
      ZeroBit(k);
    } else {
      OnesBit(n - 1, if k == 0 then 0 else k - 1);
      assert (Shl(1, n) - 1) / 2 == Shl(1, n - 1) - 1;
    }
  }

  lemma Ones(k: nat)
    ensures Bit(0xFF, k) <==> k < 8
  {
    OnesBit(8, k);
    Eight();
  }

  lemma {:induction false} AndNone(x: nat)
    ensures And(x, 0) == 0
  {
    if x > 0 {
      AndNone(x / 2);
    }
  }

  lemma {:induction false} OrNone(x: nat)
    ensures Or(x, 0) == x
  {
    if x > 0 {
      OrNone(x / 2);
    }
  }
}
