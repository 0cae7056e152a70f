/** Shifts and masks on natural numbers. */
module Bits {

  function Pow2(n: nat): (p: nat)
    ensures 0 < p
  {
    if n == 0 then 1 else 2 * Pow2(n - 1)
  }

  function Shl(a: nat, n: nat): nat { a * Pow2(n) }

  function Shr(a: nat, n: nat): nat { if n == 0 then a else Shr(a / 2, n - 1) }

  /** Bit by bit. */
  function And(a: nat, b: nat): nat {
    if a == 0 || b == 0 then 0 else 2 * And(a / 2, b / 2) + (if a % 2 == 1 && b % 2 == 1 then 1 else 0)
  }

  function Or(a: nat, b: nat): nat {
    if a == 0 then b else if b == 0 then a
    else 2 * Or(a / 2, b / 2) + (if a % 2 == 1 || b % 2 == 1 then 1 else 0)
  }

  lemma MulStep(b: nat, x: nat, y: nat)
    requires x < y
    ensures b * x + b <= b * y
  {
    var d := y - x - 1;
    assert b * y == b * (x + 1 + d) == b * x + b + b * d;
  }

  lemma UniqueQuotient(b: nat, q: nat, r: nat, q': nat, r': nat)
    requires b * q + r == b * q' + r' && r < b && r' < b
    ensures q == q' && r == r'
  {
    if q < q' {
      MulStep(b, q, q');
    } else if q' < q {
      MulStep(b, q', q);
    }
  }

  lemma QuotientAndRest(a: nat, b: nat, q: nat, r: nat)
    requires 0 < b && a == b * q + r && r < b
    ensures a / b == q && a % b == r
  {
    DivNonNegative(a, b);
    UniqueQuotient(b, q, r, a / b, a % b);
  }

  lemma DivNonNegative(a: nat, b: nat)
    requires 0 < b
    ensures 0 <= a / b && a == b * (a / b) + a % b
  {
  }

  lemma DivideTwice(a: nat, p: nat)
    requires 0 < p
    ensures a / (2 * p) == a / 2 / p && a % (2 * p) == 2 * (a / 2 % p) + a % 2
  {
    DivNonNegative(a / 2, p);
    var q, r := a / 2 / p, a / 2 % p;
    assert (2 * p) * q == 2 * (p * q);
    QuotientAndRest(a, 2 * p, q, 2 * r + a % 2);
  }

  lemma {:induction false} ShrIsDivision(a: nat, n: nat)
    ensures Shr(a, n) == a / Pow2(n)
  {
    if n > 0 {
      ShrIsDivision(a / 2, n - 1);
      DivideTwice(a, Pow2(n - 1));
    }
  }

  lemma ShrTwice(a: nat, m: nat, n: nat)
    ensures Shr(Shr(a, m), n) == Shr(a, m + n)
  {
    if m > 0 {
      ShrTwice(a / 2, m - 1, n);
    }
  }

  /** A mask of `n` ones takes the remainder. */
  lemma {:induction false} MaskIsRemainder(a: nat, n: nat)
    ensures And(a, Pow2(n) - 1) == a % Pow2(n)
  {
    if n == 0 {
    } else if a == 0 {
    } else {
      var m := Pow2(n) - 1;
      assert m / 2 == Pow2(n - 1) - 1 && m % 2 == 1;
      MaskIsRemainder(a / 2, n - 1);
      DivideTwice(a, Pow2(n - 1));
    }
  }

  /** Where two numbers have no bit in common, the one below the other, joining them adds them. */
  lemma {:induction false} JoinIsSum(low: nat, high: nat, n: nat)
    requires low < Pow2(n)
    ensures Or(low, Shl(high, n)) == low + Shl(high, n)
  {
    if n > 0 && low != 0 && Shl(high, n) != 0 {
      assert Shl(high, n) == 2 * Shl(high, n - 1) by {
        assert high * (2 * Pow2(n - 1)) == 2 * (high * Pow2(n - 1));
      }
      JoinIsSum(low / 2, high, n - 1);
    }
  }

  /** The low `n` bits of a number. */
  function Low(a: nat, n: nat): nat { And(a, Pow2(n) - 1) }

  /** A number is its low bits and the rest, shifted. */
  lemma LowAndRest(a: nat, n: nat)
    ensures Low(a, n) < Pow2(n) && a == Low(a, n) + Pow2(n) * Shr(a, n)
  {
    MaskIsRemainder(a, n);
    ShrIsDivision(a, n);
    DivNonNegative(a, Pow2(n));
  }

  /** And in no other way. */
  lemma LowAndRestAre(a: nat, n: nat, low: nat, rest: nat)
    requires low < Pow2(n) && a == low + Pow2(n) * rest
    ensures Low(a, n) == low && Shr(a, n) == rest
  {
    LowAndRest(a, n);
    UniqueQuotient(Pow2(n), rest, low, Shr(a, n), Low(a, n));
  }

  lemma {:induction false} PowSum(a: nat, b: nat)
    ensures Pow2(a + b) == Pow2(a) * Pow2(b)
  {
    if a > 0 {
      PowSum(a - 1, b);
      assert 2 * (Pow2(a - 1) * Pow2(b)) == (2 * Pow2(a - 1)) * Pow2(b);
    }
  }

  /** The exponent of the largest power of two within `n`. */
  function Log2(n: nat): nat {
    if n < 2 then 0 else 1 + Log2(n / 2)
  }

  lemma {:induction false} LogOfPower(k: nat)
    ensures Log2(Pow2(k)) == k
  {
    if k > 0 {
      LogOfPower(k - 1);
    }
  }

  lemma {:induction false} LogBounds(val: nat)
    requires 0 < val
    ensures Pow2(Log2(val)) <= val < 2 * Pow2(Log2(val))
  {
    if val >= 2 {
      LogBounds(val / 2);
    }
  }

  /** Shifting right until nothing is left. */
  method CalcLog2(val: nat) returns (n: nat)
    ensures n == Log2(val)
    ensures 0 < val ==> Pow2(n) <= val < 2 * Pow2(n)
  {
    n := 0;
    var v := val;
    while v / 2 != 0
      invariant Log2(val) == n + Log2(v)
      decreases v
    {
      v := v / 2;
      n := n + 1;
    }
    if 0 < val {
      LogBounds(val);
    }
  }

  predicate IsPower(n: nat) { n == Pow2(Log2(n)) }

  lemma ProductOfPowers(a: nat, b: nat)
    requires IsPower(a) && IsPower(b)
    ensures IsPower(a * b) && Log2(a * b) == Log2(a) + Log2(b)
  {
    hide Pow2, Log2;
    PowSum(Log2(a), Log2(b));
    LogOfPower(Log2(a) + Log2(b));
  }
}
