/** Common divisors with a power of two, and the multiples that come closest to it. */
module Divisors {
  import opened Words

  lemma MulStep(n: nat, size: nat)
    ensures (n + 1) * size == n * size + size
  {
  }

  lemma MulMonotone(a: nat, b: nat, size: nat)
    requires a < b
    ensures a * size + size <= b * size
  {
    assert (b - a - 1) * size >= 0;
    assert b * size == a * size + size + (b - a - 1) * size;
  }

  lemma Distribute(a: int, b: int, c: int)
    ensures (a + b) * c == a * c + b * c
  {
  }

  function Pow2(k: nat): nat {
    if k == 0 then 1 else 2 * Pow2(k - 1)
  }

  /** The greatest common divisor of `x` and 2^bits. */
  function Gcd2(x: nat, bits: nat): (g: nat)
    ensures g > 0
  {
    if bits == 0 || x % 2 == 1 then 1 else 2 * Gcd2(x / 2, bits - 1)
  }

  lemma Doubled(a: nat, g: nat)
    ensures 2 * (a * g) == a * (2 * g)
  {
  }

  lemma {:induction false} Gcd2Divides(x: nat, bits: nat) returns (a: nat, b: nat)
    ensures x == a * Gcd2(x, bits) && Pow2(bits) == b * Gcd2(x, bits)
  {
    if bits == 0 || x % 2 == 1 {
      a, b := x, Pow2(bits);
    } else {
      a, b := Gcd2Divides(x / 2, bits - 1);
      Doubled(a, Gcd2(x / 2, bits - 1));
      Doubled(b, Gcd2(x / 2, bits - 1));
    }
  }

  lemma {:induction false} Gcd2AtMost(x: nat, bits: nat)
    ensures Gcd2(x, bits) <= Pow2(bits)
  {
    if bits == 0 {
    } else if x % 2 == 1 {
      Pow2Positive(bits);
    } else {
      Gcd2AtMost(x / 2, bits - 1);
    }
  }

  lemma {:induction false} Pow2Positive(k: nat)
    ensures Pow2(k) > 0
  {
    if k > 0 {
      Pow2Positive(k - 1);
    }
  }

  /** Some multiple of an odd number is one short of a multiple of 2^m. */
  lemma {:induction false} OddReach(s: nat, m: nat) returns (n: nat, q: nat)
    requires s % 2 == 1
    ensures n * s + 1 == q * Pow2(m)
  {
    if m == 0 {
      n, q := 0, 1;
    } else {
      var n0, q0 := OddReach(s, m - 1);
      var p := Pow2(m - 1);
      if q0 % 2 == 0 {
        n, q := n0, q0 / 2;
        Halve(q0, p);
      } else {
        n, q := n0 + p, (q0 + s) / 2;
        Distribute(n0, p, s);
        Distribute(q0, s, p);
        Halve(q0 + s, p);
      }
    }
  }

  lemma Halve(q: nat, p: nat)
    requires q % 2 == 0
    ensures q * p == (q / 2) * (2 * p)
  {
    var h := q / 2;
    assert q == 2 * h;
    assert (2 * h) * p == h * (2 * p);
  }

  /** Some multiple of any number is one common divisor short of a multiple of 2^bits. */
  lemma {:induction false} Gcd2Reach(x: nat, bits: nat) returns (n: nat, q: nat)
    ensures n * x + Gcd2(x, bits) == q * Pow2(bits)
  {
    if bits == 0 {
      n, q := 0, 1;
    } else if x % 2 == 1 {
      n, q := OddReach(x, bits);
    } else {
      n, q := Gcd2Reach(x / 2, bits - 1);
      Doubled(n, x / 2);
      Doubled(q, Pow2(bits - 1));
      assert x == 2 * (x / 2);
    }
  }

  lemma Regroup(a: nat, b: nat, c: nat)
    ensures (a * b) * c == a * (b * c)
  {
  }

  lemma {:induction false} Pow2Sum(a: nat, b: nat)
    ensures Pow2(a + b) == Pow2(a) * Pow2(b)
  {
    if a > 0 {
      Pow2Sum(a - 1, b);
      Regroup(2, Pow2(a - 1), Pow2(b));
    }
  }

  lemma Pow2Word()
    ensures Pow2(32) == WORD
  {
    assert Pow2(4) == 16;
    Pow2Sum(4, 4);
    Pow2Sum(8, 8);
    Pow2Sum(16, 16);
  }

  lemma ProductOrder(a: int, b: int, g: nat)
    requires a >= b
    ensures a * g >= b * g
  {
    Distribute(a - b, b, g);
    assert (a - b) * g >= 0;
  }

  /** The largest multiple of `g` below another one. */
  lemma MultipleBelow(c: int, b: nat, g: nat)
    requires c * g < b * g
    ensures c * g <= b * g - g
  {
    if c >= b {
      ProductOrder(c, b, g);
    } else {
      ProductOrder(b, c + 1, g);
      Distribute(c, 1, g);
    }
  }
}
