/** The shell's bitwise operators on the 64-bit numbers of its arithmetic. */
module Bits {

  function Pow2(n: nat): (p: nat)
    ensures p > 0
  {
    if n == 0 then 1 else 2 * Pow2(n - 1)
  }

  /** & of two numbers that are not negative, bit by bit. */
  function And(x: nat, y: nat): nat {
    if x == 0 || y == 0 then 0 else 2 * And(x / 2, y / 2) + (x % 2) * (y % 2)
  }

  const WORD := 0x1_0000_0000_0000_0000

  /** ~ as an unsigned word, which is how & sees it. */
  function Not(x: nat): nat
    requires x < WORD
  {
    WORD - 1 - x
  }

  lemma HalfModulo(x: nat, n: nat)
    requires n > 0
    ensures x % Pow2(n) == 2 * ((x / 2) % Pow2(n - 1)) + x % 2
  {
    var p := Pow2(n - 1);
    var q, r := (x / 2) / p, (x / 2) % p;
    assert x / 2 == q * p + r;
    assert x == q * (2 * p) + (2 * r + x % 2);
    Remainder(x, 2 * p, q, 2 * r + x % 2);
  }

  lemma Multiple(e: int, d: nat)
    ensures e >= 1 ==> e * d >= d
    ensures e <= -1 ==> e * d <= 0 - d
  {
  }

  lemma Remainder(x: nat, d: nat, q: nat, r: nat)
    requires d > 0 && x == q * d + r && r < d
    ensures x % d == r && x / d == q
  {
    var e := x / d - q;
    assert e * d == r - x % d;
    Multiple(e, d);
  }

  lemma AndCommutes(x: nat, y: nat)
    ensures And(x, y) == And(y, x)
  {
  }

  /** A mask of n low ones keeps the remainder. */
  lemma {:induction false} AndLowOnes(x: nat, n: nat)
    ensures And(x, Pow2(n) - 1) == x % Pow2(n)
    decreases n
  {
    if n > 0 {
      HalfModulo(x, n);
      AndLowOnes(x / 2, n - 1);
      assert (Pow2(n) - 1) / 2 == Pow2(n - 1) - 1 && (Pow2(n) - 1) % 2 == 1;
      if x == 0 {
        assert 0 % Pow2(n) == 0;
      } else if n == 1 {
        assert And(x / 2, 0) == 0;
      }
    }
  }

  lemma AndDouble(m: nat, x: nat)
    ensures And(2 * m, x) == 2 * And(m, x / 2)
  {
    if m != 0 && x != 0 {
      assert (2 * m) / 2 == m && (2 * m) % 2 == 0;
      AndStep(2 * m, x);
      hide And;
    }
  }

  lemma AndStep(x: nat, y: nat)
    requires x != 0 && y != 0
    ensures And(x, y) == 2 * And(x / 2, y / 2) + (x % 2) * (y % 2)
  {
  }

  lemma Pow2Grows(n: nat, width: nat)
    requires n <= width
    ensures Pow2(n) <= Pow2(width)
  {
  }

  lemma AndHighStep(x: nat, p: nat, q: nat, half: nat, r: nat)
    requires q <= p && half <= x / 2 && r == 2 * half + x % 2
    requires And(p - q, x / 2) == x / 2 - half
    ensures And(2 * p - 2 * q, x) == x - r
  {
    hide And;
    AndDouble(p - q, x);
    assert 2 * p - 2 * q == 2 * (p - q);
    assert x - r == 2 * (x / 2 - half);
  }

  /** A mask of ones above n zeros takes the remainder away. */
  lemma {:induction false} AndHighOnes(x: nat, width: nat, n: nat)
    requires n <= width && x < Pow2(width)
    ensures Pow2(n) <= Pow2(width) && And(Pow2(width) - Pow2(n), x) == x - x % Pow2(n)
    decreases n
  {
    Pow2Grows(n, width);
    if n == 0 {
      AndLowOnes(x, width);
      AndCommutes(x, Pow2(width) - 1);
      Remainder(x, Pow2(width), 0, x);
    } else {
      hide And;
      HalfModulo(x, n);
      AndHighOnes(x / 2, width - 1, n - 1);
      AndHighStep(x, Pow2(width - 1), Pow2(n - 1), (x / 2) % Pow2(n - 1), x % Pow2(n));
    }
  }
}
