/**
  Facts about `%` that the components share: a remainder is determined by any quotient that leaves one, close numbers
  with the same remainder are the same, the remainder of a remainder, and reducing the terms of a sum first. Div and
  Mod are division and remainder with the bounds a proof usually needs, and Pow2 the powers of two with their laws:
  a power of a sum is the product of the powers, and greater exponents give greater powers.
*/
module Modular {

  lemma Multiple(d: int, size: nat)
    ensures d >= 1 ==> d * size >= size
    ensures d <= -1 ==> d * size <= 0 - size
  {
    if d >= 1 {
      assert (d - 1) * size >= 0;
    } else if d <= -1 {
      assert (-1 - d) * size >= 0;
    }
  }

  /** A remainder is determined by any quotient that leaves one. */
  lemma ModUnique(a: int, size: nat, q: int, r: nat)
    requires r < size && a == q * size + r
    ensures a % size == r && a / size == q
  {
    var d := q - a / size;
    assert d * size == a % size - r by {
      assert a == (a / size) * size + a % size;
      assert d * size == q * size - (a / size) * size;
    }
    Multiple(d, size);
  }

  lemma ModEqual(a: int, b: int, size: nat)
    requires size > 0 && a % size == b % size
    ensures (b - a) % size == 0
  {
    var d := b / size - a / size;
    assert b - a == d * size by {
      assert a == (a / size) * size + a % size && b == (b / size) * size + b % size;
      assert d * size == (b / size) * size - (a / size) * size;
    }
    ModUnique(b - a, size, d, 0);
  }

  /** Close numbers with the same remainder are the same. */
  lemma ModClose(a: int, b: int, size: nat)
    requires size > 0 && a % size == b % size && a <= b < a + size
    ensures a == b
  {
    ModEqual(a, b, size);
    ModUnique(b - a, size, 0, b - a);
  }

  /** The remainder of a remainder, for a divisor of the modulus. */
  lemma ModMod(c: int, big: nat, size: nat, q: nat)
    requires size > 0 && big == q * size && big > 0
    ensures (c % big) % size == c % size
  {
    var k, r := c / big, c % big;
    assert c == (k * q + r / size) * size + r % size by {
      assert c == k * big + r && r == (r / size) * size + r % size;
      assert k * big == (k * q) * size;
      assert (k * q + r / size) * size == (k * q) * size + (r / size) * size;
    }
    ModUnique(c, size, k * q + r / size, r % size);
  }

  /** Unsigned subtraction of wrapped counters gives their true distance while that is small. */
  lemma WrappedDistance(a: nat, b: nat, big: nat)
    requires big > 0 && b <= a < b + big
    ensures (a % big - b % big) % big == a - b
  {
    var d := a / big - b / big;
    assert a % big - b % big == (0 - d) * big + (a - b) by {
      assert a == (a / big) * big + a % big && b == (b / big) * big + b % big;
      assert (0 - d) * big == (b / big) * big - (a / big) * big;
    }
    ModUnique(a % big - b % big, big, 0 - d, a - b);
  }

  /** Reducing a term of a sum first does not change the remainder. */
  lemma AddMod(x: int, y: int, m: nat)
    requires m > 0
    ensures (x % m + y) % m == (x + y) % m == (x + y % m) % m
  {
    var q, r := (x + y) / m, (x + y) % m;
    assert x == (x / m) * m + x % m && y == (y / m) * m + y % m && x + y == q * m + r;
    assert (q - x / m) * m == q * m - (x / m) * m;
    ModUnique(x % m + y, m, q - x / m, r);
    assert (q - y / m) * m == q * m - (y / m) * m;
    ModUnique(x + y % m, m, q - y / m, r);
  }

  lemma MulGrows(q: nat, b: nat)
    requires b > 0
    ensures q <= q * b
    ensures b > 1 && q > 0 ==> q < q * b
  {
    assert q * b == q + q * (b - 1);
    if b > 1 && q > 0 {
      assert q * (b - 1) > 0;
    }
  }

  /** Division, with what a proof usually needs of it. */
  function Div(a: nat, b: nat): (q: nat)
    requires b > 0
    ensures q <= a && (b > 1 && a > 0 ==> q < a)
  {
    DivBounds(a, b);
    a / b
  }

  lemma DivBounds(a: nat, b: nat)
    requires b > 0
    ensures 0 <= a / b <= a && (b > 1 && a > 0 ==> a / b < a)
  {
    var q, r := a / b, a % b;
    assert a == q * b + r;
    if q < 0 {
      Multiple(q, b);
    } else {
      MulGrows(q, b);
    }
  }

  function Mod(a: nat, b: nat): (r: nat)
    requires b > 0
    ensures r < b
  {
    a % b
  }

  lemma DivMod(a: nat, b: nat)
    requires b > 0
    ensures a == Div(a, b) * b + Mod(a, b)
  {
  }

  lemma DivModUnique(a: nat, b: nat, q: nat, r: nat)
    requires r < b && a == q * b + r
    ensures Div(a, b) == q && Mod(a, b) == r
  {
    ModUnique(a, b, q, r);
  }

  function Pow2(p: nat): (r: nat)
    ensures r > 0
  {
    if p == 0 then 1 else 2 * Pow2(p - 1)
  }

  lemma {:induction false} Pow2Mono(p: nat, q: nat)
    requires p <= q
    ensures Pow2(p) <= Pow2(q)
  {
    if p < q {
      Pow2Mono(p, q - 1);
    }
  }

  lemma {:induction false} Pow2Add(p: nat, q: nat)
    ensures Pow2(p + q) == Pow2(p) * Pow2(q)
  {
    if q > 0 {
      Pow2Add(p, q - 1);
      assert Pow2(p + q) == 2 * Pow2(p + (q - 1));
      assert Pow2(p) * Pow2(q) == 2 * (Pow2(p) * Pow2(q - 1));
    }
  }
}
