/**
  Emulated 128-bit arithmetic (td/utils/uint128.h) against the arithmetic of integers. A 64-bit word is a
  number below 2^64 and every operation on words is written out with its wrap-around.

  Each operation of the class is a function here, and a lemma says which number its result is: addition, subtraction,
  shifts and multiplication modulo 2^128. Division is the loop of the source, a method that is proved to give the
  exact quotient and remainder.
*/
module Uint128 {
  import opened Modular

  const W: nat := 0x1_0000_0000_0000_0000
  const HALF: nat := 0x1_0000_0000        // 2^32
  const M: nat := 0x1_0000_0000_0000_0000_0000_0000_0000_0000

  type Word = x: int | 0 <= x < W

  datatype Uint = Uint(hi: Word, lo: Word)

  function Value(a: Uint): (v: nat)
    ensures v < M
  {
    a.hi * W + a.lo
  }

  function Add(a: Uint, b: Uint): Uint {
    var res := Uint((b.hi + a.hi) % W, (b.lo + a.lo) % W);
    if res.lo < a.lo then res.(hi := (res.hi + 1) % W) else res
  }

  function Sub(a: Uint, b: Uint): Uint {
    var carry := if b.lo > a.lo then 1 else 0;
    Uint((a.hi - b.hi - carry) % W, (a.lo - b.lo) % W)
  }

  /** The remainder of a number that is less than one modulus away. */
  lemma Near(x: int)
    requires 0 - W <= x < 2 * W
    ensures x % W == if x < 0 then x + W else if x < W then x else x - W
  {
    ModUnique(x, W, if x < 0 then -1 else if x < W then 0 else 1, if x < 0 then x + W else if x < W then x else x - W);
  }

  lemma NearM(x: int)
    requires 0 - M <= x < 2 * M
    ensures x % M == if x < 0 then x + M else if x < M then x else x - M
  {
    ModUnique(x, M, if x < 0 then -1 else if x < M then 0 else 1, if x < 0 then x + M else if x < M then x else x - M);
  }

  lemma AddIs(a: Uint, b: Uint)
    ensures Value(Add(a, b)) == (Value(a) + Value(b)) % M
  {
    Near(b.lo + a.lo);
    Near(b.hi + a.hi);
    Near((b.hi + a.hi) % W + 1);
    NearM(Value(a) + Value(b));
  }

  lemma SubIs(a: Uint, b: Uint)
    ensures Value(Sub(a, b)) == (Value(a) - Value(b)) % M
  {
    Near(a.lo - b.lo);
    SubHigh(a.hi - b.hi - (if b.lo > a.lo then 1 else 0));
    NearM(Value(a) - Value(b));
  }

  lemma SubHigh(x: int)
    requires 0 - W <= x < W
    ensures x % W == if x < 0 then x + W else x
  {
    Near(x);
  }

  // ---------------------------------------------------------------------------------------
  // Bits of a word
  // ---------------------------------------------------------------------------------------

  /** x << k and x >> k of a word. */
  function ShlWord(x: Word, k: nat): Word { (x * Pow2(k)) % W }
  function ShrWord(x: Word, k: nat): Word { Div(x, Pow2(k)) }

  function BitOr(x: nat, y: nat): nat
    decreases x + y
  {
    if x == 0 then y
    else if y == 0 then x
    else (if x % 2 == 1 || y % 2 == 1 then 1 else 0) + 2 * BitOr(x / 2, y / 2)
  }

  lemma {:induction false} OrBound(x: nat, y: nat, k: nat)
    requires x < Pow2(k) && y < Pow2(k)
    ensures BitOr(x, y) < Pow2(k)
  {
    if x > 0 && y > 0 {
      OrBound(x / 2, y / 2, k - 1);
    }
  }

  /** The bitwise or of numbers without a common bit is their sum. */
  lemma {:induction false} OrIsSum(m: nat, y: nat, k: nat)
    requires y < Pow2(k)
    ensures BitOr(m * Pow2(k), y) == m * Pow2(k) + y == BitOr(y, m * Pow2(k))
  {
    if k > 0 {
      OrIsSum(m, y / 2, k - 1);
      var h: nat := m * Pow2(k - 1);
      assert m * Pow2(k) == 2 * h by { Double(m, Pow2(k - 1)); }
    }
  }

  lemma Double(m: nat, p: nat)
    ensures m * (2 * p) == 2 * (m * p)
  {
  }

  lemma Pow32()
    ensures Pow2(32) == HALF
  {
    assert Pow2(8) == 256;
    Pow2Add(8, 8);
    Pow2Add(16, 16);
  }

  lemma Pow64()
    ensures Pow2(64) == W && Pow2(63) == W / 2
  {
    Pow32();
    Pow2Add(32, 32);
    hide Pow2;
    Pow2Step(63);
  }

  lemma Pow128()
    ensures Pow2(128) == M && Pow2(127) == M / 2
  {
    Pow64();
    Pow2Add(64, 64);
    hide Pow2;
    Pow2Step(127);
  }

  lemma Pow2Step(k: nat)
    ensures Pow2(k + 1) == 2 * Pow2(k)
  {
  }

  function Or(x: Word, y: Word): Word {
    Pow64();
    OrBound(x, y, 64);
    BitOr(x, y)
  }

  // ---------------------------------------------------------------------------------------
  // Shifts
  // ---------------------------------------------------------------------------------------

  function Shl(a: Uint, cnt: nat): Uint {
    if cnt == 0 then a
    else if cnt < 64 then Uint(Or(ShlWord(a.hi, cnt), ShrWord(a.lo, 64 - cnt)), ShlWord(a.lo, cnt))
    else if cnt < 128 then Uint(ShlWord(a.lo, cnt - 64), 0)
    else Uint(0, 0)
  }

  function Shr(a: Uint, cnt: nat): Uint {
    if cnt == 0 then a
    else if cnt < 64 then Uint(ShrWord(a.hi, cnt), Or(ShrWord(a.lo, cnt), ShlWord(a.hi, 64 - cnt)))
    else if cnt < 128 then Uint(0, ShrWord(a.hi, cnt - 64))
    else Uint(0, 0)
  }

  /** A word cut at bit 64 - k: the part above leaves the word when it is shifted left by k. */
  lemma Cut(x: Word, k: nat, p: nat, q: nat)
    requires k <= 64 && p == Pow2(k) && q == Pow2(64 - k)
    ensures p * q == W && Div(x, q) < p
    ensures ShlWord(x, k) == Mod(x, q) * p && Mod(x, q) * p + p <= W
    ensures x * p == Div(x, q) * W + Mod(x, q) * p
  {
    Pow2Add(k, 64 - k);
    Pow64();
    hide Pow2;
    DivMod(x, q);
    hide Div, Mod;
    QuotientBelow(Div(x, q), q, p, x);
    Scale(Mod(x, q), q, p);
    Regroup(Div(x, q), q, Mod(x, q), p);
    ModUnique(x * p, W, Div(x, q), Mod(x, q) * p);
  }

  lemma QuotientBelow(u: nat, q: nat, p: nat, x: nat)
    requires u * q <= x < p * q
    ensures u < p
  {
    MulMono(p, u, q);
  }

  lemma MulMono(p: nat, u: nat, q: nat)
    ensures p <= u ==> p * q <= u * q
  {
    if p <= u {
      assert u * q == p * q + (u - p) * q;
    }
  }

  lemma Scale(l: nat, q: nat, p: nat)
    requires l < q
    ensures l * p + p <= p * q && 0 <= l * p
  {
    assert (q - 1 - l) * p >= 0;
    assert p * q == (q - 1 - l) * p + l * p + p;
  }

  lemma Regroup(u: nat, q: nat, l: nat, p: nat)
    requires p * q == W
    ensures (u * q + l) * p == u * W + l * p
  {
    assert (u * q) * p == u * (p * q);
  }

  /** What `|` joins in a shift: the low part of one word moved up and the high part of the other moved down. */
  lemma Join(x: Word, y: Word, k: nat, p: nat, q: nat)
    requires k <= 64 && p == Pow2(k) && q == Pow2(64 - k)
    ensures Or(ShlWord(x, k), ShrWord(y, 64 - k)) == Or(ShrWord(y, 64 - k), ShlWord(x, k)) == Mod(x, q) * p + Div(y, q)
  {
    Cut(x, k, p, q);
    Cut(y, k, p, q);
    OrIsSum(Mod(x, q), Div(y, q), k);
  }

  lemma ShlIs(a: Uint, cnt: nat)
    ensures Value(Shl(a, cnt)) == (Value(a) * Pow2(cnt)) % M
  {
    hide *;
    if cnt == 0 {
      ShlNone(a);
    } else if cnt < 64 {
      ShlSmall(a, cnt, Pow2(cnt), Pow2(64 - cnt));
    } else if cnt < 128 {
      ShlLarge(a, cnt - 64, Pow2(cnt - 64), Pow2(128 - cnt));
    } else {
      ShlOut(a, cnt);
    }
  }

  lemma ShlNone(a: Uint)
    ensures Value(Shl(a, 0)) == (Value(a) * Pow2(0)) % M
  {
    ModUnique(Value(a), M, 0, Value(a));
  }

  lemma ShlOut(a: Uint, cnt: nat)
    requires cnt >= 128
    ensures Value(Shl(a, cnt)) == (Value(a) * Pow2(cnt)) % M
  {
    Pow128();
    Pow2Add(128, cnt - 128);
    assert Value(Shl(a, cnt)) == 0;
    hide *;
    WholeTurns(Value(a), Pow2(cnt - 128));
  }

  lemma WholeTurns(v: nat, z: nat)
    ensures (v * (M * z)) % M == 0
  {
    assert v * (M * z) == (v * z) * M;
    ModUnique(v * (M * z), M, v * z, 0);
  }

  /** A value times p, from its words times p. */
  lemma WordsTimes(v: nat, hi: nat, lo: nat, p: nat, uh: nat, mh: nat, ul: nat, ml: nat)
    requires v == hi * W + lo && hi * p == uh * W + mh && lo * p == ul * W + ml
    ensures v * p == uh * M + (mh + ul) * W + ml
  {
    assert v * p == (hi * p) * W + lo * p;
  }

  lemma ShlSmall(a: Uint, k: nat, p: nat, q: nat)
    requires 0 < k < 64 && p == Pow2(k) && q == Pow2(64 - k)
    ensures Value(Shl(a, k)) == (Value(a) * p) % M
  {
    Join(a.hi, a.lo, k, p, q);
    Cut(a.hi, k, p, q);
    Cut(a.lo, k, p, q);
    assert Shl(a, k).lo == ShlWord(a.lo, k);
    assert Shl(a, k).hi == Or(ShlWord(a.hi, k), ShrWord(a.lo, 64 - k));
    hide Pow2, Or, ShlWord, ShrWord, Div, Mod, Shl;
    WordsTimes(Value(a), a.hi, a.lo, p, Div(a.hi, q), Mod(a.hi, q) * p, Div(a.lo, q), Mod(a.lo, q) * p);
    ModUnique(Value(a) * p, M, Div(a.hi, q), Value(Shl(a, k)));
  }

  lemma ShlLarge(a: Uint, k: nat, p: nat, q: nat)
    requires k < 64 && p == Pow2(k) && q == Pow2(64 - k)
    ensures Value(Shl(a, k + 64)) == (Value(a) * Pow2(k + 64)) % M
  {
    Cut(a.lo, k, p, q);
    Pow2Add(k, 64);
    Pow64();
    assert Shl(a, k + 64) == Uint(ShlWord(a.lo, k), 0);
    hide Pow2, Or, ShlWord, ShrWord, Div, Mod, Shl;
    HighTimes(Value(a), a.hi, a.lo, p, Div(a.lo, q), Mod(a.lo, q) * p);
    ModUnique(Value(a) * (p * W), M, a.hi * p + Div(a.lo, q), Value(Shl(a, k + 64)));
  }

  lemma HighTimes(v: nat, hi: nat, lo: nat, p: nat, ul: nat, ml: nat)
    requires v == hi * W + lo && lo * p == ul * W + ml
    ensures v * (p * W) == (hi * p + ul) * M + ml * W
  {
    assert v * p == (hi * p) * W + lo * p;
    assert v * (p * W) == (v * p) * W;
  }

  lemma ShrIs(a: Uint, cnt: nat)
    ensures Value(Shr(a, cnt)) == Value(a) / Pow2(cnt)
  {
    if cnt == 0 {
    } else if cnt < 64 {
      ShrSmall(a, cnt, Pow2(cnt), Pow2(64 - cnt));
    } else if cnt < 128 {
      ShrLarge(a, cnt - 64, Pow2(cnt - 64));
    } else {
      Pow128();
      Pow2Mono(128, cnt);
      hide Pow2;
      ModUnique(Value(a), Pow2(cnt), 0, Value(a));
    }
  }

  lemma ShrSmall(a: Uint, k: nat, p: nat, q: nat)
    requires 0 < k < 64 && p == Pow2(k) && q == Pow2(64 - k)
    ensures Value(Shr(a, k)) == Value(a) / p
  {
    Join(a.hi, a.lo, 64 - k, q, p);
    Cut(a.hi, k, p, q);
    DivMod(a.hi, p);
    DivMod(a.lo, p);
    var v := Value(Shr(a, k));
    hide Pow2, Or, ShlWord, ShrWord;
    assert v == Div(a.hi, p) * W + Mod(a.hi, p) * q + Div(a.lo, p);
    hide Div, Mod;
    Distribute(Div(a.hi, p), Mod(a.hi, p), Div(a.lo, p), p, q);
    ModUnique(Value(a), p, v, Mod(a.lo, p));
  }

  lemma Distribute(u: nat, m: nat, l: nat, p: nat, q: nat)
    requires p * q == W
    ensures (u * W + m * q + l) * p == (u * p + m) * W + l * p
  {
    assert (m * q) * p == m * (p * q);
    assert (u * W) * p == (u * p) * W;
  }

  lemma ShrLarge(a: Uint, k: nat, p: nat)
    requires k < 64 && p == Pow2(k)
    ensures Value(Shr(a, k + 64)) == Value(a) / Pow2(k + 64)
  {
    Pow2Add(k, 64);
    Pow64();
    DivMod(a.hi, p);
    var v := Value(Shr(a, k + 64));
    hide Pow2;
    assert v == Div(a.hi, p);
    hide Div, Mod, ShrWord;
    assert (v * p) * W == v * (p * W);
    ModUnique(Value(a), p * W, v, Mod(a.hi, p) * W + a.lo);
  }

  // ---------------------------------------------------------------------------------------
  // Multiplication
  // ---------------------------------------------------------------------------------------

  function WordAdd(x: Word, y: Word): Word { (x + y) % W }
  function WordMul(x: Word, y: Word): Word { (x * y) % W }

  function Mult(a: Uint, b: Uint): Uint {
    var aLo: Word := Mod(a.lo, HALF);
    var aHi := ShrWord(a.lo, 32);
    var bLo: Word := Mod(b.lo, HALF);
    var bHi := ShrWord(b.lo, 32);
    var res := Uint(WordAdd(WordAdd(WordMul(a.lo, b.hi), WordMul(a.hi, b.lo)), WordMul(aHi, bHi)), WordMul(aLo, bLo));
    var add1 := Uint(0, WordMul(aLo, bHi));
    var add2 := Uint(0, WordMul(aHi, bLo));
    Add(Add(res, Shl(add1, 32)), Shl(add2, 32))
  }

  lemma MultIs(a: Uint, b: Uint)
    ensures Value(Mult(a, b)) == (Value(a) * Value(b)) % M
  {
    Halves(a.lo);
    Halves(b.lo);
    MultFrom(a, b, Mod(a.lo, HALF), Div(a.lo, HALF), Mod(b.lo, HALF), Div(b.lo, HALF));
  }

  lemma MultFrom(a: Uint, b: Uint, a0: nat, a1: nat, b0: nat, b1: nat)
    requires a0 == Mod(a.lo, HALF) && a1 == Div(a.lo, HALF) < HALF && a.lo == a1 * HALF + a0
    requires b0 == Mod(b.lo, HALF) && b1 == Div(b.lo, HALF) < HALF && b.lo == b1 * HALF + b0
    ensures Value(Mult(a, b)) == (Value(a) * Value(b)) % M
  {
    assert Value(a) == a.hi * W + a.lo && Value(b) == b.hi * W + b.lo;
    hide *;
    HalfProduct(a0, b0);
    HalfProduct(a0, b1);
    HalfProduct(a1, b0);
    var x := a.lo * b.hi + a.hi * b.lo + a1 * b1;
    MultShape(a, b, a0, a1, b0, b1, x % W, a0 * b0, a0 * b1, a1 * b0);
    SumOfThree(x % W, a0 * b0, a0 * b1, a1 * b0);
    Product(Value(a), Value(b), a, b, a0, a1, b0, b1, x);
    FoldTop(x, a0 * b0 + (a0 * b1) * HALF + (a1 * b0) * HALF, a.hi * b.hi, Value(a) * Value(b));
  }

  lemma MultShape(a: Uint, b: Uint, a0: nat, a1: nat, b0: nat, b1: nat, top: Word, p: Word, q: Word, r: Word)
    requires a0 == Mod(a.lo, HALF) && a1 == Div(a.lo, HALF) && b0 == Mod(b.lo, HALF) && b1 == Div(b.lo, HALF)
    requires p == a0 * b0 && q == a0 * b1 && r == a1 * b0
    requires top == (a.lo * b.hi + a.hi * b.lo + a1 * b1) % W
    ensures Mult(a, b) == Add(Add(Uint(top, p), Shl(Uint(0, q), 32)), Shl(Uint(0, r), 32))
  {
    Pow32();
    assert ShrWord(a.lo, 32) == a1 && ShrWord(b.lo, 32) == b1;
    hide Add, Shl, Pow2, ShrWord, Value, Div, Mod;
    SmallProduct(a0, b0, p);
    SmallProduct(a0, b1, q);
    SmallProduct(a1, b0, r);
    TopWord(a, b, a1, b1);
    hide WordAdd, WordMul;
  }

  lemma TopWord(a: Uint, b: Uint, a1: Word, b1: Word)
    ensures WordAdd(WordAdd(WordMul(a.lo, b.hi), WordMul(a.hi, b.lo)), WordMul(a1, b1))
         == (a.lo * b.hi + a.hi * b.lo + a1 * b1) % W
  {
    WrapSum(a.lo * b.hi, a.hi * b.lo, a1 * b1);
  }

  /** Three terms added with wrap-around, two of them shifted by half a word. */
  lemma SumOfThree(hi: Word, lo: Word, x: Word, y: Word)
    ensures Value(Add(Add(Uint(hi, lo), Shl(Uint(0, x), 32)), Shl(Uint(0, y), 32)))
         == (hi * W + (lo + x * HALF + y * HALF)) % M
  {
    Pow32();
    hide Pow2, Shl, Add;
    ShlIs(Uint(0, x), 32);
    ShlIs(Uint(0, y), 32);
    AddIs(Uint(hi, lo), Shl(Uint(0, x), 32));
    AddIs(Add(Uint(hi, lo), Shl(Uint(0, x), 32)), Shl(Uint(0, y), 32));
    SumMod(hi * W + lo, x * HALF, y * HALF);
  }

  lemma Halves(x: Word)
    ensures x == Div(x, HALF) * HALF + Mod(x, HALF) && Div(x, HALF) < HALF
  {
    DivMod(x, HALF);
    hide Div, Mod;
    QuotientBelow(Div(x, HALF), HALF, HALF, x);
  }

  lemma HalfProduct(x: nat, y: nat)
    requires x < HALF && y < HALF
    ensures 0 <= x * y < W && WordMul(x, y) == x * y
  {
    MulMono(x, HALF - 1, y);
    MulMono(0, x, y);
    hide *;
    SmallProduct(x, y, x * y);
  }

  lemma SmallProduct(x: Word, y: Word, n: nat)
    requires n == x * y < W
    ensures WordMul(x, y) == n
  {
    ModUnique(n, W, 0, n);
  }

  /** Sums of words wrap like one sum. */
  lemma WrapSum(x: int, y: int, z: int)
    ensures ((x % W + y % W) % W + z % W) % W == (x + y + z) % W
  {
    AddMod(x, y % W, W);
    AddMod(x, y, W);
    AddMod(x + y, z % W, W);
    AddMod(x + y, z, W);
  }

  lemma SumMod(v: nat, x: nat, y: nat)
    ensures ((v + x % M) % M + y % M) % M == (v + x + y) % M
  {
    AddMod(v, x, M);
    AddMod(v + x, y % M, M);
    AddMod(v + x, y, M);
  }

  lemma Product(v: nat, u: nat, a: Uint, b: Uint, a0: nat, a1: nat, b0: nat, b1: nat, x: int)
    requires v == a.hi * W + a.lo && u == b.hi * W + b.lo && a.lo == a1 * HALF + a0 && b.lo == b1 * HALF + b0
    requires x == a.lo * b.hi + a.hi * b.lo + a1 * b1
    ensures v * u == (a.hi * b.hi) * M + x * W + (a0 * b1) * HALF + (a1 * b0) * HALF + a0 * b0
  {
    assert v * u == (a.hi * u) * W + a.lo * u;
    assert a.hi * u == (a.hi * b.hi) * W + a.hi * b.lo;
    assert a.lo * u == (a.lo * b.hi) * W + a.lo * b.lo;
    assert a.lo * b.lo == (a1 * b.lo) * HALF + a0 * b.lo;
    assert a1 * b.lo == (a1 * b1) * HALF + a1 * b0;
    assert a0 * b.lo == (a0 * b1) * HALF + a0 * b0;
  }

  lemma FoldTop(x: int, y: int, z: int, v: int)
    requires v == z * M + x * W + y
    ensures ((x % W) * W + y) % M == v % M
  {
    var q, r := v / M, v % M;
    assert x == (x / W) * W + x % W;
    assert v == q * M + r;
    ModUnique((x % W) * W + y, M, q - z - x / W, r);
  }

  // ---------------------------------------------------------------------------------------
  // Division
  // ---------------------------------------------------------------------------------------

  /** The number of bits up to the highest one that is set. */
  function BitLength(x: nat): nat { if x == 0 then 0 else 1 + BitLength(x / 2) }

  lemma {:induction false} BitLengthIs(x: nat)
    ensures x < Pow2(BitLength(x))
    ensures x > 0 ==> BitLength(x) > 0 && Pow2(BitLength(x) - 1) <= x
  {
    if x > 0 {
      BitLengthIs(x / 2);
    }
  }

  lemma {:induction false} BitLengthBelow(x: nat, k: nat)
    requires x < Pow2(k)
    ensures BitLength(x) <= k
  {
    if x > 0 {
      BitLengthBelow(x / 2, k - 1);
    }
  }

  function CountLeadingZeroes64(x: Word): (r: nat)
    ensures r <= 64
  {
    Pow64();
    BitLengthBelow(x, 64);
    64 - BitLength(x)
  }

  function CountLeadingZeroes(a: Uint): nat {
    if a.hi == 0 then 64 + CountLeadingZeroes64(a.lo) else CountLeadingZeroes64(a.hi)
  }

  /** The two-word count places the value between two powers of two. */
  lemma LeadingZeroes(a: Uint)
    ensures CountLeadingZeroes(a) <= 128 && Value(a) < Pow2(128 - CountLeadingZeroes(a))
    ensures Value(a) > 0 ==> CountLeadingZeroes(a) < 128 && Pow2(127 - CountLeadingZeroes(a)) <= Value(a)
  {
    Pow64();
    var x := if a.hi == 0 then a.lo else a.hi;
    BitLengthIs(x);
    BitLengthBelow(x, 64);
    if a.hi != 0 {
      var n := BitLength(a.hi);
      Pow2Add(n, 64);
      Pow2Add(n - 1, 64);
      hide Pow2, BitLength;
    }
  }

  predicate GreaterOrEqual(a: Uint, b: Uint) { a.hi > b.hi || (a.hi == b.hi && a.lo >= b.lo) }

  function SetLowerBit(a: Uint): Uint { Uint(a.hi, Or(a.lo, 1)) }

  lemma SetLowerBitIs(a: Uint, r: nat)
    requires Value(a) == 2 * r
    ensures Value(SetLowerBit(a)) == 2 * r + 1
  {
    var m: nat := r - a.hi * (W / 2);
    assert Pow2(1) == 2 && a.lo == m * 2;
    OrIsSum(m, 1, 1);
  }

  lemma Doubled(a: Uint, r: nat)
    requires Value(a) == r && 2 * r < M
    ensures Value(Shl(a, 1)) == 2 * r
  {
    ShlIs(a, 1);
    assert Pow2(1) == 2;
    ModUnique(2 * r, M, 0, 2 * r);
  }

  /** The divisor shifted by no more than its leading zeroes keeps all its bits. */
  lemma ShiftFits(b: Uint, i: nat)
    requires Value(b) > 0 && i <= CountLeadingZeroes(b)
    ensures Value(Shl(b, i)) == Value(b) * Pow2(i) < M && Value(b) * Pow2(i) > 0
  {
    LeadingZeroes(b);
    ShlIs(b, i);
    Pow128();
    var c := CountLeadingZeroes(b);
    Pow2Add(128 - c, c);
    Pow2Mono(i, c);
    hide *;
    Fits(Value(b), Pow2(128 - c), Pow2(i), Pow2(c));
    ModUnique(Value(b) * Pow2(i), M, 0, Value(b) * Pow2(i));
  }

  lemma Fits(v: nat, top: nat, s: nat, c: nat)
    requires 0 < v < top && 0 < s <= c && top * c == M
    ensures 0 < v * s < M
  {
    assert v * s < top * s by { assert (top - v) * s > 0; }
    assert top * s <= top * c by { assert top * (c - s) >= 0; }
    assert v * s > 0;
  }

  /** The dividend is below the divisor shifted one further than the loop starts with. */
  lemma StartsBelow(a: Uint, b: Uint)
    requires Value(b) > 0
    ensures CountLeadingZeroes(a) <= CountLeadingZeroes(b) ==>
      Value(a) < Value(b) * Pow2(CountLeadingZeroes(b) - CountLeadingZeroes(a) + 1)
    ensures CountLeadingZeroes(a) > CountLeadingZeroes(b) ==> Value(a) < Value(b)
  {
    LeadingZeroes(a);
    LeadingZeroes(b);
    var x, y := CountLeadingZeroes(a), CountLeadingZeroes(b);
    hide CountLeadingZeroes, Pow2, Value;
    if x <= y {
      Pow2Add(127 - y, y - x + 1);
      MulMono(Pow2(127 - y), Value(b), Pow2(y - x + 1));
    } else {
      Pow2Mono(128 - x, 127 - y);
    }
  }

  /** One binary digit of the quotient. */
  lemma DigitStep(v: nat, r: nat, d: nat, i: nat, f: nat)
    requires d > 0 && v == r * (d * Pow2(i + 1)) + f && f < d * Pow2(i + 1)
    ensures v == (2 * r) * (d * Pow2(i)) + f && f < 2 * (d * Pow2(i)) && 2 * r <= v
    ensures v == (2 * r + 1) * (d * Pow2(i)) + (f - d * Pow2(i))
  {
    var e := d * Pow2(i);
    assert d * Pow2(i + 1) == 2 * e;
    assert d * Pow2(i) > 0;
    hide Pow2;
    assert r * (2 * e) == (2 * r) * e && (2 * r + 1) * e == (2 * r) * e + e;
    assert (2 * r) * e == 2 * r + (2 * r) * (e - 1) && (2 * r) * (e - 1) >= 0;
  }

  lemma Comparing(a: Uint, b: Uint)
    ensures GreaterOrEqual(a, b) <==> Value(a) >= Value(b)
    ensures GreaterOrEqual(a, b) ==> Value(Sub(a, b)) == Value(a) - Value(b)
  {
    SubIs(a, b);
    if GreaterOrEqual(a, b) {
      NearM(Value(a) - Value(b));
    }
  }

  lemma ZeroAndOne()
    ensures Value(Uint(0, 0)) == 0 && Pow2(0) == 1
  {
  }

  /** Shift-and-subtract division: the exact quotient and remainder, for every divisor but zero. */
  method DivMod128(a: Uint, b: Uint) returns (q: Uint, m: Uint)
    requires Value(b) != 0
    ensures Value(a) == Value(q) * Value(b) + Value(m) && Value(m) < Value(b)
  {
    ZeroAndOne();
    hide *;
    var from := a;
    var ctz := CountLeadingZeroes(from);
    var otherCtz := CountLeadingZeroes(b);
    StartsBelow(a, b);
    if ctz > otherCtz {
      return Uint(0, 0), from;
    }
    var i: int := otherCtz - ctz;
    var res := Uint(0, 0);
    while i >= 0
      invariant -1 <= i <= otherCtz
      invariant Value(a) == Value(res) * (Value(b) * Pow2(i + 1)) + Value(from)
      invariant Value(from) < Value(b) * Pow2(i + 1)
    {
      ShiftFits(b, i);
      DigitStep(Value(a), Value(res), Value(b), i, Value(from));
      var sub := Shl(b, i);
      Doubled(res, Value(res));
      SetLowerBitIs(Shl(res, 1), Value(res));
      Comparing(from, sub);
      res := Shl(res, 1);
      if GreaterOrEqual(from, sub) {
        from := Sub(from, sub);
        res := SetLowerBit(res);
      }
      i := i - 1;
    }
    q, m := res, from;
  }

  // ---------------------------------------------------------------------------------------
  // Signed division
  // ---------------------------------------------------------------------------------------

  type Int64 = x: int | 0 - W / 2 <= x < W / 2

  /** The conversion of a word to a signed 64-bit integer, and the negation of one, both with wrap-around. */
  function ToSigned(x: Word): Int64 { if x < W / 2 then x else x - W }
  function Negated(x: Int64): Int64 { if x == 0 - W / 2 then x else 0 - x }

  function FromSigned(x: Int64): Uint { if x >= 0 then Uint(0, x) else Uint(W - 1, x + W) }

  predicate IsNegative(a: Uint) { ShrWord(a.hi, 63) == 1 }

  function Negate(a: Uint): Uint {
    var res := Uint(W - 1 - a.hi, (W - 1 - a.lo + 1) % W);
    if res.lo == 0 then Uint((res.hi + 1) % W, 0) else res
  }

  /** The signed reading of 128 bits. */
  function SignedValue(a: Uint): int { if Value(a) < M / 2 then Value(a) else Value(a) - M }

  lemma NegateIs(a: Uint)
    ensures Value(Negate(a)) == (0 - Value(a)) % M
  {
    Near(W - a.lo);
    Near(W - a.hi);
    NearM(0 - Value(a));
  }

  lemma IsNegativeExactly(a: Uint)
    ensures IsNegative(a) <==> SignedValue(a) < 0
  {
    Pow64();
    DivMod(a.hi, W / 2);
  }

  function Abs(x: int): nat { if x < 0 then 0 - x else x }

  function Magnitude(a: Uint): Uint { if IsNegative(a) then Negate(a) else a }

  lemma MagnitudeIs(a: Uint)
    ensures Value(Magnitude(a)) == Abs(SignedValue(a))
  {
    IsNegativeExactly(a);
    NegateIs(a);
    NearM(0 - Value(a));
  }

  lemma FromSignedIs(x: Int64)
    ensures SignedValue(FromSigned(x)) == x
  {
  }

  /** q and r divide x by y with the quotient cut toward zero: the remainder takes the sign of x. */
  predicate Truncates(x: int, y: int, q: int, r: int) {
    x == q * y + r && Abs(r) < Abs(y) && (r < 0 ==> x < 0) && (r > 0 ==> x > 0)
  }

  /** The quotient and remainder of truncating division are determined by the operands. */
  lemma TruncatesOnce(x: int, y: int, q: int, r: int, q': int, r': int)
    requires Truncates(x, y, q, r) && Truncates(x, y, q', r')
    ensures q == q' && r == r'
  {
    assert x == q * y + r == q' * y + r';
    assert Abs(r) < Abs(y) && (r < 0 ==> x < 0) && (r > 0 ==> x > 0);
    assert Abs(r') < Abs(y) && (r' < 0 ==> x < 0) && (r' > 0 ==> x > 0);
    Difference(q, q', y);
    hide *;
    Multiple(q - q', Abs(y));
    Multiple(q' - q, Abs(y));
    SizeOf(y);
    SizeOf(r);
    SizeOf(r');
    Difference(q', q, y);
    Opposite(q - q', y);
  }

  lemma Difference(q: int, q': int, y: int)
    ensures (q - q') * y == q * y - q' * y
  {
  }

  lemma Opposite(d: int, y: int)
    ensures (0 - d) * y == d * (0 - y) == 0 - d * y
  {
  }

  lemma SizeOf(x: int)
    ensures Abs(x) == if x < 0 then 0 - x else x
  {
  }

  function Signed(negative: bool, x: int): int { if negative then 0 - x else x }

  lemma SignsTruncate(x: int, y: int, q: nat, r: nat)
    requires Abs(x) == q * Abs(y) + r && r < Abs(y)
    ensures Truncates(x, y, Signed((x < 0) != (y < 0), q), Signed(x < 0, r))
  {
    assert (0 - q) * y == 0 - q * y == q * (0 - y);
  }

  /** A low word read as signed and negated is the quotient while that has less than 64 bits. */
  lemma LowWord(a: Uint, negative: bool)
    requires Value(a) < W / 2
    ensures (if negative then Negated(ToSigned(a.lo)) else ToSigned(a.lo)) == Signed(negative, Value(a))
  {
  }

  method DivModSigned(a: Uint, y: Int64) returns (quot: Int64, rem: Int64)
    requires y != 0
    ensures exists q: int :: Truncates(SignedValue(a), y, q, rem) && (Abs(q) < W / 2 ==> quot == q)
  {
    hide *;
    var x := a;
    var xSgn := IsNegative(x);
    var ySgn := y < 0;
    MagnitudeIs(x);
    IsNegativeExactly(x);
    if xSgn {
      x := Negate(x);
    }
    assert Value(x) == Abs(SignedValue(a)) by { Magnitudes(a); }
    var uy := FromSigned(y);
    MagnitudeIs(uy);
    Magnitudes(uy);
    FromSignedIs(y);
    if IsNegative(uy) {
      uy := Negate(uy);
    }
    AbsBound(y);
    var tQuot, tMod := DivMod128(x, uy);
    quot, rem := ToSigned(tQuot.lo), ToSigned(tMod.lo);
    LowWord(tMod, xSgn);
    SignsTruncate(SignedValue(a), y, Value(tQuot), Value(tMod));
    if xSgn != ySgn {
      quot := Negated(quot);
    }
    if xSgn {
      rem := Negated(rem);
    }
    SignedAbs(xSgn != ySgn, Value(tQuot));
    if Value(tQuot) < W / 2 {
      LowWord(tQuot, xSgn != ySgn);
    }
    assert Truncates(SignedValue(a), y, Signed(xSgn != ySgn, Value(tQuot)), rem);
  }

  lemma Magnitudes(a: Uint)
    ensures Magnitude(a) == if IsNegative(a) then Negate(a) else a
  {
  }

  lemma AbsBound(y: Int64)
    ensures Abs(y) <= W / 2 && (y != 0 ==> Abs(y) > 0)
  {
  }

  lemma SignedAbs(negative: bool, x: nat)
    ensures Abs(Signed(negative, x)) == x
  {
  }
}
