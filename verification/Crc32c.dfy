/**
  CRC-32C combination (td/utils/crypto.cpp): powers of the one-bit step as matrices over GF(2), computed
  by repeated squaring. A 32-bit word is the sequence of its bits, lowest first.
*/
module Crc32c {
  // The buffer of powers is filled and read by methods with the loops of the source. What they compute is the register
  // after some number of zero bits, so that the combination of two checksums is the checksum of the whole.

  import opened Modular

  type Word = s: seq<bool> | |s| == 32 witness seq(32, i => false)

  function Zero(): Word { seq(32, i => false) }

  function Xor(a: Word, b: Word): Word { seq(32, i requires 0 <= i < 32 => a[i] != b[i]) }

  /** The word with only bit n set: 1 << n. */
  function Unit(n: nat): Word { seq(32, i => i == n) }

  /** Bit i of a number. */
  function Bit(x: nat, i: nat): bool { if i == 0 then x % 2 == 1 else Bit(x / 2, i - 1) }

  function FromNat(x: nat): Word { seq(32, i requires 0 <= i < 32 => Bit(x, i)) }

  /** The Castagnoli polynomial, reflected. */
  function Poly(): Word { FromNat(0x82F63B78) }

  lemma XorLaws(a: Word, b: Word, c: Word)
    ensures Xor(a, b) == Xor(b, a) && Xor(Xor(a, b), c) == Xor(a, Xor(b, c)) && Xor(a, Zero()) == a
      && Xor(a, a) == Zero()
  {
    assert Xor(a, b) == Xor(b, a);
    assert Xor(Xor(a, b), c) == Xor(a, Xor(b, c));
    assert Xor(a, Zero()) == a;
    assert Xor(a, a) == Zero();
  }

  lemma Exchange(a: Word, b: Word, c: Word, d: Word)
    ensures Xor(Xor(a, b), Xor(c, d)) == Xor(Xor(a, c), Xor(b, d))
  {
    assert Xor(Xor(a, b), Xor(c, d)) == Xor(Xor(a, c), Xor(b, d));
  }

  // ---------------------------------------------------------------------------------------
  // The checksum itself, bit by bit
  // ---------------------------------------------------------------------------------------

  /** The register moves on by one bit of zero: shift right, and xor the polynomial if a one falls out. */
  function Step(v: Word): Word {
    var shifted := seq(32, i requires 0 <= i < 32 => i < 31 && v[i + 1]);
    if v[0] then Xor(shifted, Poly()) else shifted
  }

  function Steps(v: Word, n: nat): Word
    decreases n
  {
    if n == 0 then v else Steps(Step(v), n - 1)
  }

  type byte = x: int | 0 <= x < 256

  /** The register takes in the bytes of a message. */
  function Feed(v: Word, data: seq<byte>): Word
    decreases |data|
  {
    if data == [] then v else Feed(Steps(Xor(v, FromNat(data[0])), 8), data[1..])
  }

  function Ones(): Word { seq(32, i => true) }

  /** CRC-32C: the register starts with all ones and is complemented at the end. */
  function Crc(data: seq<byte>): Word { Xor(Feed(Ones(), data), Ones()) }

  lemma StepXor(a: Word, b: Word)
    ensures Step(Xor(a, b)) == Xor(Step(a), Step(b))
  {
    assert forall i :: 0 <= i < 32 ==> Step(Xor(a, b))[i] == Xor(Step(a), Step(b))[i];
  }

  lemma {:induction false} StepsXor(a: Word, b: Word, n: nat)
    ensures Steps(Xor(a, b), n) == Xor(Steps(a, n), Steps(b, n))
    decreases n
  {
    if n > 0 {
      StepXor(a, b);
      StepsXor(Step(a), Step(b), n - 1);
    }
  }

  lemma {:induction false} StepsAdd(v: Word, m: nat, n: nat)
    ensures Steps(v, m + n) == Steps(Steps(v, m), n)
    decreases m
  {
    if m > 0 {
      StepsAdd(Step(v), m - 1, n);
    }
  }

  /** The register is linear in where it starts. */
  lemma {:induction false} FeedXor(a: Word, b: Word, data: seq<byte>)
    ensures Feed(Xor(a, b), data) == Xor(Feed(a, data), Steps(b, 8 * |data|))
    decreases |data|
  {
    hide Steps, Xor, FromNat;
    if data == [] {
      StepsNone(b);
    } else {
      var x := FromNat(data[0]);
      assert Xor(Xor(a, b), x) == Xor(Xor(a, x), b) by {
        XorLaws(a, b, x);
        XorLaws(b, x, a);
        XorLaws(a, x, b);
      }
      StepsXor(Xor(a, x), b, 8);
      FeedXor(Steps(Xor(a, x), 8), Steps(b, 8), data[1..]);
      StepsAdd(b, 8, 8 * |data[1..]|);
    }
  }

  lemma StepsNone(v: Word)
    ensures Steps(v, 0) == v
  {
  }

  lemma {:induction false} FeedAppend(v: Word, a: seq<byte>, b: seq<byte>)
    ensures Feed(v, a + b) == Feed(Feed(v, a), b)
    decreases |a|
  {
    hide Steps, Xor, FromNat;
    if a == [] {
      assert a + b == b;
    } else {
      FeedAppend(Steps(Xor(v, FromNat(a[0])), 8), a[1..], b);
      assert (a + b)[1..] == a[1..] + b;
    }
  }

  // ---------------------------------------------------------------------------------------
  // Matrices
  // ---------------------------------------------------------------------------------------

  type Matrix = m: seq<Word> | |m| == 32 witness seq(32, i => Zero())

  function Pick(m: Matrix, v: Word, i: nat): Word
    requires i < 32
  {
    if v[i] then m[i] else Zero()
  }

  /** The rows of m that v selects from row i on. */
  function Sum(m: Matrix, v: Word, i: nat): Word
    requires i <= 32
    decreases 32 - i
  {
    if i == 32 then Zero() else Xor(Pick(m, v, i), Sum(m, v, i + 1))
  }

  function Times(m: Matrix, v: Word): Word { Sum(m, v, 0) }

  lemma {:induction false} SumXor(m: Matrix, a: Word, b: Word, i: nat)
    requires i <= 32
    ensures Sum(m, Xor(a, b), i) == Xor(Sum(m, a, i), Sum(m, b, i))
    decreases 32 - i
  {
    if i == 32 {
      XorLaws(Zero(), Zero(), Zero());
    } else {
      SumXor(m, a, b, i + 1);
      PickXor(m, a, b, i);
      Exchange(Pick(m, a, i), Pick(m, b, i), Sum(m, a, i + 1), Sum(m, b, i + 1));
    }
  }

  lemma PickXor(m: Matrix, a: Word, b: Word, i: nat)
    requires i < 32
    ensures Pick(m, Xor(a, b), i) == Xor(Pick(m, a, i), Pick(m, b, i))
  {
    XorLaws(m[i], Zero(), Zero());
    XorLaws(Zero(), m[i], Zero());
    XorLaws(Zero(), Zero(), Zero());
  }

  function Square(m: Matrix): Matrix { seq(32, i requires 0 <= i < 32 => Times(m, m[i])) }

  lemma {:induction false} TimesZero(m: Matrix, i: nat)
    requires i <= 32
    ensures Sum(m, Zero(), i) == Zero()
    decreases 32 - i
  {
    if i < 32 {
      TimesZero(m, i + 1);
      XorLaws(Zero(), Zero(), Zero());
    }
  }

  /** The square of a matrix acts as the matrix does twice. */
  lemma {:induction false} SquareSum(m: Matrix, v: Word, i: nat)
    requires i <= 32
    ensures Sum(Square(m), v, i) == Times(m, Sum(m, v, i))
    decreases 32 - i
  {
    if i == 32 {
      TimesZero(m, 0);
    } else {
      SquareSum(m, v, i + 1);
      SumXor(m, Pick(m, v, i), Sum(m, v, i + 1), 0);
      TimesZero(m, 0);
    }
  }

  /** The matrix of one step, as the code fills it in. */
  function StepMatrix(): Matrix { seq(32, i requires 0 <= i < 32 => if i == 0 then Poly() else Unit(i - 1)) }

  lemma {:induction false} ShiftSum(v: Word, i: nat)
    requires 1 <= i <= 32
    ensures Sum(StepMatrix(), v, i) == seq(32, j requires 0 <= j < 32 => j + 1 >= i && j < 31 && v[j + 1])
    decreases 32 - i
  {
    if i < 32 {
      ShiftSum(v, i + 1);
      assert StepMatrix()[i] == Unit(i - 1);
    }
  }

  lemma StepMatrixSteps(v: Word)
    ensures Times(StepMatrix(), v) == Step(v)
  {
    ShiftSum(v, 1);
    var shifted := seq(32, i requires 0 <= i < 32 => i < 31 && v[i + 1]);
    assert Sum(StepMatrix(), v, 1) == shifted;
    XorLaws(Poly(), shifted, Zero());
    XorLaws(shifted, Zero(), Zero());
    XorLaws(Zero(), shifted, Zero());
  }

  /** The matrix of 2^k steps. */
  function Power(k: nat): Matrix { if k == 0 then StepMatrix() else Square(Power(k - 1)) }

  lemma PowerUnfold(k: nat)
    requires k > 0
    ensures Power(k) == Square(Power(k - 1)) && Pow2(k) == Pow2(k - 1) + Pow2(k - 1)
  {
    hide Square, StepMatrix;
  }

  lemma {:induction false} PowerSteps(k: nat, v: Word)
    ensures Times(Power(k), v) == Steps(v, Pow2(k))
    decreases k
  {
    hide *;
    if k == 0 {
      FirstPowerSteps(v);
    } else {
      PowerUnfold(k);
      var m := Power(k - 1);
      SquareTimes(m, v);
      PowerSteps(k - 1, v);
      PowerSteps(k - 1, Times(m, v));
      StepsAdd(v, Pow2(k - 1), Pow2(k - 1));
    }
  }

  lemma FirstPowerSteps(v: Word)
    ensures Times(Power(0), v) == Steps(v, Pow2(0))
  {
    hide Times, StepMatrix, Step;
    StepMatrixSteps(v);
    OneStep(v);
  }

  lemma OneStep(v: Word)
    ensures Steps(v, 1) == Step(v)
  {
    assert Steps(Step(v), 0) == Step(v);
  }

  lemma SquareTimes(m: Matrix, v: Word)
    ensures Times(Square(m), v) == Times(m, Times(m, v))
  {
    SquareSum(m, v, 0);
  }

  // ---------------------------------------------------------------------------------------
  // The code
  // ---------------------------------------------------------------------------------------

  predicate IsZero(v: Word, i: nat)
    requires i <= 32
  {
    forall j :: i <= j < 32 ==> !v[j]
  }

  lemma {:induction false} SumOfNothing(m: Matrix, v: Word, i: nat)
    requires i <= 32 && IsZero(v, i)
    ensures Sum(m, v, i) == Zero()
    decreases 32 - i
  {
    if i < 32 {
      SumOfNothing(m, v, i + 1);
      XorLaws(Zero(), Zero(), Zero());
    }
  }

  /** The places of the buffer that the product with v reads in the matrix at `start`. */
  ghost function Rows(v: Word, start: nat, n: nat): set<nat>
    requires n <= 32
  {
    set i | 0 <= i < n && v[i] :: start + i
  }

  lemma RowsMore(v: Word, start: nat, n: nat)
    requires n < 32
    ensures Rows(v, start, n + 1) == Rows(v, start, n) + if v[n] then {start + n} else {}
  {
  }

  lemma RowsAll(v: Word, start: nat, n: nat)
    requires n <= 32 && IsZero(v, n)
    ensures Rows(v, start, 32) == Rows(v, start, n)
  {
  }

  /** gf32_matrix_times: the loop ends when no bit of the vector is left. */
  method MatrixTimes(buf: array<Word>, start: nat, vector: Word) returns (sum: Word, ghost touched: set<nat>)
    requires start + 32 <= buf.Length
    ensures sum == Times(buf[start..start + 32], vector) && touched == Rows(vector, start, 32)
  {
    hide Sum, Xor, Zero, Rows;
    ghost var m: Matrix := buf[start..start + 32];
    sum := Zero();
    touched := {};
    var i := 0;
    NothingYet(m, vector);
    NoRows(vector, start);
    while !IsZero(vector, i)
      invariant 0 <= i <= 32 && Xor(sum, Sum(m, vector, i)) == Times(m, vector)
      invariant touched == Rows(vector, start, i)
      decreases 32 - i
    {
      SumMore(m, vector, i, sum);
      RowsMore(vector, start, i);
      if vector[i] {
        sum := Xor(sum, buf[start + i]);
        touched := touched + {start + i};
      }
      i := i + 1;
    }
    SumOfNothing(m, vector, i);
    RowsAll(vector, start, i);
    XorLaws(sum, Zero(), Zero());
  }

  lemma NoRows(v: Word, start: nat)
    ensures Rows(v, start, 0) == {}
  {
  }

  lemma NothingYet(m: Matrix, v: Word)
    ensures Xor(Zero(), Sum(m, v, 0)) == Times(m, v)
  {
    XorLaws(Zero(), Times(m, v), Zero());
    XorLaws(Times(m, v), Zero(), Zero());
  }

  lemma SumMore(m: Matrix, v: Word, i: nat, sum: Word)
    requires i < 32
    ensures Xor(sum, Sum(m, v, i)) == Xor(if v[i] then Xor(sum, m[i]) else sum, Sum(m, v, i + 1))
  {
    XorLaws(sum, Pick(m, v, i), Sum(m, v, i + 1));
    XorLaws(sum, Zero(), Zero());
  }

  /** gf32_matrix_square, from one place of the buffer to another. */
  method MatrixSquare(buf: array<Word>, square: nat, matrix: nat)
    requires matrix + 32 <= square && square + 32 <= buf.Length
    modifies buf
    ensures buf[square..square + 32] == Square(old(buf[matrix..matrix + 32]))
    ensures forall x :: 0 <= x < buf.Length && !(square <= x < square + 32) ==> buf[x] == old(buf[x])
  {
    hide Times;
    ghost var m: Matrix := buf[matrix..matrix + 32];
    for n := 0 to 32
      invariant forall x :: 0 <= x < buf.Length && !(square <= x < square + n) ==> buf[x] == old(buf[x])
      invariant forall x :: square <= x < square + n ==> buf[x] == Times(m, m[x - square])
    {
      assert buf[matrix..matrix + 32] == m;
      ghost var touched;
      buf[square + n], touched := MatrixTimes(buf, matrix, buf[matrix + n]);
    }
  }

  /** The buffer holds the powers 0 to n - 1, 32 words each. */
  ghost predicate Powers(buf: seq<Word>, n: nat)
  {
    |buf| == 1024 && n <= 32 && forall k :: 0 <= k < n ==> PowerAt(buf, k)
  }

  ghost predicate PowerAt(buf: seq<Word>, k: nat)
    requires |buf| == 1024 && k < 32
  {
    buf[32 * k..32 * k + 32] == Power(k)
  }

  /** The buffer that the first call of crc32c_extend fills in. */
  method PowerBuffer() returns (buf: array<Word>)
    ensures fresh(buf) && buf.Length == 1024 && Powers(buf[..], 32)
  {
    hide Power, Square;
    buf := new Word[1024](i => Zero());
    buf[0] := Poly();
    for n := 0 to 31
      invariant buf[0] == Poly() && forall x :: 1 <= x <= n ==> buf[x] == Unit(x - 1)
    {
      buf[n + 1] := Unit(n);
    }
    FirstPower(buf[..]);
    for n := 1 to 32
      invariant Powers(buf[..], n)
    {
      ghost var was := buf[..];
      assert PowerAt(was, n - 1) && buf[32 * (n - 1)..32 * (n - 1) + 32] == was[32 * (n - 1)..32 * (n - 1) + 32];
      MatrixSquare(buf, 32 * n, 32 * (n - 1));
      assert buf[..][32 * n..32 * n + 32] == buf[32 * n..32 * n + 32];
      NextPower(was, buf[..], n);
    }
  }

  lemma FirstPower(buf: seq<Word>)
    requires |buf| == 1024 && buf[0] == Poly() && forall x :: 1 <= x <= 31 ==> buf[x] == Unit(x - 1)
    ensures Powers(buf, 1)
  {
    hide Poly, Unit;
    assert buf[0..32] == StepMatrix();
    assert PowerAt(buf, 0);
  }

  lemma NextPower(was: seq<Word>, buf: seq<Word>, n: nat)
    requires 1 <= n < 32 && Powers(was, n) && |buf| == 1024
    requires buf[32 * n..32 * n + 32] == Square(Power(n - 1))
    requires forall x :: 0 <= x < 1024 && !(32 * n <= x < 32 * n + 32) ==> buf[x] == was[x]
    ensures Powers(buf, n + 1)
  {
    hide Square;
    assert PowerAt(buf, n);
    forall k | 0 <= k < n ensures PowerAt(buf, k) {
      assert PowerAt(was, k);
      assert buf[32 * k..32 * k + 32] == was[32 * k..32 * k + 32];
    }
  }

  /** What combining means: the old register runs through as many zero bits as the data has. */
  function Combined(oldCrc: Word, dataCrc: Word, size: nat): Word {
    if size == 0 then oldCrc else Xor(Steps(oldCrc, 8 * size), dataCrc)
  }

  /** How often the loop halves the size until nothing is left. */
  function Rounds(size: nat): nat { if size == 0 then 0 else 1 + Rounds(size / 2) }

  /** A round with matrix k: the register is multiplied if the lowest bit of the size is set. */
  function Round(mem: seq<Word>, v: Word, size: nat, k: nat): Word
    requires 32 * (k + 1) <= |mem|
  {
    if size % 2 == 1 then Times(mem[32 * k..32 * k + 32], v) else v
  }

  /** The register after the rounds that follow the one with matrix k. */
  function After(mem: seq<Word>, v: Word, size: nat, k: nat): Word
    requires 32 * (k + Rounds(size) + 1) <= |mem|
    decreases size
  {
    if size == 0 then v else After(mem, Round(mem, v, size, k + 1), size / 2, k + 1)
  }

  ghost function RowsRead(v: Word, size: nat, k: nat): set<nat> {
    if size % 2 == 1 then Rows(v, 32 * k, 32) else {}
  }

  /** The words of the memory that these rounds read. */
  ghost function Touched(mem: seq<Word>, v: Word, size: nat, k: nat): set<nat>
    requires 32 * (k + Rounds(size) + 1) <= |mem|
    decreases size
  {
    if size == 0 then {}
    else
      RowsRead(v, size, k + 1) + Touched(mem, Round(mem, v, size, k + 1), size / 2, k + 1)
  }

  ghost predicate Behind(touched: set<nat>) { exists x :: x in touched && x >= 1024 }

  const SIZE_LIMIT: nat := 0x2000_0000

  /** The loop has come so far: what it still does is what was left to do. */
  ghost predicate Going(mem: seq<Word>, v: Word, n: nat, crc: Word, size: nat, k: nat, touched: set<nat>) {
    && k + Rounds(size) == 2 + Rounds(n) && 32 * (Rounds(n) + 3) <= |mem|
    && After(mem, crc, size, k) == After(mem, v, n, 2)
    && touched + Touched(mem, crc, size, k) == Touched(mem, v, n, 2)
  }

  lemma GoingFirst(mem: seq<Word>, v: Word, n: nat)
    requires 32 * (Rounds(n) + 3) <= |mem|
    ensures Going(mem, v, n, v, n, 2, {})
  {
    hide After, Touched, Rounds;
    assert {} + Touched(mem, v, n, 2) == Touched(mem, v, n, 2);
  }

  lemma GoingRoom(mem: seq<Word>, v: Word, n: nat, crc: Word, size: nat, k: nat, touched: set<nat>)
    requires size > 0 && Going(mem, v, n, crc, size, k, touched)
    ensures 32 * (k + 1) + 32 <= |mem|
  {
    hide After, Touched;
  }

  lemma GoingOn(mem: seq<Word>, v: Word, n: nat, crc: Word, size: nat, k: nat, touched: set<nat>)
    requires size > 0 && 32 * (k + 2) <= |mem| && Going(mem, v, n, crc, size, k, touched)
    ensures Going(mem, v, n, Round(mem, crc, size, k + 1), size / 2, k + 1,
                  touched + RowsRead(crc, size, k + 1))
  {
    hide Round, RowsRead;
    var rows := RowsRead(crc, size, k + 1);
    var rest := Touched(mem, Round(mem, crc, size, k + 1), size / 2, k + 1);
    assert Touched(mem, crc, size, k) == rows + rest;
    assert touched + (rows + rest) == (touched + rows) + rest;
  }

  lemma GoingLast(mem: seq<Word>, v: Word, n: nat, crc: Word, k: nat, touched: set<nat>)
    requires Going(mem, v, n, crc, 0, k, touched)
    ensures 32 * (Rounds(n) + 3) <= |mem| && crc == After(mem, v, n, 2) && touched == Touched(mem, v, n, 2)
  {
    assert touched + {} == touched;
  }

  /** The loop's body with p at matrix k. */
  method OneRound(mem: array<Word>, p: nat, crc: Word, size: nat, ghost k: nat)
    returns (crc': Word, ghost rows: set<nat>)
    requires p == 32 * k && p + 32 <= mem.Length
    ensures crc' == Round(mem[..], crc, size, k) && rows == RowsRead(crc, size, k)
  {
    hide Times, Rows;
    crc', rows := crc, {};
    if size % 2 == 1 {
      assert mem[p..p + 32] == mem[..][32 * k..32 * k + 32];
      crc', rows := MatrixTimes(mem, p, crc);
    }
  }

  /**
    crc32c_extend with three arguments, after the buffer has been set up. The buffer is the first 1024 words of the
    memory; what is behind it can be anything.
  */
  method Extend(mem: array<Word>, oldCrc: Word, dataCrc: Word, dataSize: nat)
    returns (r: Word, ghost touched: set<nat>)
    requires 32 * (Rounds(dataSize) + 3) <= mem.Length && 1024 <= mem.Length && Powers(mem[..1024], 32)
    ensures touched == Touched(mem[..], oldCrc, dataSize, 2)
    ensures Behind(touched) <==> dataSize >= SIZE_LIMIT && oldCrc != Zero()
    ensures dataSize > 0 ==> r == Xor(After(mem[..], oldCrc, dataSize, 2), dataCrc)
    ensures dataSize < SIZE_LIMIT || oldCrc == Zero() ==> r == Combined(oldCrc, dataCrc, dataSize)
  {
    ghost var m := mem[..];
    assert m[..1024] == mem[..1024];
    ReadsBehindExactly(m, oldCrc, dataSize);
    GoingFirst(m, oldCrc, dataSize);
    touched := {};
    if dataSize == 0 {
      GoingLast(m, oldCrc, 0, oldCrc, 2, {});
      return oldCrc, touched;
    }
    hide *;
    var p, crc, size := 64, oldCrc, dataSize;
    ghost var k: nat := 2;
    while true
      invariant p == 32 * k && size > 0 && Going(m, oldCrc, dataSize, crc, size, k, touched)
      decreases size
    {
      GoingRoom(m, oldCrc, dataSize, crc, size, k, touched);
      GoingOn(m, oldCrc, dataSize, crc, size, k, touched);
      p := p + 32;
      k := k + 1;
      ghost var rows;
      crc, rows := OneRound(mem, p, crc, size, k);
      touched := touched + rows;
      size := size / 2;
      if size == 0 {
        break;
      }
    }
    GoingLast(m, oldCrc, dataSize, crc, k, touched);
    r := Xor(crc, dataCrc);
  }

  // ---------------------------------------------------------------------------------------
  // What is read behind the buffer
  // ---------------------------------------------------------------------------------------

  lemma {:induction false} StepsZero(n: nat)
    ensures Steps(Zero(), n) == Zero()
    decreases n
  {
    assert Step(Zero()) == Zero();
    if n > 0 {
      StepsZero(n - 1);
    }
  }

  lemma BitByte(x: nat, i: nat)
    requires i >= 8
    ensures Bit(x, i) == Bit(x / 256, i - 8)
  {
    assert Bit(x, i) == Bit(x / 4, i - 2);
    assert Bit(x / 4, i - 2) == Bit(x / 16, i - 4);
    assert Bit(x / 16, i - 4) == Bit(x / 64, i - 6);
    assert Bit(x / 64, i - 6) == Bit(x / 256, i - 8);
  }

  /** The polynomial has its highest bit set, so that no bit is lost when a one falls out. */
  lemma HighestBit()
    ensures Poly()[31]
  {
    BitByte(0x82F63B78, 31);
    BitByte(0x82F63B, 23);
    BitByte(0x82F6, 15);
    assert Bit(0x82, 7) == Bit(0x41, 6);
    assert Bit(0x41, 6) == Bit(0x20, 5);
    assert Bit(0x20, 5) == Bit(0x10, 4);
    assert Bit(0x10, 4) == Bit(0x8, 3);
    assert Bit(0x8, 3) == Bit(0x4, 2);
    assert Bit(0x4, 2) == Bit(0x2, 1);
  }

  lemma StepNonZero(v: Word)
    requires v != Zero()
    ensures Step(v) != Zero()
  {
    HighestBit();
    var i :| 0 <= i < 32 && v[i];
    hide Poly;
    if v[0] {
      assert Step(v)[31];
    } else {
      assert Step(v)[i - 1];
    }
  }

  /** A register that is not zero never becomes zero. */
  lemma {:induction false} StepsNonZero(v: Word, n: nat)
    requires v != Zero()
    ensures Steps(v, n) != Zero()
    decreases n
  {
    if n > 0 {
      StepNonZero(v);
      StepsNonZero(Step(v), n - 1);
    }
  }

  lemma {:induction false} RoundsBelow(size: nat, k: nat)
    ensures Rounds(size) <= k <==> size < Pow2(k)
  {
    if size > 0 && k > 0 {
      RoundsBelow(size / 2, k - 1);
    }
  }

  lemma RowsBehind(v: Word, start: nat)
    requires start >= 1024
    ensures Behind(Rows(v, start, 32)) <==> v != Zero()
  {
    if v != Zero() {
      var i :| 0 <= i < 32 && v[i];
      assert start + i in Rows(v, start, 32);
    }
  }

  lemma RowsInside(v: Word, start: nat)
    requires start + 32 <= 1024
    ensures !Behind(Rows(v, start, 32))
  {
  }

  lemma BehindEither(a: set<nat>, b: set<nat>)
    ensures Behind(a + b) <==> Behind(a) || Behind(b)
  {
    if Behind(a) {
      var x :| x in a && x >= 1024;
      assert x in a + b;
    }
    if Behind(b) {
      var x :| x in b && x >= 1024;
      assert x in a + b;
    }
  }

  lemma MatrixAt(mem: seq<Word>, k: nat)
    requires k < 32 && 1024 <= |mem| && Powers(mem[..1024], 32)
    ensures 32 * k + 32 <= |mem| && mem[32 * k..32 * k + 32] == Power(k)
  {
    hide Power;
    assert PowerAt(mem[..1024], k);
    assert mem[..1024][32 * k..32 * k + 32] == mem[32 * k..32 * k + 32];
  }

  /** One round with a matrix of the buffer makes that many steps. */
  lemma RoundSteps(mem: seq<Word>, v: Word, size: nat, k: nat)
    requires 32 * (k + 1) <= |mem| && 1024 <= |mem| && Powers(mem[..1024], 32) && size % 2 == 1 && k < 32
    ensures Round(mem, v, size, k) == Steps(v, Pow2(k)) && (Steps(v, Pow2(k)) == Zero() <==> v == Zero())
  {
    hide Times, Steps, Power, Pow2, Powers, Zero;
    MatrixAt(mem, k);
    PowerSteps(k, v);
    StepsZero(Pow2(k));
    if v != Zero() {
      StepsNonZero(v, Pow2(k));
    }
  }

  lemma RoundSkips(mem: seq<Word>, v: Word, size: nat, k: nat)
    requires 32 * (k + 1) <= |mem| && size % 2 == 0
    ensures Round(mem, v, size, k) == v
  {
  }

  lemma RoundZero(mem: seq<Word>, size: nat, k: nat)
    requires 32 * (k + 1) <= |mem|
    ensures Round(mem, Zero(), size, k) == Zero() && Steps(Zero(), Pow2(k)) == Zero()
  {
    StepsZero(Pow2(k));
    TimesZero(mem[32 * k..32 * k + 32], 0);
    hide Sum, Zero, Steps;
  }

  /** The rounds behind matrix k: when they read behind the buffer, and what they compute if they do not. */
  lemma {:induction false} LoopReads(mem: seq<Word>, v: Word, size: nat, k: nat)
    requires 32 * (k + Rounds(size) + 1) <= |mem| && 1024 <= |mem| && Powers(mem[..1024], 32)
    ensures Behind(Touched(mem, v, size, k)) <==> size > 0 && v != Zero() && k + Rounds(size) >= 32
    ensures !Behind(Touched(mem, v, size, k)) ==> After(mem, v, size, k) == Steps(v, StepsLeft(size, k + 1))
    decreases size
  {
    hide Times, Steps, Power, Pow2, Powers, Zero, Rows, Behind, Round;
    if size == 0 {
      NoneBehind();
      StepsNone(v);
    } else {
      var x := Round(mem, v, size, k + 1);
      LoopReads(mem, x, size / 2, k + 1);
      HalfSize(size, k + 1);
      if size % 2 == 1 {
        BehindEither(Rows(v, 32 * (k + 1), 32), Touched(mem, x, size / 2, k + 1));
        if k + 1 < 32 {
          RowsInside(v, 32 * (k + 1));
        } else {
          RowsBehind(v, 32 * (k + 1));
        }
        if k + 1 < 32 || v == Zero() {
          if k + 1 < 32 {
            RoundSteps(mem, v, size, k + 1);
          } else {
            RoundZero(mem, size, k + 1);
          }
          StepsAdd(v, Pow2(k + 1), StepsLeft(size / 2, k + 2));
        }
      } else {
        RoundSkips(mem, v, size, k + 1);
        assert {} + Touched(mem, v, size / 2, k + 1) == Touched(mem, v, size / 2, k + 1);
      }
    }
  }

  lemma NoneBehind()
    ensures !Behind({})
  {
  }

  /** The words behind the buffer are read just if the size is 2^29 or more and the register is not zero. */
  lemma ReadsBehindExactly(mem: seq<Word>, v: Word, size: nat)
    requires 32 * (Rounds(size) + 3) <= |mem| && 1024 <= |mem| && Powers(mem[..1024], 32)
    ensures Behind(Touched(mem, v, size, 2)) <==> size >= SIZE_LIMIT && v != Zero()
    ensures !Behind(Touched(mem, v, size, 2)) ==> After(mem, v, size, 2) == Steps(v, 8 * size)
  {
    LoopReads(mem, v, size, 2);
    RoundsBelow(size, 29);
    BigPower();
    SmallPowers();
    hide After, Touched, Powers, Steps, Behind, Zero;
  }

  lemma {:induction false} OneBitRounds(e: nat)
    ensures Rounds(Pow2(e)) == e + 1 && Pow2(e) > 0
  {
    if e > 0 {
      OneBitRounds(e - 1);
    }
  }

  lemma OneBitHalf(e: nat)
    requires e > 0
    ensures Pow2(e) % 2 == 0 && Pow2(e) / 2 == Pow2(e - 1)
  {
  }

  /** A power of two has one round that reads, the last. */
  lemma {:induction false} OneBitReads(mem: seq<Word>, v: Word, e: nat, k: nat)
    requires 32 * (k + e + 2) <= |mem|
    ensures Rounds(Pow2(e)) == e + 1
    ensures Touched(mem, v, Pow2(e), k) == Rows(v, 32 * (k + e + 1), 32)
    ensures After(mem, v, Pow2(e), k) == Times(mem[32 * (k + e + 1)..32 * (k + e + 1) + 32], v)
    decreases e
  {
    hide Times, Rows, Pow2, Rounds;
    OneBitRounds(e);
    if e == 0 {
      OneRoundOnly(mem, v, k);
    } else {
      OneBitRounds(e - 1);
      OneBitHalf(e);
      OneBitReads(mem, v, e - 1, k + 1);
      FirstRoundSkipped(mem, v, Pow2(e), k);
    }
  }

  lemma OneRoundOnly(mem: seq<Word>, v: Word, k: nat)
    requires 32 * (k + 2) <= |mem|
    ensures Rounds(Pow2(0)) == 1
    ensures Touched(mem, v, Pow2(0), k) == Rows(v, 32 * (k + 1), 32)
    ensures After(mem, v, Pow2(0), k) == Times(mem[32 * (k + 1)..32 * (k + 1) + 32], v)
  {
    hide Times, Rows;
    assert Rows(v, 32 * (k + 1), 32) + {} == Rows(v, 32 * (k + 1), 32);
  }

  lemma FirstRoundSkipped(mem: seq<Word>, v: Word, size: nat, k: nat)
    requires size > 0 && size % 2 == 0 && 32 * (k + Rounds(size) + 1) <= |mem|
    ensures Rounds(size) == 1 + Rounds(size / 2)
    ensures Touched(mem, v, size, k) == Touched(mem, v, size / 2, k + 1)
    ensures After(mem, v, size, k) == After(mem, v, size / 2, k + 1)
  {
    hide Times, Rows;
    assert {} + Touched(mem, v, size / 2, k + 1) == Touched(mem, v, size / 2, k + 1);
  }

  lemma {:induction false} UnitSum(m: Matrix, i: nat)
    requires i <= 32
    ensures Sum(m, Unit(0), i) == if i == 0 then m[0] else Zero()
    decreases 32 - i
  {
    if i < 32 {
      UnitSum(m, i + 1);
      XorLaws(Zero(), Zero(), Zero());
      XorLaws(m[0], Zero(), Zero());
    }
  }

  lemma UnitRow(start: nat)
    ensures start in Rows(Unit(0), start, 32)
  {
    assert Unit(0)[0] && start + 0 == start;
  }

  /** Extending the register 1 by 2^29 bytes gives the word behind the buffer, whatever that is. */
  lemma ReadsBehind(mem: seq<Word>)
    requires |mem| >= 32 * 33
    ensures Rounds(SIZE_LIMIT) == 30
    ensures 1024 in Touched(mem, Unit(0), SIZE_LIMIT, 2) && After(mem, Unit(0), SIZE_LIMIT, 2) == mem[1024]
  {
    BigPower();
    hide After, Touched, Sum, Rounds, Pow2;
    OneBitReads(mem, Unit(0), 29, 2);
    UnitSum(mem[1024..1056], 0);
    assert mem[1024..1056][0] == mem[1024];
    UnitRow(1024);
  }

  lemma SmallPowers()
    ensures Pow2(3) == 8
  {
    assert Pow2(1) == 2 && Pow2(2) == 4;
  }

  lemma BigPower()
    ensures Pow2(29) == SIZE_LIMIT
  {
    assert Pow2(4) == 16;
    assert Pow2(8) == 256;
    assert Pow2(12) == 4096;
    assert Pow2(16) == 65536;
    assert Pow2(20) == 1048576;
    assert Pow2(24) == 16777216;
    assert Pow2(28) == 268435456;
  }

  /** The steps that are left to do before the round with matrix k. */
  function StepsLeft(size: nat, k: nat): nat { size * Pow2(k) }

  lemma HalfSize(size: nat, k: nat)
    requires size > 0
    ensures StepsLeft(size, k) == (if size % 2 == 1 then Pow2(k) else 0) + StepsLeft(size / 2, k + 1)
  {
    var h := size / 2;
    assert h * (2 * Pow2(k)) == (2 * h) * Pow2(k);
    if size % 2 == 1 {
      assert size * Pow2(k) == (2 * h) * Pow2(k) + Pow2(k);
    }
  }

  // ---------------------------------------------------------------------------------------
  // What combination is for
  // ---------------------------------------------------------------------------------------

  /** The checksum of a concatenation is the combination of the checksums. */
  lemma CombinesChecksums(a: seq<byte>, b: seq<byte>)
    ensures Crc(a + b) == Combined(Crc(a), Crc(b), |b|)
  {
    hide Steps, Xor, FromNat;
    var ra, rb := Feed(Ones(), a), Feed(Ones(), b);
    FeedAppend(Ones(), a, b);
    if b == [] {
      assert a + b == a;
    } else {
      assert ra == Xor(Ones(), Crc(a)) by {
        XorLaws(ra, Ones(), Ones());
        XorLaws(Ones(), Xor(ra, Ones()), Ones());
        XorLaws(ra, Zero(), Zero());
      }
      FeedXor(Ones(), Crc(a), b);
      var z := Steps(Crc(a), 8 * |b|);
      assert Xor(Xor(rb, z), Ones()) == Xor(z, Xor(rb, Ones())) by {
        XorLaws(rb, z, Ones());
        XorLaws(z, rb, Ones());
      }
    }
  }

  /** Combining in either order gives the same. */
  lemma CombinedAssociates(a: Word, b: Word, c: Word, m: nat, n: nat)
    requires m > 0 && n > 0
    ensures Combined(Combined(a, b, m), c, n) == Combined(a, Combined(b, c, n), m + n)
  {
    hide Steps, Xor;
    StepsXor(Steps(a, 8 * m), b, 8 * n);
    StepsAdd(a, 8 * m, 8 * n);
    XorLaws(Steps(a, 8 * (m + n)), Steps(b, 8 * n), c);
  }
}
