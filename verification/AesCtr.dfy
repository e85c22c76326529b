/**
  AES-CTR as td/utils/crypto.cpp computes it, with a cache of 32 encrypted counters, against the CTR mode
  of section 6.5 of NIST SP 800-38A. The block cipher is any function from counters to 16 bytes.

  The counter is incremented in two halves of 64 bits, and the text is xored in blocks and then from its end; the
  result is that of xoring with one stream of encrypted counters, however the text is cut into calls.
*/
module AesCtr {
  import opened Modular

  const WORD: nat := 0x1_0000_0000_0000_0000
  const ALL: nat := 0x1_0000_0000_0000_0000_0000_0000_0000_0000

  type Word = x: int | 0 <= x < WORD

  /** The two halves of a block, as numbers in host byte order. */
  datatype AesBlock = AesBlock(hi: Word, lo: Word)

  type Bytes16 = s: seq<bv8> | |s| == 16 witness seq(16, i => 0)

  type Cipher = AesBlock -> Bytes16

  function Value(b: AesBlock): nat { b.hi * WORD + b.lo }

  function FromValue(v: nat): AesBlock
    requires v < ALL
  {
    AesBlock(v / WORD, v % WORD)
  }

  lemma ValueFrom(v: nat)
    requires v < ALL
    ensures Value(FromValue(v)) == v
  {
  }

  /** AesBlock::inc: the halves wrap around at 2^64. */
  function Inc(b: AesBlock): AesBlock {
    var lo := (b.lo + 1) % WORD;
    AesBlock(if lo == 0 then (b.hi + 1) % WORD else b.hi, lo)
  }

  /** Incrementing adds one modulo 2^128. */
  lemma IncAddsOne(b: AesBlock)
    ensures Value(Inc(b)) == (Value(b) + 1) % ALL
  {
    if b.lo + 1 < WORD {
      assert Value(b) + 1 < ALL;
    } else if b.hi + 1 < WORD {
      assert Value(b) + 1 == (b.hi + 1) * WORD < ALL;
    } else {
      assert Value(b) + 1 == ALL;
    }
  }

  lemma ValueInjective(a: AesBlock, b: AesBlock)
    requires Value(a) == Value(b)
    ensures a == b
  {
  }

  /** The counter block number i after iv. */
  function CounterAt(iv: AesBlock, i: nat): AesBlock { FromValue((Value(iv) + i) % ALL) }

  lemma CounterZero(iv: AesBlock)
    ensures CounterAt(iv, 0) == iv
  {
    ValueFrom(Value(iv));
    ValueInjective(CounterAt(iv, 0), iv);
  }

  lemma CounterNext(iv: AesBlock, i: nat)
    ensures Inc(CounterAt(iv, i)) == CounterAt(iv, i + 1)
  {
    var v, w := (Value(iv) + i) % ALL, (Value(iv) + i + 1) % ALL;
    ValueFrom(v);
    ValueFrom(w);
    IncAddsOne(FromValue(v));
    hide Inc, Value, FromValue;
    AddMod(Value(iv) + i, 1, ALL);
    ValueInjective(Inc(FromValue(v)), FromValue(w));
  }

  /** Byte k of the keystream. */
  function Stream(enc: Cipher, iv: AesBlock, k: nat): bv8 { enc(CounterAt(iv, k / 16))[k % 16] }

  function Xor8(a: bv8, k: bv8): bv8 { a ^ k }

  /** CTR mode from keystream position pos on. */
  function Xored(enc: Cipher, iv: AesBlock, data: seq<bv8>, pos: nat): (r: seq<bv8>)
    ensures |r| == |data|
  {
    seq(|data|, i requires 0 <= i < |data| => Xor8(data[i], Stream(enc, iv, pos + i)))
  }

  /** How the input is split into calls does not matter. */
  lemma XoredSplit(enc: Cipher, iv: AesBlock, a: seq<bv8>, b: seq<bv8>, pos: nat)
    ensures Xored(enc, iv, a + b, pos) == Xored(enc, iv, a, pos) + Xored(enc, iv, b, pos + |a|)
  {
    forall i | 0 <= i < |a| + |b|
      ensures Xored(enc, iv, a + b, pos)[i] == (Xored(enc, iv, a, pos) + Xored(enc, iv, b, pos + |a|))[i]
    {
      if i >= |a| {
        assert pos + |a| + (i - |a|) == pos + i;
      }
    }
  }

  lemma XorTwice(a: bv8, k: bv8)
    ensures Xor8(Xor8(a, k), k) == a
  {
  }

  /** Decryption is encryption again, from the same position. */
  lemma XoredTwice(enc: Cipher, iv: AesBlock, data: seq<bv8>, pos: nat)
    ensures Xored(enc, iv, Xored(enc, iv, data, pos), pos) == data
  {
    forall i | 0 <= i < |data| ensures Xored(enc, iv, Xored(enc, iv, data, pos), pos)[i] == data[i] {
      XorTwice(data[i], Stream(enc, iv, pos + i));
    }
  }

  /** A stretch of c is the xor of stretches of a and b. */
  twostate predicate Xors(a: array<bv8>, ai: nat, b: array<bv8>, bi: nat, c: array<bv8>, ci: nat, lo: nat, hi: nat)
    requires lo <= hi && ai + hi <= a.Length && bi + hi <= b.Length && ci + hi <= c.Length
    reads b, c
  {
    && (forall x :: ci + lo <= x < ci + hi ==> c[x] == Xor8(old(a[x - ci + ai]), b[x - ci + bi]))
    && (forall x :: 0 <= x < ci + lo || ci + hi <= x < c.Length ==> c[x] == old(c[x]))
  }

  /** 16 bytes at once. */
  method XorBlock(a: array<bv8>, ai: nat, b: array<bv8>, bi: nat, c: array<bv8>, ci: nat, lo: nat)
    requires ai + lo + 16 <= a.Length && bi + lo + 16 <= b.Length && ci + lo + 16 <= c.Length
    requires b != c && (a == c ==> ai == ci)
    modifies c
    ensures Xors(a, ai, b, bi, c, ci, lo, lo + 16)
  {
    hide Xor8;
    forall x | ci + lo <= x < ci + lo + 16 {
      c[x] := Xor8(a[x - ci + ai], b[x - ci + bi]);
    }
  }

  /** The last bytes, from the back. */
  method XorTail(a: array<bv8>, ai: nat, b: array<bv8>, bi: nat, c: array<bv8>, ci: nat, lo: nat, n: nat)
    requires lo <= n && ai + n <= a.Length && bi + n <= b.Length && ci + n <= c.Length
    requires b != c && (a == c ==> ai == ci)
    modifies c
    ensures Xors(a, ai, b, bi, c, ci, lo, n)
  {
    hide Xor8;
    var left: nat := n;
    while left > lo
      invariant lo <= left <= n && Xors(a, ai, b, bi, c, ci, left, n)
      invariant forall x :: ai <= x < ai + left ==> a[x] == old(a[x])
    {
      left := left - 1;
      c[ci + left] := Xor8(a[ai + left], b[bi + left]);
    }
  }

  /** XorBytes::run: blocks of 16 first, then the other bytes from the back. */
  method XorBytes(a: array<bv8>, ai: nat, b: array<bv8>, bi: nat, c: array<bv8>, ci: nat, n: nat)
    requires ai + n <= a.Length && bi + n <= b.Length && ci + n <= c.Length
    requires b != c && (a == c ==> ai == ci)
    modifies c
    ensures Xors(a, ai, b, bi, c, ci, 0, n)
  {
    hide Xor8;
    var blockCount: nat, done: nat := n / 16, 0;
    while blockCount > 0
      invariant done + 16 * blockCount <= n && Xors(a, ai, b, bi, c, ci, 0, done)
      invariant forall x :: ai + done <= x < ai + n ==> a[x] == old(a[x])
    {
      XorBlock(a, ai, b, bi, c, ci, done);
      done, blockCount := done + 16, blockCount - 1;
    }
    XorTail(a, ai, b, bi, c, ci, done, n);
  }

  const BLOCK_COUNT: nat := 32
  const PACK: nat := 512

  class AesCtrState {
    const enc: Cipher
    ghost const iv: AesBlock
    var counter: AesBlock
    var pack: array<bv8>
    var current: nat
    ghost var pos: nat    // keystream bytes used so far
    ghost var fills: nat  // how many packs before this one

    /** The cache holds the keystream around `pos`, and the counter is the next one to encrypt. */
    ghost predicate Valid()
      reads this, pack
    {
      && pack.Length == PACK && current <= PACK && pos == PACK * fills + current
      && counter == CounterAt(iv, BLOCK_COUNT * (fills + 1)) && Cached(pack[..], fills)
    }

    ghost predicate Cached(bytes: seq<bv8>, fills: nat) {
      |bytes| == PACK && forall j :: 0 <= j < PACK ==> bytes[j] == Stream(enc, iv, PACK * fills + j)
    }

    constructor (enc: Cipher, iv: AesBlock)
      ensures Valid() && this.enc == enc && this.iv == iv && pos == 0 && fresh(pack)
    {
      this.enc, this.iv, counter, current, pos, fills := enc, iv, iv, 0, 0, 0;
      pack := new bv8[PACK](i => 0);
      new;
      CounterZero(iv);
      Fill(0);
    }

    /** Encrypts the next 32 counters. */
    method Fill(ghost number: nat)
      requires pack.Length == PACK && counter == CounterAt(iv, BLOCK_COUNT * number)
      modifies this`counter, this`current, pack
      ensures current == 0 && counter == CounterAt(iv, BLOCK_COUNT * (number + 1)) && Cached(pack[..], number)
    {
      hide CounterAt, Inc, Stream;
      var blocks := new AesBlock[BLOCK_COUNT](i => AesBlock(0, 0));
      blocks[0] := counter;
      for i := 1 to BLOCK_COUNT
        invariant forall k :: 0 <= k < i ==> blocks[k] == CounterAt(iv, BLOCK_COUNT * number + k)
      {
        CounterNext(iv, BLOCK_COUNT * number + i - 1);
        blocks[i] := Inc(blocks[i - 1]);
      }
      CounterNext(iv, BLOCK_COUNT * number + BLOCK_COUNT - 1);
      counter := Inc(blocks[BLOCK_COUNT - 1]);
      current := 0;
      for i := 0 to BLOCK_COUNT
        invariant current == 0 && counter == CounterAt(iv, BLOCK_COUNT * number + BLOCK_COUNT)
        invariant forall k :: 0 <= k < BLOCK_COUNT ==> blocks[k] == CounterAt(iv, BLOCK_COUNT * number + k)
        invariant forall j :: 0 <= j < 16 * i ==> pack[j] == Stream(enc, iv, PACK * number + j)
      {
        EncryptBlock(i, blocks[i], number);
      }
    }

    method EncryptBlock(i: nat, block: AesBlock, ghost number: nat)
      requires i < BLOCK_COUNT && pack.Length == PACK && block == CounterAt(iv, BLOCK_COUNT * number + i)
      modifies pack
      ensures forall j :: 0 <= j < 16 * i ==> pack[j] == old(pack[j])
      ensures forall j :: 16 * i <= j < 16 * i + 16 ==> pack[j] == Stream(enc, iv, PACK * number + j)
    {
      hide CounterAt;
      var out := enc(block);
      forall j | 16 * i <= j < 16 * i + 16 {
        pack[j] := out[j - 16 * i];
      }
      forall j | 16 * i <= j < 16 * i + 16 ensures pack[j] == Stream(enc, iv, PACK * number + j) {
        assert (PACK * number + j) / 16 == BLOCK_COUNT * number + i && (PACK * number + j) % 16 == j - 16 * i;
      }
    }

    /** One round of the loop: `m` bytes, which the cache covers. */
    method XorSome(from: array<bv8>, dest: array<bv8>, done: nat, m: nat)
      requires Valid() && done + m <= from.Length <= dest.Length && pack != from && pack != dest && m <= PACK - current
      modifies this`current, this`pos, dest
      ensures Valid() && pos == old(pos) + m
      ensures forall x :: done <= x < done + m ==> dest[x] == Xor8(old(from[x]), Stream(enc, iv, old(pos) + (x - done)))
      ensures forall x :: 0 <= x < done || done + m <= x < dest.Length ==> dest[x] == old(dest[x])
    {
      hide Stream, CounterAt, Xor8;
      XorBytes(from, done, pack, current, dest, done, m);
      forall x | done <= x < done + m ensures dest[x] == Xor8(old(from[x]), Stream(enc, iv, old(pos) + (x - done))) {
        assert pack[x - done + current] == pack[..][x - done + current];
        assert PACK * fills + (x - done + current) == old(pos) + (x - done);
      }
      current, pos := current + m, pos + m;
    }

    /** The cache is used up: the next 32 blocks replace it. */
    method Refill()
      requires Valid() && current == PACK
      modifies this`counter, this`current, this`fills, pack
      ensures Valid() && current == 0
    {
      hide Stream, CounterAt;
      Fill(fills + 1);
      fills := fills + 1;
    }

    /** Encrypts, or decrypts, in place or from one buffer to another, however much of the cache is left. */
    method Encrypt(from: array<bv8>, dest: array<bv8>)
      requires Valid() && from.Length <= dest.Length && pack != from && pack != dest
      modifies this`counter, this`current, this`pos, this`fills, pack, dest
      ensures Valid() && pos == old(pos) + from.Length
      ensures dest[..from.Length] == Xored(enc, iv, old(from[..]), old(pos))
      ensures dest[from.Length..] == old(dest[from.Length..])
    {
      hide Valid, Stream, Xor8;
      var done: nat, n: nat := 0, from.Length;
      Bounds();
      while n != 0
        invariant Valid() && pos == old(pos) + done && done + n == from.Length && current <= PACK
        invariant forall x :: 0 <= x < done ==> dest[x] == Xor8(old(from[x]), Stream(enc, iv, old(pos) + x))
        invariant forall x :: done <= x < from.Length ==> from[x] == old(from[x])
        invariant forall x :: from.Length <= x < dest.Length ==> dest[x] == old(dest[x])
      {
        if PACK - current == 0 {
          Refill();
        }
        var left := PACK - current;
        var m := if n < left then n else left;
        XorSome(from, dest, done, m);
        done, n := done + m, n - m;
        Bounds();
      }
    }

    lemma Bounds()
      requires Valid()
      ensures current <= PACK
    {
    }
  }
}
