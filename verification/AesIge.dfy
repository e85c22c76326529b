/**
  AES-IGE as td/utils/crypto.cpp computes it: encryption through CBC in batches of 31 blocks, and
  decryption block by block. The block cipher is any permutation `enc` of blocks with inverse `dec`.
*/
module AesIge {
  // The number of blocks comes from the output, as in the code. The input is given as the memory from its first block
  // on, and ReadsInsideExactly and InputDecides say when the code reads behind the input.


  datatype AesBlock = AesBlock(hi: bv64, lo: bv64)

  const ZERO: AesBlock := AesBlock(0, 0)

  function Xor64(a: bv64, b: bv64): bv64 { a ^ b }

  function Xor(a: AesBlock, b: AesBlock): AesBlock { AesBlock(Xor64(a.hi, b.hi), Xor64(a.lo, b.lo)) }

  lemma XorSwap(a: bv64, b: bv64)
    ensures Xor64(a, b) == Xor64(b, a)
  {
  }

  lemma XorRegroup(a: bv64, b: bv64, c: bv64)
    ensures Xor64(Xor64(a, b), c) == Xor64(a, Xor64(b, c))
  {
  }

  lemma XorCancel(a: bv64, b: bv64)
    ensures Xor64(a, 0) == a && Xor64(Xor64(a, b), b) == a && Xor64(b, Xor64(b, a)) == a
  {
  }

  lemma XorLaws(a: AesBlock, b: AesBlock, c: AesBlock)
    ensures Xor(a, b) == Xor(b, a) && Xor(Xor(a, b), c) == Xor(a, Xor(b, c))
    ensures Xor(a, ZERO) == a && Xor(Xor(a, b), b) == a && Xor(b, Xor(b, a)) == a
  {
    hide Xor64;
    XorSwap(a.hi, b.hi);
    XorSwap(a.lo, b.lo);
    XorRegroup(a.hi, b.hi, c.hi);
    XorRegroup(a.lo, b.lo, c.lo);
    XorCancel(a.hi, b.hi);
    XorCancel(a.lo, b.lo);
  }

  type Cipher = AesBlock -> AesBlock

  ghost predicate Inverse(enc: Cipher, dec: Cipher) { forall x: AesBlock :: dec(enc(x)) == x }

  /** IGE: c_i = E(p_i xor c_(i-1)) xor p_(i-1). */
  function Encrypted(enc: Cipher, plain: seq<AesBlock>, c: AesBlock, p: AesBlock): (r: seq<AesBlock>)
    ensures |r| == |plain|
  {
    if plain == [] then []
    else
      var first := Xor(enc(Xor(plain[0], c)), p);
      [first] + Encrypted(enc, plain[1..], first, plain[0])
  }

  /** IGE backwards: p_i = D(c_i xor p_(i-1)) xor c_(i-1). */
  function Decrypted(dec: Cipher, cipher: seq<AesBlock>, c: AesBlock, p: AesBlock): (r: seq<AesBlock>)
    ensures |r| == |cipher|
  {
    if cipher == [] then []
    else
      var first := Xor(dec(Xor(p, cipher[0])), c);
      [first] + Decrypted(dec, cipher[1..], cipher[0], first)
  }

  function Last(s: seq<AesBlock>, otherwise: AesBlock): AesBlock { if s == [] then otherwise else s[|s| - 1] }

  /** Decryption undoes encryption. */
  lemma {:induction false} DecryptEncrypt(enc: Cipher, dec: Cipher, plain: seq<AesBlock>, c: AesBlock, p: AesBlock)
    requires Inverse(enc, dec)
    ensures Decrypted(dec, Encrypted(enc, plain, c, p), c, p) == plain
  {
    if plain != [] {
      var x := Xor(plain[0], c);
      var first := Xor(enc(x), p);
      XorLaws(enc(x), p, p);
      XorLaws(plain[0], c, c);
      assert Xor(p, first) == enc(x) by { XorLaws(p, enc(x), p); XorLaws(enc(x), p, p); }
      assert dec(enc(x)) == x;
      DecryptEncrypt(enc, dec, plain[1..], first, plain[0]);
      assert Encrypted(enc, plain, c, p)[1..] == Encrypted(enc, plain[1..], first, plain[0]);
    }
  }

  /** The two directions are the same computation with the roles of the two chains exchanged. */
  lemma {:induction false} DecryptIsEncrypt(dec: Cipher, cipher: seq<AesBlock>, c: AesBlock, p: AesBlock)
    ensures Decrypted(dec, cipher, c, p) == Encrypted(dec, cipher, p, c)
  {
    if cipher != [] {
      var first := Xor(dec(Xor(p, cipher[0])), c);
      XorLaws(p, cipher[0], ZERO);
      DecryptIsEncrypt(dec, cipher[1..], cipher[0], first);
    }
  }

  /** Encryption undoes decryption, when the cipher is a permutation. */
  lemma EncryptDecrypt(enc: Cipher, dec: Cipher, cipher: seq<AesBlock>, c: AesBlock, p: AesBlock)
    requires Inverse(dec, enc)
    ensures Encrypted(enc, Decrypted(dec, cipher, c, p), c, p) == cipher
  {
    DecryptIsEncrypt(dec, cipher, c, p);
    DecryptEncrypt(dec, enc, cipher, p, c);
    DecryptIsEncrypt(enc, Encrypted(dec, cipher, p, c), p, c);
  }

  /** Splitting the input between batches or calls changes nothing, if the last blocks are carried over. */
  lemma {:induction false} EncryptedSplit(enc: Cipher, a: seq<AesBlock>, b: seq<AesBlock>, c: AesBlock, p: AesBlock)
    ensures var first := Encrypted(enc, a, c, p);
            Encrypted(enc, a + b, c, p) == first + Encrypted(enc, b, Last(first, c), Last(a, p))
  {
    hide Xor, Last;
    if a == [] {
      assert a + b == b;
      LastOf(a, p);
      LastOf(Encrypted(enc, a, c, p), c);
    } else {
      var x := Xor(enc(Xor(a[0], c)), p);
      var rest := Encrypted(enc, a[1..], x, a[0]);
      EncryptedSplit(enc, a[1..], b, x, a[0]);
      assert (a + b)[1..] == a[1..] + b;
      assert [x] + rest + Encrypted(enc, b, Last(rest, x), Last(a[1..], a[0]))
          == [x] + (rest + Encrypted(enc, b, Last(rest, x), Last(a[1..], a[0])));
      LastOf(a, p);
      LastOf([x] + rest, c);
      assert ([x] + rest)[1..] == rest;
    }
  }

  lemma LastOf(s: seq<AesBlock>, otherwise: AesBlock)
    ensures Last(s, otherwise) == if s == [] then otherwise else Last(s[1..], s[0])
  {
  }

  // CBC, which is all that the code asks of the cipher

  function Cbc(enc: Cipher, data: seq<AesBlock>, iv: AesBlock): (r: seq<AesBlock>)
    ensures |r| == |data|
  {
    if data == [] then []
    else
      var first := enc(Xor(data[0], iv));
      [first] + Cbc(enc, data[1..], first)
  }

  /** Each block xored with the one two places before it. */
  function Mix(data: seq<AesBlock>, before: AesBlock, last: AesBlock): (r: seq<AesBlock>)
    ensures |r| == |data|
  {
    if data == [] then [] else [Xor(before, data[0])] + Mix(data[1..], last, data[0])
  }

  /** Each block xored with the one before it. */
  function Unmix(out: seq<AesBlock>, data: seq<AesBlock>, last: AesBlock): (r: seq<AesBlock>)
    requires |out| == |data|
    ensures |r| == |data|
  {
    if data == [] then [] else [Xor(out[0], last)] + Unmix(out[1..], data[1..], data[0])
  }

  /** CBC between the two xors is IGE. */
  lemma {:induction false} BatchIsIge(enc: Cipher, data: seq<AesBlock>, before: AesBlock, last: AesBlock, iv: AesBlock)
    ensures Unmix(Cbc(enc, Mix(data, before, last), iv), data, last) == Encrypted(enc, data, Xor(iv, before), last)
  {
    if data != [] {
      var mixed := Mix(data, before, last);
      var o := enc(Xor(mixed[0], iv));
      assert Xor(Xor(before, data[0]), iv) == Xor(data[0], Xor(iv, before)) by {
        XorLaws(before, data[0], iv);
        XorLaws(data[0], before, iv);
        XorLaws(iv, before, data[0]);
      }
      assert mixed[1..] == Mix(data[1..], last, data[0]);
      assert Cbc(enc, mixed, iv)[1..] == Cbc(enc, mixed[1..], o);
      BatchIsIge(enc, data[1..], last, data[0], o);
    }
  }

  /** The block at place i of Mix and Unmix, as the code computes it. */
  lemma {:induction false} MixAt(data: seq<AesBlock>, before: AesBlock, last: AesBlock, i: nat)
    requires i < |data|
    ensures Mix(data, before, last)[i] == Xor(if i == 0 then before else if i == 1 then last else data[i - 2], data[i])
  {
    if i > 0 {
      MixAt(data[1..], last, data[0], i - 1);
    }
  }

  lemma {:induction false} UnmixAt(out: seq<AesBlock>, data: seq<AesBlock>, last: AesBlock, i: nat)
    requires i < |data| == |out|
    ensures Unmix(out, data, last)[i] == Xor(out[i], if i == 0 then last else data[i - 1])
  {
    if i > 0 {
      UnmixAt(out[1..], data[1..], data[0], i - 1);
    }
  }

  // ---------------------------------------------------------------------------------------
  // AesIgeStateImpl
  // ---------------------------------------------------------------------------------------

  const BLOCK_COUNT: nat := 31

  /** The cipher library's CBC call, in place. */
  method EvpCbc(enc: Cipher, data: array<AesBlock>, count: nat, iv: AesBlock)
    requires count <= data.Length
    modifies data
    ensures data[..count] == Cbc(enc, old(data[..count]), iv)
  {
    hide Cbc;
    ghost var was := data[..count];
    var c := iv;
    assert was[0..] == was;
    for i := 0 to count
      invariant forall k :: i <= k < count ==> data[k] == was[k]
      invariant data[..i] + Cbc(enc, was[i..], c) == Cbc(enc, was, iv)
    {
      CbcNext(enc, was, i, data[..i], c, Cbc(enc, was, iv));
      c := enc(Xor(data[i], c));
      ghost var done := data[..i];
      data[i] := c;
      assert data[..i + 1] == done + [c];
    }
    CbcNone(enc, c);
    assert was[count..] == [];
  }

  lemma CbcNone(enc: Cipher, iv: AesBlock)
    ensures Cbc(enc, [], iv) == []
  {
  }

  lemma CbcNext(enc: Cipher, data: seq<AesBlock>, i: nat, done: seq<AesBlock>, iv: AesBlock, whole: seq<AesBlock>)
    requires i < |data| && done + Cbc(enc, data[i..], iv) == whole
    ensures var x := enc(Xor(data[i], iv));
            done + [x] + Cbc(enc, data[i + 1..], x) == whole
  {
    assert data[i..][1..] == data[i + 1..];
    var x := enc(Xor(data[i], iv));
    assert done + [x] + Cbc(enc, data[i + 1..], x) == done + ([x] + Cbc(enc, data[i + 1..], x));
  }

  class AesIgeState {
    const enc: Cipher
    const dec: Cipher
    var encryptedIv: AesBlock
    var plaintextIv: AesBlock

    constructor (enc: Cipher, dec: Cipher, iv0: AesBlock, iv1: AesBlock)
      ensures this.enc == enc && this.dec == dec && encryptedIv == iv0 && plaintextIv == iv1
    {
      this.enc, this.dec, encryptedIv, plaintextIv := enc, dec, iv0, iv1;
    }

    /** One batch: `count` blocks from `start` on, read before any is written. */
    method EncryptBatch(from: array<AesBlock>, dest: array<AesBlock>, start: nat, count: nat)
      requires 0 < count <= BLOCK_COUNT && start + count <= from.Length && start + count <= dest.Length
      modifies this, dest
      ensures dest[start..start + count]
        == Encrypted(enc, old(from[start..start + count]), old(encryptedIv), old(plaintextIv))
      ensures dest[..start] == old(dest[..start]) && dest[start + count..] == old(dest[start + count..])
      ensures from[start + count..] == old(from[start + count..])
      ensures plaintextIv == old(from[start + count - 1]) && encryptedIv == dest[start + count - 1]
    {
      hide Encrypted, Cbc, Mix, Unmix;
      ghost var input := from[start..start + count];
      var data := new AesBlock[BLOCK_COUNT](_ => ZERO);
      var xored := new AesBlock[BLOCK_COUNT](_ => ZERO);
      CopyIn(from, start, data, count);
      MixInto(data, xored, count, plaintextIv);
      EvpCbc(enc, xored, count, encryptedIv);
      UnmixInto(data, xored, count, plaintextIv);
      BatchIsIge(enc, input, ZERO, plaintextIv, encryptedIv);
      XorLaws(encryptedIv, ZERO, ZERO);
      plaintextIv := data[count - 1];
      encryptedIv := xored[count - 1];
      CopyOut(xored, count, dest, start);
      assert dest[start + count - 1] == dest[start..start + count][count - 1];
    }

    /**
      Encrypts in batches. `from` is the memory from the input on, and may be that of the output; the input is its
      first fromSize bytes. The number of blocks is that of the output, so the input is encrypted together with
      whatever follows it in memory up to the output's size. Whatever the batches, the result is that of the
      recurrence, and the state is ready for a next call to go on from.
    */
    method Encrypt(from: array<AesBlock>, fromSize: nat, dest: array<AesBlock>, toSize: nat)
      requires fromSize % BLOCK_SIZE == 0 && fromSize <= toSize
      requires dest.Length == BlockCount(toSize) <= from.Length
      modifies this, dest
      ensures dest[..] == Encrypted(enc, old(from[..dest.Length]), old(encryptedIv), old(plaintextIv))
      ensures encryptedIv == Last(dest[..], old(encryptedIv))
        && plaintextIv == Last(old(from[..dest.Length]), old(plaintextIv))
    {
      hide Encrypted;
      ghost var input := from[..dest.Length];
      EncryptedNone(enc, encryptedIv, plaintextIv);
      assert input[..0] == [] && dest[..0] == [];
      var len: nat, at: nat := BlockCount(toSize), 0;
      while len != 0
        invariant at + len == dest.Length
        invariant from[at..dest.Length] == input[at..]
        invariant dest[..at] == Encrypted(enc, input[..at], old(encryptedIv), old(plaintextIv))
        invariant encryptedIv == Last(dest[..at], old(encryptedIv))
          && plaintextIv == Last(input[..at], old(plaintextIv))
      {
        var count := if BLOCK_COUNT < len then BLOCK_COUNT else len;
        EncryptedSplit(enc, input[..at], input[at..at + count], old(encryptedIv), old(plaintextIv));
        Slices(input, at, count);
        Windows(from[..], input, at, count, dest.Length);
        ghost var done, left := dest[..at], from[at + count..];
        EncryptBatch(from, dest, at, count);
        Joined(dest[..], done, at, count);
        assert from[at + count..dest.Length] == left[..dest.Length - at - count];
        len := len - count;
        at := at + count;
      }
      assert dest[..at] == dest[..] && input[..at] == input;
    }

    method Decrypt(from: array<AesBlock>, fromSize: nat, dest: array<AesBlock>, toSize: nat)
      requires fromSize % BLOCK_SIZE == 0 && fromSize <= toSize
      requires dest.Length == BlockCount(toSize) <= from.Length
      modifies this, dest
      ensures dest[..] == Decrypted(dec, old(from[..dest.Length]), old(encryptedIv), old(plaintextIv))
      ensures encryptedIv == Last(old(from[..dest.Length]), old(encryptedIv))
        && plaintextIv == Last(dest[..], old(plaintextIv))
    {
      hide Decrypted;
      ghost var input := from[..dest.Length];
      ghost var whole := Decrypted(dec, input, encryptedIv, plaintextIv);
      assert input[0..] == input;
      for at := 0 to BlockCount(toSize)
        invariant from[at..dest.Length] == input[at..]
        invariant dest[..at] + Decrypted(dec, input[at..], encryptedIv, plaintextIv) == whole
        invariant encryptedIv == Last(input[..at], old(encryptedIv))
          && plaintextIv == Last(dest[..at], old(plaintextIv))
      {
        var encrypted := from[at];
        assert encrypted == input[at] by { assert from[at..dest.Length][0] == input[at..][0]; }
        ghost var done, left := dest[..at], from[at..dest.Length];
        DecryptedNext(dec, input, at, done, encryptedIv, plaintextIv, whole);
        plaintextIv := Xor(plaintextIv, encrypted);
        plaintextIv := dec(plaintextIv);
        plaintextIv := Xor(plaintextIv, encryptedIv);
        Write(dest, at, plaintextIv);
        encryptedIv := encrypted;
        assert from[at + 1..dest.Length] == left[1..] == input[at + 1..];
      }
      DecryptedNone(dec, encryptedIv, plaintextIv);
      assert input[dest.Length..] == [] && dest[..dest.Length] == dest[..];
    }
  }

  // How much of the memory behind the input is read

  const BLOCK_SIZE: nat := 16

  /** The code takes the number of blocks from the output. */
  function BlockCount(toSize: nat): nat { toSize / BLOCK_SIZE }

  function BlockEnd(i: nat): nat { BLOCK_SIZE * (i + 1) }

  /** Every block that is read lies inside the input. */
  ghost predicate ReadsInside(fromSize: nat, toSize: nat) {
    forall i: nat :: i < BlockCount(toSize) ==> BlockEnd(i) <= fromSize
  }

  /** For the sizes that the CHECKs allow, reads stay inside exactly if the output has no whole block more. */
  lemma ReadsInsideExactly(fromSize: nat, toSize: nat)
    requires fromSize % BLOCK_SIZE == 0 && fromSize <= toSize
    ensures ReadsInside(fromSize, toSize) <==> toSize < fromSize + BLOCK_SIZE
  {
    if toSize >= fromSize + BLOCK_SIZE {
      var i: nat := fromSize / BLOCK_SIZE;
      assert i < BlockCount(toSize) && BlockEnd(i) > fromSize;
    }
  }

  /** One block in and room for two: the second block is read from behind the input. */
  lemma ReadsPastTheInput()
    ensures !ReadsInside(16, 32)
  {
    ReadsInsideExactly(16, 32);
  }

  /** What is read past the input shows: the output depends on the input alone exactly in the same case. */
  lemma InputDecides(enc: Cipher, dec: Cipher, fromSize: nat, toSize: nat, c: AesBlock, p: AesBlock)
    requires Inverse(enc, dec) && fromSize % BLOCK_SIZE == 0 && fromSize <= toSize
    ensures toSize < fromSize + BLOCK_SIZE <==>
      forall m, m' :: |m| == |m'| == BlockCount(toSize) && m[..fromSize / BLOCK_SIZE] == m'[..fromSize / BLOCK_SIZE] ==>
        Encrypted(enc, m, c, p) == Encrypted(enc, m', c, p)
  {
    var size, count := fromSize / BLOCK_SIZE, BlockCount(toSize);
    hide Encrypted, Decrypted;
    if toSize < fromSize + BLOCK_SIZE {
      forall m: seq<AesBlock>, m' | |m| == |m'| == count && m[..size] == m'[..size]
        ensures m == m'
      {
        assert m == m[..size] && m' == m'[..size];
      }
    } else {
      var m := seq(count, i => ZERO);
      var m' := m[size := AesBlock(0, 1)];
      assert m[..size] == m'[..size] && m[size] != m'[size];
      DecryptEncrypt(enc, dec, m, c, p);
      DecryptEncrypt(enc, dec, m', c, p);
      assert Encrypted(enc, m, c, p) != Encrypted(enc, m', c, p);
    }
  }

  /** What is left of the input in memory, and the batch at its start. */
  lemma Windows(memory: seq<AesBlock>, input: seq<AesBlock>, at: nat, count: nat, n: nat)
    requires at + count <= n == |input| && n <= |memory| && memory[at..n] == input[at..]
    ensures memory[at..at + count] == input[at..at + count]
    ensures memory[at + count..][..n - at - count] == input[at + count..]
  {
    assert memory[at..at + count] == memory[at..n][..count];
    assert memory[at + count..][..n - at - count] == memory[at..n][count..];
  }

  lemma Joined(output: seq<AesBlock>, done: seq<AesBlock>, at: nat, count: nat)
    requires at + count <= |output| && output[..at] == done
    ensures output[..at + count] == done + output[at..at + count]
  {
  }

  lemma Slices(input: seq<AesBlock>, at: nat, count: nat)
    requires at + count <= |input|
    ensures input[at..][..count] == input[at..at + count] && input[..at + count] == input[..at] + input[at..at + count]
    ensures input[at..][count..] == input[at + count..]
  {
  }

  method Write(dest: array<AesBlock>, at: nat, x: AesBlock)
    requires at < dest.Length
    modifies dest
    ensures dest[at] == x && dest[..at + 1] == old(dest[..at]) + [x] && dest[at + 1..] == old(dest[at + 1..])
  {
    dest[at] := x;
  }

  lemma EncryptedNone(enc: Cipher, c: AesBlock, p: AesBlock)
    ensures Encrypted(enc, [], c, p) == []
  {
  }

  lemma DecryptedNone(dec: Cipher, c: AesBlock, p: AesBlock)
    ensures Decrypted(dec, [], c, p) == []
  {
  }

  lemma DecryptedNext(dec: Cipher, input: seq<AesBlock>, at: nat, done: seq<AesBlock>, c: AesBlock, p: AesBlock,
          whole: seq<AesBlock>)
    requires at < |input| && done + Decrypted(dec, input[at..], c, p) == whole
    ensures var x := Xor(dec(Xor(p, input[at])), c);
            done + [x] + Decrypted(dec, input[at + 1..], input[at], x) == whole
  {
    assert input[at..][1..] == input[at + 1..];
    var x := Xor(dec(Xor(p, input[at])), c);
    assert done + [x] + Decrypted(dec, input[at + 1..], input[at], x)
      == done + ([x] + Decrypted(dec, input[at + 1..], input[at], x));
  }

  method CopyIn(from: array<AesBlock>, start: nat, data: array<AesBlock>, count: nat)
    requires count <= data.Length && start + count <= from.Length && data != from
    modifies data
    ensures data[..count] == old(from[start..start + count])
  {
    forall i | 0 <= i < count {
      data[i] := from[start + i];
    }
  }

  method CopyOut(xored: array<AesBlock>, count: nat, dest: array<AesBlock>, start: nat)
    requires count <= xored.Length && start + count <= dest.Length && xored != dest
    modifies dest
    ensures dest[start..start + count] == xored[..count]
    ensures dest[..start] == old(dest[..start]) && dest[start + count..] == old(dest[start + count..])
  {
    forall i | 0 <= i < count {
      dest[start + i] := xored[i];
    }
  }

  method MixInto(data: array<AesBlock>, xored: array<AesBlock>, count: nat, plaintextIv: AesBlock)
    requires 0 < count <= data.Length == xored.Length && data != xored
    modifies xored
    ensures xored[..count] == Mix(data[..count], ZERO, plaintextIv)
  {
    xored[0] := data[0];
    XorLaws(ZERO, data[0], ZERO);
    XorLaws(data[0], ZERO, ZERO);
    if count > 1 {
      xored[1] := Xor(plaintextIv, data[1]);
      for i := 2 to count
        invariant xored[0] == data[0] && xored[1] == Xor(plaintextIv, data[1])
        invariant forall k :: 2 <= k < i ==> xored[k] == Xor(data[k - 2], data[k])
      {
        xored[i] := Xor(data[i - 2], data[i]);
      }
    }
    forall k | 0 <= k < count ensures xored[k] == Mix(data[..count], ZERO, plaintextIv)[k] {
      MixAt(data[..count], ZERO, plaintextIv, k);
    }
  }

  method UnmixInto(data: array<AesBlock>, xored: array<AesBlock>, count: nat, plaintextIv: AesBlock)
    requires 0 < count <= data.Length == xored.Length && data != xored
    modifies xored
    ensures xored[..count] == Unmix(old(xored[..count]), data[..count], plaintextIv)
  {
    hide Unmix, Xor;
    xored[0] := Xor(xored[0], plaintextIv);
    for i := 1 to count
      invariant forall k :: 0 <= k < i ==> xored[k] == Xor(old(xored[k]), if k == 0 then plaintextIv else data[k - 1])
      invariant forall k :: i <= k < count ==> xored[k] == old(xored[k])
    {
      xored[i] := Xor(xored[i], data[i - 1]);
    }
    forall k | 0 <= k < count ensures xored[k] == Unmix(old(xored[..count]), data[..count], plaintextIv)[k] {
      UnmixAt(old(xored[..count]), data[..count], plaintextIv, k);
    }
  }
}
