/**
  UTF-8 (td/utils/utf8.cpp): the checker, the encoder and the decoder, against section 4 of RFC 3629.
  Masks and shifts of bytes are written with division and remainder.

  WellFormed is the format: a sequence of encoded scalar values. Encode and Decode are append_utf8_character and
  next_utf8_unsafe, and Accepted is the step of the loop in check_utf8.
*/
module Utf8 {

  type byte = x: int | 0 <= x < 256

  datatype Option<T> = None | Some(value: T)

  /** What UTF-8 can encode: a code point that is not a surrogate. */
  predicate Scalar(c: int) { 0 <= c < 0xD800 || 0xE000 <= c < 0x110000 }

  /** append_utf8_character. */
  function Encode(ch: nat): (r: seq<byte>)
    requires ch < 0x110000
    ensures 1 <= |r| <= 4
  {
    if ch <= 0x7f then [ch]
    else if ch <= 0x7ff then [0xc0 + ch / 64, 0x80 + ch % 64]
    else if ch <= 0xffff then [0xe0 + ch / 4096, 0x80 + ch / 64 % 64, 0x80 + ch % 64]
    else [0xf0 + ch / 262144, 0x80 + ch / 4096 % 64, 0x80 + ch / 64 % 64, 0x80 + ch % 64]
  }

  /** How many bytes the first byte announces; next_utf8_unsafe does not tell a continuation byte from a first one. */
  function Announced(a: byte): nat {
    if a < 0x80 then 1 else if a / 32 % 2 == 0 then 2 else if a / 16 % 2 == 0 then 3 else 4
  }

  function EncodeAll(codes: seq<nat>): (r: seq<byte>)
    requires forall i :: 0 <= i < |codes| ==> codes[i] < 0x110000
  {
    if codes == [] then [] else Encode(codes[0]) + EncodeAll(codes[1..])
  }

  /** The bytes are a sequence of encoded scalar values. */
  ghost predicate WellFormed(s: seq<byte>)
    decreases |s|
  {
    s == [] || exists c: nat :: Starts(c, s) && WellFormed(s[|Encode(c)|..])
  }

  predicate Starts(c: nat, s: seq<byte>) { Scalar(c) && Encode(c) <= s }

  /** Byte `i` as the C string has it: the terminator follows the last byte. */
  function At(s: seq<byte>, i: nat): byte
    requires i <= |s|
  {
    if i < |s| then s[i] else 0
  }

  predicate Continues(b: byte) { b / 64 == 2 }

  /** The length of the character that check_utf8 accepts at `i`, or 0. */
  function Accepted(s: seq<byte>, i: nat): (n: nat)
    requires i < |s|
    ensures i + n <= |s|
  {
    var a := s[i];
    if a < 0x80 then 1
    else if a / 64 % 2 == 0 || !Continues(At(s, i + 1)) then 0
    else if a / 32 % 2 == 0 then (if a % 32 / 2 > 0 then 2 else 0)
    else if !Continues(At(s, i + 2)) then 0
    else if a / 16 % 2 == 0 then
      var x := a % 16 * 64 + At(s, i + 1) / 32 % 2 * 32;
      if x != 0 && x != 0x360 then 3 else 0
    else if !Continues(At(s, i + 3)) then 0
    else if a / 8 % 2 == 0 then
      var t := a % 8 * 64 + At(s, i + 1) / 16 % 4 * 16;
      if 0 < t < 0x110 then 4 else 0
    else 0
  }

  /** next_utf8_unsafe at the start of `s`: the code it reads. */
  function Decode(s: seq<byte>): nat
    requires s != [] && |s| >= Announced(s[0])
  {
    var a: int := s[0];
    if a < 0x80 then a
    else
      var b: int := s[1] % 64;
      if a / 32 % 2 == 0 then a % 32 * 64 + b
      else
        var c: int := s[2] % 64;
        if a / 16 % 2 == 0 then a % 16 * 4096 + b * 64 + c
        else
          var d: int := s[3] % 64;
          a % 8 * 262144 + b * 4096 + c * 64 + d
  }

  lemma Groups(c: int)
    requires 0 <= c
    ensures c == c / 64 * 64 + c % 64
    ensures c / 64 == c / 4096 * 64 + c / 64 % 64
    ensures c / 4096 == c / 262144 * 64 + c / 4096 % 64
  {
  }

  lemma Second(m: int)
    requires 0 <= m < 64
    ensures (0x80 + m) % 64 == m && (0x80 + m) / 64 == 2
  {
  }

  lemma First2(h: int)
    requires 0 <= h < 32
    ensures (0xc0 + h) / 32 % 2 == 0 && (0xc0 + h) % 32 == h && (0xc0 + h) / 64 % 2 == 1
  {
  }

  lemma First3(h: int)
    requires 0 <= h < 16
    ensures (0xe0 + h) / 32 % 2 == 1 && (0xe0 + h) / 16 % 2 == 0 && (0xe0 + h) % 16 == h && (0xe0 + h) / 64 % 2 == 1
  {
  }

  lemma First4(h: int)
    requires 0 <= h < 8
    ensures (0xf0 + h) / 32 % 2 == 1 && (0xf0 + h) / 16 % 2 == 1 && (0xf0 + h) / 8 % 2 == 0 && (0xf0 + h) % 8 == h
    ensures (0xf0 + h) / 64 % 2 == 1
  {
  }

  lemma Halves(m: int)
    requires 0 <= m < 64
    ensures (0x80 + m) / 32 % 2 == m / 32 && (0x80 + m) / 16 % 4 == m / 16
  {
  }

  /** Decoding undoes encoding, whatever follows. */
  lemma DecodeEncode(c: nat, s: seq<byte>)
    requires c < 0x110000 && Encode(c) <= s
    ensures s != [] && Announced(s[0]) == |Encode(c)| <= |s| && Decode(s) == c
  {
    Groups(c);
    var e := Encode(c);
    assert s[0] == e[0] && (|e| > 1 ==> s[1] == e[1]) && (|e| > 2 ==> s[2] == e[2]) && (|e| > 3 ==> s[3] == e[3]);
    Second(c % 64);
    if 0x7f < c <= 0x7ff {
      First2(c / 64);
    } else if 0x7ff < c <= 0xffff {
      Second(c / 64 % 64);
      First3(c / 4096);
    } else if 0xffff < c {
      Second(c / 64 % 64);
      Second(c / 4096 % 64);
      First4(c / 262144);
    }
  }

  /** check_utf8 accepts the encoding of every scalar value. */
  lemma AcceptsEncoded(c: nat, s: seq<byte>)
    requires Starts(c, s)
    ensures Accepted(s, 0) == |Encode(c)|
  {
    Groups(c);
    var e := Encode(c);
    assert s[0] == e[0] && (|e| > 1 ==> s[1] == e[1]) && (|e| > 2 ==> s[2] == e[2]) && (|e| > 3 ==> s[3] == e[3]);
    Second(c % 64);
    if 0x7f < c <= 0x7ff {
      First2(c / 64);
    } else if 0x7ff < c <= 0xffff {
      Second(c / 64 % 64);
      Halves(c / 64 % 64);
      First3(c / 4096);
    } else if 0xffff < c {
      Second(c / 64 % 64);
      Second(c / 4096 % 64);
      Halves(c / 4096 % 64);
      First4(c / 262144);
    }
  }

  lemma Byte2(a: byte, b: byte)
    requires a / 64 % 2 == 1 && a >= 0x80 && a / 32 % 2 == 0 && a % 32 / 2 > 0 && Continues(b)
    ensures var c: int := a % 32; var d: int := b % 64;
            Scalar(c * 64 + d) && Encode(c * 64 + d) == [a, b]
  {
  }

  lemma Byte3(a: byte, b: byte, c: byte)
    requires a >= 0x80 && a / 64 % 2 == 1 && a / 32 % 2 == 1 && a / 16 % 2 == 0 && Continues(b) && Continues(c)
    requires var x: int := a % 16; x * 64 + b / 32 % 2 * 32 != 0 && x * 64 + b / 32 % 2 * 32 != 0x360
    ensures var x: int := a % 16; var y: int := b % 64; var z: int := c % 64;
            var code := x * 4096 + y * 64 + z;
            Scalar(code) && Encode(code) == [a, b, c]
  {
    var x: int := a % 16;
    var y: int := b % 64;
    var z: int := c % 64;
    assert a == 0xe0 + x && b == 0x80 + y && c == 0x80 + z;
    Halves(y);
    Code3(x, y, z);
  }

  lemma Code3(x: int, y: int, z: int)
    requires 0 <= x < 16 && 0 <= y < 64 && 0 <= z < 64
    requires x * 64 + y / 32 * 32 != 0 && x * 64 + y / 32 * 32 != 0x360
    ensures var code := x * 4096 + y * 64 + z;
            Scalar(code) && Encode(code) == [0xe0 + x, 0x80 + y, 0x80 + z]
  {
    Ungroup3(x, y, z);
  }

  lemma Ungroup3(x: int, y: int, z: int)
    requires 0 <= x && 0 <= y < 64 && 0 <= z < 64
    ensures var code := x * 4096 + y * 64 + z;
            code / 4096 == x && code / 64 % 64 == y && code % 64 == z && code / 64 == x * 64 + y
  {
  }

  lemma Byte4(a: byte, b: byte, c: byte, d: byte)
    requires a >= 0x80 && a / 64 % 2 == 1 && a / 32 % 2 == 1 && a / 16 % 2 == 1 && a / 8 % 2 == 0
    requires Continues(b) && Continues(c) && Continues(d)
    requires var x: int := a % 8; 0 < x * 64 + b / 16 % 4 * 16 < 0x110
    ensures var x: int := a % 8; var y: int := b % 64; var z: int := c % 64; var w: int := d % 64;
            var code := x * 262144 + y * 4096 + z * 64 + w;
            Scalar(code) && Encode(code) == [a, b, c, d]
  {
    var x: int := a % 8;
    var y: int := b % 64;
    var z: int := c % 64;
    var w: int := d % 64;
    Byte4First(a);
    assert b == 0x80 + y && c == 0x80 + z && d == 0x80 + w;
    Halves(y);
    Code4(x, y, z, w);
  }

  lemma Byte4First(a: byte)
    requires a >= 0x80 && a / 64 % 2 == 1 && a / 32 % 2 == 1 && a / 16 % 2 == 1 && a / 8 % 2 == 0
    ensures var x: int := a % 8; a == 0xf0 + x
  {
  }

  lemma Code4(x: int, y: int, z: int, w: int)
    requires 0 <= x < 8 && 0 <= y < 64 && 0 <= z < 64 && 0 <= w < 64 && 0 < x * 64 + y / 16 * 16 < 0x110
    ensures var code := x * 262144 + y * 4096 + z * 64 + w;
            Scalar(code) && Encode(code) == [0xf0 + x, 0x80 + y, 0x80 + z, 0x80 + w]
  {
    assert 16 <= x * 64 + y < 0x110;
    assert 0x10000 <= x * 262144 + y * 4096 + z * 64 + w < 0x110000;
    Ungroup4(x, y, z, w);
  }

  lemma Ungroup4(x: int, y: int, z: int, w: int)
    requires 0 <= x < 64 && 0 <= y < 64 && 0 <= z < 64 && 0 <= w < 64
    ensures var code := x * 262144 + y * 4096 + z * 64 + w;
            code / 262144 == x && code / 4096 % 64 == y && code / 64 % 64 == z && code % 64 == w
  {
    Ungroup3(x * 64 + y, z, w);
    Ungroup3(0, x, y);
  }

  /** What check_utf8 accepts is the encoding of a scalar value, and the decoder gives that value. */
  lemma AcceptedDecodes(s: seq<byte>)
    requires s != [] && Accepted(s, 0) > 0
    ensures Announced(s[0]) == Accepted(s, 0) && Starts(Decode(s), s) && |Encode(Decode(s))| == Accepted(s, 0)
  {
    var n := Accepted(s, 0);
    if n == 4 {
      Accepted4(s);
    } else if n == 3 {
      Accepted3(s);
    } else if n == 2 {
      Byte2(s[0], s[1]);
    }
    hide Encode;
  }

  lemma Accepted3(s: seq<byte>)
    requires s != [] && Accepted(s, 0) == 3
    ensures Announced(s[0]) == 3 && Starts(Decode(s), s) && |Encode(Decode(s))| == 3
  {
    Byte3(s[0], s[1], s[2]);
    hide Encode;
  }

  lemma Accepted4(s: seq<byte>)
    requires s != [] && Accepted(s, 0) == 4
    ensures Announced(s[0]) == 4 && Starts(Decode(s), s) && |Encode(Decode(s))| == 4
  {
    Byte4(s[0], s[1], s[2], s[3]);
    hide Encode;
  }

  /** The two ways to say that a text begins with a good character agree. */
  lemma AcceptedExactly(s: seq<byte>)
    requires s != []
    ensures Accepted(s, 0) > 0 <==> exists c: nat :: Starts(c, s)
  {
    if Accepted(s, 0) > 0 {
      AcceptedDecodes(s);
    } else {
      forall c: nat ensures !Starts(c, s) {
        if Starts(c, s) {
          AcceptsEncoded(c, s);
        }
      }
    }
  }

  lemma WellFormedStep(s: seq<byte>)
    requires s != []
    ensures WellFormed(s) <==> Accepted(s, 0) > 0 && WellFormed(s[Accepted(s, 0)..])
  {
    if WellFormed(s) {
      var c: nat :| Starts(c, s) && WellFormed(s[|Encode(c)|..]);
      AcceptsEncoded(c, s);
    } else if Accepted(s, 0) > 0 {
      AcceptedDecodes(s);
    }
  }

  lemma AcceptedFrom(s: seq<byte>, i: nat)
    requires i < |s|
    ensures Accepted(s, i) == Accepted(s[i..], 0)
  {
    var t := s[i..];
    assert At(s, i + 1) == At(t, 1);
    if i + 1 < |s| {
      assert At(s, i + 2) == At(t, 2);
      if i + 2 < |s| {
        assert At(s, i + 3) == At(t, 3);
      }
    }
  }

  lemma WellFormedEmpty()
    ensures WellFormed([])
  {
  }

  /**
    check_utf8: the loop runs over the bytes and the terminator behind them, and the answer is whether
    the text is well formed.
  */
  method CheckUtf8(str: seq<byte>) returns (ok: bool)
    ensures ok <==> WellFormed(str)
  {
    hide Accepted, WellFormed, Encode;
    WellFormedEmpty();
    var data := 0;
    while true
      invariant data <= |str| && (WellFormed(str) <==> WellFormed(str[data..]))
      decreases |str| - data
    {
      if At(str, data) < 0x80 && data == |str| {
        return true;
      }
      var n := Accepted(str, data);
      AcceptedFrom(str, data);
      WellFormedStep(str[data..]);
      if n == 0 {
        return false;
      }
      assert str[data..][n..] == str[data + n..];
      data := data + n;
    }
  }

  /** The code points of a text, as a loop over next_utf8_unsafe collects them. */
  ghost function Codes(s: seq<byte>): (r: seq<nat>)
    requires WellFormed(s)
    ensures forall i :: 0 <= i < |r| ==> Scalar(r[i])
    decreases |s|
  {
    if s == [] then []
    else
      var c: nat :| Starts(c, s) && WellFormed(s[|Encode(c)|..]);
      [c] + Codes(s[|Encode(c)|..])
  }

  /** A text is its code points encoded, and they are what the decoder reads. */
  lemma {:induction false} CodesStep(s: seq<byte>)
    requires WellFormed(s) && s != []
    ensures Announced(s[0]) <= |s| && Starts(Decode(s), s) && WellFormed(s[Announced(s[0])..])
    ensures Codes(s) == [Decode(s)] + Codes(s[Announced(s[0])..])
    ensures |Encode(Decode(s))| == Announced(s[0])
  {
    var c: nat :| Starts(c, s) && WellFormed(s[|Encode(c)|..]) && Codes(s) == [c] + Codes(s[|Encode(c)|..]);
    DecodeEncode(c, s);
  }

  lemma CodesEmpty()
    ensures WellFormed([]) && Codes([]) == [] && EncodeAll([]) == []
  {
  }

  lemma {:induction false} CodesEncode(s: seq<byte>)
    requires WellFormed(s)
    ensures (forall i :: 0 <= i < |Codes(s)| ==> Codes(s)[i] < 0x110000) && EncodeAll(Codes(s)) == s
    ensures |Codes(s)| <= |s|
    decreases |s|
  {
    hide Encode, Announced, Decode, Codes, WellFormed;
    if s == [] {
      CodesEmpty();
    } else {
      CodesStep(s);
      var n, t := Announced(s[0]), s[Announced(s[0])..];
      CodesEncode(t);
      assert Codes(s)[1..] == Codes(t);
      assert s == s[..n] + t;
    }
  }
}
