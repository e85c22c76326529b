/**
  Punycode as td/utils/port/IPAddress.cpp computes it, against RFC 3492: the encoder of section 6.3,
  the decoder of section 6.2 and the bias adaptation of section 6.1.
*/
module Punycode {
  import opened Modular
  import opened Utf8

  const BASE: nat := 36
  const TMAX: nat := 26
  const SKEW: nat := 38
  const DAMP: nat := 700
  const INITIAL_BIAS: nat := 72
  const INITIAL_N: nat := 128
  const LIMIT: nat := 0x110000
  const HYPHEN: byte := 45
  const DOT: byte := 46

  // ---------------------------------------------------------------------------------------
  // RFC 3492
  // ---------------------------------------------------------------------------------------

  /** Section 6.1. */
  function Adapt(delta: nat, points: nat, first: bool): nat
    requires points > 0
  {
    var d := if first then delta / DAMP else delta / 2;
    AdaptLoop(d + Div(d, points), 0)
  }

  function AdaptLoop(delta: nat, k: nat): nat {
    if delta > 455 then AdaptLoop(delta / 35, k + BASE) else k + Div(36 * delta, delta + SKEW)
  }

  function Threshold(k: nat, bias: nat): (t: nat)
    ensures 1 <= t <= TMAX
  {
    if k <= bias + 1 then 1 else if k >= bias + TMAX then TMAX else k - bias
  }

  /** a to z stand for 0 to 25, and the digits for 26 to 35. */
  function Digit(d: nat): byte
    requires d < BASE
  {
    if d < 26 then 97 + d else 22 + d
  }

  function DigitValue(b: byte): Option<nat> {
    if 97 <= b <= 122 then Some(b - 97)
    else if 65 <= b <= 90 then Some(b - 65)
    else if 48 <= b <= 57 then Some(b - 22)
    else None
  }

  /** A delta as a variable-length integer. */
  function VarInt(q: nat, k: nat, bias: nat): seq<byte>
    decreases q
  {
    var t := Threshold(k, bias);
    if q < t then [Digit(q)]
    else [Digit(t + Mod(q - t, BASE - t))] + VarInt(Div(q - t, BASE - t), k + BASE, bias)
  }

  predicate Valid(codes: seq<nat>) { forall i :: 0 <= i < |codes| ==> codes[i] < LIMIT }

  /** The least code point above n, or LIMIT. */
  function NextCode(codes: seq<nat>, n: nat): (m: nat)
    requires Valid(codes)
    ensures m <= LIMIT && (m < LIMIT ==> m > n && m in codes)
    ensures forall i :: 0 <= i < |codes| && codes[i] > n ==> m <= codes[i]
  {
    if codes == [] then LIMIT
    else
      var m := NextCode(codes[1..], n);
      if n < codes[0] < m then codes[0] else m
  }

  function Times(a: nat, b: nat): nat {
    a * b
  }

  /**
    The main loop of section 6.3: code point number j is next while n is m, and h code points have been
    handled.
  */
  function Emit(codes: seq<nat>, m: nat, j: nat, h: nat, delta: nat, bias: nat, first: bool): seq<byte>
    requires Valid(codes) && j <= |codes| && m < LIMIT
    decreases LIMIT - m, |codes| - j + 1
  {
    if j == |codes| then NextRound(codes, m, h, delta + 1, bias, first)
    else if codes[j] < m then Emit(codes, m, j + 1, h, delta + 1, bias, first)
    else if codes[j] > m then Emit(codes, m, j + 1, h, delta, bias, first)
    else VarInt(delta, BASE, bias) + Emit(codes, m, j + 1, h + 1, 0, Adapt(delta, h + 1, first), false)
  }

  /** Every code point up to n is handled. */
  function NextRound(codes: seq<nat>, n: nat, h: nat, delta: nat, bias: nat, first: bool): seq<byte>
    requires Valid(codes) && n < LIMIT
    decreases LIMIT - n, 0
  {
    var m := NextCode(codes, n);
    if m == LIMIT then [] else Emit(codes, m, 0, h, delta + Times(m - n - 1, h + 1), bias, first)
  }

  function Lower(c: nat): nat { if 65 <= c <= 90 then c + 32 else c }

  function LowerAll(codes: seq<nat>): (r: seq<nat>)
    ensures |r| == |codes| && forall i :: 0 <= i < |r| ==> r[i] == Lower(codes[i])
  {
    seq(|codes|, i requires 0 <= i < |codes| => Lower(codes[i]))
  }

  /** The basic code points, lower-cased. */
  function Basic(codes: seq<nat>): (r: seq<byte>) {
    if codes == [] then []
    else Basic(codes[..|codes| - 1]) + (var c := codes[|codes| - 1]; if c < INITIAL_N then [Lower(c)] else [])
  }

  function Encode(codes: seq<nat>): seq<byte>
    requires Valid(codes)
  {
    var basic := Basic(codes);
    basic + (if basic == [] then [] else [HYPHEN]) + NextRound(codes, INITIAL_N - 1, |basic|, 0, INITIAL_BIAS, true)
  }

  /** Reads a variable-length integer and adds it, times w, to i. */
  function ReadInt(s: seq<byte>, i: nat, w: nat, k: nat, bias: nat): Option<(nat, seq<byte>)> {
    if s == [] then None
    else
      match DigitValue(s[0])
      case None => None
      case Some(digit) =>
        var t := Threshold(k, bias);
        if digit < t then Some((i + digit * w, s[1..]))
        else ReadInt(s[1..], i + digit * w, w * (BASE - t), k + BASE, bias)
  }

  lemma {:induction false} ReadShrinks(s: seq<byte>, i: nat, w: nat, k: nat, bias: nat)
    ensures ReadInt(s, i, w, k, bias).Some? ==> |ReadInt(s, i, w, k, bias).value.1| < |s|
  {
    if s != [] && DigitValue(s[0]).Some? && DigitValue(s[0]).value >= Threshold(k, bias) {
      ReadShrinks(s[1..], i + DigitValue(s[0]).value * w, w * (BASE - Threshold(k, bias)), k + BASE, bias);
    }
  }

  function InsertAt(out: seq<nat>, p: nat, c: nat): seq<nat>
    requires p <= |out|
  {
    out[..p] + [c] + out[p..]
  }

  /** The loop of section 6.2. */
  function Insertions(s: seq<byte>, out: seq<nat>, n: nat, i: nat, bias: nat): Option<seq<nat>>
    decreases |s|
  {
    if s == [] then Some(out)
    else
      ReadShrinks(s, i, 1, BASE, bias);
      match ReadInt(s, i, 1, BASE, bias)
      case None => None
      case Some((i', rest)) =>
        var size := |out| + 1;
        var p, n' := Mod(i', size), n + Div(i', size);
        Insertions(rest, InsertAt(out, p, n'), n', p + 1, Adapt(if i' >= i then i' - i else 0, size, i == 0))
  }

  /** The position of the last delimiter. */
  function LastHyphen(s: seq<byte>): (p: Option<nat>)
    ensures p.Some? ==> p.value < |s| && s[p.value] == HYPHEN
  {
    if s == [] then None
    else if s[|s| - 1] == HYPHEN then Some(|s| - 1)
    else LastHyphen(s[..|s| - 1])
  }

  /** Section 6.2. */
  function Decode(s: seq<byte>): Option<seq<nat>> {
    var p := match LastHyphen(s) { case None => 0 case Some(x) => x };
    if exists b :: b in s[..p] && b >= INITIAL_N then None
    else Insertions(if p > 0 then s[p + 1..] else s, Copy(s[..p]), INITIAL_N, 0, INITIAL_BIAS)
  }

  /** Basic code points as code points. */
  function Copy(s: seq<byte>): (r: seq<nat>)
    ensures |r| == |s| && forall i :: 0 <= i < |s| ==> r[i] == s[i]
  {
    if s == [] then [] else Copy(s[..|s| - 1]) + [s[|s| - 1]]
  }

  // ---------------------------------------------------------------------------------------
  // Decoding undoes encoding
  // ---------------------------------------------------------------------------------------

  lemma DigitRoundTrip(d: nat)
    requires d < BASE
    ensures DigitValue(Digit(d)) == Some(d) && Digit(d) != HYPHEN
  {
  }

  lemma ReadStep(d: nat, rest: seq<byte>, i: nat, w: nat, k: nat, bias: nat)
    requires d < BASE
    ensures ReadInt([Digit(d)] + rest, i, w, k, bias) ==
            if d < Threshold(k, bias) then Some((i + d * w, rest))
            else ReadInt(rest, i + d * w, w * (BASE - Threshold(k, bias)), k + BASE, bias)
  {
    DigitRoundTrip(d);
    assert ([Digit(d)] + rest)[1..] == rest;
    hide Threshold;
  }

  lemma VarIntUnfold(q: nat, k: nat, bias: nat)
    ensures var t := Threshold(k, bias);
            VarInt(q, k, bias) == if q < t then [Digit(q)]
                                  else [Digit(t + Mod(q - t, BASE - t))] + VarInt(Div(q - t, BASE - t), k + BASE, bias)
  {
    hide Div, Mod, Threshold, Digit;
  }

  lemma {:induction false} VarIntRoundTrip(q: nat, k: nat, bias: nat, rest: seq<byte>, i: nat, w: nat)
    ensures ReadInt(VarInt(q, k, bias) + rest, i, w, k, bias) == Some((i + q * w, rest))
    decreases q
  {
    VarIntUnfold(q, k, bias);
    hide Div, Mod, Threshold, Digit, ReadInt, VarInt;
    var t := Threshold(k, bias);
    if q < t {
      ReadStep(q, rest, i, w, k, bias);
    } else {
      VarIntMore(q, k, bias, rest, i, w);
    }
  }

  lemma {:induction false} VarIntMore(q: nat, k: nat, bias: nat, rest: seq<byte>, i: nat, w: nat)
    requires q >= Threshold(k, bias)
    ensures ReadInt(VarInt(q, k, bias) + rest, i, w, k, bias) == Some((i + q * w, rest))
    decreases q, 0
  {
    VarIntUnfold(q, k, bias);
    hide Div, Mod, Threshold, Digit, ReadInt, VarInt;
    var t := Threshold(k, bias);
    DivMod(q - t, BASE - t);
    var d, q' := t + Mod(q - t, BASE - t), Div(q - t, BASE - t);
    var tail := VarInt(q', k + BASE, bias) + rest;
    assert VarInt(q, k, bias) + rest == [Digit(d)] + tail;
    ReadStep(d, tail, i, w, k, bias);
    Scaled(i, d, w, t);
    VarIntRoundTrip(q', k + BASE, bias, rest, i + d * w, w * (BASE - t));
    Regroup(q, t, d, q', w);
  }

  lemma Scaled(i: nat, d: nat, w: nat, t: nat)
    requires t <= BASE
    ensures i + d * w >= 0 && w * (BASE - t) >= 0
  {
  }

  lemma Regroup(q: nat, t: nat, d: nat, q': nat, w: nat)
    requires 1 <= t <= TMAX && q == d + q' * (BASE - t)
    ensures d * w + q' * (w * (BASE - t)) == q * w
  {
    assert q' * (w * (BASE - t)) == q' * (BASE - t) * w;
    assert q * w == d * w + q' * (BASE - t) * w;
  }

  /** The deltas that the main loop encodes, in order. */
  function Deltas(codes: seq<nat>, m: nat, j: nat, h: nat, delta: nat): seq<nat>
    requires Valid(codes) && j <= |codes| && m < LIMIT
    decreases LIMIT - m, |codes| - j + 1
  {
    if j == |codes| then RoundDeltas(codes, m, h, delta + 1)
    else if codes[j] < m then Deltas(codes, m, j + 1, h, delta + 1)
    else if codes[j] > m then Deltas(codes, m, j + 1, h, delta)
    else [delta] + Deltas(codes, m, j + 1, h + 1, 0)
  }

  function RoundDeltas(codes: seq<nat>, n: nat, h: nat, delta: nat): seq<nat>
    requires Valid(codes) && n < LIMIT
    decreases LIMIT - n, 0
  {
    var m := NextCode(codes, n);
    if m == LIMIT then [] else Deltas(codes, m, 0, h, delta + Times(m - n - 1, h + 1))
  }

  /** A list of deltas, each with the bias that the ones before it lead to. */
  function Digits(deltas: seq<nat>, h: nat, bias: nat, first: bool): seq<byte> {
    if deltas == [] then []
    else VarInt(deltas[0], BASE, bias) + Digits(deltas[1..], h + 1, Adapt(deltas[0], h + 1, first), false)
  }

  lemma {:induction false} EmitsDigits(codes: seq<nat>, m: nat, j: nat, h: nat, delta: nat, bias: nat, first: bool)
    requires Valid(codes) && j <= |codes| && m < LIMIT
    ensures Emit(codes, m, j, h, delta, bias, first) == Digits(Deltas(codes, m, j, h, delta), h, bias, first)
    decreases LIMIT - m, |codes| - j + 1
  {
    hide Adapt, VarInt, NextCode;
    if j == |codes| {
      RoundEmitsDigits(codes, m, h, delta + 1, bias, first);
    } else if codes[j] < m {
      EmitsDigits(codes, m, j + 1, h, delta + 1, bias, first);
    } else if codes[j] > m {
      EmitsDigits(codes, m, j + 1, h, delta, bias, first);
    } else {
      EmitsDigits(codes, m, j + 1, h + 1, 0, Adapt(delta, h + 1, first), false);
      assert Deltas(codes, m, j, h, delta)[1..] == Deltas(codes, m, j + 1, h + 1, 0);
    }
  }

  lemma {:induction false} RoundEmitsDigits(codes: seq<nat>, n: nat, h: nat, delta: nat, bias: nat, first: bool)
    requires Valid(codes) && n < LIMIT
    ensures NextRound(codes, n, h, delta, bias, first) == Digits(RoundDeltas(codes, n, h, delta), h, bias, first)
    decreases LIMIT - n, 0
  {
    hide Times, NextCode;
    var m := NextCode(codes, n);
    if m != LIMIT {
      EmitsDigits(codes, m, 0, h, delta + Times(m - n - 1, h + 1), bias, first);
    }
  }

  /** What the decoder makes of a list of deltas. */
  function Insert(deltas: seq<nat>, out: seq<nat>, n: nat, i: nat): seq<nat>
    decreases |deltas|
  {
    if deltas == [] then out
    else
      var i', size := i + deltas[0], |out| + 1;
      var p, n' := Mod(i', size), n + Div(i', size);
      Insert(deltas[1..], InsertAt(out, p, n'), n', p + 1)
  }

  /** One delta read back is one insertion. */
  lemma OneInsertion(d: nat, rest: seq<byte>, out: seq<nat>, n: nat, i: nat, bias: nat)
    ensures var size := |out| + 1;
            var p, n' := Mod(i + d, size), n + Div(i + d, size);
            Insertions(VarInt(d, BASE, bias) + rest, out, n, i, bias)
            == Insertions(rest, InsertAt(out, p, n'), n', p + 1, Adapt(d, size, i == 0))
  {
    VarIntRoundTrip(d, BASE, bias, rest, i, 1);
    VarIntNotEmpty(d, BASE, bias);
    hide Adapt, VarInt, ReadInt, Div, Mod;
  }

  lemma {:induction false} DigitsRoundTrip(deltas: seq<nat>, out: seq<nat>, n: nat, i: nat, bias: nat)
    ensures Insertions(Digits(deltas, |out|, bias, i == 0), out, n, i, bias) == Some(Insert(deltas, out, n, i))
    decreases |deltas|
  {
    hide Adapt, VarInt, Div, Mod;
    if deltas != [] {
      var d, size := deltas[0], |out| + 1;
      var p, n' := Mod(i + d, size), n + Div(i + d, size);
      var next := Adapt(d, size, i == 0);
      OneInsertion(d, Digits(deltas[1..], size, next, false), out, n, i, bias);
      hide Insertions;
      DigitsRoundTrip(deltas[1..], InsertAt(out, p, n'), n', p + 1, next);
    }
  }

  lemma VarIntNotEmpty(q: nat, k: nat, bias: nat)
    ensures VarInt(q, k, bias) != []
  {
  }

  // Which code points are inserted when

  /** The code points of the first e places that are handled when the loop is at place j of the round for m. */
  function Handled(codes: seq<nat>, m: nat, j: nat, e: nat): (r: seq<nat>)
    requires e <= |codes|
    ensures |r| <= e
  {
    if e == 0 then []
    else
      Handled(codes, m, j, e - 1)
      + (if codes[e - 1] < m || (codes[e - 1] == m && e - 1 < j) then [codes[e - 1]] else [])
  }

  lemma {:induction false} HandledSame(codes: seq<nat>, m: nat, j: nat, m': nat, j': nat, e: nat)
    requires e <= |codes|
    requires forall x :: 0 <= x < e ==>
               ((codes[x] < m || (codes[x] == m && x < j)) <==> (codes[x] < m' || (codes[x] == m' && x < j')))
    ensures Handled(codes, m, j, e) == Handled(codes, m', j', e)
  {
    if e > 0 {
      HandledSame(codes, m, j, m', j', e - 1);
    }
  }

  /** Handling place j puts its code point where the earlier places end. */
  lemma {:induction false} HandledInsert(codes: seq<nat>, m: nat, j: nat, e: nat)
    requires j < e <= |codes| && codes[j] == m
    ensures var out, p := Handled(codes, m, j, e), |Handled(codes, m, j, j)|;
            p <= |out| && out[..p] == Handled(codes, m, j, j) && Handled(codes, m, j + 1, e) == InsertAt(out, p, m)
  {
    if e == j + 1 {
      HandledSame(codes, m, j, m, j + 1, j);
    } else {
      HandledInsert(codes, m, j, e - 1);
    }
  }

  lemma {:induction false} HandledAll(codes: seq<nat>, m: nat, j: nat, e: nat)
    requires e <= |codes| && forall x :: 0 <= x < e ==> codes[x] < m || (codes[x] == m && x < j)
    ensures Handled(codes, m, j, e) == codes[..e]
  {
    if e > 0 {
      HandledAll(codes, m, j, e - 1);
    }
  }

  lemma {:induction false} HandledPrefix(codes: seq<nat>, m: nat, j: nat, e: nat, f: nat)
    requires e <= f <= |codes|
    ensures |Handled(codes, m, j, e)| <= |Handled(codes, m, j, f)|
  {
    if e < f {
      HandledPrefix(codes, m, j, e, f - 1);
    }
  }

  /** The decoder's position, n(h + 1) + i, and the pending delta always add up to where the encoder is. */
  predicate InStep(codes: seq<nat>, m: nat, j: nat, h: nat, delta: nat, n: nat, i: nat)
    requires j <= |codes|
  {
    h == |Handled(codes, m, j, |codes|)| && Times(n, h + 1) + i + delta == Times(m, h + 1) + |Handled(codes, m, j, j)|
  }

  lemma {:induction false} InsertDeltas(codes: seq<nat>, m: nat, j: nat, h: nat, delta: nat, n: nat, i: nat)
    requires Valid(codes) && j <= |codes| && m < LIMIT && InStep(codes, m, j, h, delta, n, i)
    ensures Insert(Deltas(codes, m, j, h, delta), Handled(codes, m, j, |codes|), n, i) == codes
    decreases LIMIT - m, |codes| - j + 1
  {
    if j == |codes| {
      RoundInsert(codes, m, h, delta + 1, n, i);
    } else if codes[j] != m {
      HandledSame(codes, m, j, m, j + 1, |codes|);
      HandledSame(codes, m, j, m, j + 1, j);
      InsertDeltas(codes, m, j + 1, h, if codes[j] < m then delta + 1 else delta, n, i);
    } else {
      InsertOne(codes, m, j, h, delta, n, i);
    }
  }

  lemma HandledPlace(codes: seq<nat>, m: nat, j: nat)
    requires j < |codes| && codes[j] == m
    ensures var all, p := Handled(codes, m, j, |codes|), |Handled(codes, m, j, j)|;
            p <= |all| && Handled(codes, m, j + 1, |codes|) == InsertAt(all, p, m)
              && |Handled(codes, m, j + 1, j + 1)| == p + 1
            && |Handled(codes, m, j + 1, |codes|)| == |all| + 1
  {
    HandledInsert(codes, m, j, |codes|);
    HandledSame(codes, m, j, m, j + 1, j);
  }

  lemma {:induction false} InsertOne(codes: seq<nat>, m: nat, j: nat, h: nat, delta: nat, n: nat, i: nat)
    requires Valid(codes) && j < |codes| && m < LIMIT && codes[j] == m && InStep(codes, m, j, h, delta, n, i)
    ensures Insert(Deltas(codes, m, j, h, delta), Handled(codes, m, j, |codes|), n, i) == codes
    decreases LIMIT - m, |codes| - j + 1, 0
  {
    var p := |Handled(codes, m, j, j)|;
    HandledPlace(codes, m, j);
    NotPast(n, i + delta, h, m, p);
    Position(n, i + delta, h, m, p);
    InsertNext(delta, Deltas(codes, m, j + 1, h + 1, 0), Handled(codes, m, j, |codes|), n, i);
    hide Handled, Times, Div, Mod, Insert, Deltas;
    assert InStep(codes, m, j + 1, h + 1, 0, m, p + 1);
    InsertDeltas(codes, m, j + 1, h + 1, 0, m, p + 1);
    OneDelta(codes, m, j, h, delta);
  }

  lemma OneDelta(codes: seq<nat>, m: nat, j: nat, h: nat, delta: nat)
    requires Valid(codes) && j < |codes| && m < LIMIT && codes[j] == m
    ensures var ds := Deltas(codes, m, j, h, delta);
            ds != [] && ds[0] == delta && ds[1..] == Deltas(codes, m, j + 1, h + 1, 0)
  {
  }

  lemma TimesAdd(a: nat, b: nat, w: nat)
    ensures Times(a + b, w) == Times(a, w) + Times(b, w) && (a > 0 ==> Times(a, w) >= w)
  {
    if a > 0 {
      MulGrows(w, a);
    }
  }

  lemma NotPast(n: nat, i: nat, h: nat, m: nat, p: nat)
    requires Times(n, h + 1) + i == Times(m, h + 1) + p && p <= h
    ensures n <= m
  {
    hide Times;
    if n > m {
      TimesAdd(n - m, m, h + 1);
    }
  }

  lemma Position(n: nat, i: nat, h: nat, m: nat, p: nat)
    requires Times(n, h + 1) + i == Times(m, h + 1) + p && p <= h && n <= m
    ensures n + Div(i, h + 1) == m && Mod(i, h + 1) == p
  {
    assert i == (m - n) * (h + 1) + p;
    DivModUnique(i, h + 1, m - n, p);
  }

  lemma RoundUnfold(codes: seq<nat>, n: nat, h: nat, delta: nat)
    requires Valid(codes) && n < LIMIT
    ensures var m := NextCode(codes, n);
            RoundDeltas(codes, n, h, delta)
            == if m == LIMIT then [] else Deltas(codes, m, 0, h, delta + Times(m - n - 1, h + 1))
  {
    hide NextCode, Times;
  }

  lemma InsertNext(d: nat, rest: seq<nat>, out: seq<nat>, n: nat, i: nat)
    ensures var size := |out| + 1;
            var p, n' := Mod(i + d, size), n + Div(i + d, size);
            Insert([d] + rest, out, n, i) == Insert(rest, InsertAt(out, p, n'), n', p + 1)
  {
    hide Mod, Div;
    assert ([d] + rest)[1..] == rest;
  }

  lemma InsertNone(out: seq<nat>, n: nat, i: nat)
    ensures Insert([], out, n, i) == out
  {
  }

  lemma {:induction false} RoundInsert(codes: seq<nat>, m: nat, h: nat, delta: nat, n: nat, i: nat)
    requires Valid(codes) && m < LIMIT && h == |Handled(codes, m, |codes|, |codes|)|
    requires Times(n, h + 1) + i + delta == Times(m + 1, h + 1)
    ensures Insert(RoundDeltas(codes, m, h, delta), Handled(codes, m, |codes|, |codes|), n, i) == codes
    decreases LIMIT - m, 0
  {
    RoundUnfold(codes, m, h, delta);
    var m' := NextCode(codes, m);
    hide RoundDeltas, Insert, Handled, Times;
    if m' == LIMIT {
      HandledAll(codes, m, |codes|, |codes|);
      InsertNone(Handled(codes, m, |codes|, |codes|), n, i);
    } else {
      SameUpToNext(codes, m);
      TimesAdd(m' - m - 1, m + 1, h + 1);
      NextInStep(codes, m', h, delta + Times(m' - m - 1, h + 1), n, i);
      hide *;
      InsertDeltas(codes, m', 0, h, delta + Times(m' - m - 1, h + 1), n, i);
    }
  }

  lemma NextInStep(codes: seq<nat>, m: nat, h: nat, delta: nat, n: nat, i: nat)
    requires h == |Handled(codes, m, 0, |codes|)| && Times(n, h + 1) + i + delta == Times(m, h + 1)
    ensures InStep(codes, m, 0, h, delta, n, i)
  {
    hide Times;
  }

  // Lower case and the delimiter

  /** The same code points from 128 on, in the same places. */
  predicate SameAbove(a: seq<nat>, b: seq<nat>) {
    |a| == |b| && forall i :: 0 <= i < |a| ==> a[i] == b[i] || (a[i] < INITIAL_N && b[i] < INITIAL_N)
  }

  lemma LowerSameAbove(codes: seq<nat>)
    requires Valid(codes)
    ensures Valid(LowerAll(codes)) && SameAbove(codes, LowerAll(codes))
  {
  }

  lemma NextCodeSame(a: seq<nat>, b: seq<nat>, n: nat)
    requires Valid(a) && Valid(b) && SameAbove(a, b) && n >= INITIAL_N - 1
    ensures NextCode(a, n) == NextCode(b, n)
  {
    var m := NextCode(a, n);
    if m < LIMIT {
      var x :| 0 <= x < |a| && a[x] == m;
      assert b[x] == m;
    }
    NextCodeUnique(b, n, m);
  }

  lemma NextCodeUnique(codes: seq<nat>, n: nat, m: nat)
    requires Valid(codes) && m <= LIMIT && (m < LIMIT ==> m > n && m in codes)
    requires forall i :: 0 <= i < |codes| && codes[i] > n ==> m <= codes[i]
    ensures m == NextCode(codes, n)
  {
  }

  /** The deltas do not depend on which basic code points there are, only on where. */
  lemma {:induction false} DeltasSame(a: seq<nat>, b: seq<nat>, m: nat, j: nat, h: nat, delta: nat)
    requires Valid(a) && Valid(b) && SameAbove(a, b) && j <= |a| && INITIAL_N <= m < LIMIT
    ensures Deltas(a, m, j, h, delta) == Deltas(b, m, j, h, delta)
    decreases LIMIT - m, |a| - j + 1
  {
    hide RoundDeltas;
    if j == |a| {
      RoundSame(a, b, m, h, delta + 1);
    } else if a[j] < m {
      DeltasSame(a, b, m, j + 1, h, delta + 1);
    } else if a[j] > m {
      DeltasSame(a, b, m, j + 1, h, delta);
    } else {
      DeltasSame(a, b, m, j + 1, h + 1, 0);
    }
  }

  lemma {:induction false} RoundSame(a: seq<nat>, b: seq<nat>, n: nat, h: nat, delta: nat)
    requires Valid(a) && Valid(b) && SameAbove(a, b) && INITIAL_N - 1 <= n < LIMIT
    ensures RoundDeltas(a, n, h, delta) == RoundDeltas(b, n, h, delta)
    decreases LIMIT - n, 0
  {
    hide *;
    NextCodeSame(a, b, n);
    RoundUnfold(a, n, h, delta);
    RoundUnfold(b, n, h, delta);
    var m := NextCode(a, n);
    if m != LIMIT {
      DeltasSame(a, b, m, 0, h, delta + Times(m - n - 1, h + 1));
    }
  }

  lemma {:induction false} BasicHandled(codes: seq<nat>, e: nat)
    requires e <= |codes|
    ensures Copy(Basic(codes[..e])) == Handled(LowerAll(codes), INITIAL_N - 1, |codes|, e)
  {
    if e > 0 {
      BasicHandled(codes, e - 1);
      assert codes[..e][..e - 1] == codes[..e - 1];
      if codes[e - 1] < INITIAL_N {
        var b := Basic(codes[..e]);
        assert b[..|b| - 1] == Basic(codes[..e - 1]);
      }
    }
  }

  lemma {:induction false} BasicIsBasic(codes: seq<nat>)
    ensures forall b :: b in Basic(codes) ==> b < INITIAL_N
  {
    if codes != [] {
      BasicIsBasic(codes[..|codes| - 1]);
    }
  }

  lemma {:induction false} VarIntNoHyphen(q: nat, k: nat, bias: nat)
    ensures HYPHEN !in VarInt(q, k, bias)
    decreases q
  {
    hide Threshold, Div, Mod;
    if q >= Threshold(k, bias) {
      VarIntNoHyphen(Div(q - Threshold(k, bias), BASE - Threshold(k, bias)), k + BASE, bias);
    }
  }

  lemma {:induction false} DigitsNoHyphen(deltas: seq<nat>, h: nat, bias: nat, first: bool)
    ensures HYPHEN !in Digits(deltas, h, bias, first)
    decreases |deltas|
  {
    hide VarInt, Adapt;
    if deltas != [] {
      VarIntNoHyphen(deltas[0], BASE, bias);
      DigitsNoHyphen(deltas[1..], h + 1, Adapt(deltas[0], h + 1, first), false);
    }
  }

  lemma {:induction false} LastHyphenIs(a: seq<byte>, b: seq<byte>)
    requires HYPHEN !in b
    ensures LastHyphen(b) == None && LastHyphen(a + [HYPHEN] + b) == Some(|a|)
    decreases |b|
  {
    var s := a + [HYPHEN] + b;
    if b != [] {
      var b' := b[..|b| - 1];
      assert s[..|s| - 1] == a + [HYPHEN] + b' && s[|s| - 1] == b[|b| - 1];
      LastHyphenIs(a, b');
    } else {
      assert s[|s| - 1] == HYPHEN;
    }
  }

  /** The decoder of section 6.2 gives back what was encoded, with ASCII letters in lower case. */
  lemma DecodeEncode(codes: seq<nat>)
    requires Valid(codes)
    ensures Decode(Encode(codes)) == Some(LowerAll(codes))
  {
    hide NextRound, Digits, RoundDeltas, Insertions, Insert;
    var basic, lower := Basic(codes), LowerAll(codes);
    var h := |basic|;
    var deltas := RoundDeltas(codes, INITIAL_N - 1, h, 0);
    var digits := Digits(deltas, h, INITIAL_BIAS, true);
    RoundEmitsDigits(codes, INITIAL_N - 1, h, 0, INITIAL_BIAS, true);
    DigitsNoHyphen(deltas, h, INITIAL_BIAS, true);
    LastHyphenIs(basic, digits);
    BasicIsBasic(codes);
    Inserted(codes);
    DigitsRoundTrip(deltas, Copy(basic), INITIAL_N, 0, INITIAL_BIAS);
    if basic == [] {
      assert Encode(codes) == digits;
    } else {
      assert Encode(codes) == basic + [HYPHEN] + digits;
      assert Encode(codes)[..h] == basic && Encode(codes)[h + 1..] == digits;
    }
  }

  lemma Inserted(codes: seq<nat>)
    requires Valid(codes)
    ensures var basic := Basic(codes);
            Insert(RoundDeltas(codes, INITIAL_N - 1, |basic|, 0), Copy(basic), INITIAL_N, 0) == LowerAll(codes)
  {
    var lower, h := LowerAll(codes), |Basic(codes)|;
    LowerSameAbove(codes);
    RoundSame(codes, lower, INITIAL_N - 1, h, 0);
    BasicHandled(codes, |codes|);
    assert codes[..|codes|] == codes;
    RoundInsert(lower, INITIAL_N - 1, h, 0, INITIAL_N, 0);
  }

  // ---------------------------------------------------------------------------------------
  // The code
  // ---------------------------------------------------------------------------------------

  type uint32 = x: int | 0 <= x < 0x1_0000_0000

  /** What fits into a signed int, which is what `left` has to hold. */
  type int32 = x: int | -0x8000_0000 <= x < 0x8000_0000

  /** The longest host that idn_to_ascii lets through has one byte less. */
  const TOO_LONG: nat := 1020

  function Clamp(x: int, low: int, high: int): int { if x < low then low else if x > high then high else x }

  /** The digits of one delta. The code keeps the bias negated and adds the base to it for every digit. */
  method EncodeDelta(delta: int32, negated: int) returns (digits: seq<byte>)
    requires delta >= 0 && negated <= 0
    ensures digits == VarInt(delta, BASE, -negated)
  {
    hide Div, Mod, VarInt, Digit;
    var left, bias := delta, negated;
    ghost var k: nat := 0;
    digits := [];
    while true
      invariant 0 <= left && bias == k + negated
        && digits + VarInt(left, k + BASE, -negated) == VarInt(delta, BASE, -negated)
      decreases left
    {
      bias := bias + 36;
      var t := Clamp(bias, 1, 26);
      assert t == Threshold(k + BASE, -negated);
      if left < t {
        VarIntUnfold(left, k + BASE, -negated);
        digits := digits + [Digit(left)];
        return;
      }
      VarIntSplits(left, k + BASE, -negated, digits);
      left := left - t;
      digits := digits + [Digit(t + Mod(left, 36 - t))];
      left := Div(left, 36 - t);
      k := k + BASE;
    }
  }

  lemma VarIntSplits(q: nat, k: nat, bias: nat, digits: seq<byte>)
    requires q >= Threshold(k, bias)
    ensures var t := Threshold(k, bias);
            digits + VarInt(q, k, bias)
            == digits + [Digit(t + Mod(q - t, BASE - t))] + VarInt(Div(q - t, BASE - t), k + BASE, bias)
  {
    VarIntUnfold(q, k, bias);
    hide Div, Mod, VarInt, Threshold, Digit;
  }

  /** The new bias, negated. */
  method UpdateBias(delta: uint32, processed: nat, first: bool) returns (bias: int)
    requires processed > 0 && delta <= 0x8000_0000
    ensures bias <= 0 && -bias == Adapt(delta, processed, first)
  {
    var d: uint32 := if first then delta / 700 else delta / 2;
    d := d + Div(d, processed);
    bias := 0;
    ghost var whole := d;
    while d > 35 * 13
      invariant bias <= 0 && AdaptLoop(whole, 0) == AdaptLoop(d, -bias)
      decreases d
    {
      d := d / 35;
      bias := bias - 36;
    }
    bias := bias - Div(36 * d, d + 38);
  }

  /** The lowest code point not processed yet. */
  method Lowest(codes: seq<nat>, n: nat) returns (next: nat)
    requires Valid(codes)
    ensures next == NextCode(codes, n)
  {
    next := LIMIT;
    for x := 0 to |codes|
      invariant next <= LIMIT && (next < LIMIT ==> next > n && next in codes)
      invariant forall y :: 0 <= y < x && codes[y] > n ==> next <= codes[y]
    {
      if codes[x] > n && codes[x] < next {
        next := codes[x];
      }
    }
    NextCodeUnique(codes, n, next);
  }

  /** The first `begin` bytes of a label have been decoded to `codes`. */
  ghost predicate Decoded(part: seq<byte>, begin: nat, codes: seq<nat>)
    requires WellFormed(part)
  {
    begin <= |part| && WellFormed(part[begin..]) && Codes(part) == codes + Codes(part[begin..])
  }

  lemma DecodedStart(part: seq<byte>)
    requires WellFormed(part)
    ensures Decoded(part, 0, [])
  {
    hide Codes, WellFormed;
    assert part[0..] == part;
  }

  lemma DecodedEnd(part: seq<byte>, codes: seq<nat>)
    requires WellFormed(part) && Decoded(part, |part|, codes)
    ensures codes == Codes(part)
  {
    hide Codes, WellFormed;
    CodesEmpty();
    assert part[|part|..] == [];
  }

  lemma DecodedStep(part: seq<byte>, begin: nat, codes: seq<nat>)
    requires WellFormed(part) && begin < |part| && Decoded(part, begin, codes)
    ensures var rest := part[begin..];
            Announced(rest[0]) <= |rest| && Decoded(part, begin + Announced(rest[0]), codes + [Utf8.Decode(rest)])
  {
    hide Codes, Utf8.Decode, WellFormed, Announced;
    var rest := part[begin..];
    CodesStep(rest);
    var n := Announced(rest[0]);
    assert rest[n..] == part[begin + n..];
    assert codes + ([Utf8.Decode(rest)] + Codes(rest[n..])) == codes + [Utf8.Decode(rest)] + Codes(rest[n..]);
  }

  /** The first loop: decodes the label and copies its basic code points. */
  method CopyBasic(part: seq<byte>) returns (codes: seq<nat>, result: seq<byte>)
    requires WellFormed(part)
    ensures codes == Codes(part) && result == Basic(codes)
  {
    hide Codes, WellFormed, Decoded, Announced, Utf8.Decode, Basic, Utf8.Encode;
    DecodedStart(part);
    BasicEmpty();
    var begin := 0;
    codes, result := [], [];
    while begin < |part|
      invariant begin <= |part| && Decoded(part, begin, codes) && result == Basic(codes)
    {
      var rest := part[begin..];
      DecodedStep(part, begin, codes);
      var code := Utf8.Decode(rest);
      AnnouncedSome(rest[0]);
      begin := begin + Announced(rest[0]);
      BasicNext(codes, code);
      if code <= 127 {
        result := result + [Lower(code)];
      }
      codes := codes + [code];
    }
    DecodedEnd(part, codes);
  }

  lemma AnnouncedSome(b: byte)
    ensures Announced(b) > 0
  {
  }

  lemma BasicEmpty()
    ensures Basic([]) == []
  {
  }

  lemma BasicNext(codes: seq<nat>, code: nat)
    ensures Basic(codes + [code]) == Basic(codes) + if code < INITIAL_N then [Lower(code)] else []
  {
    assert (codes + [code])[..|codes|] == codes;
  }

  // The main loop

  /** All the places before e, and only they, are handled when their number is e. */
  lemma {:induction false} HandledFull(codes: seq<nat>, m: nat, j: nat, e: nat)
    requires e <= |codes| && |Handled(codes, m, j, e)| == e
    ensures forall x :: 0 <= x < e ==> codes[x] < m || (codes[x] == m && x < j)
  {
    if e > 0 {
      HandledFull(codes, m, j, e - 1);
    }
  }

  /** While some code point is not processed there is a next one, and otherwise there is none. */
  lemma NextExists(codes: seq<nat>, n: nat)
    requires Valid(codes)
    ensures |Handled(codes, n, |codes|, |codes|)| < |codes| <==> NextCode(codes, n) < LIMIT
  {
    if |Handled(codes, n, |codes|, |codes|)| == |codes| {
      HandledFull(codes, n, |codes|, |codes|);
    } else if NextCode(codes, n) == LIMIT {
      HandledAll(codes, n, |codes|, |codes|);
    }
  }

  /** How far the loop has got: what is still to come completes the encoding. */
  ghost predicate Rounds(codes: seq<nat>, n: nat, processed: nat, delta: nat, bias: nat, first: bool, result: seq<byte>)
    requires Valid(codes)
  {
    n < LIMIT && processed == |Handled(codes, n, |codes|, |codes|)|
    && result + NextRound(codes, n, processed, delta, bias, first) == Encode(codes)
  }

  ghost predicate Places(codes: seq<nat>, m: nat, j: nat, processed: nat, delta: nat, bias: nat, first: bool,
          result: seq<byte>)
    requires Valid(codes)
  {
    m < LIMIT && j <= |codes| && processed == |Handled(codes, m, j, |codes|)|
    && result + Emit(codes, m, j, processed, delta, bias, first) == Encode(codes)
  }

  lemma RoundsStart(codes: seq<nat>)
    requires Valid(codes)
    ensures var basic := Basic(codes);
            Rounds(codes, INITIAL_N - 1, |basic|, 0, INITIAL_BIAS, true, basic + if basic == [] then [] else [HYPHEN])
  {
    BasicHandled(codes, |codes|);
    assert codes[..|codes|] == codes;
    HandledLower(codes, |codes|);
  }

  lemma {:induction false} HandledLower(codes: seq<nat>, e: nat)
    requires e <= |codes|
    ensures |Handled(codes, INITIAL_N - 1, |codes|, e)| == |Handled(LowerAll(codes), INITIAL_N - 1, |codes|, e)|
  {
    if e > 0 {
      HandledLower(codes, e - 1);
    }
  }

  lemma RoundsEnd(codes: seq<nat>, n: nat, delta: nat, bias: nat, first: bool, result: seq<byte>)
    requires Valid(codes) && Rounds(codes, n, |codes|, delta, bias, first, result)
    ensures result == Encode(codes)
  {
    NextExists(codes, n);
  }

  lemma RoundBegins(codes: seq<nat>, n: nat, processed: nat, delta: nat, bias: nat, first: bool, result: seq<byte>)
    requires Valid(codes) && Rounds(codes, n, processed, delta, bias, first, result) && processed < |codes|
    ensures var m := NextCode(codes, n);
            m < LIMIT && Places(codes, m, 0, processed, delta + Times(m - n - 1, processed + 1), bias, first, result)
  {
    NextExists(codes, n);
    SameUpToNext(codes, n);
    NextRoundUnfold(codes, n, processed, delta, bias, first);
    hide Times, Handled, Encode, Emit, NextRound, NextCode;
  }

  /** No code point lies between n and the next one. */
  lemma SameUpToNext(codes: seq<nat>, n: nat)
    requires Valid(codes) && n < LIMIT
    ensures Handled(codes, n, |codes|, |codes|) == Handled(codes, NextCode(codes, n), 0, |codes|)
  {
    HandledSame(codes, n, |codes|, NextCode(codes, n), 0, |codes|);
    hide Handled, NextCode;
  }

  lemma NextRoundUnfold(codes: seq<nat>, n: nat, h: nat, delta: nat, bias: nat, first: bool)
    requires Valid(codes) && n < LIMIT
    ensures var m := NextCode(codes, n);
            NextRound(codes, n, h, delta, bias, first)
            == if m == LIMIT then [] else Emit(codes, m, 0, h, delta + Times(m - n - 1, h + 1), bias, first)
  {
    hide NextCode, Times, Emit;
  }

  lemma RoundEnds(codes: seq<nat>, m: nat, processed: nat, delta: nat, bias: nat, first: bool, result: seq<byte>)
    requires Valid(codes) && Places(codes, m, |codes|, processed, delta, bias, first, result)
    ensures Rounds(codes, m, processed, delta + 1, bias, first, result)
  {
    hide Handled, Encode, NextRound;
  }

  lemma PlaceSkipped(codes: seq<nat>, m: nat, j: nat, processed: nat, delta: nat, bias: nat, first: bool,
          result: seq<byte>)
    requires Valid(codes) && Places(codes, m, j, processed, delta, bias, first, result) && j < |codes| && codes[j] != m
    ensures Places(codes, m, j + 1, processed, if codes[j] < m then delta + 1 else delta, bias, first, result)
  {
    HandledSame(codes, m, j, m, j + 1, |codes|);
    hide Handled, Encode;
  }

  lemma PlaceHandled(codes: seq<nat>, m: nat, j: nat, processed: nat, delta: nat, bias: nat, first: bool,
          result: seq<byte>)
    requires Valid(codes) && Places(codes, m, j, processed, delta, bias, first, result) && j < |codes| && codes[j] == m
    ensures processed < |codes|
    ensures Places(codes, m, j + 1, processed + 1, 0, Adapt(delta, processed + 1, first), false,
                   result + VarInt(delta, BASE, bias))
  {
    HandledPlace(codes, m, j);
    hide Handled, Encode, Adapt, VarInt;
  }

  /**
    The largest delta: what is left over from the last round, the jump to the next code point, and the places passed.
  */
  const MOST: nat := 1020 + LIMIT * 1020

  lemma JumpBound(n: nat, m: nat, processed: nat)
    requires n < m < LIMIT && processed < TOO_LONG
    ensures Times(m - n - 1, processed + 1) <= LIMIT * 1020
  {
    assert (m - n - 1) * (processed + 1) <= (m - n - 1) * 1020 by {
      assert (m - n - 1) * (1020 - (processed + 1)) >= 0;
    }
  }

  /** One round: inserts every occurrence of the code point `next`. */
  method Round(codes: seq<nat>, next: nat, result0: seq<byte>, processed0: nat, delta0: uint32, bias0: int,
          first0: bool)
    returns (result: seq<byte>, processed: nat, delta: uint32, bias: int, first: bool)
    requires Valid(codes) && |codes| < TOO_LONG && next in codes && bias0 <= 0 && delta0 <= MOST
    requires Places(codes, next, 0, processed0, delta0, -bias0, first0, result0)
    ensures bias <= 0 && Places(codes, next, |codes|, processed, delta, -bias, first, result) && delta <= |codes|
  {
    hide Places, Valid, Adapt, VarInt;
    result, processed, delta, bias, first := result0, processed0, delta0, bias0, first0;
    for j := 0 to |codes|
      invariant bias <= 0 && Places(codes, next, j, processed, delta, -bias, first, result)
      invariant if next in codes[..j] then delta <= j else delta <= MOST + j
    {
      assert codes[..j + 1] == codes[..j] + [codes[j]];
      if codes[j] == next {
        PlaceHandled(codes, next, j, processed, delta, -bias, first, result);
        var digits := EncodeDelta(delta, bias);
        result := result + digits;
        processed := processed + 1;
        bias := UpdateBias(delta, processed, first);
        first := false;
        delta := 0;
      } else {
        PlaceSkipped(codes, next, j, processed, delta, -bias, first, result);
        if codes[j] < next {
          delta := delta + 1;
        }
      }
    }
    assert codes[..|codes|] == codes;
  }

  /**
    The code computes the encoding of section 6.3 for every label of a host under 1020 bytes, with the
    bias negated and n one behind. The types of the variables say that no delta ever wraps around or
    leaves the range of a signed int.
  */
  method Punycode(part: seq<byte>) returns (result: seq<byte>)
    requires WellFormed(part) && |part| < TOO_LONG
    ensures Valid(Codes(part)) && result == Encode(Codes(part))
  {
    hide Rounds, Places, WellFormed, Codes, Encode, NextCode, Basic, Handled, Times;
    var codes;
    codes, result := CopyBasic(part);
    CodesEncode(part);
    var processed: nat := |result|;
    if processed > 0 {
      result := result + [HYPHEN];
    }
    RoundsStart(codes);
    RoundsBound(codes, 127, processed, 0, 72, true, result);
    var n: uint32, delta: uint32, bias: int, first := 127, 0, -72, true;
    while processed < |codes|
      invariant processed <= |codes| && bias <= 0 && Rounds(codes, n, processed, delta, -bias, first, result)
        && delta <= |codes| + 1
      decreases LIMIT - n
    {
      var next := Lowest(codes, n);
      RoundBegins(codes, n, processed, delta, -bias, first, result);
      JumpBound(n, next, processed);
      delta := delta + Times(next - n - 1, processed + 1);
      result, processed, delta, bias, first := Round(codes, next, result, processed, delta, bias, first);
      RoundEnds(codes, next, processed, delta, -bias, first, result);
      delta := delta + 1;
      n := next;
      RoundsBound(codes, n, processed, delta, -bias, first, result);
    }
    RoundsEnd(codes, n, delta, -bias, first, result);
  }

  lemma RoundsBound(codes: seq<nat>, n: nat, processed: nat, delta: nat, bias: nat, first: bool, result: seq<byte>)
    requires Valid(codes) && Rounds(codes, n, processed, delta, bias, first, result)
    ensures processed <= |codes|
  {
  }

  // ---------------------------------------------------------------------------------------
  // idn_to_ascii
  // ---------------------------------------------------------------------------------------

  datatype Result<T> = Ok(value: T) | Error(message: string)

  predicate IsAsciiHost(s: seq<byte>) { forall i :: 0 <= i < |s| ==> s[i] <= 127 }

  function LowerBytes(s: seq<byte>): seq<byte> {
    seq(|s|, i requires 0 <= i < |s| => if 65 <= s[i] <= 90 then s[i] + 32 else s[i])
  }

  const XN: seq<byte> := [120, 110, 45, 45]

  /** One label of the answer. */
  ghost function Label(part: seq<byte>): seq<byte>
    requires WellFormed(part)
  {
    if IsAsciiHost(part) then part
    else
      CodesEncode(part);
      XN + Encode(Codes(part))
  }

  /** A label that is not ASCII can be read back from the answer. */
  lemma LabelRoundTrip(part: seq<byte>)
    requires WellFormed(part) && !IsAsciiHost(part)
    ensures |Label(part)| >= 4 && Label(part)[..4] == XN && Decode(Label(part)[4..]) == Some(LowerAll(Codes(part)))
  {
    hide Codes, WellFormed, Decode, Encode;
    CodesEncode(part);
    DecodeEncode(Codes(part));
    assert (XN + Encode(Codes(part)))[4..] == Encode(Codes(part));
  }

  /** Where the first label ends. */
  function FirstDot(s: seq<byte>): (k: nat)
    ensures k <= |s| && (k < |s| ==> s[k] == DOT) && forall j :: 0 <= j < k ==> s[j] != DOT
  {
    if s == [] || s[0] == DOT then 0 else 1 + FirstDot(s[1..])
  }

  lemma Prepend(c: nat, s: seq<byte>)
    requires Starts(c, s) && WellFormed(s[|Utf8.Encode(c)|..])
    ensures WellFormed(s)
  {
  }

  lemma SplitAt(a: seq<byte>, b: seq<byte>, n: nat)
    requires n <= |a|
    ensures var s := a + [DOT] + b; s[..n] == a[..n] && s[n..] == a[n..] + [DOT] + b
  {
  }

  lemma StartsPrefix(c: nat, s: seq<byte>, a: seq<byte>)
    requires Starts(c, s) && |Utf8.Encode(c)| <= |a| && |Utf8.Encode(c)| <= |s|
    requires s[..|Utf8.Encode(c)|] == a[..|Utf8.Encode(c)|]
    ensures Starts(c, a)
  {
    hide Utf8.Encode;
  }

  /** A dot splits a well-formed text into well-formed texts: it cannot be inside a character. */
  lemma {:induction false} SplitWellFormed(a: seq<byte>, b: seq<byte>)
    requires WellFormed(a + [DOT] + b)
    ensures WellFormed(a) && WellFormed(b)
    decreases |a|
  {
    var s := a + [DOT] + b;
    CodesStep(s);
    if a == [] {
      assert Announced(DOT) == 1 && s[1..] == b;
    } else {
      DotOutside(s, |a|);
      hide *;
      var n, c := Announced(s[0]), Utf8.Decode(s);
      SplitAt(a, b, n);
      StartsSome(c, s);
      StartsPrefix(c, s, a);
      SplitWellFormed(a[n..], b);
      Prepend(c, a);
    }
  }

  lemma StartsSome(c: nat, s: seq<byte>)
    requires Starts(c, s)
    ensures c < LIMIT && 0 < |Utf8.Encode(c)| <= |s|
  {
  }

  lemma DotOutside(s: seq<byte>, k: nat)
    requires WellFormed(s) && 0 < k < |s| && s[k] == DOT
    ensures Announced(s[0]) <= k
  {
    CodesStep(s);
    var c := Utf8.Decode(s);
    hide Utf8.Encode, Utf8.Decode;
    if k < |Utf8.Encode(c)| {
      TailHigh(c, k);
    }
  }

  lemma TailHigh(c: nat, k: nat)
    requires c < 0x110000 && 0 < k < |Utf8.Encode(c)|
    ensures Utf8.Encode(c)[k] >= 0x80
  {
  }

  /** The answer for a host that is not ASCII: label by label. */
  ghost function Labels(s: seq<byte>): seq<byte>
    requires WellFormed(s)
    decreases |s|
  {
    var k := FirstDot(s);
    if k == |s| then Label(s)
    else
      assert s == s[..k] + [DOT] + s[k + 1..];
      SplitWellFormed(s[..k], s[k + 1..]);
      Label(s[..k]) + [DOT] + Labels(s[k + 1..])
  }

  lemma LabelsNext(s: seq<byte>, done: seq<byte>)
    requires WellFormed(s) && FirstDot(s) < |s|
    ensures var k := FirstDot(s);
            && WellFormed(s[..k]) && WellFormed(s[k + 1..])
            && done + Labels(s) == done + Label(s[..k]) + [DOT] + Labels(s[k + 1..])
  {
    var k := FirstDot(s);
    hide WellFormed, Label, FirstDot;
    assert s == s[..k] + [DOT] + s[k + 1..];
    SplitWellFormed(s[..k], s[k + 1..]);
    AssocLabels(done, Label(s[..k]), [DOT], Labels(s[k + 1..]));
  }

  lemma AssocLabels(a: seq<byte>, b: seq<byte>, c: seq<byte>, d: seq<byte>)
    ensures a + (b + c + d) == a + b + c + d
  {
  }

  method LabelOf(part: seq<byte>) returns (r: seq<byte>)
    requires WellFormed(part) && |part| < TOO_LONG
    ensures r == Label(part)
  {
    hide Codes, WellFormed, Encode;
    if IsAsciiHost(part) {
      r := part;
    } else {
      var code := Punycode(part);
      r := XN + code;
    }
  }

  method IdnToAscii(host: seq<byte>) returns (r: Result<seq<byte>>)
    ensures IsAsciiHost(host) ==> r == Ok(LowerBytes(host))
    ensures !IsAsciiHost(host) ==> (r.Ok? <==> WellFormed(host) && |host| < TOO_LONG)
    ensures !IsAsciiHost(host) && r.Ok? ==> r.value == Labels(host)
  {
    hide Codes, WellFormed, Label, FirstDot, LowerBytes;
    if IsAsciiHost(host) {
      return Ok(LowerBytes(host));
    }
    var ok := CheckUtf8(host);
    if !ok {
      return Error("Host name must be encoded in UTF-8");
    }
    if |host| >= 255 * 4 {
      return Error("Host name is too long");
    }
    var result, rest := [], host;
    assert result + Labels(rest) == Labels(host);
    while FirstDot(rest) < |rest|
      invariant WellFormed(rest) && |rest| < TOO_LONG && Labels(host) == result + Labels(rest)
      decreases |rest|
    {
      var k := FirstDot(rest);
      LabelsNext(rest, result);
      var piece := LabelOf(rest[..k]);
      result := result + piece + [DOT];
      rest := rest[k + 1..];
    }
    var piece := LabelOf(rest);
    r := Ok(result + piece);
  }
}
