/** TL binary values: the format of td/utils/tl_storers.h and tl_parsers.h. */
module Tl {
  // What storing writes and what parsing reads, as functions on bytes, for integers, strings, vectors, pairs and
  // variants nested in any way.

  import opened Modular

  type byte = x: int | 0 <= x < 256

  datatype Option<T> = None | Some(value: T)

  /** The C++ type that directs storing and parsing. */
  datatype Type = Int | Long | Str | Vec(elem: Type) | Pair(first: Type, second: Type) | Variant(alts: seq<Type>)

  datatype Value =
    | IntValue(x: int)
    | LongValue(x: int)
    | StrValue(s: seq<byte>)
    | VecValue(items: seq<Value>)
    | PairValue(a: Value, b: Value)
    | VariantValue(offset: nat, v: Value)

  const TWO_8: int := 0x100
  const TWO_16: int := 0x1_0000
  const TWO_24: int := 0x100_0000
  const TWO_31: int := 0x8000_0000
  const TWO_32: int := 0x1_0000_0000
  const TWO_63: int := 0x8000_0000_0000_0000
  const TWO_64: int := 0x1_0000_0000_0000_0000

  /** The value has the type, its strings are below 2^32 bytes, and its vectors and variants have int32 sizes. */
  predicate Has(v: Value, t: Type)
    decreases v
  {
    match v
    case IntValue(x) => t.Int? && -TWO_31 <= x < TWO_31
    case LongValue(x) => t.Long? && -TWO_63 <= x < TWO_63
    case StrValue(s) => t.Str? && |s| < TWO_32
    case VecValue(items) => t.Vec? && |items| < TWO_31 && forall i :: 0 <= i < |items| ==> Has(items[i], t.elem)
    case PairValue(a, b) => t.Pair? && Has(a, t.first) && Has(b, t.second)
    case VariantValue(k, w) => t.Variant? && k < |t.alts| && |t.alts| < TWO_31 && Has(w, t.alts[k])
  }

  // ---------------------------------------------------------------------------------------
  // Storing
  // ---------------------------------------------------------------------------------------

  /** The n bytes of a number, lowest first. */
  function Word(x: nat, n: nat): (r: seq<byte>)
    ensures |r| == n
  {
    if n == 0 then [] else [x % 256] + Word(x / 256, n - 1)
  }

  /** memcpy of a 32-bit and of a 64-bit integer in two's complement. */
  function IntBytes(x: int): (r: seq<byte>)
    requires -TWO_31 <= x < TWO_31
    ensures |r| == 4
  {
    Word(if x < 0 then x + TWO_32 else x, 4)
  }

  function LongBytes(x: int): (r: seq<byte>)
    requires -TWO_63 <= x < TWO_63
    ensures |r| == 8
  {
    Word(if x < 0 then x + TWO_64 else x, 8)
  }

  /** The zeros that fill up a multiple of four. */
  function Padding(n: nat): (r: seq<byte>)
    ensures (n + |r|) % 4 == 0 && |r| < 4
  {
    if n % 4 == 0 then [] else seq(4 - n % 4, i => 0)
  }

  function StringHeader(len: nat): seq<byte>
    requires len < TWO_32
  {
    if len < 254 then [len] else if len < TWO_24 then [254] + Word(len, 3) else [255] + Word(len, 4) + [0, 0, 0]
  }

  /** store_string. */
  function StringBytes(s: seq<byte>): (r: seq<byte>)
    requires |s| < TWO_32
    ensures |r| % 4 == 0 && |r| > 0
  {
    var header := StringHeader(|s|);
    header + s + Padding(if |s| < 254 then |s| + 1 else |s|)
  }

  function Count(v: Value): nat { if v.VecValue? then |v.items| else 0 }

  /** store, for every type. */
  function Bytes(v: Value, t: Type): (r: seq<byte>)
    requires Has(v, t)
    ensures |r| > 0
    decreases v, Count(v) + 1
  {
    match v
    case IntValue(x) => IntBytes(x)
    case LongValue(x) => LongBytes(x)
    case StrValue(s) => StringBytes(s)
    case VecValue(items) => IntBytes(|items|) + ItemBytes(v, t, 0)
    case PairValue(a, b) => Bytes(a, t.first) + Bytes(b, t.second)
    case VariantValue(k, w) => IntBytes(k) + Bytes(w, t.alts[k])
  }

  /** The elements of a vector from number i on. */
  function ItemBytes(v: Value, t: Type, i: nat): (r: seq<byte>)
    requires Has(v, t) && v.VecValue? && i <= |v.items|
    ensures |r| >= |v.items| - i
    decreases v, |v.items| - i
  {
    if i == |v.items| then [] else Bytes(v.items[i], t.elem) + ItemBytes(v, t, i + 1)
  }

  /** TlStorerCalcLength::store_string. */
  function StringLength(len: nat): nat {
    var add := if len < 254 then len + 1 else if len < TWO_24 then len + 4 else len + 8;
    (add + 3) / 4 * 4
  }

  /** TlStorerCalcLength. */
  function Length(v: Value): nat
    decreases v, Count(v) + 1
  {
    match v
    case IntValue(_) => 4
    case LongValue(_) => 8
    case StrValue(s) => StringLength(|s|)
    case VecValue(_) => 4 + ItemsLength(v, 0)
    case PairValue(a, b) => Length(a) + Length(b)
    case VariantValue(_, w) => 4 + Length(w)
  }

  function ItemsLength(v: Value, i: nat): nat
    requires v.VecValue? && i <= |v.items|
    decreases v, |v.items| - i
  {
    if i == |v.items| then 0 else Length(v.items[i]) + ItemsLength(v, i + 1)
  }

  lemma StringLengthIs(s: seq<byte>)
    requires |s| < TWO_32
    ensures |StringBytes(s)| == StringLength(|s|)
  {
  }

  /** The computed length is the number of bytes that are stored. */
  lemma {:induction false} LengthIs(v: Value, t: Type)
    requires Has(v, t)
    ensures |Bytes(v, t)| == Length(v)
    decreases v, Count(v) + 1
  {
    match v
    case IntValue(_) =>
    case LongValue(_) =>
    case StrValue(s) => StringLengthIs(s);
    case VecValue(_) => ItemsLengthIs(v, t, 0);
    case PairValue(a, b) => LengthIs(a, t.first); LengthIs(b, t.second);
    case VariantValue(k, w) => LengthIs(w, t.alts[k]);
  }

  lemma {:induction false} ItemsLengthIs(v: Value, t: Type, i: nat)
    requires Has(v, t) && v.VecValue? && i <= |v.items|
    ensures |ItemBytes(v, t, i)| == ItemsLength(v, i)
    decreases v, |v.items| - i
  {
    if i < |v.items| {
      LengthIs(v.items[i], t.elem);
      ItemsLengthIs(v, t, i + 1);
    }
  }

  // ---------------------------------------------------------------------------------------
  // Parsing
  // ---------------------------------------------------------------------------------------

  /** The number that n bytes stand for. */
  function Number(s: seq<byte>): (x: nat)
    decreases |s|
  {
    if s == [] then 0
    else
      var low: int := s[0];
      low + 256 * Number(s[1..])
  }

  function ToInt(u: nat): int { if u < TWO_31 then u else u - TWO_32 }
  function ToLong(u: nat): int { if u < TWO_63 then u else u - TWO_64 }

  /** What is read and what is left, or nothing after an error. */
  datatype Fetched<T> = Failed | Fetched(value: T, rest: seq<byte>)

  function FetchInt(s: seq<byte>): Fetched<int> {
    if |s| < 4 then Failed else Fetched(ToInt(Number(s[..4])), s[4..])
  }

  function FetchLong(s: seq<byte>): Fetched<int> {
    if |s| < 8 then Failed else Fetched(ToLong(Number(s[..8])), s[8..])
  }

  function RoundUp(n: nat): nat { (n + 3) / 4 * 4 }

  /** The bytes of a string behind its header, and the padding, if they are all there. */
  function Taken(s: seq<byte>, begin: nat, len: nat, end: nat): Fetched<seq<byte>>
    requires begin + len <= end
  {
    if |s| < end then Failed else Fetched(s[begin..begin + len], s[end..])
  }

  /** How long the header of a string is, and how long the text; nothing if the header is cut off. */
  datatype Header = Header(begin: nat, len: nat, end: nat)

  /** Where the text begins, its length, and where the padding ends. */
  function FetchHeader(s: seq<byte>): (r: Option<Header>)
    ensures r.Some? ==> r.value.begin + r.value.len <= r.value.end
  {
    if |s| < 4 then None
    else if s[0] < 254 then
      var len: int := s[0];
      Some(Header(1, len, 4 + len / 4 * 4))
    else if s[0] == 254 then
      var len := Number(s[1..4]);
      Some(Header(4, len, 4 + RoundUp(len)))
    else if |s| < 8 then None
    else
      var len := Number(s[1..8]);
      Some(Header(8, len, 8 + RoundUp(len)))
  }

  /** fetch_string. */
  function FetchString(s: seq<byte>): Fetched<seq<byte>> {
    match FetchHeader(s) case None => Failed case Some(h) => Taken(s, h.begin, h.len, h.end)
  }

  /** parse, for every type. */
  function Parse(t: Type, s: seq<byte>): Fetched<Value>
    decreases t, 0
  {
    match t
    case Int => (match FetchInt(s) case Failed => Failed case Fetched(x, rest) => Fetched(IntValue(x), rest))
    case Long => (match FetchLong(s) case Failed => Failed case Fetched(x, rest) => Fetched(LongValue(x), rest))
    case Str => (match FetchString(s) case Failed => Failed case Fetched(x, rest) => Fetched(StrValue(x), rest))
    case Vec(elem) =>
      (match FetchInt(s)
       case Failed => Failed
       case Fetched(x, rest) =>
         var size := if x < 0 then x + TWO_32 else x;
         if |rest| < size then Failed
         else
           match ParseItems(elem, size, rest)
           case Failed => Failed
           case Fetched(items, end) => Fetched(VecValue(items), end))
    case Pair(first, second) =>
      (match Parse(first, s)
       case Failed => Failed
       case Fetched(a, rest) =>
         match Parse(second, rest) case Failed => Failed case Fetched(b, end) => Fetched(PairValue(a, b), end))
    case Variant(alts) =>
      match FetchInt(s)
      case Failed => Failed
      case Fetched(k, rest) =>
        if k < 0 || k >= |alts| then Failed
        else match Parse(alts[k], rest) case Failed => Failed case Fetched(w, end) => Fetched(VariantValue(k, w), end)
  }

  function ParseItems(elem: Type, n: nat, s: seq<byte>): Fetched<seq<Value>>
    decreases elem, n + 1
  {
    if n == 0 then Fetched([], s)
    else
      match Parse(elem, s)
      case Failed => Failed
      case Fetched(v, rest) =>
        match ParseItems(elem, n - 1, rest) case Failed => Failed case Fetched(items, end) => Fetched([v] + items, end)
  }

  // ---------------------------------------------------------------------------------------
  // Parsing undoes storing
  // ---------------------------------------------------------------------------------------

  lemma {:induction false} WordNumber(x: nat, n: nat)
    requires x < Pow256(n)
    ensures Number(Word(x, n)) == x
    decreases n
  {
    if n > 0 {
      WordNumber(x / 256, n - 1);
      assert Word(x, n)[1..] == Word(x / 256, n - 1);
    }
  }

  function Pow256(n: nat): nat { if n == 0 then 1 else 256 * Pow256(n - 1) }

  lemma Powers()
    ensures Pow256(3) == TWO_24 && Pow256(4) == TWO_32 && Pow256(8) == TWO_64
  {
    assert Pow256(1) == 256;
    assert Pow256(2) == TWO_16;
    assert Pow256(5) == 0x100_0000_0000;
    assert Pow256(6) == 0x1_0000_0000_0000;
    assert Pow256(7) == 0x100_0000_0000_0000;
  }

  lemma IntRoundTrip(x: int, more: seq<byte>)
    requires -TWO_31 <= x < TWO_31
    ensures FetchInt(IntBytes(x) + more) == Fetched(x, more)
  {
    hide Word, Number;
    Powers();
    WordNumber(if x < 0 then x + TWO_32 else x, 4);
    var s := IntBytes(x) + more;
    assert s[..4] == IntBytes(x) && s[4..] == more;
  }

  lemma LongRoundTrip(x: int, more: seq<byte>)
    requires -TWO_63 <= x < TWO_63
    ensures FetchLong(LongBytes(x) + more) == Fetched(x, more)
  {
    hide Word, Number;
    Powers();
    WordNumber(if x < 0 then x + TWO_64 else x, 8);
    var s := LongBytes(x) + more;
    assert s[..8] == LongBytes(x) && s[8..] == more;
  }

  /** Three zero bytes on top do not change a number. */
  lemma {:induction false} NumberPadded(a: seq<byte>, n: nat)
    ensures Number(a + seq(n, i => 0)) == Number(a)
    decreases |a|, n
  {
    var z: seq<byte> := seq(n, i => 0);
    if a == [] {
      assert a + z == z;
      if n > 0 {
        NumberPadded([], n - 1);
        assert z[1..] == seq(n - 1, i => 0) && [] + z[1..] == z[1..];
      }
    } else {
      NumberPadded(a[1..], n);
      assert (a + z)[1..] == a[1..] + z;
    }
  }

  /** What FetchHeader makes of the header of a text with `n` bytes. */
  function HeaderOf(n: nat): Header {
    if n < 254 then Header(1, n, 4 + n / 4 * 4)
    else if n < TWO_24 then Header(4, n, 4 + RoundUp(n))
    else Header(8, n, 8 + RoundUp(n))
  }

  lemma ShortHeader(n: nat, rest: seq<byte>)
    requires n < 254 && |rest| >= 3
    ensures FetchHeader([n] + rest) == Some(HeaderOf(n))
  {
  }

  lemma MediumHeader(n: nat, rest: seq<byte>)
    requires 254 <= n < TWO_24
    ensures FetchHeader([254] + Word(n, 3) + rest) == Some(HeaderOf(n))
  {
    hide Number, Word, RoundUp;
    Powers();
    WordNumber(n, 3);
    assert ([254] + Word(n, 3) + rest)[1..4] == Word(n, 3);
  }

  lemma LongHeader(n: nat, rest: seq<byte>)
    requires TWO_24 <= n < TWO_32
    ensures FetchHeader([255] + Word(n, 4) + [0, 0, 0] + rest) == Some(HeaderOf(n))
  {
    hide Number, Word, RoundUp;
    Powers();
    WordNumber(n, 4);
    NumberPadded(Word(n, 4), 3);
    assert seq(3, i => 0) == [0, 0, 0];
    assert ([255] + Word(n, 4) + [0, 0, 0] + rest)[1..8] == Word(n, 4) + [0, 0, 0];
  }

  /** Behind the header come the text, the padding and what follows. */
  lemma TakenWhole(header: seq<byte>, s: seq<byte>, pad: seq<byte>, more: seq<byte>)
    ensures Taken(header + (s + pad + more), |header|, |s|, |header| + |s| + |pad|) == Fetched(s, more)
  {
    var t := header + (s + pad + more);
    assert t[|header|..|header| + |s|] == s;
    assert t[|header| + |s| + |pad|..] == more;
  }

  /** The padding ends where the header says. */
  lemma PaddingEnds(n: nat)
    requires n < TWO_32
    ensures var h, pad := HeaderOf(n), Padding(if n < 254 then n + 1 else n);
            h.begin == |StringHeader(n)| && h.len == n && h.end == h.begin + n + |pad|
            && (n < 254 ==> n + |pad| >= 3)
  {
    hide Word;
  }

  lemma HeaderRead(n: nat, rest: seq<byte>)
    requires n < TWO_32 && (n < 254 ==> |rest| >= 3)
    ensures FetchHeader(StringHeader(n) + rest) == Some(HeaderOf(n))
  {
    hide FetchHeader, HeaderOf, Word;
    if n < 254 {
      ShortHeader(n, rest);
    } else if n < TWO_24 {
      MediumHeader(n, rest);
    } else {
      LongHeader(n, rest);
    }
  }

  lemma StringRoundTrip(s: seq<byte>, more: seq<byte>)
    requires |s| < TWO_32
    ensures FetchString(StringBytes(s) + more) == Fetched(s, more)
  {
    var header, pad := StringHeader(|s|), Padding(if |s| < 254 then |s| + 1 else |s|);
    PaddingEnds(|s|);
    HeaderRead(|s|, s + pad + more);
    TakenWhole(header, s, pad, more);
    hide StringHeader, Padding, FetchHeader, HeaderOf, Taken;
    Behind(header, s, pad, more);
  }

  lemma Behind(header: seq<byte>, s: seq<byte>, pad: seq<byte>, more: seq<byte>)
    ensures header + s + pad + more == header + (s + pad + more)
  {
  }

  lemma Assoc(a: seq<byte>, b: seq<byte>, c: seq<byte>)
    ensures a + b + c == a + (b + c)
  {
  }

  /** Parsing what was stored gives the value back, whatever follows. */
  lemma {:induction false} RoundTrip(v: Value, t: Type, more: seq<byte>)
    requires Has(v, t)
    ensures Parse(t, Bytes(v, t) + more) == Fetched(v, more)
    decreases v, Count(v) + 1
  {
    hide IntBytes, LongBytes, StringBytes, FetchInt, FetchLong, FetchString;
    match v
    case IntValue(x) => IntRoundTrip(x, more);
    case LongValue(x) => LongRoundTrip(x, more);
    case StrValue(s) => StringRoundTrip(s, more);
    case VecValue(items) =>
      IntRoundTrip(|items|, ItemBytes(v, t, 0) + more);
      Assoc(IntBytes(|items|), ItemBytes(v, t, 0), more);
      ItemsRoundTrip(v, t, 0, more);
      assert items[0..] == items;
    case PairValue(a, b) =>
      RoundTrip(a, t.first, Bytes(b, t.second) + more);
      RoundTrip(b, t.second, more);
      Assoc(Bytes(a, t.first), Bytes(b, t.second), more);
    case VariantValue(k, w) =>
      IntRoundTrip(k, Bytes(w, t.alts[k]) + more);
      RoundTrip(w, t.alts[k], more);
      Assoc(IntBytes(k), Bytes(w, t.alts[k]), more);
  }

  lemma {:induction false} ItemsRoundTrip(v: Value, t: Type, i: nat, more: seq<byte>)
    requires Has(v, t) && v.VecValue? && i <= |v.items|
    ensures ParseItems(t.elem, |v.items| - i, ItemBytes(v, t, i) + more) == Fetched(v.items[i..], more)
    decreases v, |v.items| - i
  {
    hide Bytes, Parse;
    if i == |v.items| {
      assert ItemBytes(v, t, i) + more == more && v.items[i..] == [];
    } else {
      var tail := ItemBytes(v, t, i + 1);
      RoundTrip(v.items[i], t.elem, tail + more);
      ItemsRoundTrip(v, t, i + 1, more);
      Assoc(Bytes(v.items[i], t.elem), tail, more);
      assert v.items[i..] == [v.items[i]] + v.items[i + 1..];
    }
  }

  /** unserialize: nothing may be left over. */
  function Unserialize(t: Type, s: seq<byte>): Option<Value> {
    match Parse(t, s) case Failed => None case Fetched(v, rest) => if rest == [] then Some(v) else None
  }

  lemma SerializeRoundTrip(v: Value, t: Type)
    requires Has(v, t)
    ensures Unserialize(t, Bytes(v, t)) == Some(v)
  {
    hide Bytes, Parse;
    RoundTrip(v, t, []);
    assert Bytes(v, t) + [] == Bytes(v, t);
  }

  /** Different values of a type are stored differently. */
  lemma StoringIsInjective(v: Value, w: Value, t: Type)
    requires Has(v, t) && Has(w, t) && Bytes(v, t) == Bytes(w, t)
    ensures v == w
  {
    SerializeRoundTrip(v, t);
    SerializeRoundTrip(w, t);
  }
}
