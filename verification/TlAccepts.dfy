/**
  Which bytes unserialize accepts (td/utils/tl_helpers.h, tl_parsers.h): the stored form of a value up to the
  header and the padding of its strings, and nothing shorter or longer.
*/
module TlAccepts {
  import opened Modular
  import opened Tl

  const TWO_56: int := 0x100_0000_0000_0000

  /** A string as it may be stored: with a length of one, three or seven bytes, and any bytes as padding. */
  datatype Text =
    | Small(s: seq<byte>, pad: seq<byte>)
    | Medium(s: seq<byte>, pad: seq<byte>)
    | Large(s: seq<byte>, pad: seq<byte>)

  /** A value as it may be stored. */
  datatype Form =
    | IntForm(x: int)
    | LongForm(x: int)
    | StrForm(text: Text)
    | VecForm(items: seq<Form>)
    | PairForm(a: Form, b: Form)
    | VariantForm(k: nat, f: Form)

  predicate TextOk(x: Text) {
    && |x.pad| < 4
    && match x
       case Small(s, pad) => |s| < 254 && (1 + |s| + |pad|) % 4 == 0
       case Medium(s, pad) => |s| < TWO_24 && (|s| + |pad|) % 4 == 0
       case Large(s, pad) => |s| < TWO_56 && (|s| + |pad|) % 4 == 0
  }

  predicate FormOk(f: Form, t: Type)
    decreases f, 0
  {
    match f
    case IntForm(x) => t.Int? && -TWO_31 <= x < TWO_31
    case LongForm(x) => t.Long? && -TWO_63 <= x < TWO_63
    case StrForm(text) => t.Str? && TextOk(text)
    case VecForm(items) => t.Vec? && |items| < TWO_32 && ItemsOk(items, t.elem)
    case PairForm(a, b) => t.Pair? && FormOk(a, t.first) && FormOk(b, t.second)
    case VariantForm(k, g) => t.Variant? && k < |t.alts| && k < TWO_31 && FormOk(g, t.alts[k])
  }

  predicate ItemsOk(items: seq<Form>, elem: Type)
    decreases items, 0
  {
    items == [] || (FormOk(items[0], elem) && ItemsOk(items[1..], elem))
  }

  /** The text, then `more`. */
  function PutText(x: Text, more: seq<byte>): seq<byte>
    requires TextOk(x)
  {
    match x
    case Small(s, pad) => [|s|] + (s + (pad + more))
    case Medium(s, pad) => [254] + (Word(|s|, 3) + (s + (pad + more)))
    case Large(s, pad) => [255] + (Word(|s|, 7) + (s + (pad + more)))
  }

  /** The form, then `more`. */
  function Put(f: Form, t: Type, more: seq<byte>): seq<byte>
    requires FormOk(f, t)
    decreases f, 0
  {
    match f
    case IntForm(x) => IntBytes(x) + more
    case LongForm(x) => LongBytes(x) + more
    case StrForm(text) => PutText(text, more)
    case VecForm(items) => Word(|items|, 4) + PutItems(items, t.elem, more)
    case PairForm(a, b) => Put(a, t.first, Put(b, t.second, more))
    case VariantForm(k, g) => IntBytes(k) + Put(g, t.alts[k], more)
  }

  function PutItems(items: seq<Form>, elem: Type, more: seq<byte>): seq<byte>
    requires ItemsOk(items, elem)
    decreases items, 0
  {
    if items == [] then more else Put(items[0], elem, PutItems(items[1..], elem, more))
  }

  function ValueOf(f: Form): Value
    decreases f, 0
  {
    match f
    case IntForm(x) => IntValue(x)
    case LongForm(x) => LongValue(x)
    case StrForm(text) => StrValue(text.s)
    case VecForm(items) => VecValue(ValuesOf(items))
    case PairForm(a, b) => PairValue(ValueOf(a), ValueOf(b))
    case VariantForm(k, g) => VariantValue(k, ValueOf(g))
  }

  function ValuesOf(items: seq<Form>): (r: seq<Value>)
    ensures |r| == |items|
    decreases items, 0
  {
    if items == [] then [] else [ValueOf(items[0])] + ValuesOf(items[1..])
  }

  // ---------------------------------------------------------------------------------------
  // Every form is read
  // ---------------------------------------------------------------------------------------

  lemma Power7()
    ensures Pow256(7) == TWO_56
  {
    Powers();
  }

  lemma SmallReads(s: seq<byte>, pad: seq<byte>, more: seq<byte>)
    requires TextOk(Small(s, pad))
    ensures FetchString(PutText(Small(s, pad), more)) == Fetched(s, more)
  {
    var u := PutText(Small(s, pad), more);
    assert u[1..1 + |s|] == s;
    assert u[1 + |s| + |pad|..] == more;
    assert FetchHeader(u) == Some(Header(1, |s|, 1 + |s| + |pad|));
    hide FetchHeader, PutText;
  }

  lemma Parts(a: byte, w: seq<byte>, s: seq<byte>, pad: seq<byte>, more: seq<byte>)
    ensures var u, n := [a] + (w + (s + (pad + more))), 1 + |w|;
            u[0] == a && u[1..n] == w && u[n..n + |s|] == s && u[n + |s| + |pad|..] == more
  {
  }

  lemma LargeHeaderReads(u: seq<byte>, len: nat, pad: nat)
    requires 8 <= |u| && pad < 4 && (len + pad) % 4 == 0 && u[0] == 255 && Number(u[1..8]) == len
    ensures FetchHeader(u) == Some(Header(8, len, 8 + len + pad))
  {
    hide Number;
  }

  lemma MediumHeaderReads(u: seq<byte>, len: nat, pad: nat)
    requires 4 <= |u| && pad < 4 && (len + pad) % 4 == 0 && u[0] == 254 && Number(u[1..4]) == len
    ensures FetchHeader(u) == Some(Header(4, len, 4 + len + pad))
  {
    hide Number;
  }

  /** The text behind a header that has been read. */
  lemma TextFollows(u: seq<byte>, n: nat, s: seq<byte>, pad: nat, more: seq<byte>)
    requires FetchHeader(u) == Some(Header(n, |s|, n + |s| + pad)) && n + |s| + pad <= |u|
    requires u[n..n + |s|] == s && u[n + |s| + pad..] == more
    ensures FetchString(u) == Fetched(s, more)
  {
    hide FetchHeader;
  }

  lemma MediumReads(s: seq<byte>, pad: seq<byte>, more: seq<byte>)
    requires TextOk(Medium(s, pad))
    ensures FetchString(PutText(Medium(s, pad), more)) == Fetched(s, more)
  {
    Powers();
    WordNumber(|s|, 3);
    hide FetchHeader, FetchString, Number, Pow256, Word;
    var w := Word(|s|, 3);
    Parts(254, w, s, pad, more);
    var u := [254] + (w + (s + (pad + more)));
    MediumHeaderReads(u, |s|, |pad|);
    TextFollows(u, 4, s, |pad|, more);
  }

  lemma LargeReads(s: seq<byte>, pad: seq<byte>, more: seq<byte>)
    requires TextOk(Large(s, pad))
    ensures FetchString(PutText(Large(s, pad), more)) == Fetched(s, more)
  {
    Power7();
    WordNumber(|s|, 7);
    hide FetchHeader, FetchString, Number, Pow256, Word;
    var w := Word(|s|, 7);
    Parts(255, w, s, pad, more);
    var u := [255] + (w + (s + (pad + more)));
    LargeHeaderReads(u, |s|, |pad|);
    TextFollows(u, 8, s, |pad|, more);
  }

  lemma TextReads(x: Text, more: seq<byte>)
    requires TextOk(x)
    ensures FetchString(PutText(x, more)) == Fetched(x.s, more)
  {
    match x
    case Small(s, pad) => SmallReads(s, pad, more);
    case Medium(s, pad) => MediumReads(s, pad, more);
    case Large(s, pad) => LargeReads(s, pad, more);
  }

  /** The count of a vector, read as an unsigned number. */
  lemma CountReads(n: nat, more: seq<byte>)
    requires n < TWO_32
    ensures var r := FetchInt(Word(n, 4) + more);
            r.Fetched? && r.rest == more && (if r.value < 0 then r.value + TWO_32 else r.value) == n
  {
    hide Word, Number;
    Powers();
    WordNumber(n, 4);
    var s := Word(n, 4) + more;
    assert s[..4] == Word(n, 4) && s[4..] == more;
  }

  lemma {:induction false} PutLonger(f: Form, t: Type, more: seq<byte>)
    requires FormOk(f, t)
    ensures |Put(f, t, more)| > |more|
    decreases f, 0
  {
    match f
    case VecForm(items) => ItemsLonger(items, t.elem, more);
    case PairForm(a, b) =>
      PutLonger(b, t.second, more);
      PutLonger(a, t.first, Put(b, t.second, more));
    case VariantForm(k, g) => PutLonger(g, t.alts[k], more);
    case _ =>
  }

  lemma {:induction false} ItemsLonger(items: seq<Form>, elem: Type, more: seq<byte>)
    requires ItemsOk(items, elem)
    ensures |PutItems(items, elem, more)| >= |items| + |more|
    decreases items, 0
  {
    if items != [] {
      ItemsLonger(items[1..], elem, more);
      PutLonger(items[0], elem, PutItems(items[1..], elem, more));
    }
  }

  lemma {:induction false} FormReads(f: Form, t: Type, more: seq<byte>)
    requires FormOk(f, t)
    ensures Parse(t, Put(f, t, more)) == Fetched(ValueOf(f), more)
    decreases f, 0
  {
    hide IntBytes, LongBytes, FetchInt, FetchLong, FetchString, PutText, Word;
    match f
    case IntForm(x) => IntRoundTrip(x, more);
    case LongForm(x) => LongRoundTrip(x, more);
    case StrForm(text) => TextReads(text, more);
    case VecForm(items) =>
      CountReads(|items|, PutItems(items, t.elem, more));
      ItemsLonger(items, t.elem, more);
      ItemsRead(items, t.elem, more);
    case PairForm(a, b) =>
      FormReads(a, t.first, Put(b, t.second, more));
      FormReads(b, t.second, more);
    case VariantForm(k, g) =>
      IntRoundTrip(k, Put(g, t.alts[k], more));
      FormReads(g, t.alts[k], more);
  }

  lemma {:induction false} ItemsRead(items: seq<Form>, elem: Type, more: seq<byte>)
    requires ItemsOk(items, elem)
    ensures ParseItems(elem, |items|, PutItems(items, elem, more)) == Fetched(ValuesOf(items), more)
    decreases items, 0
  {
    hide Put, Parse;
    if items != [] {
      FormReads(items[0], elem, PutItems(items[1..], elem, more));
      ItemsRead(items[1..], elem, more);
    }
  }

  // ---------------------------------------------------------------------------------------
  // Nothing else is read
  // ---------------------------------------------------------------------------------------

  /** Bytes are the digits of their number. */
  lemma {:induction false} NumberWord(s: seq<byte>)
    ensures Word(Number(s), |s|) == s && Number(s) < Pow256(|s|)
    decreases |s|
  {
    if s != [] {
      var x := Number(s);
      NumberWord(s[1..]);
      LowDigit(s);
      WordUnfold(x, |s|);
      assert Pow256(|s|) == 256 * Pow256(|s| - 1);
      hide *;
      assert s == [s[0]] + s[1..];
    }
  }

  lemma LowDigit(s: seq<byte>)
    requires s != []
    ensures Number(s) == s[0] + 256 * Number(s[1..])
    ensures Number(s) % 256 == s[0] && Number(s) / 256 == Number(s[1..])
  {
    var low: int := s[0];
    var y := Number(s[1..]);
    assert Number(s) == low + 256 * y;
    hide *;
  }

  lemma WordUnfold(x: nat, n: nat)
    requires n > 0
    ensures Word(x, n) == [x % 256] + Word(x / 256, n - 1)
  {
  }

  lemma IntFrom(s: seq<byte>)
    requires FetchInt(s).Fetched?
    ensures var x := FetchInt(s).value; -TWO_31 <= x < TWO_31 && s == IntBytes(x) + FetchInt(s).rest
  {
    NumberWord(s[..4]);
    Powers();
    hide Word, Number;
    assert s == s[..4] + s[4..];
  }

  lemma LongFrom(s: seq<byte>)
    requires FetchLong(s).Fetched?
    ensures var x := FetchLong(s).value; -TWO_63 <= x < TWO_63 && s == LongBytes(x) + FetchLong(s).rest
  {
    NumberWord(s[..8]);
    Powers();
    hide Word, Number;
    assert s == s[..8] + s[8..];
  }

  lemma CountFrom(s: seq<byte>)
    requires FetchInt(s).Fetched?
    ensures var x := FetchInt(s).value;
            var n := if x < 0 then x + TWO_32 else x;
            0 <= n < TWO_32 && s == Word(n, 4) + FetchInt(s).rest
  {
    IntFrom(s);
  }

  /** The pieces of a string behind its header. */
  lemma Pieces(s: seq<byte>, begin: nat, len: nat, end: nat)
    requires begin + len <= end <= |s|
    ensures s == s[..begin] + (s[begin..begin + len] + (s[begin + len..end] + s[end..]))
  {
  }

  lemma SmallFrom(s: seq<byte>) returns (x: Text)
    requires FetchString(s).Fetched? && s[0] < 254
    ensures TextOk(x) && x.s == FetchString(s).value && s == PutText(x, FetchString(s).rest)
  {
    var len: int := s[0];
    var end := 4 + len / 4 * 4;
    Pieces(s, 1, len, end);
    x := Small(s[1..1 + len], s[1 + len..end]);
    assert s[..1] == [s[0]];
  }

  lemma RoundUpIs(n: nat)
    ensures n <= RoundUp(n) < n + 4 && RoundUp(n) % 4 == 0
  {
  }

  lemma MediumFacts(s: seq<byte>)
    requires FetchString(s).Fetched? && s[0] == 254
    ensures |s| >= 4 && 4 + RoundUp(Number(s[1..4])) <= |s|
    ensures var len := Number(s[1..4]);
            FetchString(s) == Fetched(s[4..4 + len], s[4 + RoundUp(len)..])
  {
    hide Number;
  }

  lemma MediumFrom(s: seq<byte>) returns (x: Text)
    requires FetchString(s).Fetched? && s[0] == 254
    ensures TextOk(x) && x.s == FetchString(s).value && s == PutText(x, FetchString(s).rest)
  {
    MediumFacts(s);
    hide FetchString, Word, Number;
    var len := Number(s[1..4]);
    var end := 4 + RoundUp(len);
    Pieces(s, 4, len, end);
    RoundUpIs(len);
    NumberWord(s[1..4]);
    Powers();
    hide RoundUp;
    x := Medium(s[4..4 + len], s[4 + len..end]);
    assert s[..4] == [254] + s[1..4];
    Assoc([254], s[1..4], x.s + (x.pad + s[end..]));
  }

  lemma LargeFacts(s: seq<byte>)
    requires FetchString(s).Fetched? && s[0] == 255
    ensures |s| >= 8 && 8 + RoundUp(Number(s[1..8])) <= |s|
    ensures var len := Number(s[1..8]);
            FetchString(s) == Fetched(s[8..8 + len], s[8 + RoundUp(len)..])
  {
    hide Number;
  }

  lemma LargeFrom(s: seq<byte>) returns (x: Text)
    requires FetchString(s).Fetched? && s[0] == 255
    ensures TextOk(x) && x.s == FetchString(s).value && s == PutText(x, FetchString(s).rest)
  {
    LargeFacts(s);
    hide FetchString, Word, Number;
    var len := Number(s[1..8]);
    var end := 8 + RoundUp(len);
    Pieces(s, 8, len, end);
    RoundUpIs(len);
    NumberWord(s[1..8]);
    Power7();
    hide RoundUp;
    x := Large(s[8..8 + len], s[8 + len..end]);
    assert s[..8] == [255] + s[1..8];
    Assoc([255], s[1..8], x.s + (x.pad + s[end..]));
  }

  lemma TextFrom(s: seq<byte>) returns (x: Text)
    requires FetchString(s).Fetched?
    ensures TextOk(x) && x.s == FetchString(s).value && s == PutText(x, FetchString(s).rest)
  {
    hide FetchString, PutText, TextOk;
    FetchedNotEmpty(s);
    if s[0] < 254 {
      x := SmallFrom(s);
    } else if s[0] == 254 {
      x := MediumFrom(s);
    } else {
      x := LargeFrom(s);
    }
  }

  lemma FetchedNotEmpty(s: seq<byte>)
    requires FetchString(s).Fetched?
    ensures s != []
  {
  }

  /** What a form says about the bytes it was read from. */
  predicate Stored(f: Form, t: Type, s: seq<byte>, v: Value, rest: seq<byte>) {
    FormOk(f, t) && s == Put(f, t, rest) && ValueOf(f) == v
  }

  predicate StoredItems(items: seq<Form>, elem: Type, s: seq<byte>, vs: seq<Value>, rest: seq<byte>) {
    ItemsOk(items, elem) && s == PutItems(items, elem, rest) && ValuesOf(items) == vs
  }

  lemma {:induction false} FormFrom(t: Type, s: seq<byte>) returns (f: Form)
    requires Parse(t, s).Fetched?
    ensures Stored(f, t, s, Parse(t, s).value, Parse(t, s).rest)
    decreases t, 0
  {
    hide IntBytes, LongBytes, FetchInt, FetchLong, FetchString, PutText, TextOk, Word;
    match t
    case Int =>
      IntFrom(s);
      f := IntForm(FetchInt(s).value);
    case Long =>
      LongFrom(s);
      f := LongForm(FetchLong(s).value);
    case Str =>
      var x := TextFrom(s);
      f := StrForm(x);
    case Vec(elem) =>
      CountFrom(s);
      var x, rest := FetchInt(s).value, FetchInt(s).rest;
      var items := ItemsFrom(elem, if x < 0 then x + TWO_32 else x, rest);
      f := VecForm(items);
    case Pair(first, second) =>
      var a := FormFrom(first, s);
      var b := FormFrom(second, Parse(first, s).rest);
      f := PairForm(a, b);
    case Variant(alts) =>
      IntFrom(s);
      var g := FormFrom(alts[FetchInt(s).value], FetchInt(s).rest);
      f := VariantForm(FetchInt(s).value, g);
  }

  lemma {:induction false} ItemsFrom(elem: Type, n: nat, s: seq<byte>) returns (items: seq<Form>)
    requires ParseItems(elem, n, s).Fetched?
    ensures |items| == n && StoredItems(items, elem, s, ParseItems(elem, n, s).value, ParseItems(elem, n, s).rest)
    decreases elem, n + 1
  {
    hide Put, Parse, FormOk, ValueOf;
    if n == 0 {
      items := [];
    } else {
      var f := FormFrom(elem, s);
      var rest := ItemsFrom(elem, n - 1, Parse(elem, s).rest);
      items := [f] + rest;
      assert items[1..] == rest;
    }
  }

  /** unserialize returns a value exactly for the bytes that one of its forms has, with nothing in front or behind. */
  lemma UnserializesExactly(t: Type, s: seq<byte>, v: Value)
    ensures Unserialize(t, s) == Some(v) <==> exists f :: FormOk(f, t) && s == Put(f, t, []) && ValueOf(f) == v
  {
    hide Parse, Put, FormOk, ValueOf;
    if Unserialize(t, s) == Some(v) {
      var f := FormFrom(t, s);
    }
    if f :| FormOk(f, t) && s == Put(f, t, []) && ValueOf(f) == v {
      FormReads(f, t, []);
    }
  }

  // ---------------------------------------------------------------------------------------
  // What is refused
  // ---------------------------------------------------------------------------------------

  lemma {:induction false} PutSplit(f: Form, t: Type, more: seq<byte>)
    requires FormOk(f, t)
    ensures Put(f, t, more) == Put(f, t, []) + more
    decreases f, 0
  {
    hide IntBytes, LongBytes, Word, TextOk;
    match f
    case StrForm(text) => TextSplit(text, more);
    case VecForm(items) =>
      ItemsSplit(items, t.elem, more);
      Assoc(Word(|items|, 4), PutItems(items, t.elem, []), more);
    case PairForm(a, b) =>
      var bs := Put(b, t.second, []);
      PutSplit(b, t.second, more);
      PutSplit(a, t.first, bs + more);
      PutSplit(a, t.first, bs);
      Assoc(Put(a, t.first, []), bs, more);
    case VariantForm(k, g) =>
      PutSplit(g, t.alts[k], more);
      Assoc(IntBytes(k), Put(g, t.alts[k], []), more);
    case _ =>
  }

  lemma TextSplit(x: Text, more: seq<byte>)
    requires TextOk(x)
    ensures PutText(x, more) == PutText(x, []) + more
  {
    hide Word;
  }

  lemma {:induction false} ItemsSplit(items: seq<Form>, elem: Type, more: seq<byte>)
    requires ItemsOk(items, elem)
    ensures PutItems(items, elem, more) == PutItems(items, elem, []) + more
    decreases items, 0
  {
    hide Put;
    if items != [] {
      var rest := PutItems(items[1..], elem, []);
      ItemsSplit(items[1..], elem, more);
      PutSplit(items[0], elem, rest + more);
      PutSplit(items[0], elem, rest);
      Assoc(Put(items[0], elem, []), rest, more);
    } else {
      assert [] + more == more;
    }
  }

  /** More bytes behind an accepted input are an error. */
  lemma RefusesMore(t: Type, s: seq<byte>, more: seq<byte>)
    requires Unserialize(t, s).Some? && more != []
    ensures Unserialize(t, s + more) == None
  {
    hide Parse, Put, FormOk, ValueOf;
    var f := FormFrom(t, s);
    PutSplit(f, t, more);
    FormReads(f, t, more);
  }

  /** A proper beginning of an accepted input is an error. */
  lemma RefusesLess(t: Type, s: seq<byte>, n: nat)
    requires Unserialize(t, s).Some? && n < |s|
    ensures Unserialize(t, s[..n]) == None
  {
    hide Unserialize;
    assert s[..n] + s[n..] == s;
    if Unserialize(t, s[..n]).Some? {
      RefusesMore(t, s[..n], s[n..]);
    }
  }

  /** So is anything behind the stored bytes of a value, and any part of them that leaves out the end. */
  lemma StoredAlone(v: Value, t: Type, more: seq<byte>, n: nat)
    requires Has(v, t) && more != [] && n < |Bytes(v, t)|
    ensures Unserialize(t, Bytes(v, t) + more) == None && Unserialize(t, Bytes(v, t)[..n]) == None
  {
    hide Unserialize, Bytes;
    SerializeRoundTrip(v, t);
    RefusesMore(t, Bytes(v, t), more);
    RefusesLess(t, Bytes(v, t), n);
  }

  /** A variant whose index is out of range is an error, whatever follows it. */
  lemma RefusesVariant(alts: seq<Type>, k: int, more: seq<byte>)
    requires -TWO_31 <= k < TWO_31 && !(0 <= k < |alts|)
    ensures Parse(Variant(alts), IntBytes(k) + more) == Failed && Unserialize(Variant(alts), IntBytes(k) + more) == None
  {
    hide IntBytes, FetchInt;
    IntRoundTrip(k, more);
  }

  /** Canonical forms: what store writes is a form of the value. */
  lemma BytesAreForm(v: Value, t: Type) returns (f: Form)
    requires Has(v, t)
    ensures FormOk(f, t) && ValueOf(f) == v && Bytes(v, t) == Put(f, t, [])
  {
    hide Bytes, Put, FormOk, ValueOf, Parse;
    SerializeRoundTrip(v, t);
    f := FormFrom(t, Bytes(v, t));
  }

  /** Integers are stored with their low byte first. */
  lemma {:induction false} WordIs(x: nat, n: nat, i: nat)
    requires i < n
    ensures Pow256(i) > 0 && Word(x, n)[i] == x / Pow256(i) % 256
    decreases i
  {
    if i > 0 {
      WordIs(x / 256, n - 1, i - 1);
      DivTwice(x, Pow256(i - 1));
    }
  }

  lemma DivTwice(x: nat, b: nat)
    requires b > 0
    ensures x / 256 / b == x / (256 * b)
  {
    hide *;
    var q, r := x / 256, x % 256;
    var p, m := q / b, q % b;
    DivMod(q, b);
    ModUnique(q, b, Div(q, b), Mod(q, b));
    var k := p * b;
    assert q == k + m && x == 256 * q + r;
    assert p * (256 * b) == 256 * k by { Commutes(p, b); }
    ModUnique(x, 256 * b, p, 256 * m + r);
  }

  lemma Commutes(p: nat, b: nat)
    ensures p * (256 * b) == 256 * (p * b)
  {
  }

  /** A string is stored in the shortest of its forms, with zeros as padding. */
  lemma ShortestForm(s: seq<byte>) returns (x: Text)
    requires |s| < TWO_32
    ensures TextOk(x) && x.s == s && StringBytes(s) == PutText(x, []) && forall i :: 0 <= i < |x.pad| ==> x.pad[i] == 0
    ensures if |s| < 254 then x.Small? else if |s| < TWO_24 then x.Medium? else x.Large?
  {
    var pad := Padding(if |s| < 254 then |s| + 1 else |s|);
    x := if |s| < 254 then Small(s, pad) else if |s| < TWO_24 then Medium(s, pad) else Large(s, pad);
    HeaderIs(x);
    hide Word, PutText, StringHeader;
    assert s + (pad + []) == s + pad;
    Assoc(StringHeader(|s|), s, pad);
  }

  lemma HeaderIs(x: Text)
    requires TextOk(x) && |x.s| < TWO_32
    requires if |x.s| < 254 then x.Small? else if |x.s| < TWO_24 then x.Medium? else x.Large?
    ensures PutText(x, []) == StringHeader(|x.s|) + (x.s + (x.pad + []))
  {
    var rest := x.s + (x.pad + []);
    if x.Medium? {
      Assoc([254], Word(|x.s|, 3), rest);
    } else if x.Large? {
      Powers();
      WordTail(|x.s|, 4);
      Assoc([255], Word(|x.s|, 7), rest);
      Assoc([255], Word(|x.s|, 4), [0, 0, 0]);
    }
    hide Word, TextOk, Pow256;
  }

  lemma {:induction false} WordTail(x: nat, n: nat)
    requires x < Pow256(n)
    ensures Word(x, n + 3) == Word(x, n) + [0, 0, 0]
  {
    if n > 0 {
      WordTail(x / 256, n - 1);
      WordUnfold(x, n + 3);
      WordUnfold(x, n);
    } else {
      assert Word(0, 1) == [0] && Word(0, 2) == [0, 0] && Word(0, 3) == [0, 0, 0];
    }
  }
}
