/**
  The texts that json_decode accepts (td/utils/JsonBuilder.cpp), by a grammar of their own: trees that say how a
  value is written, with every blank, escape and digit. Sections 2 to 7 of RFC 8259 describe the format; the trees
  also cover what the code takes beyond it.
*/
module JsonGrammar {
  import opened Utf8
  import opened Json
  import JsonPrinter

  /** A hexadecimal digit, in either case. */
  datatype Digit = Digit(value: nat, upper: bool)

  /** One element of a string's text. */
  datatype Unit =
    | Raw(c: byte)                              // a byte that stands for itself
    | Short(c: byte)                            // a two-byte escape
    | Code(ds: seq<Digit>)                      // \u and four digits
    | Joined(hi: seq<Digit>, lo: seq<Digit>)    // two such escapes that make one code point
    | Stray(c: byte)                            // a backslash before any other byte, which the code drops

  datatype Tree =
    | Nothing
    | Truth(b: bool)
    | Numeral(token: seq<byte>)
    | Str(units: seq<Unit>)
    | Arr(gap: seq<byte>, items: seq<Item>)
    | Obj(gap: seq<byte>, members: seq<Member>)

  datatype Item = Item(before: seq<byte>, tree: Tree, after: seq<byte>)

  datatype Member = Member(
    before: seq<byte>, name: seq<Unit>, left: seq<byte>, right: seq<byte>, tree: Tree, after: seq<byte>)

  // ---------------------------------------------------------------------------------------
  // Which trees there are
  // ---------------------------------------------------------------------------------------

  /** White space: space, tab, line feed and carriage return. */
  predicate Blank(ws: seq<byte>) {
    forall i :: 0 <= i < |ws| ==> ws[i] == 0x20 || ws[i] == 0x09 || ws[i] == 0x0A || ws[i] == 0x0D
  }

  /** The escapes of two bytes, and what they stand for. */
  function ShortEscapes(): map<byte, byte> {
    map[0x22 := 0x22, 0x5C := 0x5C, 0x2F := 0x2F,
        0x62 := 0x08, 0x66 := 0x0C, 0x6E := 0x0A, 0x72 := 0x0D, 0x74 := 0x09]
  }

  predicate Four(ds: seq<Digit>) { |ds| == 4 && forall i :: 0 <= i < 4 ==> ds[i].value < 16 }

  function Value(ds: seq<Digit>): (n: nat)
    requires Four(ds)
    ensures n < 0x10000
  {
    ds[0].value * 0x1000 + ds[1].value * 0x100 + ds[2].value * 0x10 + ds[3].value
  }

  predicate Half(ds: seq<Digit>) { Four(ds) && 0xD800 <= Value(ds) <= 0xDFFF }

  predicate UnitOk(u: Unit) {
    match u
    case Raw(c) => c != 0x22 && c != 0x5C
    case Short(c) => c in ShortEscapes()
    case Code(ds) => Four(ds)
    case Joined(hi, lo) => Half(hi) && Half(lo)
    case Stray(c) => c !in ShortEscapes() && c != 0x75
  }

  /** Whether a unit starts with the escape of a surrogate. */
  predicate StartsHalf(units: seq<Unit>) {
    units != [] && ((units[0].Code? && Half(units[0].ds)) || units[0].Joined?)
  }

  /** The units of a string; two escapes of surrogates in a row are one unit. */
  predicate UnitsOk(units: seq<Unit>) {
    units == []
    || (UnitOk(units[0]) && UnitsOk(units[1..])
        && (units[0].Code? && Half(units[0].ds) ==> !StartsHalf(units[1..])))
  }

  /** Number tokens: digits, signs, points and exponent letters, but not an exponent letter in front. */
  predicate NumeralByte(c: byte) { 0x30 <= c <= 0x39 || c == 0x2B || c == 0x2D || c == 0x2E || c == 0x65 || c == 0x45 }

  predicate NumeralOk(token: seq<byte>) {
    && token != [] && token[0] != 0x65 && token[0] != 0x45
    && forall i :: 0 <= i < |token| ==> NumeralByte(token[i])
  }

  predicate Good(t: Tree)
    decreases t, 1
  {
    match t
    case Nothing => true
    case Truth(_) => true
    case Numeral(token) => NumeralOk(token)
    case Str(units) => UnitsOk(units)
    case Arr(gap, items) => Blank(gap) && GoodItems(items)
    case Obj(gap, members) => Blank(gap) && GoodMembers(members)
  }

  predicate GoodItems(items: seq<Item>)
    decreases items, 0
  {
    items == []
    || (Blank(items[0].before) && Good(items[0].tree) && Blank(items[0].after) && GoodItems(items[1..]))
  }

  predicate GoodMembers(members: seq<Member>)
    decreases members, 0
  {
    members == []
    || (var m := members[0];
        && Blank(m.before) && UnitsOk(m.name) && Blank(m.left) && Blank(m.right) && Good(m.tree) && Blank(m.after)
        && GoodMembers(members[1..]))
  }

  // ---------------------------------------------------------------------------------------
  // How they are written
  // ---------------------------------------------------------------------------------------

  function DigitByte(d: Digit): byte
    requires d.value < 16
  {
    if d.value < 10 then 0x30 + d.value else if d.upper then 0x41 + (d.value - 10) else 0x61 + (d.value - 10)
  }

  /** \uXXXX */
  function CodeBytes(ds: seq<Digit>): (r: seq<byte>)
    requires Four(ds)
    ensures |r| == 6
  {
    [0x5C, 0x75, DigitByte(ds[0]), DigitByte(ds[1]), DigitByte(ds[2]), DigitByte(ds[3])]
  }

  function UnitBytes(u: Unit): seq<byte>
    requires UnitOk(u)
  {
    match u
    case Raw(c) => [c]
    case Short(c) => [0x5C, c]
    case Code(ds) => CodeBytes(ds)
    case Joined(hi, lo) => CodeBytes(hi) + CodeBytes(lo)
    case Stray(c) => [0x5C, c]
  }

  /** The units, then `more`. */
  function PutUnits(units: seq<Unit>, more: seq<byte>): seq<byte>
    requires UnitsOk(units)
  {
    if units == [] then more else UnitBytes(units[0]) + PutUnits(units[1..], more)
  }

  /** A string in its quotes, then `more`. */
  function PutString(units: seq<Unit>, more: seq<byte>): seq<byte>
    requires UnitsOk(units)
  {
    [0x22] + PutUnits(units, [0x22] + more)
  }

  /** A value, then `more`. */
  function Put(t: Tree, more: seq<byte>): seq<byte>
    requires Good(t)
    decreases t, 1
  {
    match t
    case Nothing => [0x6E, 0x75, 0x6C, 0x6C] + more
    case Truth(b) => (if b then [0x74, 0x72, 0x75, 0x65] else [0x66, 0x61, 0x6C, 0x73, 0x65]) + more
    case Numeral(token) => token + more
    case Str(units) => PutString(units, more)
    case Arr(gap, items) => [0x5B] + (gap + PutItems(items, more))
    case Obj(gap, members) => [0x7B] + (gap + PutMembers(members, more))
  }

  /** The elements of an array, the closing bracket, then `more`. */
  function PutItems(items: seq<Item>, more: seq<byte>): seq<byte>
    requires GoodItems(items)
    decreases items, 2
  {
    if items == [] then [0x5D] + more else items[0].before + PutItem(items, more)
  }

  function PutItem(items: seq<Item>, more: seq<byte>): seq<byte>
    requires items != [] && GoodItems(items)
    decreases items, 1
  {
    Put(items[0].tree, items[0].after + ItemEnd(items, more))
  }

  function ItemEnd(items: seq<Item>, more: seq<byte>): seq<byte>
    requires items != [] && GoodItems(items)
    decreases items, 0
  {
    if |items| == 1 then [0x5D] + more else [0x2C] + PutItems(items[1..], more)
  }

  function PutMembers(members: seq<Member>, more: seq<byte>): seq<byte>
    requires GoodMembers(members)
    decreases members, 3
  {
    if members == [] then [0x7D] + more else members[0].before + PutMember(members, more)
  }

  function PutMember(members: seq<Member>, more: seq<byte>): seq<byte>
    requires members != [] && GoodMembers(members)
    decreases members, 2
  {
    PutString(members[0].name, members[0].left + ([0x3A] + PutMemberValue(members, more)))
  }

  function PutMemberValue(members: seq<Member>, more: seq<byte>): seq<byte>
    requires members != [] && GoodMembers(members)
    decreases members, 1
  {
    members[0].right + Put(members[0].tree, members[0].after + MemberEnd(members, more))
  }

  function MemberEnd(members: seq<Member>, more: seq<byte>): seq<byte>
    requires members != [] && GoodMembers(members)
    decreases members, 0
  {
    if |members| == 1 then [0x7D] + more else [0x2C] + PutMembers(members[1..], more)
  }

  // ---------------------------------------------------------------------------------------
  // What they mean
  // ---------------------------------------------------------------------------------------

  /** Two halves of a code point beyond 16 bits. */
  function JoinedCode(hi: nat, lo: nat): (n: nat)
    requires 0xD800 <= hi <= 0xDFFF && 0xD800 <= lo <= 0xDFFF
    ensures 0x10000 <= n < 0x110000
  {
    0x10000 + (hi - 0xD800) % 0x400 * 0x400 + (lo - 0xD800) % 0x400
  }

  function UnitMeaning(u: Unit): seq<byte>
    requires UnitOk(u)
  {
    match u
    case Raw(c) => [c]
    case Short(c) => [ShortEscapes()[c]]
    case Code(ds) => Utf8.Encode(Value(ds))
    case Joined(hi, lo) => Utf8.Encode(JoinedCode(Value(hi), Value(lo)))
    case Stray(c) => [c]
  }

  function StringMeaning(units: seq<Unit>): seq<byte>
    requires UnitsOk(units)
  {
    if units == [] then [] else UnitMeaning(units[0]) + StringMeaning(units[1..])
  }

  function Meaning(t: Tree): JsonValue
    requires Good(t)
    decreases t, 1
  {
    match t
    case Nothing => Null
    case Truth(b) => Boolean(b)
    case Numeral(token) => Number(token)
    case Str(units) => String(StringMeaning(units))
    case Arr(_, items) => Array(ItemsMeaning(items))
    case Obj(_, members) => Object(MembersMeaning(members))
  }

  function ItemsMeaning(items: seq<Item>): (r: seq<JsonValue>)
    requires GoodItems(items)
    ensures |r| == |items|
    decreases items, 0
  {
    if items == [] then [] else [Meaning(items[0].tree)] + ItemsMeaning(items[1..])
  }

  function MembersMeaning(members: seq<Member>): (r: seq<Field>)
    requires GoodMembers(members)
    ensures |r| == |members|
    decreases members, 0
  {
    if members == [] then []
    else [Field(StringMeaning(members[0].name), Meaning(members[0].tree))] + MembersMeaning(members[1..])
  }

  // ---------------------------------------------------------------------------------------
  // What is written is read
  // ---------------------------------------------------------------------------------------

  lemma {:induction false} SkipBlank(ws: seq<byte>, x: seq<byte>)
    requires Blank(ws)
    ensures SkipSpaces(ws + x) == SkipSpaces(x)
  {
    if ws == [] {
      assert ws + x == x;
    } else {
      assert (ws + x)[1..] == ws[1..] + x;
      SkipBlank(ws[1..], x);
    }
  }

  lemma DigitRead(d: Digit)
    requires d.value < 16
    ensures HexValue(DigitByte(d)) == d.value && DigitByte(d) != 0x22 && DigitByte(d) != 0x5C
  {
  }

  /** Four digits stand for their number, in either case. */
  lemma CodeRead(ds: seq<Digit>, s: seq<byte>)
    requires Four(ds) && CodeBytes(ds) <= s
    ensures |s| >= 6 && s[0] == SLASH && s[1] == LETTER_U && Hex4(s[2..]) == Some(Value(ds))
    ensures Surrogate(Value(ds)) <==> Half(ds)
    ensures forall i :: 2 <= i < 6 ==> s[i] != QUOTE && s[i] != SLASH
  {
    assert forall i :: 0 <= i < 6 ==> s[i] == CodeBytes(ds)[i];
    DigitRead(ds[0]);
    DigitRead(ds[1]);
    DigitRead(ds[2]);
    DigitRead(ds[3]);
    hide HexValue, DigitByte;
  }

  /** The text of a unit and the text behind it are read one after the other. */
  predicate Reads(u: Unit, more: seq<byte>)
    requires UnitOk(u)
  {
    Unescape(UnitBytes(u) + more) == Prepend(UnitMeaning(u), Unescape(more))
  }

  lemma RawRead(u: Unit, more: seq<byte>)
    requires UnitOk(u) && u.Raw?
    ensures Reads(u, more)
  {
    assert ([u.c] + more)[1..] == more;
    hide Unicode;
  }

  lemma ShortRead(u: Unit, more: seq<byte>)
    requires UnitOk(u) && u.Short?
    ensures Reads(u, more)
  {
    var s := [0x5C, u.c] + more;
    assert s[2..] == more;
    hide Unicode;
    assert One(s) == Some(Piece(UnitMeaning(u), more));
  }

  lemma PrependNothing(r: Option<seq<byte>>)
    ensures Prepend([], r) == r
  {
    if r.Some? {
      assert [] + r.value == r.value;
    }
  }

  lemma StrayRead(u: Unit, more: seq<byte>)
    requires UnitOk(u) && u.Stray?
    ensures Reads(u, more)
  {
    var s := [0x5C, u.c] + more;
    hide Unicode;
    assert s[1..] == [u.c] + more && ([u.c] + more)[1..] == more;
    assert One(s) == Some(Piece([], [u.c] + more));
    assert One([u.c] + more) == Some(Piece([u.c], more));
    PrependNothing(Unescape([u.c] + more));
  }

  /** Behind the escape of a surrogate comes no other. */
  predicate NoHalf(more: seq<byte>) {
    |more| >= 6 && more[0] == SLASH && more[1] == LETTER_U ==>
      Hex4(more[2..]).Some? && !Surrogate(Hex4(more[2..]).value)
  }

  lemma CodeReads(u: Unit, more: seq<byte>)
    requires UnitOk(u) && u.Code? && (Half(u.ds) ==> NoHalf(more))
    ensures Reads(u, more)
  {
    var s := CodeBytes(u.ds) + more;
    CodeRead(u.ds, s);
    assert s[2..][4..] == more;
    UnicodeAlone(s[2..], Value(u.ds));
    hide Unicode, Hex4, CodeBytes, Half;
    assert One(s) == Some(Piece(UnitMeaning(u), more));
  }

  lemma UnicodeAlone(s: seq<byte>, num: nat)
    requires |s| >= 4 && Hex4(s) == Some(num) && (Surrogate(num) ==> NoHalf(s[4..]))
    ensures Unicode(s) == Some(Piece(Utf8.Encode(num), s[4..]))
  {
    hide Hex4, Surrogate;
    if |s| >= 10 {
      assert s[4..][2..] == s[6..] && s[4..][0] == s[4] && s[4..][1] == s[5];
    }
  }

  lemma JoinedReads(u: Unit, more: seq<byte>)
    requires UnitOk(u) && u.Joined?
    ensures Reads(u, more)
  {
    var s := CodeBytes(u.hi) + CodeBytes(u.lo) + more;
    assert s == CodeBytes(u.hi) + (CodeBytes(u.lo) + more);
    CodeRead(u.hi, s);
    assert s[6..] == CodeBytes(u.lo) + more;
    CodeRead(u.lo, s[6..]);
    assert s[2..][6..] == s[6..][2..] && s[2..][10..] == more && s[2..][4] == s[6..][0] && s[2..][5] == s[6..][1];
    JoinedIs(Value(u.hi), Value(u.lo));
    hide Hex4, CodeBytes, Half, Value, Pair, Utf8.Encode;
    assert One(s) == Some(Piece(UnitMeaning(u), more));
  }

  lemma JoinedIs(hi: nat, lo: nat)
    requires 0xD800 <= hi <= 0xDFFF && 0xD800 <= lo <= 0xDFFF
    ensures Surrogate(hi) && Surrogate(lo) && Pair(hi, lo) == JoinedCode(hi, lo)
  {
    assert hi % 0x400 == (hi - 0xD800) % 0x400;
    assert lo % 0x400 == (lo - 0xD800) % 0x400;
  }

  lemma UnitReads(u: Unit, more: seq<byte>)
    requires UnitOk(u) && (u.Code? && Half(u.ds) ==> NoHalf(more))
    ensures Reads(u, more)
  {
    hide Reads, UnitMeaning;
    match u
    case Raw(_) => RawRead(u, more);
    case Short(_) => ShortRead(u, more);
    case Code(_) => CodeReads(u, more);
    case Joined(_, _) => JoinedReads(u, more);
    case Stray(_) => StrayRead(u, more);
  }

  lemma NoHalfFollows(units: seq<Unit>)
    requires UnitsOk(units) && !StartsHalf(units)
    ensures NoHalf(PutUnits(units, []))
  {
    if units != [] {
      var u, s := units[0], PutUnits(units, []);
      if u.Code? {
        CodeRead(u.ds, s);
      }
      hide Hex4, CodeBytes, Half;
    }
  }

  lemma {:induction false} UnitsRead(units: seq<Unit>)
    requires UnitsOk(units)
    ensures Unescape(PutUnits(units, [])) == Some(StringMeaning(units))
  {
    if units != [] {
      UnitsRead(units[1..]);
      if !StartsHalf(units[1..]) {
        NoHalfFollows(units[1..]);
      }
      hide UnitBytes, UnitMeaning, NoHalf, Unescape, StartsHalf, Half;
      UnitReads(units[0], PutUnits(units[1..], []));
    }
  }

  /** The scan for the closing quote passes every unit. */
  lemma CloseUnit(u: Unit, more: seq<byte>)
    requires UnitOk(u)
    ensures Close(UnitBytes(u) + more) == JsonPrinter.Shifted(|UnitBytes(u)|, Close(more))
  {
    match u
    case Code(ds) => CloseCode(ds, more);
    case Joined(hi, lo) => CloseJoined(hi, lo, more);
    case _ => CloseSmall(u, more);
  }

  lemma CloseSmall(u: Unit, more: seq<byte>)
    requires UnitOk(u) && (u.Raw? || u.Short? || u.Stray?)
    ensures Close(UnitBytes(u) + more) == JsonPrinter.Shifted(|UnitBytes(u)|, Close(more))
  {
    var s := UnitBytes(u) + more;
    assert s[|UnitBytes(u)|..] == more;
    hide ShortEscapes;
  }

  lemma CloseJoined(hi: seq<Digit>, lo: seq<Digit>, more: seq<byte>)
    requires Four(hi) && Four(lo)
    ensures Close(CodeBytes(hi) + CodeBytes(lo) + more) == JsonPrinter.Shifted(12, Close(more))
  {
    hide CodeBytes, Close, Four;
    CloseCode(hi, CodeBytes(lo) + more);
    CloseCode(lo, more);
    JsonPrinter.Assoc(CodeBytes(hi), CodeBytes(lo), more);
  }

  lemma CloseCode(ds: seq<Digit>, more: seq<byte>)
    requires Four(ds)
    ensures Close(CodeBytes(ds) + more) == JsonPrinter.Shifted(6, Close(more))
  {
    var s := CodeBytes(ds) + more;
    CodeRead(ds, s);
    assert forall i :: 0 <= i < 4 ==> CodeBytes(ds)[2..][i] == s[i + 2];
    JsonPrinter.ClosePast(CodeBytes(ds)[2..], more);
    assert s[2..] == CodeBytes(ds)[2..] + more;
    hide Hex4, CodeBytes;
  }

  lemma {:induction false} UnitsSplit(units: seq<Unit>, more: seq<byte>)
    requires UnitsOk(units)
    ensures PutUnits(units, more) == PutUnits(units, []) + more
  {
    if units != [] {
      UnitsSplit(units[1..], more);
      hide UnitBytes;
      JsonPrinter.Assoc(UnitBytes(units[0]), PutUnits(units[1..], []), more);
    }
  }

  lemma {:induction false} CloseUnits(units: seq<Unit>, more: seq<byte>)
    requires UnitsOk(units)
    ensures Close(PutUnits(units, [0x22] + more)) == Some(|PutUnits(units, [])|)
  {
    hide UnitBytes, Close;
    if units == [] {
      CloseQuote(more);
    } else {
      CloseUnits(units[1..], more);
      CloseUnit(units[0], PutUnits(units[1..], [0x22] + more));
    }
  }

  lemma CloseQuote(more: seq<byte>)
    ensures Close([0x22] + more) == Some(0)
  {
  }

  lemma StringReads(units: seq<Unit>, more: seq<byte>)
    requires UnitsOk(units)
    ensures StringDecode(PutString(units, more)) == Some((StringMeaning(units), more))
  {
    hide *;
    UnitsRead(units);
    CloseUnits(units, more);
    UnitsSplit(units, [0x22] + more);
    StringIs(units, more);
    StringDecodes(PutUnits(units, []), more);
  }

  lemma StringIs(units: seq<Unit>, more: seq<byte>)
    requires UnitsOk(units)
    ensures PutString(units, more) == [QUOTE] + PutUnits(units, [0x22] + more)
  {
    hide PutUnits;
  }

  lemma StringDecodes(body: seq<byte>, more: seq<byte>)
    requires Close(body + ([0x22] + more)) == Some(|body|) && Unescape(body).Some?
    ensures StringDecode([QUOTE] + (body + ([0x22] + more))) == Some((Unescape(body).value, more))
  {
    hide Close, Unescape;
    var s := [QUOTE] + (body + ([0x22] + more));
    assert s[1..] == body + ([0x22] + more);
    assert s[1..1 + |body|] == body;
    assert s[|body| + 2..] == more;
  }

  // Values

  /** A written value starts with a byte of its own. */
  lemma PutFirst(t: Tree, more: seq<byte>)
    requires Good(t)
    ensures var s := Put(t, more); s != [] && !IsSpace(s[0]) && s[0] != CLOSE_ARRAY && s[0] != CLOSE_OBJECT
  {
    hide PutItems, PutMembers, PutUnits;
  }

  lemma PutSpaces(ws: seq<byte>, t: Tree, more: seq<byte>)
    requires Blank(ws) && Good(t)
    ensures SkipSpaces(ws + Put(t, more)) == Put(t, more)
  {
    PutFirst(t, more);
    SkipBlank(ws, Put(t, more));
    hide Put;
  }

  lemma NotSpace(c: byte, ws: seq<byte>, more: seq<byte>)
    requires Blank(ws) && !IsSpace(c)
    ensures SkipSpaces(ws + ([c] + more)) == [c] + more
  {
    SkipBlank(ws, [c] + more);
  }

  /** White space before a value changes nothing. */
  lemma DecodeBlank(ws: seq<byte>, s: seq<byte>, depth: int)
    requires Blank(ws)
    ensures Json.Decode(ws + s, depth) == Json.Decode(s, depth)
  {
    SkipBlank(ws, s);
    hide SkipSpaces, Items, Fields, StringDecode, NumberLength, Keyword;
  }

  /** What may follow a number: nothing that would be taken for more of it. */
  predicate NumberEnds(t: Tree, more: seq<byte>) { t.Numeral? ==> more == [] || !NumeralByte(more[0]) }

  lemma LeafReads(t: Tree, more: seq<byte>, depth: int)
    requires Good(t) && !t.Arr? && !t.Obj? && depth >= 0 && NumberEnds(t, more)
    ensures Json.Decode(Put(t, more), depth) == Parsed(Meaning(t), more)
  {
    var s := Put(t, more);
    PutFirst(t, more);
    hide Items, Fields, StringDecode, PutString, NumberLength, StringMeaning;
    match t {
      case Nothing =>
        assert s[4..] == more;
      case Truth(b) =>
        assert s[if b then 4 else 5..] == more;
      case Numeral(token) =>
        JsonPrinter.NumberReadBack(token, more);
        assert s[..|token|] == token && s[|token|..] == more;
      case Str(units) =>
        StringReads(units, more);
        assert PutString(units, more)[0] == QUOTE by {
        }
      case _ =>
    }
  }

  lemma ItemEndFirst(items: seq<Item>, more: seq<byte>, t: Tree)
    requires items != [] && GoodItems(items)
    ensures var e := ItemEnd(items, more);
            && SkipSpaces(items[0].after + e) == e && NumberEnds(t, items[0].after + e)
            && if |items| == 1 then e == [CLOSE_ARRAY] + more && e[1..] == more
               else e == [COMMA] + PutItems(items[1..], more) && e[1..] == PutItems(items[1..], more)
  {
    hide PutItems;
    var e := ItemEnd(items, more);
    SkipBlank(items[0].after, e);
    if items[0].after == [] {
      assert items[0].after + e == e;
    }
  }

  lemma ItemsSkip(items: seq<Item>, gap: seq<byte>, more: seq<byte>)
    requires items != [] && GoodItems(items) && Blank(gap)
    ensures var s := PutItem(items, more);
            && s != [] && s[0] != CLOSE_ARRAY
            && SkipSpaces(gap + PutItems(items, more)) == s && SkipSpaces(PutItems(items, more)) == s
  {
    PutFirst(items[0].tree, items[0].after + ItemEnd(items, more));
    hide Put, ItemEnd;
    SkipBlank(gap, PutItems(items, more));
    SkipBlank(items[0].before, PutItem(items, more));
  }

  lemma MaxHeightIs(items: seq<Item>)
    requires items != [] && GoodItems(items)
    ensures var h := JsonPrinter.MaxHeight(ItemsMeaning(items));
            JsonPrinter.Height(Meaning(items[0].tree)) <= h && JsonPrinter.MaxHeight(ItemsMeaning(items[1..])) <= h
  {
    assert ItemsMeaning(items)[1..] == ItemsMeaning(items[1..]);
    hide Meaning, JsonPrinter.Height;
  }

  lemma {:induction false} ItemsRead(items: seq<Item>, more: seq<byte>, depth: int)
    requires items != [] && GoodItems(items) && JsonPrinter.MaxHeight(ItemsMeaning(items)) <= depth
    ensures Items(PutItem(items, more), depth) == Parsed(ItemsMeaning(items), more)
    decreases items, 0
  {
    var i := items[0];
    MaxHeightIs(items);
    ItemEndFirst(items, more, i.tree);
    ItemsSkip(items, [], more);
    TreeReads(i.tree, i.after + ItemEnd(items, more), depth);
    if |items| > 1 {
      ItemsRead(items[1..], more, depth);
      ItemsSkip(items[1..], [], more);
    } else {
      assert ItemsMeaning(items) == [Meaning(i.tree)];
    }
    hide Json.Decode, Put, PutItems, ItemEnd, JsonPrinter.MaxHeight, Meaning, SkipSpaces;
  }

  /** An array unfolded. */
  lemma ArrayIs(t: Tree, more: seq<byte>, depth: int)
    requires Good(t) && t.Arr? && JsonPrinter.Height(Meaning(t)) <= depth
    ensures GoodItems(t.items) && Blank(t.gap) && depth >= 0 && !IsSpace(CLOSE_ARRAY)
    ensures Put(t, more) == [OPEN_ARRAY] + (t.gap + PutItems(t.items, more))
    ensures Meaning(t) == Array(ItemsMeaning(t.items))
    ensures t.items == [] ==> PutItems(t.items, more) == [CLOSE_ARRAY] + more && Meaning(t) == Array([])
    ensures t.items != [] ==> JsonPrinter.MaxHeight(ItemsMeaning(t.items)) <= depth - 1
    ensures ([CLOSE_ARRAY] + more)[1..] == more
  {
    hide PutItem, JsonPrinter.MaxHeight;
  }

  lemma {:induction false} ArrayReads(t: Tree, more: seq<byte>, depth: int)
    requires Good(t) && t.Arr? && JsonPrinter.Height(Meaning(t)) <= depth
    ensures Json.Decode(Put(t, more), depth) == Parsed(Meaning(t), more)
    decreases t, 0
  {
    hide *;
    ArrayIs(t, more, depth);
    JsonPrinter.OpenArray(t.gap + PutItems(t.items, more), depth);
    if t.items == [] {
      NotSpace(CLOSE_ARRAY, t.gap, more);
    } else {
      ItemsSkip(t.items, t.gap, more);
      ItemsRead(t.items, more, depth - 1);
    }
  }

  lemma MemberEndFirst(members: seq<Member>, more: seq<byte>, t: Tree)
    requires members != [] && GoodMembers(members)
    ensures var e := MemberEnd(members, more);
            && SkipSpaces(members[0].after + e) == e && NumberEnds(t, members[0].after + e)
            && if |members| == 1 then e == [CLOSE_OBJECT] + more && e[1..] == more
               else e == [COMMA] + PutMembers(members[1..], more) && e[1..] == PutMembers(members[1..], more)
  {
    hide PutMembers;
    var e := MemberEnd(members, more);
    SkipBlank(members[0].after, e);
    if members[0].after == [] {
      assert members[0].after + e == e;
    }
  }

  lemma MembersSkip(members: seq<Member>, gap: seq<byte>, more: seq<byte>)
    requires members != [] && GoodMembers(members) && Blank(gap)
    ensures var s := PutMember(members, more);
            && s != [] && s[0] != CLOSE_OBJECT
            && SkipSpaces(gap + PutMembers(members, more)) == s && SkipSpaces(PutMembers(members, more)) == s
  {
    var s := PutMember(members, more);
    assert s != [] && s[0] == QUOTE;
    hide PutMember;
    SkipBlank(gap, PutMembers(members, more));
    SkipBlank(members[0].before, s);
  }

  /** The name and the colon of a member are read, and its value comes next. */
  lemma MemberRead(members: seq<Member>, more: seq<byte>, depth: int)
    requires members != [] && GoodMembers(members)
    ensures var m, s := members[0], PutMember(members, more);
            && s != [] && StringDecode(s).Some? && StringDecode(s).value.0 == StringMeaning(m.name)
            && var c := SkipSpaces(StringDecode(s).value.1);
            && c != [] && c[0] == COLON
            && Json.Decode(c[1..], depth) == Json.Decode(Put(m.tree, m.after + MemberEnd(members, more)), depth)
  {
    var m, v := members[0], PutMemberValue(members, more);
    StringReads(m.name, m.left + ([0x3A] + v));
    NotSpace(COLON, m.left, v);
    assert ([COLON] + v)[1..] == v;
    DecodeBlank(m.right, Put(m.tree, m.after + MemberEnd(members, more)), depth);
    hide Json.Decode, StringDecode, PutString, Put, MemberEnd, SkipSpaces;
  }

  lemma MaxFieldHeightIs(members: seq<Member>)
    requires members != [] && GoodMembers(members)
    ensures var h := JsonPrinter.MaxFieldHeight(MembersMeaning(members));
            && JsonPrinter.Height(Meaning(members[0].tree)) <= h
            && JsonPrinter.MaxFieldHeight(MembersMeaning(members[1..])) <= h
  {
    MaxFieldIs(MembersMeaning(members));
    hide Meaning, JsonPrinter.Height, JsonPrinter.MaxFieldHeight, StringMeaning;
    assert MembersMeaning(members)[1..] == MembersMeaning(members[1..]);
  }

  lemma MaxFieldIs(fields: seq<Field>)
    requires fields != []
    ensures JsonPrinter.Height(fields[0].value) <= JsonPrinter.MaxFieldHeight(fields)
    ensures JsonPrinter.MaxFieldHeight(fields[1..]) <= JsonPrinter.MaxFieldHeight(fields)
  {
    hide JsonPrinter.Height;
  }

  lemma {:induction false} MembersRead(members: seq<Member>, more: seq<byte>, depth: int)
    requires members != [] && GoodMembers(members) && JsonPrinter.MaxFieldHeight(MembersMeaning(members)) <= depth
    ensures Fields(PutMember(members, more), depth) == Parsed(MembersMeaning(members), more)
    decreases members, 0
  {
    var m := members[0];
    MaxFieldHeightIs(members);
    MemberEndFirst(members, more, m.tree);
    MemberRead(members, more, depth);
    TreeReads(m.tree, m.after + MemberEnd(members, more), depth);
    if |members| > 1 {
      MembersRead(members[1..], more, depth);
      MembersSkip(members[1..], [], more);
    } else {
      assert MembersMeaning(members) == [Field(StringMeaning(m.name), Meaning(m.tree))];
    }
    hide Json.Decode, Put, PutMembers, PutMember, MemberEnd, JsonPrinter.MaxFieldHeight, Meaning, SkipSpaces;
    hide StringDecode, StringMeaning;
  }

  /** An object unfolded. */
  lemma ObjectIs(t: Tree, more: seq<byte>, depth: int)
    requires Good(t) && t.Obj? && JsonPrinter.Height(Meaning(t)) <= depth
    ensures GoodMembers(t.members) && Blank(t.gap) && depth >= 0 && !IsSpace(CLOSE_OBJECT)
    ensures Put(t, more) == [OPEN_OBJECT] + (t.gap + PutMembers(t.members, more))
    ensures Meaning(t) == Object(MembersMeaning(t.members))
    ensures t.members == [] ==> PutMembers(t.members, more) == [CLOSE_OBJECT] + more && Meaning(t) == Object([])
    ensures t.members != [] ==> JsonPrinter.MaxFieldHeight(MembersMeaning(t.members)) <= depth - 1
    ensures ([CLOSE_OBJECT] + more)[1..] == more
  {
    hide PutMember, JsonPrinter.MaxFieldHeight, StringMeaning;
  }

  lemma {:induction false} ObjectReads(t: Tree, more: seq<byte>, depth: int)
    requires Good(t) && t.Obj? && JsonPrinter.Height(Meaning(t)) <= depth
    ensures Json.Decode(Put(t, more), depth) == Parsed(Meaning(t), more)
    decreases t, 0
  {
    hide *;
    ObjectIs(t, more, depth);
    JsonPrinter.OpenObject(t.gap + PutMembers(t.members, more), depth);
    if t.members == [] {
      NotSpace(CLOSE_OBJECT, t.gap, more);
    } else {
      MembersSkip(t.members, t.gap, more);
      MembersRead(t.members, more, depth - 1);
    }
  }

  /** What a tree writes is parsed to what it means, at every depth that allows it. */
  lemma {:induction false} TreeReads(t: Tree, more: seq<byte>, depth: int)
    requires Good(t) && JsonPrinter.Height(Meaning(t)) <= depth && NumberEnds(t, more)
    ensures Json.Decode(Put(t, more), depth) == Parsed(Meaning(t), more)
    decreases t, 1
  {
    JsonPrinter.HeightNat(Meaning(t));
    if t.Arr? {
      ArrayReads(t, more, depth);
    } else if t.Obj? {
      ObjectReads(t, more, depth);
    } else {
      LeafReads(t, more, depth);
    }
    hide *;
  }
}
