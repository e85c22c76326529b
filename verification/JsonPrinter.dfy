/**
  Printing JSON (td/utils/JsonBuilder.h and JsonBuilder.cpp), compact or pretty, and that parsing what was
  printed gives the value back.
*/
module JsonPrinter {
  import opened Utf8
  import opened Json

  // ---------------------------------------------------------------------------------------
  // What is printed
  // ---------------------------------------------------------------------------------------

  function HexDigit(d: nat): byte
    requires d < 16
  {
    if d < 10 then 48 + d else 87 + d
  }

  /** JsonOneChar. */
  function OneChar(c: nat): (r: seq<byte>)
    requires c < 0x10000
    ensures |r| == 6
  {
    [SLASH, LETTER_U, HexDigit(c / 4096), HexDigit(c / 256 % 16), HexDigit(c / 16 % 16), HexDigit(c % 16)]
  }

  /** JsonChar: two escapes for a code point beyond 16 bits. */
  function CharText(c: nat): seq<byte>
    requires Scalar(c)
  {
    if c < 0x10000 then OneChar(c) else OneChar(0xD7C0 + c / 1024) + OneChar(0xDC00 + c % 1024)
  }

  /** How one code point of a string is printed. */
  function CodeText(c: nat): seq<byte>
    requires Scalar(c)
  {
    if c == QUOTE || c == SLASH then [SLASH, c]
    else if c == 8 then [SLASH, 98]
    else if c == 12 then [SLASH, 102]
    else if c == 10 then [SLASH, 110]
    else if c == 13 then [SLASH, 114]
    else if c == 9 then [SLASH, 116]
    else if c <= 31 then OneChar(c)
    else if c >= 128 then CharText(c)
    else [c]
  }

  /** The text of a string without its quotes. */
  ghost function Text(s: seq<byte>): seq<byte>
    requires WellFormed(s)
    decreases |s|
  {
    if s == [] then []
    else
      CodesStep(s);
      CodeText(Utf8.Decode(s)) + Text(s[Announced(s[0])..])
  }

  ghost function StringText(s: seq<byte>): seq<byte>
    requires WellFormed(s)
  {
    [QUOTE] + Text(s) + [QUOTE]
  }

  /** print_offset; a negative offset means compact output. */
  function NewLine(offset: int): seq<byte> {
    if offset < 0 then [] else [NEWLINE] + seq(3 * offset, i => SPACE)
  }

  function Deeper(offset: int): int { if offset < 0 then offset else offset + 1 }

  predicate GoodNumber(token: seq<byte>) {
    token != [] && NumberStart(token[0]) && forall i :: 0 <= i < |token| ==> NumberByte(token[i])
  }

  /** The values that printing is promised for: well-formed strings and number tokens. */
  ghost predicate Printable(v: JsonValue) {
    match v
    case Null => true
    case Boolean(_) => true
    case Number(token) => GoodNumber(token)
    case String(s) => WellFormed(s)
    case Array(items) => forall i :: 0 <= i < |items| ==> Printable(items[i])
    case Object(fields) => forall i :: 0 <= i < |fields| ==> WellFormed(fields[i].name) && Printable(fields[i].value)
  }

  function Count(v: JsonValue): nat {
    match v { case Array(items) => |items| case Object(fields) => |fields| case _ => 0 }
  }

  /** JsonValue::store. */
  ghost function Printed(v: JsonValue, offset: int): seq<byte>
    requires Printable(v)
    decreases v, Count(v) + 1
  {
    match v
    case Null => NULL
    case Boolean(b) => if b then TRUE else FALSE
    case Number(token) => token
    case String(s) => StringText(s)
    case Array(items) => [OPEN_ARRAY] + ItemsText(v, 0, Deeper(offset)) + (NewLine(offset) + [CLOSE_ARRAY])
    case Object(fields) => [OPEN_OBJECT] + FieldsText(v, 0, Deeper(offset)) + (NewLine(offset) + [CLOSE_OBJECT])
  }

  /** The elements of an array from number i on, each with what goes before it. */
  ghost function ItemsText(v: JsonValue, i: nat, offset: int): seq<byte>
    requires Printable(v) && v.Array? && i <= |v.items|
    decreases v, |v.items| - i
  {
    if i == |v.items| then []
    else
      (if i == 0 then [] else [COMMA])
      + (NewLine(offset) + (Printed(v.items[i], offset) + ItemsText(v, i + 1, offset)))
  }

  function Separator(offset: int): seq<byte> { if offset >= 0 then [SPACE, COLON, SPACE] else [COLON] }

  ghost function FieldsText(v: JsonValue, i: nat, offset: int): seq<byte>
    requires Printable(v) && v.Object? && i <= |v.fields|
    decreases v, |v.fields| - i
  {
    if i == |v.fields| then []
    else (if i == 0 then [] else [COMMA]) +
         (NewLine(offset) + (StringText(v.fields[i].name) + (Separator(offset) +
         (Printed(v.fields[i].value, offset) + FieldsText(v, i + 1, offset)))))
  }

  /** How many levels below it a value needs; the parser counts the elements of a container as one deeper. */
  function Height(v: JsonValue): nat {
    match v
    case Array(items) => if items == [] then 0 else 1 + MaxHeight(items)
    case Object(fields) => if fields == [] then 0 else 1 + MaxFieldHeight(fields)
    case _ => 0
  }

  function MaxHeight(items: seq<JsonValue>): (h: nat)
    ensures forall i :: 0 <= i < |items| ==> Height(items[i]) <= h
  {
    if items == [] then 0
    else
      var h, t := Height(items[0]), MaxHeight(items[1..]);
      assert forall i :: 1 <= i < |items| ==> items[i] == items[1..][i - 1];
      if h > t then h else t
  }

  function MaxFieldHeight(fields: seq<Field>): (h: nat)
    ensures forall i :: 0 <= i < |fields| ==> Height(fields[i].value) <= h
  {
    if fields == [] then 0
    else
      var h, t := Height(fields[0].value), MaxFieldHeight(fields[1..]);
      assert forall i :: 1 <= i < |fields| ==> fields[i] == fields[1..][i - 1];
      if h > t then h else t
  }

  // ---------------------------------------------------------------------------------------
  // Strings read back
  // ---------------------------------------------------------------------------------------

  lemma HexRoundTrip(d: nat)
    requires d < 16
    ensures HexValue(HexDigit(d)) == d && HexDigit(d) != QUOTE && HexDigit(d) != SLASH
  {
  }

  lemma Digits4(c: nat)
    requires c < 0x10000
    ensures c / 4096 < 16 && ((c / 4096 * 16 + c / 256 % 16) * 16 + c / 16 % 16) * 16 + c % 16 == c
  {
    assert c / 256 == c / 4096 * 16 + c / 256 % 16;
    assert c / 16 == c / 256 * 16 + c / 16 % 16;
  }

  lemma HexOneChar(c: nat, s: seq<byte>)
    requires c < 0x10000 && OneChar(c) <= s
    ensures |s| >= 6 && s[0] == SLASH && s[1] == LETTER_U && Hex4(s[2..]) == Some(c)
  {
    assert forall i :: 0 <= i < 6 ==> s[i] == OneChar(c)[i];
    Digits4(c);
    HexRoundTrip(c / 4096);
    HexRoundTrip(c / 256 % 16);
    HexRoundTrip(c / 16 % 16);
    HexRoundTrip(c % 16);
    hide HexDigit, HexValue;
  }

  lemma PairRoundTrip(c: nat)
    requires 0x10000 <= c < 0x110000
    ensures Surrogate(0xD7C0 + c / 1024) && Surrogate(0xDC00 + c % 1024)
    ensures Pair(0xD7C0 + c / 1024, 0xDC00 + c % 1024) == c
  {
    var h, l := c / 1024, c % 1024;
    assert (0xD7C0 + h) % 1024 == h - 64;
    assert (0xDC00 + l) % 1024 == l;
  }

  /** An escaped code point is read back in one step. */
  lemma OneCharText(c: nat, more: seq<byte>)
    requires Scalar(c)
    ensures One(CharText(c) + more) == Some(Piece(Utf8.Encode(c), more))
  {
    var s := CharText(c) + more;
    hide OneChar, Hex4, Utf8.Encode, Pair;
    if c < 0x10000 {
      HexOneChar(c, s);
      assert s[2..][4..] == more;
      UnicodeSingle(c, s[2..]);
    } else {
      var a, b := 0xD7C0 + c / 1024, 0xDC00 + c % 1024;
      PairRoundTrip(c);
      HexOneChar(a, s);
      assert s[6..] == OneChar(b) + more;
      HexOneChar(b, s[6..]);
      var t := s[2..];
      assert t[6..] == s[6..][2..] && t[10..] == more && t[4] == s[6..][0] && t[5] == s[6..][1];
    }
  }

  lemma UnicodeSingle(c: nat, t: seq<byte>)
    requires |t| >= 4 && Hex4(t) == Some(c) && !Surrogate(c)
    ensures Unicode(t) == Some(Piece(Utf8.Encode(c), t[4..]))
  {
  }

  lemma OneCodeText(c: nat, more: seq<byte>)
    requires Scalar(c)
    ensures CodeText(c) != [] && One(CodeText(c) + more) == Some(Piece(Utf8.Encode(c), more))
  {
    if c >= 128 || (c <= 31 && c != 8 && c != 9 && c != 10 && c != 12 && c != 13) {
      OneCharText(c, more);
      assert CodeText(c) == CharText(c);
    } else {
      hide Unicode, OneChar, CharText;
      var s := CodeText(c) + more;
      if |CodeText(c)| == 2 {
        assert s[2..] == more;
      } else {
        assert s[1..] == more;
      }
    }
  }

  /** Unescaping undoes printing. */
  lemma {:induction false} UnescapeText(s: seq<byte>)
    requires WellFormed(s)
    ensures Unescape(Text(s)) == Some(s)
    decreases |s|
  {
    hide One, CodeText, Utf8.Encode, WellFormed, Announced, Utf8.Decode;
    if s != [] {
      CodesStep(s);
      var c, rest := Utf8.Decode(s), s[Announced(s[0])..];
      OneCodeText(c, Text(rest));
      UnescapeText(rest);
      assert s == Utf8.Encode(c) + rest by { StartsSplit(c, s); }
    }
  }

  lemma StartsSplit(c: nat, s: seq<byte>)
    requires Starts(c, s)
    ensures s == Utf8.Encode(c) + s[|Utf8.Encode(c)|..]
  {
    hide Utf8.Encode;
  }

  /** Bytes that are neither quote nor backslash are passed. */
  lemma {:induction false} ClosePast(a: seq<byte>, more: seq<byte>)
    requires forall i :: 0 <= i < |a| ==> a[i] != QUOTE && a[i] != SLASH
    ensures Close(a + more) == match Close(more) { case None => None case Some(k) => Some(|a| + k) }
  {
    if a == [] {
      assert a + more == more;
    } else {
      ClosePast(a[1..], more);
      assert (a + more)[1..] == a[1..] + more;
    }
  }

  function Shifted(n: nat, r: Option<nat>): Option<nat> {
    match r { case None => None case Some(k) => Some(n + k) }
  }

  lemma CloseOneChar(c: nat, more: seq<byte>)
    requires c < 0x10000
    ensures Close(OneChar(c) + more) == Shifted(6, Close(more))
  {
    var s := OneChar(c) + more;
    HexRoundTrip(c / 4096 % 16);
    HexRoundTrip(c / 256 % 16);
    HexRoundTrip(c / 16 % 16);
    HexRoundTrip(c % 16);
    Digits4(c);
    ClosePast(OneChar(c)[2..], more);
    assert s[2..] == OneChar(c)[2..] + more;
  }

  lemma ClosePair(c: nat, more: seq<byte>)
    requires Scalar(c) && c >= 0x10000
    ensures |CodeText(c)| == 12 && Close(CodeText(c) + more) == Shifted(12, Close(more))
  {
    hide OneChar, Close;
    var a, b := 0xD7C0 + c / 1024, 0xDC00 + c % 1024;
    CloseOneChar(a, OneChar(b) + more);
    CloseOneChar(b, more);
    assert CodeText(c) + more == OneChar(a) + (OneChar(b) + more);
  }

  lemma CloseCodeText(c: nat, more: seq<byte>)
    requires Scalar(c)
    ensures Close(CodeText(c) + more) == Shifted(|CodeText(c)|, Close(more))
  {
    var s := CodeText(c) + more;
    hide OneChar;
    if c < 0x10000 && CodeText(c) == OneChar(c) {
      CloseOneChar(c, more);
    } else if c >= 0x10000 {
      ClosePair(c, more);
    } else if |CodeText(c)| == 2 {
      assert s[2..] == more;
    } else {
      assert s[1..] == more;
    }
  }

  /** The closing quote is found behind the printed text. */
  lemma {:induction false} CloseText(s: seq<byte>, more: seq<byte>)
    requires WellFormed(s)
    ensures Close(Text(s) + ([QUOTE] + more)) == Some(|Text(s)|)
    decreases |s|
  {
    hide CodeText, Utf8.Encode, WellFormed, Announced, Utf8.Decode, Scalar;
    if s == [] {
      assert Text(s) + ([QUOTE] + more) == [QUOTE] + more;
    } else {
      CodesStep(s);
      var c, rest := Utf8.Decode(s), s[Announced(s[0])..];
      hide Close;
      CloseText(rest, more);
      CloseCodeText(c, Text(rest) + ([QUOTE] + more));
      Assoc(CodeText(c), Text(rest), [QUOTE] + more);
    }
  }

  /** A printed string is parsed back. */
  lemma StringRoundTrip(s: seq<byte>, more: seq<byte>)
    requires WellFormed(s)
    ensures StringDecode(StringText(s) + more) == Some((s, more))
  {
    hide Text, Close, Unescape, WellFormed;
    CloseText(s, more);
    UnescapeText(s);
    var t := StringText(s) + more;
    Assoc(Text(s), [QUOTE], more);
    assert t[1..] == Text(s) + ([QUOTE] + more);
    assert t[1..1 + |Text(s)|] == Text(s);
    assert t[|Text(s)| + 2..] == more;
  }

  // ---------------------------------------------------------------------------------------
  // Values read back
  // ---------------------------------------------------------------------------------------

  /** What follows a value: nothing that would lengthen a number. */
  predicate Ends(more: seq<byte>) { more == [] || !NumberByte(more[0]) }

  lemma {:induction false} SkipIndent(n: nat, x: seq<byte>)
    requires x != [] && !IsSpace(x[0])
    ensures SkipSpaces(seq(n, i => SPACE) + x) == x
  {
    var s := seq(n, i => SPACE);
    if n == 0 {
      assert s + x == x;
    } else {
      SkipIndent(n - 1, x);
      assert (s + x)[1..] == seq(n - 1, i => SPACE) + x;
    }
  }

  lemma SkipNewLine(offset: int, x: seq<byte>)
    requires x != [] && !IsSpace(x[0])
    ensures SkipSpaces(NewLine(offset) + x) == x
  {
    if offset < 0 {
      assert NewLine(offset) + x == x;
    } else {
      var indent := seq(3 * offset, i => SPACE);
      SkipIndent(3 * offset, x);
      assert (NewLine(offset) + x)[1..] == indent + x;
    }
  }

  /** A printed value starts with a byte that tells its kind, and is never mistaken for a closing bracket. */
  lemma FirstByte(v: JsonValue, offset: int)
    requires Printable(v)
    ensures var t := Printed(v, offset);
            t != [] && !IsSpace(t[0]) && t[0] != CLOSE_ARRAY && t[0] != CLOSE_OBJECT
  {
    hide StringText, ItemsText, FieldsText;
    if v.String? {
      assert StringText(v.str)[0] == QUOTE by { StringFirst(v.str); }
    }
  }

  lemma StringFirst(s: seq<byte>)
    requires WellFormed(s)
    ensures StringText(s) != [] && StringText(s)[0] == QUOTE
  {
  }

  lemma {:induction false} NumberReadBack(token: seq<byte>, more: seq<byte>)
    requires (forall i :: 0 <= i < |token| ==> NumberByte(token[i])) && Ends(more)
    ensures NumberLength(token + more) == |token|
  {
    if token == [] {
      assert token + more == more;
    } else {
      NumberReadBack(token[1..], more);
      assert (token + more)[1..] == token[1..] + more;
    }
  }

  lemma LeafRoundTrip(v: JsonValue, offset: int, more: seq<byte>, depth: int)
    requires Printable(v) && !v.Array? && !v.Object? && depth >= 0 && (v.Number? ==> Ends(more))
    ensures Json.Decode(Printed(v, offset) + more, depth) == Parsed(v, more)
  {
    var t := Printed(v, offset) + more;
    FirstByte(v, offset);
    hide Items, Fields, StringDecode, StringText, NumberLength;
    match v {
      case Number(token) =>
        NumberReadBack(token, more);
        assert t[..|token|] == token && t[|token|..] == more;
      case String(s) =>
        StringFirst(s);
        StringRoundTrip(s, more);
      case Null =>
        assert t[4..] == more;
      case Boolean(b) =>
        assert t[if b then 4 else 5..] == more;
      case _ =>
    }
  }

  /** From element i on: its text, the rest of the array, and what follows. */
  ghost function ItemsTail(v: JsonValue, i: nat, offset: int, more: seq<byte>): seq<byte>
    requires Printable(v) && v.Array? && i < |v.items|
  {
    Printed(v.items[i], Deeper(offset)) + AfterItem(v, i + 1, offset, more)
  }

  ghost function AfterItem(v: JsonValue, i: nat, offset: int, more: seq<byte>): seq<byte>
    requires Printable(v) && v.Array? && i <= |v.items|
  {
    ItemsText(v, i, Deeper(offset)) + (NewLine(offset) + ([CLOSE_ARRAY] + more))
  }

  /** Before the next element come a comma and the line break; before the end, the line break and the bracket. */
  lemma AfterItemIs(v: JsonValue, i: nat, offset: int, more: seq<byte>)
    requires Printable(v) && v.Array? && 0 < i <= |v.items|
    ensures AfterItem(v, i, offset, more) ==
            if i == |v.items| then NewLine(offset) + ([CLOSE_ARRAY] + more)
            else [COMMA] + (NewLine(Deeper(offset)) + ItemsTail(v, i, offset, more))
  {
    hide Printed, NewLine;
    if i < |v.items| {
      var o, rest := Deeper(offset), ItemsText(v, i + 1, Deeper(offset));
      var end := NewLine(offset) + ([CLOSE_ARRAY] + more);
      ItemsTextIs(v, i, o);
      hide ItemsText;
      Assoc([COMMA], NewLine(o) + (Printed(v.items[i], o) + rest), end);
      Assoc(NewLine(o), Printed(v.items[i], o) + rest, end);
      Assoc(Printed(v.items[i], o), rest, end);
    }
  }

  lemma Assoc(a: seq<byte>, b: seq<byte>, c: seq<byte>)
    ensures (a + b) + c == a + (b + c)
  {
  }

  lemma ItemsTextIs(v: JsonValue, i: nat, offset: int)
    requires Printable(v) && v.Array? && i < |v.items|
    ensures ItemsText(v, i, offset) ==
            (if i == 0 then [] else [COMMA])
              + (NewLine(offset) + (Printed(v.items[i], offset) + ItemsText(v, i + 1, offset)))
  {
    hide Printed, NewLine;
  }

  lemma FieldsTextIs(v: JsonValue, i: nat, offset: int)
    requires Printable(v) && v.Object? && i < |v.fields|
    ensures FieldsText(v, i, offset) ==
            (if i == 0 then [] else [COMMA]) +
            (NewLine(offset) + (StringText(v.fields[i].name) + (Separator(offset) +
            (Printed(v.fields[i].value, offset) + FieldsText(v, i + 1, offset)))))
  {
    hide Printed, NewLine, StringText, Separator;
  }

  lemma AfterItemEnds(v: JsonValue, i: nat, offset: int, more: seq<byte>)
    requires Printable(v) && v.Array? && 0 < i <= |v.items|
    ensures Ends(AfterItem(v, i, offset, more))
  {
    hide Printed, Printable, ItemsTail;
    AfterItemIs(v, i, offset, more);
    hide AfterItem;
  }

  lemma {:induction false} ItemsRoundTrip(v: JsonValue, i: nat, offset: int, more: seq<byte>, depth: int)
    requires Printable(v) && v.Array? && i < |v.items| && Height(v) <= depth + 1
    ensures Items(ItemsTail(v, i, offset, more), depth) == Parsed(v.items[i..], more)
    decreases v, |v.items| - i
  {
    hide Printed, AfterItem, Json.Decode, SkipSpaces, NewLine;
    var item, after := v.items[i], AfterItem(v, i + 1, offset, more);
    AfterItemEnds(v, i + 1, offset, more);
    RoundTrip(item, Deeper(offset), after, depth);
    ItemsTailFirst(v, i, offset, more);
    ItemsTailIs(v, i, offset, more);
    hide Height, Printable, ItemsTail;
    AfterItemIs(v, i + 1, offset, more);
    if i + 1 == |v.items| {
      SkipNewLine(offset, [CLOSE_ARRAY] + more);
      assert ([CLOSE_ARRAY] + more)[1..] == more && v.items[i..] == [item];
    } else {
      NextItem(v, i + 1, offset, more);
      ItemsRoundTrip(v, i + 1, offset, more, depth);
      assert v.items[i..] == [item] + v.items[i + 1..];
    }
  }

  lemma ItemsTailIs(v: JsonValue, i: nat, offset: int, more: seq<byte>)
    requires Printable(v) && v.Array? && i < |v.items|
    ensures ItemsTail(v, i, offset, more) == Printed(v.items[i], Deeper(offset)) + AfterItem(v, i + 1, offset, more)
  {
  }

  lemma NextItem(v: JsonValue, i: nat, offset: int, more: seq<byte>)
    requires Printable(v) && v.Array? && i < |v.items|
    ensures var next := ItemsTail(v, i, offset, more);
            var s := [COMMA] + (NewLine(Deeper(offset)) + next);
            SkipSpaces(s) == s && SkipSpaces(s[1..]) == next && next != [] && next[0] != CLOSE_ARRAY
  {
    FirstByte(v.items[i], Deeper(offset));
    hide Printed, Printable, AfterItem, NewLine;
    var next := ItemsTail(v, i, offset, more);
    SkipNewLine(Deeper(offset), next);
    assert ([COMMA] + (NewLine(Deeper(offset)) + next))[1..] == NewLine(Deeper(offset)) + next;
  }

  /** The same for the members of an object. */
  ghost function FieldsTail(v: JsonValue, i: nat, offset: int, more: seq<byte>): seq<byte>
    requires Printable(v) && v.Object? && i < |v.fields|
  {
    StringText(v.fields[i].name) + ValueTail(v, i, offset, more)
  }

  /** From behind the name of member i on. */
  ghost function ValueTail(v: JsonValue, i: nat, offset: int, more: seq<byte>): seq<byte>
    requires Printable(v) && v.Object? && i < |v.fields|
  {
    Separator(Deeper(offset)) + (Printed(v.fields[i].value, Deeper(offset)) + AfterField(v, i + 1, offset, more))
  }

  ghost function AfterField(v: JsonValue, i: nat, offset: int, more: seq<byte>): seq<byte>
    requires Printable(v) && v.Object? && i <= |v.fields|
  {
    FieldsText(v, i, Deeper(offset)) + (NewLine(offset) + ([CLOSE_OBJECT] + more))
  }

  lemma AfterFieldIs(v: JsonValue, i: nat, offset: int, more: seq<byte>)
    requires Printable(v) && v.Object? && 0 < i <= |v.fields|
    ensures AfterField(v, i, offset, more) ==
            if i == |v.fields| then NewLine(offset) + ([CLOSE_OBJECT] + more)
            else [COMMA] + (NewLine(Deeper(offset)) + FieldsTail(v, i, offset, more))
  {
    hide Printed, NewLine, StringText, Separator;
    if i < |v.fields| {
      var o, f, rest := Deeper(offset), v.fields[i], FieldsText(v, i + 1, Deeper(offset));
      var end := NewLine(offset) + ([CLOSE_OBJECT] + more);
      FieldsTextIs(v, i, o);
      hide FieldsText;
      var t := Separator(o) + (Printed(f.value, o) + rest);
      Assoc([COMMA], NewLine(o) + (StringText(f.name) + t), end);
      Assoc(NewLine(o), StringText(f.name) + t, end);
      Assoc(StringText(f.name), t, end);
      Assoc(Separator(o), Printed(f.value, o) + rest, end);
      Assoc(Printed(f.value, o), rest, end);
    }
  }

  lemma AfterFieldEnds(v: JsonValue, i: nat, offset: int, more: seq<byte>)
    requires Printable(v) && v.Object? && 0 < i <= |v.fields|
    ensures Ends(AfterField(v, i, offset, more))
  {
    hide Printed, Printable, FieldsTail;
    AfterFieldIs(v, i, offset, more);
    hide AfterField;
  }

  lemma NextField(v: JsonValue, i: nat, offset: int, more: seq<byte>)
    requires Printable(v) && v.Object? && i < |v.fields|
    ensures var next := FieldsTail(v, i, offset, more);
            var s := [COMMA] + (NewLine(Deeper(offset)) + next);
            SkipSpaces(s) == s && SkipSpaces(s[1..]) == next && next != [] && next[0] != CLOSE_OBJECT
  {
    StringFirst(v.fields[i].name);
    hide Printed, Printable, ValueTail, NewLine, StringText;
    var next := FieldsTail(v, i, offset, more);
    SkipNewLine(Deeper(offset), next);
    assert ([COMMA] + (NewLine(Deeper(offset)) + next))[1..] == NewLine(Deeper(offset)) + next;
  }

  /** The separator is a colon, with spaces around it that the parser skips. */
  lemma SeparatorRead(offset: int, x: seq<byte>, depth: int)
    ensures var c := SkipSpaces(Separator(offset) + x);
            c != [] && c[0] == COLON && Json.Decode(c[1..], depth) == Json.Decode(x, depth)
  {
    hide StringDecode, Items, Fields, NumberLength;
    var s := Separator(offset) + x;
    if offset >= 0 {
      assert s[1..] == [COLON, SPACE] + x;
      assert s[1..][1..] == [SPACE] + x && ([SPACE] + x)[1..] == x;
      assert SkipSpaces([SPACE] + x) == SkipSpaces(x);
      assert SkipSpaces(s) == s[1..];
    } else {
      assert s[1..] == x;
    }
  }

  /** The name and the separator of a member are read, and its value comes next. */
  lemma FieldRead(v: JsonValue, i: nat, offset: int, more: seq<byte>, depth: int)
    requires Printable(v) && v.Object? && i < |v.fields|
    ensures var s := FieldsTail(v, i, offset, more);
            && s != [] && StringDecode(s) == Some((v.fields[i].name, ValueTail(v, i, offset, more)))
            && var c := SkipSpaces(ValueTail(v, i, offset, more));
            c != [] && c[0] == COLON
            && Json.Decode(c[1..], depth)
               == Json.Decode(Printed(v.fields[i].value, Deeper(offset)) + AfterField(v, i + 1, offset, more), depth)
  {
    hide Printed, AfterField, Json.Decode, SkipSpaces, StringText, StringDecode, Separator;
    StringFirst(v.fields[i].name);
    StringRoundTrip(v.fields[i].name, ValueTail(v, i, offset, more));
    SeparatorRead(Deeper(offset), Printed(v.fields[i].value, Deeper(offset)) + AfterField(v, i + 1, offset, more),
                  depth);
  }

  lemma {:induction false} FieldsRoundTrip(v: JsonValue, i: nat, offset: int, more: seq<byte>, depth: int)
    requires Printable(v) && v.Object? && i < |v.fields| && Height(v) <= depth + 1
    ensures Fields(FieldsTail(v, i, offset, more), depth) == Parsed(v.fields[i..], more)
    decreases v, |v.fields| - i
  {
    hide Printed, AfterField, Json.Decode, SkipSpaces, NewLine, StringText, StringDecode, Separator;
    var field, after := v.fields[i], AfterField(v, i + 1, offset, more);
    AfterFieldEnds(v, i + 1, offset, more);
    RoundTrip(field.value, Deeper(offset), after, depth);
    FieldRead(v, i, offset, more, depth);
    hide Height, Printable, ValueTail, FieldsTail, WellFormed;
    AfterFieldIs(v, i + 1, offset, more);
    if i + 1 == |v.fields| {
      SkipNewLine(offset, [CLOSE_OBJECT] + more);
      assert ([CLOSE_OBJECT] + more)[1..] == more && v.fields[i..] == [field];
    } else {
      NextField(v, i + 1, offset, more);
      FieldsRoundTrip(v, i + 1, offset, more, depth);
      assert v.fields[i..] == [field] + v.fields[i + 1..];
    }
    assert field == Field(field.name, field.value);
  }

  lemma ArrayText(v: JsonValue, offset: int, more: seq<byte>)
    requires Printable(v) && v.Array?
    ensures Printed(v, offset) + more ==
            [OPEN_ARRAY] + (if v.items == [] then NewLine(offset) + ([CLOSE_ARRAY] + more)
                            else NewLine(Deeper(offset)) + ItemsTail(v, 0, offset, more))
  {
    hide NewLine, Printed;
    ArrayUnfold(v, offset);
    var o, end := Deeper(offset), NewLine(offset) + [CLOSE_ARRAY];
    Assoc(NewLine(offset), [CLOSE_ARRAY], more);
    Assoc([OPEN_ARRAY] + ItemsText(v, 0, o), end, more);
    Assoc([OPEN_ARRAY], ItemsText(v, 0, o), end + more);
    if v.items == [] {
      assert ItemsText(v, 0, o) + (end + more) == end + more;
    } else {
      var rest := ItemsText(v, 1, o);
      ItemsTextIs(v, 0, o);
      hide ItemsText;
      assert ItemsText(v, 0, o) == NewLine(o) + (Printed(v.items[0], o) + rest);
      Assoc(NewLine(o), Printed(v.items[0], o) + rest, end + more);
      Assoc(Printed(v.items[0], o), rest, end + more);
    }
  }

  lemma ArrayUnfold(v: JsonValue, offset: int)
    requires Printable(v) && v.Array?
    ensures Printed(v, offset) == [OPEN_ARRAY] + ItemsText(v, 0, Deeper(offset)) + (NewLine(offset) + [CLOSE_ARRAY])
  {
    hide ItemsText, NewLine;
  }

  lemma ObjectUnfold(v: JsonValue, offset: int)
    requires Printable(v) && v.Object?
    ensures Printed(v, offset) == [OPEN_OBJECT] + FieldsText(v, 0, Deeper(offset)) + (NewLine(offset) + [CLOSE_OBJECT])
  {
    hide FieldsText, NewLine;
  }

  lemma ObjectText(v: JsonValue, offset: int, more: seq<byte>)
    requires Printable(v) && v.Object?
    ensures Printed(v, offset) + more ==
            [OPEN_OBJECT] + (if v.fields == [] then NewLine(offset) + ([CLOSE_OBJECT] + more)
                             else NewLine(Deeper(offset)) + FieldsTail(v, 0, offset, more))
  {
    hide NewLine, StringText, Separator, Printed;
    ObjectUnfold(v, offset);
    var o, end := Deeper(offset), NewLine(offset) + [CLOSE_OBJECT];
    Assoc(NewLine(offset), [CLOSE_OBJECT], more);
    Assoc([OPEN_OBJECT] + FieldsText(v, 0, o), end, more);
    Assoc([OPEN_OBJECT], FieldsText(v, 0, o), end + more);
    if v.fields == [] {
      assert FieldsText(v, 0, o) + (end + more) == end + more;
    } else {
      var f, rest := v.fields[0], FieldsText(v, 1, o);
      FieldsTextIs(v, 0, o);
      hide FieldsText;
      var t := Separator(o) + (Printed(f.value, o) + rest);
      assert FieldsText(v, 0, o) == NewLine(o) + (StringText(f.name) + t);
      Assoc(NewLine(o), StringText(f.name) + t, end + more);
      Assoc(StringText(f.name), t, end + more);
      Assoc(Separator(o), Printed(f.value, o) + rest, end + more);
      Assoc(Printed(f.value, o), rest, end + more);
    }
  }

  lemma ItemsTailFirst(v: JsonValue, i: nat, offset: int, more: seq<byte>)
    requires Printable(v) && v.Array? && i < |v.items|
    ensures var t := ItemsTail(v, i, offset, more); t != [] && !IsSpace(t[0]) && t[0] != CLOSE_ARRAY
  {
    FirstByte(v.items[i], Deeper(offset));
    hide Printed, AfterItem;
  }

  lemma FieldsTailFirst(v: JsonValue, i: nat, offset: int, more: seq<byte>)
    requires Printable(v) && v.Object? && i < |v.fields|
    ensures var t := FieldsTail(v, i, offset, more); t != [] && !IsSpace(t[0]) && t[0] != CLOSE_OBJECT
  {
    StringFirst(v.fields[i].name);
    hide StringText, ValueTail;
  }

  lemma Brackets(more: seq<byte>)
    ensures !IsSpace(CLOSE_ARRAY) && !IsSpace(CLOSE_OBJECT) && !IsSpace(OPEN_ARRAY) && !IsSpace(OPEN_OBJECT)
    ensures ([CLOSE_ARRAY] + more)[1..] == more && ([CLOSE_OBJECT] + more)[1..] == more
  {
  }

  lemma {:induction false} ArrayRoundTrip(v: JsonValue, offset: int, more: seq<byte>, depth: int)
    requires Printable(v) && v.Array? && Height(v) <= depth
    ensures Json.Decode(Printed(v, offset) + more, depth) == Parsed(v, more)
    decreases v, |v.items| + 1, 0
  {
    hide *;
    HeightNat(v);
    ArrayText(v, offset, more);
    Brackets(more);
    if v.items == [] {
      SkipNewLine(offset, [CLOSE_ARRAY] + more);
      OpenArray(NewLine(offset) + ([CLOSE_ARRAY] + more), depth);
    } else {
      var tail := ItemsTail(v, 0, offset, more);
      ItemsTailFirst(v, 0, offset, more);
      ItemsRoundTrip(v, 0, offset, more, depth - 1);
      SkipNewLine(Deeper(offset), tail);
      OpenArray(NewLine(Deeper(offset)) + tail, depth);
      assert v.items[0..] == v.items;
    }
  }

  lemma HeightNat(v: JsonValue)
    ensures Height(v) >= 0
  {
  }

  lemma OpenArray(s: seq<byte>, depth: int)
    requires depth >= 0
    ensures Json.Decode([OPEN_ARRAY] + s, depth) ==
            var u := SkipSpaces(s);
            if u != [] && u[0] == CLOSE_ARRAY then Parsed(Array([]), u[1..])
            else
              match Items(u, depth - 1) {
                case Failed => Failed
                case Parsed(items, rest) => Parsed(Array(items), rest)
              }
  {
    hide Items, Fields, StringDecode, NumberLength;
    assert ([OPEN_ARRAY] + s)[1..] == s;
  }

  lemma OpenObject(s: seq<byte>, depth: int)
    requires depth >= 0
    ensures Json.Decode([OPEN_OBJECT] + s, depth) ==
            var u := SkipSpaces(s);
            if u != [] && u[0] == CLOSE_OBJECT then Parsed(Object([]), u[1..])
            else
              match Fields(u, depth - 1) {
                case Failed => Failed
                case Parsed(fields, rest) => Parsed(Object(fields), rest)
              }
  {
    hide Items, Fields, StringDecode, NumberLength;
    assert ([OPEN_OBJECT] + s)[1..] == s;
  }

  lemma {:induction false} ObjectRoundTrip(v: JsonValue, offset: int, more: seq<byte>, depth: int)
    requires Printable(v) && v.Object? && Height(v) <= depth
    ensures Json.Decode(Printed(v, offset) + more, depth) == Parsed(v, more)
    decreases v, |v.fields| + 1, 0
  {
    hide *;
    HeightNat(v);
    ObjectText(v, offset, more);
    Brackets(more);
    if v.fields == [] {
      SkipNewLine(offset, [CLOSE_OBJECT] + more);
      OpenObject(NewLine(offset) + ([CLOSE_OBJECT] + more), depth);
    } else {
      var tail := FieldsTail(v, 0, offset, more);
      FieldsTailFirst(v, 0, offset, more);
      FieldsRoundTrip(v, 0, offset, more, depth - 1);
      SkipNewLine(Deeper(offset), tail);
      OpenObject(NewLine(Deeper(offset)) + tail, depth);
      assert v.fields[0..] == v.fields;
    }
  }

  /**
    Parsing what was printed, compact or pretty, gives the value back and stops right behind it, for every
    printable value that is not nested deeper than the parser allows.
  */
  lemma {:induction false} RoundTrip(v: JsonValue, offset: int, more: seq<byte>, depth: int)
    requires Printable(v) && Height(v) <= depth && (v.Number? ==> Ends(more))
    ensures Json.Decode(Printed(v, offset) + more, depth) == Parsed(v, more)
    decreases v, Count(v) + 1, 1
  {
    hide Printed, Printable, Json.Decode;
    if v.Array? {
      ArrayRoundTrip(v, offset, more, depth);
    } else if v.Object? {
      ObjectRoundTrip(v, offset, more, depth);
    } else {
      LeafRoundTrip(v, offset, more, depth);
    }
  }

  // ---------------------------------------------------------------------------------------
  // json_encode and json_decode
  // ---------------------------------------------------------------------------------------

  ghost function JsonEncode(v: JsonValue, pretty: bool): seq<byte>
    requires Printable(v)
  {
    if pretty then Printed(v, 0) + [NEWLINE] else Printed(v, -1)
  }

  lemma {:induction false} DecodedHeight(s: seq<byte>, depth: int)
    ensures Json.Decode(s, depth).Parsed? ==> Height(Json.Decode(s, depth).value) <= depth
    decreases Levels(depth), 0, |s|
  {
    hide StringDecode, Items, Fields, NumberLength;
    if depth >= 0 && SkipSpaces(s) != [] {
      var u := SkipSpaces(SkipSpaces(s)[1..]);
      ItemsHeight(u, depth - 1);
      FieldsHeight(u, depth - 1);
    }
  }

  lemma {:induction false} ItemsHeight(s: seq<byte>, depth: int)
    ensures Items(s, depth).Parsed? ==> depth >= 0 && MaxHeight(Items(s, depth).value) <= depth
    decreases Levels(depth), 1, |s|
  {
    hide Json.Decode, Height;
    if s != [] {
      DecodedHeight(s, depth);
      DecodeNeedsDepth(s, depth);
      if Json.Decode(s, depth).Parsed? {
        var t := SkipSpaces(Json.Decode(s, depth).rest);
        if t != [] {
          ItemsHeight(SkipSpaces(t[1..]), depth);
        }
        if Items(s, depth).Parsed? {
          var items := Items(s, depth).value;
          assert items[1..] == [] || items[1..] == Items(SkipSpaces(t[1..]), depth).value;
        }
      }
    }
  }

  lemma DecodeNeedsDepth(s: seq<byte>, depth: int)
    ensures Json.Decode(s, depth).Parsed? ==> depth >= 0
  {
  }

  lemma {:induction false} FieldsHeight(s: seq<byte>, depth: int)
    ensures Fields(s, depth).Parsed? ==> depth >= 0 && MaxFieldHeight(Fields(s, depth).value) <= depth
    decreases Levels(depth), 1, |s|
  {
    hide Json.Decode, Height, StringDecode;
    if s != [] && StringDecode(s).Some? {
      var c := SkipSpaces(StringDecode(s).value.1);
      if c != [] {
        DecodedHeight(c[1..], depth);
        DecodeNeedsDepth(c[1..], depth);
        if Json.Decode(c[1..], depth).Parsed? {
          var t := SkipSpaces(Json.Decode(c[1..], depth).rest);
          if t != [] {
            FieldsHeight(SkipSpaces(t[1..]), depth);
          }
          if Fields(s, depth).Parsed? {
            var fields := Fields(s, depth).value;
            assert fields[1..] == [] || fields[1..] == Fields(SkipSpaces(t[1..]), depth).value;
          }
        }
      }
    }
  }

  /** Printing and parsing is the identity exactly for the values that fit into the parser's depth. */
  lemma EncodeDecode(v: JsonValue, pretty: bool)
    requires Printable(v)
    ensures JsonDecode(JsonEncode(v, pretty)) == Some(v) <==> Height(v) <= DEFAULT_MAX_DEPTH
  {
    hide Printed, Printable, Json.Decode, Height;
    if Height(v) <= DEFAULT_MAX_DEPTH {
      if pretty {
        RoundTrip(v, 0, [NEWLINE], DEFAULT_MAX_DEPTH);
        assert [NEWLINE][1..] == [] && SkipSpaces([]) == [];
      } else {
        RoundTrip(v, -1, [], DEFAULT_MAX_DEPTH);
        assert Printed(v, -1) + [] == Printed(v, -1);
      }
    } else {
      DecodedHeight(JsonEncode(v, pretty), DEFAULT_MAX_DEPTH);
    }
  }
}
