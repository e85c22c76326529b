/** JSON (td/utils/JsonBuilder.h and JsonBuilder.cpp) on bytes. */
module Json {
  // What the parser, the skipper and the printer compute, as functions on bytes, and how they fit together. RFC 8259
  // describes the format.

  import opened Utf8

  datatype JsonValue =
    | Null
    | Boolean(b: bool)
    | Number(token: seq<byte>)
    | String(str: seq<byte>)
    | Array(items: seq<JsonValue>)
    | Object(fields: seq<Field>)

  datatype Field = Field(name: seq<byte>, value: JsonValue)

  const QUOTE: byte := 34
  const SLASH: byte := 92   // backslash
  const COMMA: byte := 44
  const COLON: byte := 58
  const SPACE: byte := 32
  const NEWLINE: byte := 10
  const OPEN_ARRAY: byte := 91
  const CLOSE_ARRAY: byte := 93
  const OPEN_OBJECT: byte := 123
  const CLOSE_OBJECT: byte := 125
  const LETTER_U: byte := 117

  // ---------------------------------------------------------------------------------------
  // Strings
  // ---------------------------------------------------------------------------------------

  /** Where the closing quote is: a backslash hides the byte behind it. */
  function Close(s: seq<byte>): (r: Option<nat>)
    ensures r.Some? ==> r.value < |s| && s[r.value] == QUOTE
  {
    if s == [] then None
    else if s[0] == QUOTE then Some(0)
    else
      var n := if s[0] == SLASH then 2 else 1;
      if |s| < n then None
      else match Close(s[n..]) { case None => None case Some(k) => Some(n + k) }
  }

  /** hex_to_int: 16 for anything but a hexadecimal digit. */
  function HexValue(c: byte): (d: nat)
    ensures d <= 16
  {
    if 48 <= c <= 57 then c - 48 else if 97 <= c <= 102 then c - 87 else if 65 <= c <= 70 then c - 55 else 16
  }

  function Hex4(s: seq<byte>): (r: Option<nat>)
    requires |s| >= 4
    ensures r.Some? ==> r.value < 0x10000
  {
    var a, b, c, d := HexValue(s[0]), HexValue(s[1]), HexValue(s[2]), HexValue(s[3]);
    if a == 16 || b == 16 || c == 16 || d == 16 then None else Some(((a * 16 + b) * 16 + c) * 16 + d)
  }

  predicate Surrogate(num: nat) { 0xD7FF < num < 0xE000 }

  /** Two surrogates make one code point; the code does not ask which of them comes first. */
  function Pair(a: nat, b: nat): (r: nat)
    requires Surrogate(a) && Surrogate(b)
    ensures 0x10000 <= r < 0x110000
  {
    a % 0x400 * 0x400 + b % 0x400 + 0x10000
  }

  /** What one step of decoding puts out, and what it leaves. */
  datatype Piece = Piece(out: seq<byte>, rest: seq<byte>)

  predicate SmallEscape(c: byte) {
    c == QUOTE || c == SLASH || c == 47 || c == 98 || c == 102 || c == 110 || c == 114 || c == 116
  }

  function Escaped(c: byte): byte {
    if c == 98 then 8
    else if c == 102 then 12
    else if c == 110 then 10
    else if c == 114 then 13
    else if c == 116 then 9
    else c
  }

  /** The escape sequence with four digits, and a second one if both are surrogates. */
  function Unicode(s: seq<byte>): Option<Piece> {
    if |s| < 4 then None
    else
      match Hex4(s)
      case None => None
      case Some(num) =>
        if Surrogate(num) && |s| >= 10 && s[4] == SLASH && s[5] == LETTER_U then
          match Hex4(s[6..])
          case None => None
          case Some(next) =>
            if Surrogate(next) then Some(Piece(Encode(Pair(num, next)), s[10..])) else Some(Piece(Encode(num), s[4..]))
        else Some(Piece(Encode(num), s[4..]))
  }

  /** One step; a backslash before any other byte is dropped. */
  function One(body: seq<byte>): Option<Piece>
    requires body != []
  {
    if body[0] != SLASH then Some(Piece([body[0]], body[1..]))
    else if |body| == 1 then None
    else if SmallEscape(body[1]) then Some(Piece([Escaped(body[1])], body[2..]))
    else if body[1] == LETTER_U then Unicode(body[2..])
    else Some(Piece([], body[1..]))
  }

  lemma OneShrinks(body: seq<byte>)
    requires body != []
    ensures One(body).Some? ==>
              |One(body).value.rest| < |body| && |One(body).value.out| + |One(body).value.rest| <= |body|
              && One(body).value.rest == body[|body| - |One(body).value.rest|..]
  {
  }

  function Prepend(a: seq<byte>, r: Option<seq<byte>>): Option<seq<byte>> {
    match r { case None => None case Some(b) => Some(a + b) }
  }

  /** The text between the quotes, decoded. */
  function Unescape(body: seq<byte>): Option<seq<byte>>
    decreases |body|
  {
    if body == [] then Some([])
    else
      OneShrinks(body);
      match One(body)
      case None => None
      case Some(p) => Prepend(p.out, Unescape(p.rest))
  }

  /** json_string_decode: the decoded string and what follows it. */
  function StringDecode(s: seq<byte>): (r: Option<(seq<byte>, seq<byte>)>)
    ensures r.Some? ==> |r.value.1| < |s|
  {
    if s == [] || s[0] != QUOTE then None
    else
      match Close(s[1..])
      case None => None
      case Some(k) =>
        match Unescape(s[1..1 + k])
        case None => None
        case Some(str) => Some((str, s[k + 2..]))
  }

  // ---------------------------------------------------------------------------------------
  // Values
  // ---------------------------------------------------------------------------------------

  predicate IsSpace(c: byte) { c == 32 || c == 9 || c == 13 || c == 10 }

  function SkipSpaces(s: seq<byte>): (r: seq<byte>)
    ensures |r| <= |s| && (r != [] ==> !IsSpace(r[0]))
  {
    if s != [] && IsSpace(s[0]) then SkipSpaces(s[1..]) else s
  }

  predicate NumberByte(c: byte) { c == 45 || 48 <= c <= 57 || c == 101 || c == 69 || c == 43 || c == 46 }

  predicate NumberStart(c: byte) { c == 45 || c == 43 || c == 46 || 48 <= c <= 57 }

  /** The longest prefix of number bytes. */
  function NumberLength(s: seq<byte>): (n: nat)
    ensures n <= |s|
    ensures s != [] && NumberStart(s[0]) ==> n > 0
  {
    if s != [] && NumberByte(s[0]) then 1 + NumberLength(s[1..]) else 0
  }

  const FALSE: seq<byte> := [102, 97, 108, 115, 101]
  const TRUE: seq<byte> := [116, 114, 117, 101]
  const NULL: seq<byte> := [110, 117, 108, 108]

  datatype Parsed<T> = Failed | Parsed(value: T, rest: seq<byte>)

  function Keyword(s: seq<byte>, word: seq<byte>, v: JsonValue): (r: Parsed<JsonValue>)
    requires word != []
    ensures r.Parsed? ==> |r.rest| < |s|
  {
    if word <= s then Parsed(v, s[|word|..]) else Failed
  }

  function Levels(depth: int): nat { if depth < 0 then 0 else depth + 1 }

  /** do_json_decode. */
  function Decode(s: seq<byte>, depth: int): (r: Parsed<JsonValue>)
    ensures r.Parsed? ==> |r.rest| < |s|
    decreases Levels(depth), 0, |s|
  {
    if depth < 0 then Failed
    else
      var t := SkipSpaces(s);
      if t == [] then Failed
      else if t[0] == 102 then Keyword(t, FALSE, Boolean(false))
      else if t[0] == 116 then Keyword(t, TRUE, Boolean(true))
      else if t[0] == 110 then Keyword(t, NULL, Null)
      else if t[0] == QUOTE then
        match StringDecode(t) { case None => Failed case Some((str, rest)) => Parsed(String(str), rest) }
      else if t[0] == OPEN_ARRAY then
        var u := SkipSpaces(t[1..]);
        if u != [] && u[0] == CLOSE_ARRAY then Parsed(Array([]), u[1..])
        else match Items(u, depth - 1) { case Failed => Failed case Parsed(items, rest) => Parsed(Array(items), rest) }
      else if t[0] == OPEN_OBJECT then
        var u := SkipSpaces(t[1..]);
        if u != [] && u[0] == CLOSE_OBJECT then Parsed(Object([]), u[1..])
        else
          match Fields(u, depth - 1) {
            case Failed => Failed
            case Parsed(fields, rest) => Parsed(Object(fields), rest)
          }
      else if NumberStart(t[0]) then Parsed(Number(t[..NumberLength(t)]), t[NumberLength(t)..])
      else Failed
  }

  /** The loop over the elements of an array, up to its closing bracket; `depth` is the elements' own. */
  function Items(s: seq<byte>, depth: int): (r: Parsed<seq<JsonValue>>)
    ensures r.Parsed? ==> |r.rest| < |s|
    decreases Levels(depth), 1, |s|
  {
    if s == [] then Failed
    else
      match Decode(s, depth)
      case Failed => Failed
      case Parsed(v, rest) =>
        var t := SkipSpaces(rest);
        if t != [] && t[0] == CLOSE_ARRAY then Parsed([v], t[1..])
        else if t != [] && t[0] == COMMA then
          match Items(SkipSpaces(t[1..]), depth)
          case Failed => Failed
          case Parsed(items, end) => Parsed([v] + items, end)
        else Failed
  }

  /** The loop over the members of an object. */
  function Fields(s: seq<byte>, depth: int): (r: Parsed<seq<Field>>)
    ensures r.Parsed? ==> |r.rest| < |s|
    decreases Levels(depth), 1, |s|
  {
    if s == [] then Failed
    else
      match StringDecode(s)
      case None => Failed
      case Some((name, afterName)) =>
        var c := SkipSpaces(afterName);
        if c == [] || c[0] != COLON then Failed
        else
          match Decode(c[1..], depth)
          case Failed => Failed
          case Parsed(v, rest) =>
            var t := SkipSpaces(rest);
            if t != [] && t[0] == CLOSE_OBJECT then Parsed([Field(name, v)], t[1..])
            else if t != [] && t[0] == COMMA then
              match Fields(SkipSpaces(t[1..]), depth)
              case Failed => Failed
              case Parsed(fields, end) => Parsed([Field(name, v)] + fields, end)
            else Failed
  }

  const DEFAULT_MAX_DEPTH: int := 100

  /** json_decode. */
  function JsonDecode(s: seq<byte>): Option<JsonValue> {
    match Decode(s, DEFAULT_MAX_DEPTH)
    case Failed => None
    case Parsed(v, rest) => if SkipSpaces(rest) == [] then Some(v) else None
  }

  // ---------------------------------------------------------------------------------------
  // The skipper
  // ---------------------------------------------------------------------------------------

  function SkipUnicode(s: seq<byte>): Option<seq<byte>> {
    if |s| < 4 then None
    else
      match Hex4(s)
      case None => None
      case Some(num) =>
        if Surrogate(num) && |s| >= 10 && s[4] == SLASH && s[5] == LETTER_U then
          match Hex4(s[6..])
          case None => None
          case Some(next) => Some(if Surrogate(next) then s[10..] else s[4..])
        else Some(s[4..])
  }

  /** One step of the skipper; bytes that are not escaped are jumped over one by one here. */
  function SkipOne(body: seq<byte>): Option<seq<byte>>
    requires body != []
  {
    if body[0] != SLASH then Some(body[1..])
    else if |body| == 1 then None
    else if SmallEscape(body[1]) then Some(body[2..])
    else if body[1] == LETTER_U then SkipUnicode(body[2..])
    else Some(body[1..])
  }

  lemma SkipOneAgrees(body: seq<byte>)
    requires body != []
    ensures SkipOne(body) == match One(body) { case None => None case Some(p) => Some(p.rest) }
    ensures SkipOne(body).Some? ==> |SkipOne(body).value| < |body|
  {
    OneShrinks(body);
  }

  predicate BodyOk(body: seq<byte>)
    decreases |body|
  {
    body == [] ||
    (SkipOneAgrees(body);
     match SkipOne(body) { case None => false case Some(rest) => BodyOk(rest) })
  }

  /** json_string_skip. */
  function StringSkip(s: seq<byte>): (r: Option<seq<byte>>)
    ensures r.Some? ==> |r.value| < |s|
  {
    if s == [] || s[0] != QUOTE then None
    else
      match Close(s[1..])
      case None => None
      case Some(k) => if BodyOk(s[1..1 + k]) then Some(s[k + 2..]) else None
  }

  /** do_json_skip. */
  function Skip(s: seq<byte>, depth: int): (r: Option<seq<byte>>)
    ensures r.Some? ==> |r.value| < |s|
    decreases Levels(depth), 0, |s|
  {
    if depth < 0 then None
    else
      var t := SkipSpaces(s);
      if t == [] then None
      else if t[0] == 102 then (if FALSE <= t then Some(t[5..]) else None)
      else if t[0] == 116 then (if TRUE <= t then Some(t[4..]) else None)
      else if t[0] == 110 then (if NULL <= t then Some(t[4..]) else None)
      else if t[0] == QUOTE then StringSkip(t)
      else if t[0] == OPEN_ARRAY then
        var u := SkipSpaces(t[1..]);
        if u != [] && u[0] == CLOSE_ARRAY then Some(u[1..]) else SkipItems(u, depth - 1)
      else if t[0] == OPEN_OBJECT then
        var u := SkipSpaces(t[1..]);
        if u != [] && u[0] == CLOSE_OBJECT then Some(u[1..]) else SkipFields(u, depth - 1)
      else if NumberStart(t[0]) then Some(t[NumberLength(t)..])
      else None
  }

  function SkipItems(s: seq<byte>, depth: int): (r: Option<seq<byte>>)
    ensures r.Some? ==> |r.value| < |s|
    decreases Levels(depth), 1, |s|
  {
    if s == [] then None
    else
      match Skip(s, depth)
      case None => None
      case Some(rest) =>
        var t := SkipSpaces(rest);
        if t != [] && t[0] == CLOSE_ARRAY then Some(t[1..])
        else if t != [] && t[0] == COMMA then SkipItems(SkipSpaces(t[1..]), depth)
        else None
  }

  function SkipFields(s: seq<byte>, depth: int): (r: Option<seq<byte>>)
    ensures r.Some? ==> |r.value| < |s|
    decreases Levels(depth), 1, |s|
  {
    if s == [] then None
    else
      match StringSkip(s)
      case None => None
      case Some(afterName) =>
        var c := SkipSpaces(afterName);
        if c == [] || c[0] != COLON then None
        else
          match Skip(c[1..], depth)
          case None => None
          case Some(rest) =>
            var t := SkipSpaces(rest);
            if t != [] && t[0] == CLOSE_OBJECT then Some(t[1..])
            else if t != [] && t[0] == COMMA then SkipFields(SkipSpaces(t[1..]), depth)
            else None
  }

  function RestOf<T>(r: Parsed<T>): Option<seq<byte>> {
    match r { case Failed => None case Parsed(_, rest) => Some(rest) }
  }

  lemma {:induction false} BodyAgrees(body: seq<byte>)
    ensures BodyOk(body) <==> Unescape(body).Some?
    decreases |body|
  {
    if body != [] {
      SkipOneAgrees(body);
      hide One, SkipOne;
      if One(body).Some? {
        BodyAgrees(One(body).value.rest);
      }
    }
  }

  lemma StringAgrees(s: seq<byte>)
    ensures StringSkip(s) == match StringDecode(s) { case None => None case Some((_, rest)) => Some(rest) }
  {
    if s != [] && s[0] == QUOTE && Close(s[1..]).Some? {
      BodyAgrees(s[1..1 + Close(s[1..]).value]);
    }
  }

  /** The skipper succeeds exactly when the parser does, and stops at the same place. */
  lemma {:induction false} SkipAgrees(s: seq<byte>, depth: int)
    ensures Skip(s, depth) == RestOf(Decode(s, depth))
    decreases Levels(depth), 0, |s|
  {
    hide StringDecode, StringSkip, Items, SkipItems, Fields, SkipFields, SkipSpaces, NumberLength;
    if depth >= 0 {
      var t := SkipSpaces(s);
      if t != [] {
        StringAgrees(t);
        ItemsAgree(SkipSpaces(t[1..]), depth - 1);
        FieldsAgree(SkipSpaces(t[1..]), depth - 1);
      }
    }
  }

  lemma {:induction false} ItemsAgree(s: seq<byte>, depth: int)
    ensures SkipItems(s, depth) == RestOf(Items(s, depth))
    decreases Levels(depth), 1, |s|
  {
    hide Decode, Skip, SkipSpaces;
    if s != [] {
      SkipAgrees(s, depth);
      if Decode(s, depth).Parsed? {
        var t := SkipSpaces(Decode(s, depth).rest);
        if t != [] {
          ItemsAgree(SkipSpaces(t[1..]), depth);
        }
      }
    }
  }

  lemma {:induction false} FieldsAgree(s: seq<byte>, depth: int)
    ensures SkipFields(s, depth) == RestOf(Fields(s, depth))
    decreases Levels(depth), 1, |s|
  {
    hide Decode, Skip, SkipSpaces, StringDecode, StringSkip;
    if s != [] {
      StringAgrees(s);
      if StringDecode(s).Some? {
        var c := SkipSpaces(StringDecode(s).value.1);
        if c != [] {
          SkipAgrees(c[1..], depth);
          if Decode(c[1..], depth).Parsed? {
            var t := SkipSpaces(Decode(c[1..], depth).rest);
            if t != [] {
              FieldsAgree(SkipSpaces(t[1..]), depth);
            }
          }
        }
      }
    }
  }
}
