/** json_decode (td/utils/JsonBuilder.cpp) accepts exactly the texts that the trees of the grammar write. */
module JsonAccepts {
  import opened Utf8
  import opened Json
  import opened JsonGrammar
  import JsonPrinter

  // ---------------------------------------------------------------------------------------
  // Strings
  // ---------------------------------------------------------------------------------------

  function DigitOf(c: byte): (d: Digit)
    requires HexValue(c) < 16
    ensures d.value == HexValue(c) && DigitByte(d) == c
  {
    Digit(HexValue(c), c < 97)
  }

  /** Four bytes that are hexadecimal digits. */
  lemma DigitsOf(s: seq<byte>) returns (ds: seq<Digit>)
    requires |s| >= 4 && Hex4(s).Some?
    ensures Four(ds) && Value(ds) == Hex4(s).value && CodeBytes(ds) == [SLASH, LETTER_U] + s[..4]
    ensures Half(ds) <==> Surrogate(Value(ds))
    ensures forall i :: 0 <= i < 4 ==> s[i] != QUOTE && s[i] != SLASH
  {
    ds := [DigitOf(s[0]), DigitOf(s[1]), DigitOf(s[2]), DigitOf(s[3])];
    hide DigitOf, DigitByte;
    assert CodeBytes(ds)[2..] == s[..4];
  }

  /** The scan for the closing quote goes on behind the first byte, or the first two. */
  lemma CloseJump(s: seq<byte>, k: nat)
    requires Close(s) == Some(k) && k > 0
    ensures s != [] && s[0] != QUOTE && k <= |s|
    ensures var n := if s[0] == SLASH then 2 else 1; n <= k && n <= |s| && Close(s[n..]) == Some((k - n) as nat)
  {
  }

  lemma ClosePlain(s: seq<byte>, k: nat, n: nat)
    requires Close(s) == Some(k) && n <= |s| && forall i :: 0 <= i < n ==> s[i] != QUOTE && s[i] != SLASH
    ensures n <= k && Close(s[n..]) == Some((k - n) as nat)
  {
    hide Close;
    JsonPrinter.ClosePast(s[..n], s[n..]);
    assert s[..n] + s[n..] == s;
  }

  /** Behind the escape `u` the text does not go on with the escape of a surrogate. */
  predicate Apart(u: Unit, rest: seq<byte>) {
    u.Code? && Half(u.ds) && |rest| >= 6 && rest[0] == SLASH && rest[1] == LETTER_U ==>
      Hex4(rest[2..]).Some? && !Surrogate(Hex4(rest[2..]).value)
  }

  /** The first unit of a string's text, up to its closing quote. */
  predicate First(s: seq<byte>, k: nat, u: Unit, n: nat)
    requires k <= |s|
  {
    && UnitOk(u) && 0 < n <= k && UnitBytes(u) == s[..n]
    && Close(s[n..]) == Some((k - n) as nat)
    && Unescape(s[..k]) == Prepend(UnitMeaning(u), Unescape(s[n..k]))
    && Apart(u, s[n..k])
  }

  lemma RawFirst(s: seq<byte>, k: nat) returns (u: Unit, n: nat)
    requires Close(s) == Some(k) && k > 0 && s != [] && s[0] != SLASH && Unescape(s[..k]).Some?
    ensures k <= |s| && First(s, k, u, n)
  {
    CloseJump(s, k);
    u, n := Raw(s[0]), 1;
    assert s[..k][1..] == s[1..k];
    hide Close, Unicode;
  }

  lemma SmallFirst(s: seq<byte>, k: nat) returns (u: Unit, n: nat)
    requires Close(s) == Some(k) && k > 1 && |s| > 1 && s[0] == SLASH && SmallEscape(s[1]) && Unescape(s[..k]).Some?
    ensures k <= |s| && First(s, k, u, n)
  {
    CloseJump(s, k);
    u, n := Short(s[1]), 2;
    assert s[..k][2..] == s[2..k];
    hide Close, Unicode;
    assert One(s[..k]) == Some(Piece([Escaped(s[1])], s[2..k]));
  }

  lemma StrayFirst(s: seq<byte>, k: nat) returns (u: Unit, n: nat)
    requires Close(s) == Some(k) && k > 1 && |s| > 1 && s[0] == SLASH && !SmallEscape(s[1]) && s[1] != LETTER_U
    requires Unescape(s[..k]).Some?
    ensures k <= |s| && First(s, k, u, n)
  {
    CloseJump(s, k);
    u, n := Stray(s[1]), 2;
    assert s[..k][1..] == s[1..k] && s[1..k][1..] == s[2..k];
    hide Close, Unicode;
    assert One(s[..k]) == Some(Piece([], s[1..k]));
    assert One(s[1..k]) == Some(Piece([s[1]], s[2..k]));
    PrependNothing(Unescape(s[1..k]));
  }

  /** An escape with digits at the start of a string's text: its six bytes, and how the parser goes on. */
  lemma CodeStart(s: seq<byte>, k: nat) returns (ds: seq<Digit>)
    requires Close(s) == Some(k) && k > 1 && |s| > 1 && s[0] == SLASH && s[1] == LETTER_U
    requires k <= |s| && Unescape(s[..k]).Some?
    ensures Four(ds) && k >= 6 && CodeBytes(ds) == s[..6] && Close(s[6..]) == Some((k - 6) as nat)
    ensures Hex4(s[2..k]) == Some(Value(ds)) && (Half(ds) <==> Surrogate(Value(ds)))
    ensures var p := Unicode(s[2..k]);
            p.Some? && Unescape(s[..k]) == Prepend(p.value.out, Unescape(p.value.rest))
  {
    CloseJump(s, k);
    var t := s[2..k];
    UnicodeComes(s[..k]);
    assert s[..k][2..] == t;
    hide Unescape, Close, One;
    UnicodeHex(t);
    ds := DigitsOf(t);
    assert forall i :: 0 <= i < 4 ==> s[2..][i] == t[i];
    ClosePlain(s[2..], k - 2, 4);
    assert s[2..][4..] == s[6..];
    assert CodeBytes(ds) == s[..6];
  }

  lemma UnicodeComes(body: seq<byte>)
    requires |body| > 1 && body[0] == SLASH && body[1] == LETTER_U && Unescape(body).Some?
    ensures var p := Unicode(body[2..]);
            p.Some? && Unescape(body) == Prepend(p.value.out, Unescape(p.value.rest))
  {
    hide Unicode;
    assert One(body) == Unicode(body[2..]);
  }

  lemma UnicodeHex(t: seq<byte>)
    requires Unicode(t).Some?
    ensures |t| >= 4 && Hex4(t).Some?
  {
    hide Hex4;
  }

  /** The parser joins two escapes. */
  predicate Joins(t: seq<byte>)
    requires |t| >= 4 && Hex4(t).Some?
  {
    && Surrogate(Hex4(t).value) && |t| >= 10 && t[4] == SLASH && t[5] == LETTER_U && Hex4(t[6..]).Some?
    && Surrogate(Hex4(t[6..]).value)
  }

  lemma CodeFirst(s: seq<byte>, k: nat) returns (u: Unit, n: nat)
    requires Close(s) == Some(k) && k > 1 && |s| > 1 && s[0] == SLASH && s[1] == LETTER_U
    requires k <= |s| && Unescape(s[..k]).Some?
    ensures First(s, k, u, n)
  {
    var ds := CodeStart(s, k);
    if Joins(s[2..k]) {
      hide Unescape, Close, Unicode, CodeBytes, Half, First;
      u, n := JoinedFirst(s, k, ds);
    } else {
      u, n := Code(ds), 6;
      assert s[2..k][4..] == s[6..k];
      AloneIs(s[2..k]);
      hide Unescape, Close, Unicode, Hex4, Utf8.Encode, Half, CodeBytes;
    }
  }

  /** The parser takes one escape alone if no second surrogate follows. */
  lemma AloneIs(t: seq<byte>)
    requires |t| >= 4 && Hex4(t).Some? && Unicode(t).Some? && !Joins(t)
    ensures Unicode(t).value == Piece(Utf8.Encode(Hex4(t).value), t[4..])
    ensures Surrogate(Hex4(t).value) ==> NoHalf(t[4..])
  {
    hide Hex4, Surrogate, Utf8.Encode;
    if |t| >= 10 {
      assert t[4..][2..] == t[6..] && t[4..][0] == t[4] && t[4..][1] == t[5];
    }
  }

  lemma JoinedFirst(s: seq<byte>, k: nat, hi: seq<Digit>) returns (u: Unit, n: nat)
    requires 6 <= k <= |s| && Half(hi) && CodeBytes(hi) == s[..6] && Close(s[6..]) == Some((k - 6) as nat)
    requires Hex4(s[2..k]) == Some(Value(hi)) && Joins(s[2..k])
    requires var p := Unicode(s[2..k]);
             p.Some? && Unescape(s[..k]) == Prepend(p.value.out, Unescape(p.value.rest))
    ensures First(s, k, u, n)
  {
    var lo := SecondHalf(s, k);
    u, n := Joined(hi, lo), 12;
    var t := s[2..k];
    assert t[10..] == s[12..k] && t[4] == s[6] && t[5] == s[7];
    hide Unescape, Close, Unicode, Hex4, CodeBytes, Half, Utf8.Encode, Pair;
    JoinedIs(Value(hi), Value(lo));
    JoinedBytes(s, hi, lo);
    JoinedOut(t, Value(hi), Value(lo));
  }

  lemma SecondHalf(s: seq<byte>, k: nat) returns (lo: seq<Digit>)
    requires 6 <= k <= |s| && Close(s[6..]) == Some((k - 6) as nat)
    requires |s[2..k]| >= 4 && Hex4(s[2..k]).Some? && Joins(s[2..k])
    ensures Half(lo) && k >= 12 && Close(s[12..]) == Some((k - 12) as nat)
    ensures Hex4(s[2..k][6..]) == Some(Value(lo)) && CodeBytes(lo) == [SLASH, LETTER_U] + s[8..12]
  {
    var t := s[2..k];
    lo := DigitsOf(t[6..]);
    hide Hex4, CodeBytes, Half;
    CloseJump(s[6..], k - 6);
    assert s[6..][2..] == s[8..];
    assert forall i :: 0 <= i < 4 ==> s[8..][i] == t[6..][i];
    ClosePlain(s[8..], k - 8, 4);
    assert s[8..][4..] == s[12..] && t[6..][..4] == s[8..12];
  }

  lemma JoinedBytes(s: seq<byte>, hi: seq<Digit>, lo: seq<Digit>)
    requires |s| >= 12 && Half(hi) && Half(lo) && CodeBytes(hi) == s[..6]
    requires s[6] == SLASH && s[7] == LETTER_U && CodeBytes(lo) == [SLASH, LETTER_U] + s[8..12]
    ensures UnitBytes(Joined(hi, lo)) == s[..12]
  {
    hide CodeBytes;
    assert CodeBytes(lo) == s[6..12];
  }

  lemma JoinedOut(t: seq<byte>, hi: nat, lo: nat)
    requires |t| >= 10 && Hex4(t) == Some(hi) && Hex4(t[6..]) == Some(lo) && Surrogate(hi) && Surrogate(lo)
    requires t[4] == SLASH && t[5] == LETTER_U
    ensures Unicode(t) == Some(Piece(Utf8.Encode(Pair(hi, lo)), t[10..]))
  {
    hide Hex4, Pair, Utf8.Encode;
  }

  lemma FirstUnit(s: seq<byte>, k: nat) returns (u: Unit, n: nat)
    requires Close(s) == Some(k) && k > 0 && Unescape(s[..k]).Some?
    ensures First(s, k, u, n)
  {
    CloseJump(s, k);
    hide First, Unescape, Close;
    if s[0] != SLASH {
      u, n := RawFirst(s, k);
    } else if SmallEscape(s[1]) {
      u, n := SmallFirst(s, k);
    } else if s[1] == LETTER_U {
      u, n := CodeFirst(s, k);
    } else {
      u, n := StrayFirst(s, k);
    }
  }

  /** A unit that is a surrogate's escape shows in the text. */
  lemma HalfShows(units: seq<Unit>, s: seq<byte>)
    requires UnitsOk(units) && StartsHalf(units) && PutUnits(units, []) == s
    ensures |s| >= 6 && s[0] == SLASH && s[1] == LETTER_U && Hex4(s[2..]).Some? && Surrogate(Hex4(s[2..]).value)
  {
    var ds := if units[0].Code? then units[0].ds else units[0].hi;
    assert CodeBytes(ds) <= s;
    CodeRead(ds, s);
    hide Hex4, CodeBytes;
  }

  lemma FirstLeaves(s: seq<byte>, k: nat, u: Unit, n: nat)
    requires k <= |s| && First(s, k, u, n) && Unescape(s[..k]).Some?
    ensures UnitOk(u) && 0 < n <= k && Close(s[n..]) == Some((k - n) as nat) && Apart(u, s[n..k])
    ensures s[n..][..k - n] == s[n..k] && UnitBytes(u) + s[n..k] == s[..k]
    ensures Unescape(s[n..k]).Some? && Unescape(s[..k]) == Some(UnitMeaning(u) + Unescape(s[n..k]).value)
  {
    hide Unescape, Close, UnitBytes, UnitMeaning, UnitOk;
    assert s[..n] + s[n..k] == s[..k];
  }

  lemma NoUnits(s: seq<byte>)
    ensures UnitsOk([]) && PutUnits([], []) == s[..0] && Some(StringMeaning([])) == Unescape(s[..0])
  {
  }

  /** One unit before others. */
  lemma UnitsJoin(u: Unit, rest: seq<Unit>, s: seq<byte>)
    requires UnitOk(u) && UnitsOk(rest) && PutUnits(rest, []) == s && Apart(u, s)
    ensures var units := [u] + rest;
            && UnitsOk(units) && PutUnits(units, []) == UnitBytes(u) + s
            && StringMeaning(units) == UnitMeaning(u) + StringMeaning(rest)
  {
    assert ([u] + rest)[1..] == rest;
    hide UnitBytes, UnitMeaning, Hex4, Surrogate, Half, CodeBytes;
    if StartsHalf(rest) {
      HalfShows(rest, s);
    }
  }

  /** The text of every accepted string is made of units, and they mean what the parser returns. */
  lemma {:induction false} UnitsFrom(s: seq<byte>, k: nat) returns (units: seq<Unit>)
    requires Close(s) == Some(k) && k <= |s| && Unescape(s[..k]).Some?
    ensures UnitsOk(units) && PutUnits(units, []) == s[..k] && Some(StringMeaning(units)) == Unescape(s[..k])
    decreases k
  {
    hide *;
    if k == 0 {
      NoUnits(s);
      units := [];
    } else {
      var u, n := FirstUnit(s, k);
      FirstLeaves(s, k, u, n);
      var rest := UnitsFrom(s[n..], k - n);
      UnitsJoin(u, rest, s[n..k]);
      units := [u] + rest;
    }
  }

  /** What json_string_decode accepts is a string of the grammar. */
  lemma StringFrom(s: seq<byte>) returns (units: seq<Unit>)
    requires StringDecode(s).Some?
    ensures UnitsOk(units) && s == PutString(units, StringDecode(s).value.1)
    ensures StringMeaning(units) == StringDecode(s).value.0
  {
    var k := StringBody(s);
    units := UnitsFrom(s[1..], k);
    hide *;
    UnitsSplit(units, [0x22] + s[k + 2..]);
    StringIs(units, s[k + 2..]);
    StringShape(s, k);
  }

  lemma StringBody(s: seq<byte>) returns (k: nat)
    requires StringDecode(s).Some?
    ensures s != [] && Close(s[1..]) == Some(k) && k + 2 <= |s| && s[0] == QUOTE && s[k + 1] == 0x22
    ensures Unescape(s[1..][..k]) == Some(StringDecode(s).value.0) && StringDecode(s).value.1 == s[k + 2..]
  {
    k := Close(s[1..]).value;
    hide Close, Unescape;
    assert s[1..][..k] == s[1..1 + k];
    CloseEnds(s[1..], k);
  }

  lemma StringShape(s: seq<byte>, k: nat)
    requires k + 2 <= |s| && s[0] == QUOTE && s[k + 1] == 0x22
    ensures s == [QUOTE] + (s[1..][..k] + ([0x22] + s[k + 2..]))
  {
    assert s[1..] == s[1..][..k] + ([0x22] + s[k + 2..]);
  }

  lemma CloseEnds(s: seq<byte>, k: nat)
    requires Close(s) == Some(k)
    ensures k < |s| && s[k] == 0x22
  {
  }

  // ---------------------------------------------------------------------------------------
  // Values
  // ---------------------------------------------------------------------------------------

  lemma {:induction false} SpacesFrom(s: seq<byte>) returns (ws: seq<byte>)
    ensures Blank(ws) && s == ws + SkipSpaces(s)
  {
    ws := [];
    if s != [] && IsSpace(s[0]) {
      var rest := SpacesFrom(s[1..]);
      ws := [s[0]] + rest;
      assert s == [s[0]] + s[1..];
    }
  }

  lemma {:induction false} NumberTaken(s: seq<byte>)
    ensures var n := NumberLength(s);
            (forall i :: 0 <= i < n ==> NumberByte(s[i])) && (n < |s| ==> !NumberByte(s[n]))
  {
    if s != [] && NumberByte(s[0]) {
      NumberTaken(s[1..]);
      forall i | 0 <= i < NumberLength(s) ensures NumberByte(s[i]) {
        if i > 0 {
          assert s[i] == s[1..][i - 1];
        }
      }
    }
  }

  lemma NumberFrom(s: seq<byte>)
    requires s != [] && NumberStart(s[0])
    ensures var n := NumberLength(s); NumeralOk(s[..n]) && (s[n..] == [] || !NumeralByte(s[n..][0]))
  {
    NumberTaken(s);
    hide NumberLength;
  }

  /** A value that is no container, from its first byte on. */
  lemma LeafFrom(s: seq<byte>, depth: int) returns (t: Tree)
    requires depth >= 0 && s != [] && SkipSpaces(s) == s && s[0] != OPEN_ARRAY && s[0] != OPEN_OBJECT
    requires Json.Decode(s, depth).Parsed?
    ensures Good(t) && s == Put(t, Json.Decode(s, depth).rest) && Meaning(t) == Json.Decode(s, depth).value
    ensures NumberEnds(t, Json.Decode(s, depth).rest)
  {
    hide Items, Fields, StringDecode, PutString, StringMeaning, NumberLength, SkipSpaces;
    if s[0] == 102 {
      t := Truth(false);
      assert s == FALSE + s[5..];
    } else if s[0] == 116 {
      t := Truth(true);
      assert s == TRUE + s[4..];
    } else if s[0] == 110 {
      t := Nothing;
      assert s == NULL + s[4..];
    } else if s[0] == QUOTE {
      var units := StringFrom(s);
      t := Str(units);
    } else {
      var n := NumberLength(s);
      NumberFrom(s);
      t := Numeral(s[..n]);
      assert s == s[..n] + s[n..];
    }
  }

  /** More white space before the first element. */
  function Wider(items: seq<Item>, ws: seq<byte>): seq<Item>
    requires items != []
  {
    [items[0].(before := ws + items[0].before)] + items[1..]
  }

  lemma WiderItems(items: seq<Item>, ws: seq<byte>, more: seq<byte>)
    requires items != [] && GoodItems(items) && Blank(ws)
    ensures var r := Wider(items, ws);
            GoodItems(r) && PutItems(r, more) == ws + PutItems(items, more) && ItemsMeaning(r) == ItemsMeaning(items)
  {
    var r := Wider(items, ws);
    assert r[1..] == items[1..];
    assert PutItem(r, more) == PutItem(items, more);
    hide Put, PutItem, Meaning;
    JsonPrinter.Assoc(ws, items[0].before, PutItem(items, more));
  }

  function WiderM(members: seq<Member>, ws: seq<byte>): seq<Member>
    requires members != []
  {
    [members[0].(before := ws + members[0].before)] + members[1..]
  }

  lemma WiderMembers(members: seq<Member>, ws: seq<byte>, more: seq<byte>)
    requires members != [] && GoodMembers(members) && Blank(ws)
    ensures var r := WiderM(members, ws);
            && GoodMembers(r) && PutMembers(r, more) == ws + PutMembers(members, more)
            && MembersMeaning(r) == MembersMeaning(members)
  {
    var r := WiderM(members, ws);
    assert r[1..] == members[1..];
    WiderMember(members, ws, more);
    hide Put, PutMember, Meaning, StringMeaning;
    JsonPrinter.Assoc(ws, members[0].before, PutMember(members, more));
  }

  lemma WiderMember(members: seq<Member>, ws: seq<byte>, more: seq<byte>)
    requires members != [] && GoodMembers(members) && Blank(ws)
    ensures GoodMembers(WiderM(members, ws)) && PutMember(WiderM(members, ws), more) == PutMember(members, more)
  {
    var r := WiderM(members, ws);
    assert r[1..] == members[1..];
    hide Put, PutString;
    assert MemberEnd(r, more) == MemberEnd(members, more);
    assert PutMemberValue(r, more) == PutMemberValue(members, more);
  }

  /** One element and what follows it, put together. */
  lemma ItemsJoin(i: Item, rest: seq<Item>, more: seq<byte>)
    requires Blank(i.before) && Good(i.tree) && Blank(i.after) && GoodItems(rest)
    ensures var items := [i] + rest;
            && GoodItems(items) && ItemsMeaning(items) == [Meaning(i.tree)] + ItemsMeaning(rest)
            && PutItems(items, more) ==
               i.before + Put(i.tree, i.after + (if rest == [] then [CLOSE_ARRAY] + more
                                                 else [COMMA] + PutItems(rest, more)))
  {
    var items := [i] + rest;
    assert items[1..] == rest;
    assert items[0] == i && |items| == 1 + |rest|;
    hide Put, Meaning;
    assert PutItem(items, more) == Put(i.tree, i.after + ItemEnd(items, more));
    assert ItemEnd(items, more) == if rest == [] then [CLOSE_ARRAY] + more else [COMMA] + PutItems(rest, more);
  }

  lemma MembersJoin(m: Member, rest: seq<Member>, more: seq<byte>)
    requires Blank(m.before) && UnitsOk(m.name) && Blank(m.left) && Blank(m.right) && Good(m.tree) && Blank(m.after)
    requires GoodMembers(rest)
    ensures var members := [m] + rest;
            && GoodMembers(members)
            && MembersMeaning(members) == [Field(StringMeaning(m.name), Meaning(m.tree))] + MembersMeaning(rest)
            && PutMembers(members, more) ==
               m.before + PutString(m.name, m.left + ([COLON] + (m.right + Put(m.tree,
                 m.after + (if rest == [] then [CLOSE_OBJECT] + more else [COMMA] + PutMembers(rest, more))))))
  {
    var members := [m] + rest;
    assert members[1..] == rest;
    assert members[0] == m && |members| == 1 + |rest|;
    hide Put, PutString, Meaning, StringMeaning;
    assert MemberEnd(members, more) ==
      if rest == [] then [CLOSE_OBJECT] + more else [COMMA] + PutMembers(rest, more);
    assert PutMemberValue(members, more) == m.right + Put(m.tree, m.after + MemberEnd(members, more));
    assert PutMember(members, more) == PutString(m.name, m.left + ([COLON] + PutMemberValue(members, more)));
  }

  /** What a parse of a value says about the text. */
  predicate Written(s: seq<byte>, ws: seq<byte>, t: Tree, v: JsonValue, rest: seq<byte>) {
    && Blank(ws) && Good(t) && Meaning(t) == v && NumberEnds(t, rest) && s == ws + Put(t, rest)
  }

  predicate WrittenItems(s: seq<byte>, items: seq<Item>, vs: seq<JsonValue>, rest: seq<byte>) {
    items != [] && GoodItems(items) && ItemsMeaning(items) == vs && s == PutItems(items, rest)
  }

  predicate WrittenMembers(s: seq<byte>, members: seq<Member>, fs: seq<Field>, rest: seq<byte>) {
    members != [] && GoodMembers(members) && MembersMeaning(members) == fs && s == PutMembers(members, rest)
  }

  lemma IsWritten(s: seq<byte>, t: Tree, rest: seq<byte>)
    requires Good(t) && s == Put(t, rest) && (t.Arr? || t.Obj?)
    ensures Written(s, [], t, Meaning(t), rest)
  {
    hide Good, Put, Meaning;
    assert [] + s == s;
  }

  /** White space before a value is skipped, and the value parsed from there on. */
  lemma DecodeSkips(s: seq<byte>, depth: int)
    requires Json.Decode(s, depth).Parsed?
    ensures depth >= 0 && SkipSpaces(s) != [] && SkipSpaces(SkipSpaces(s)) == SkipSpaces(s)
    ensures Json.Decode(SkipSpaces(s), depth) == Json.Decode(s, depth) && |SkipSpaces(s)| <= |s|
  {
    var ws := SpacesFrom(s);
    SkipBlank(ws, SkipSpaces(s));
    hide SkipSpaces, Items, Fields, StringDecode, NumberLength, Keyword;
  }

  lemma {:induction false} TreeFrom(s: seq<byte>, depth: int) returns (ws: seq<byte>, t: Tree)
    requires Json.Decode(s, depth).Parsed?
    ensures Written(s, ws, t, Json.Decode(s, depth).value, Json.Decode(s, depth).rest)
    decreases Levels(depth), 1, |s|
  {
    hide Json.Decode, Good, Levels, Meaning, NumberEnds, Put, SkipSpaces;
    ws := SpacesFrom(s);
    DecodeSkips(s, depth);
    var u := SkipSpaces(s);
    if u[0] == OPEN_ARRAY {
      t := ArrayFrom(u, depth);
    } else if u[0] == OPEN_OBJECT {
      t := ObjectFrom(u, depth);
    } else {
      t := LeafFrom(u, depth);
    }
  }

  lemma EmptyArray(s: seq<byte>, gap: seq<byte>, more: seq<byte>)
    requires Blank(gap) && s == [OPEN_ARRAY] + (gap + ([CLOSE_ARRAY] + more))
    ensures Good(Arr(gap, [])) && Meaning(Arr(gap, [])) == Array([]) && s == Put(Arr(gap, []), more)
  {
  }

  lemma FullArray(s: seq<byte>, gap: seq<byte>, items: seq<Item>, more: seq<byte>)
    requires Blank(gap) && GoodItems(items) && s == [OPEN_ARRAY] + (gap + PutItems(items, more))
    ensures var t := Arr(gap, items); Good(t) && Meaning(t) == Array(ItemsMeaning(items)) && s == Put(t, more)
  {
    hide PutItems, ItemsMeaning, GoodItems;
  }

  /** What the parser makes of the text behind the opening bracket. */
  lemma ArrayOpens(s: seq<byte>, depth: int)
    requires depth >= 0 && s != [] && s[0] == OPEN_ARRAY && Json.Decode(s, depth).Parsed?
    ensures s == [OPEN_ARRAY] + s[1..]
    ensures var u, p := SkipSpaces(s[1..]), Json.Decode(s, depth);
            if u != [] && u[0] == CLOSE_ARRAY then p == Parsed(Array([]), u[1..]) && u == [CLOSE_ARRAY] + u[1..]
            else
              && Items(u, depth - 1).Parsed?
              && p == Parsed(Array(Items(u, depth - 1).value), Items(u, depth - 1).rest)
    ensures Levels(depth - 1) < Levels(depth)
  {
    hide Items, SkipSpaces;
    assert s == [OPEN_ARRAY] + s[1..];
    JsonPrinter.OpenArray(s[1..], depth);
    hide Json.Decode;
  }

  lemma {:induction false} ArrayFrom(s: seq<byte>, depth: int) returns (t: Tree)
    requires depth >= 0 && s != [] && s[0] == OPEN_ARRAY && Json.Decode(s, depth).Parsed?
    ensures Written(s, [], t, Json.Decode(s, depth).value, Json.Decode(s, depth).rest)
    decreases Levels(depth), 0, |s|
  {
    hide Blank, Json.Decode, Good, GoodItems, Items, ItemsMeaning, Levels, Meaning, Put, PutItems, SkipSpaces,
         Written;
    ArrayOpens(s, depth);
    var gap := SpacesFrom(s[1..]);
    var u, rest := SkipSpaces(s[1..]), Json.Decode(s, depth).rest;
    if u != [] && u[0] == CLOSE_ARRAY {
      EmptyArray(s, gap, rest);
      t := Arr(gap, []);
    } else {
      var items := ItemsFrom(u, depth - 1);
      FullArray(s, gap, items, rest);
      t := Arr(gap, items);
    }
    IsWritten(s, t, rest);
  }

  lemma {:induction false} ItemsFrom(s: seq<byte>, depth: int) returns (items: seq<Item>)
    requires Items(s, depth).Parsed?
    ensures WrittenItems(s, items, Items(s, depth).value, Items(s, depth).rest)
    decreases Levels(depth), 2, |s|
  {
    hide Json.Decode, Put, Meaning, Good, GoodItems, PutItems, ItemsMeaning, SkipSpaces;
    var before, tree := TreeFrom(s, depth);
    var rest := Json.Decode(s, depth).rest;
    var after := SpacesFrom(rest);
    var t := SkipSpaces(rest);
    assert t == [t[0]] + t[1..];
    if t[0] == CLOSE_ARRAY {
      items := ItemsEnd(s, before, tree, after, t[1..]);
    } else {
      var u := SkipSpaces(t[1..]);
      var more := ItemsFrom(u, depth);
      var gap := SpacesFrom(t[1..]);
      WiderItems(more, gap, Items(u, depth).rest);
      items := ItemsGoOn(s, before, tree, after, Wider(more, gap), Items(u, depth).rest);
    }
  }

  lemma ItemsEnd(s: seq<byte>, before: seq<byte>, tree: Tree, after: seq<byte>, more: seq<byte>)
    returns (items: seq<Item>)
    requires Blank(before) && Good(tree) && Blank(after)
    requires s == before + Put(tree, after + ([CLOSE_ARRAY] + more))
    ensures WrittenItems(s, items, [Meaning(tree)], more)
  {
    hide Put, Meaning, Good, GoodItems, PutItems;
    ItemsNone(more);
    ItemsJoin(Item(before, tree, after), [], more);
    items := [Item(before, tree, after)] + [];
  }

  lemma ItemsNone(more: seq<byte>)
    ensures GoodItems([]) && ItemsMeaning([]) == []
  {
  }

  lemma ItemsGoOn(s: seq<byte>, before: seq<byte>, tree: Tree, after: seq<byte>, rest: seq<Item>, more: seq<byte>)
    returns (items: seq<Item>)
    requires Blank(before) && Good(tree) && Blank(after) && GoodItems(rest) && rest != []
    requires s == before + Put(tree, after + ([COMMA] + PutItems(rest, more)))
    ensures WrittenItems(s, items, [Meaning(tree)] + ItemsMeaning(rest), more)
  {
    hide Put, Meaning, Good, GoodItems, PutItems;
    ItemsJoin(Item(before, tree, after), rest, more);
    items := [Item(before, tree, after)] + rest;
  }

  lemma EmptyObject(s: seq<byte>, gap: seq<byte>, more: seq<byte>)
    requires Blank(gap) && s == [OPEN_OBJECT] + (gap + ([CLOSE_OBJECT] + more))
    ensures Good(Obj(gap, [])) && Meaning(Obj(gap, [])) == Object([]) && s == Put(Obj(gap, []), more)
  {
  }

  lemma FullObject(s: seq<byte>, gap: seq<byte>, members: seq<Member>, more: seq<byte>)
    requires Blank(gap) && GoodMembers(members) && s == [OPEN_OBJECT] + (gap + PutMembers(members, more))
    ensures var t := Obj(gap, members); Good(t) && Meaning(t) == Object(MembersMeaning(members)) && s == Put(t, more)
  {
    hide PutMembers, MembersMeaning, GoodMembers;
  }

  /** What the parser makes of the text behind the opening bracket. */
  lemma ObjectOpens(s: seq<byte>, depth: int)
    requires depth >= 0 && s != [] && s[0] == OPEN_OBJECT && Json.Decode(s, depth).Parsed?
    ensures s == [OPEN_OBJECT] + s[1..]
    ensures var u, p := SkipSpaces(s[1..]), Json.Decode(s, depth);
            if u != [] && u[0] == CLOSE_OBJECT then p == Parsed(Object([]), u[1..]) && u == [CLOSE_OBJECT] + u[1..]
            else
              && Fields(u, depth - 1).Parsed?
              && p == Parsed(Object(Fields(u, depth - 1).value), Fields(u, depth - 1).rest)
    ensures Levels(depth - 1) < Levels(depth)
  {
    hide Fields, SkipSpaces;
    assert s == [OPEN_OBJECT] + s[1..];
    JsonPrinter.OpenObject(s[1..], depth);
    hide Json.Decode;
  }

  lemma {:induction false} ObjectFrom(s: seq<byte>, depth: int) returns (t: Tree)
    requires depth >= 0 && s != [] && s[0] == OPEN_OBJECT && Json.Decode(s, depth).Parsed?
    ensures Written(s, [], t, Json.Decode(s, depth).value, Json.Decode(s, depth).rest)
    decreases Levels(depth), 0, |s|
  {
    hide Blank, Json.Decode, Fields, Good, GoodMembers, Levels, Meaning, MembersMeaning, Put, PutMembers,
         SkipSpaces, Written;
    ObjectOpens(s, depth);
    var gap := SpacesFrom(s[1..]);
    var u, rest := SkipSpaces(s[1..]), Json.Decode(s, depth).rest;
    if u != [] && u[0] == CLOSE_OBJECT {
      EmptyObject(s, gap, rest);
      t := Obj(gap, []);
    } else {
      var members := MembersFrom(u, depth - 1);
      FullObject(s, gap, members, rest);
      t := Obj(gap, members);
    }
    IsWritten(s, t, rest);
  }

  lemma {:induction false} MembersFrom(s: seq<byte>, depth: int) returns (members: seq<Member>)
    requires Fields(s, depth).Parsed?
    ensures WrittenMembers(s, members, Fields(s, depth).value, Fields(s, depth).rest)
    decreases Levels(depth), 2, |s|
  {
    hide Json.Decode, Put, Meaning, Good, GoodMembers, PutMembers, MembersMeaning, SkipSpaces;
    hide StringDecode, PutString, StringMeaning, UnitsOk;
    var name := StringFrom(s);
    var left := SpacesFrom(StringDecode(s).value.1);
    var c := SkipSpaces(StringDecode(s).value.1);
    assert c == [COLON] + c[1..];
    var right, tree := TreeFrom(c[1..], depth);
    var rest := Json.Decode(c[1..], depth).rest;
    var after := SpacesFrom(rest);
    var t := SkipSpaces(rest);
    assert t == [t[0]] + t[1..];
    if t[0] == CLOSE_OBJECT {
      members := MembersEnd(s, name, left, right, tree, after, t[1..]);
    } else {
      var u := SkipSpaces(t[1..]);
      var more := MembersFrom(u, depth);
      var gap := SpacesFrom(t[1..]);
      WiderMembers(more, gap, Fields(u, depth).rest);
      members := MembersGoOn(s, name, left, right, tree, after, WiderM(more, gap), Fields(u, depth).rest);
    }
  }

  lemma MembersNone()
    ensures GoodMembers([]) && MembersMeaning([]) == [] && Blank([])
  {
  }

  lemma MembersEnd(s: seq<byte>, name: seq<Unit>, left: seq<byte>, right: seq<byte>, tree: Tree, after: seq<byte>,
                   more: seq<byte>)
    returns (members: seq<Member>)
    requires UnitsOk(name) && Blank(left) && Blank(right) && Good(tree) && Blank(after)
    requires s == PutString(name, left + ([COLON] + (right + Put(tree, after + ([CLOSE_OBJECT] + more)))))
    ensures WrittenMembers(s, members, [Field(StringMeaning(name), Meaning(tree))], more)
  {
    hide Put, Meaning, Good, GoodMembers, PutMembers, PutString, StringMeaning, UnitsOk;
    MembersNone();
    var m := Member([], name, left, right, tree, after);
    MembersJoin(m, [], more);
    members := [m] + [];
    assert [] + s == s;
  }

  lemma MembersGoOn(s: seq<byte>, name: seq<Unit>, left: seq<byte>, right: seq<byte>, tree: Tree, after: seq<byte>,
                    rest: seq<Member>, more: seq<byte>)
    returns (members: seq<Member>)
    requires UnitsOk(name) && Blank(left) && Blank(right) && Good(tree) && Blank(after)
    requires GoodMembers(rest) && rest != []
    requires s == PutString(name, left + ([COLON] + (right + Put(tree, after + ([COMMA] + PutMembers(rest, more))))))
    ensures WrittenMembers(s, members, [Field(StringMeaning(name), Meaning(tree))] + MembersMeaning(rest), more)
  {
    hide Put, Meaning, Good, GoodMembers, PutMembers, PutString, StringMeaning, UnitsOk;
    MembersNone();
    var m := Member([], name, left, right, tree, after);
    MembersJoin(m, rest, more);
    members := [m] + rest;
    assert [] + s == s;
  }

  // ---------------------------------------------------------------------------------------
  // json_decode
  // ---------------------------------------------------------------------------------------

  /** The text of a tree between white space. */
  predicate Document(s: seq<byte>, before: seq<byte>, t: Tree, after: seq<byte>) {
    Blank(before) && Good(t) && Blank(after) && s == before + Put(t, after)
  }

  /** Every text that the grammar writes is parsed to what it means, if it is not nested too deeply. */
  lemma Accepts(s: seq<byte>, before: seq<byte>, t: Tree, after: seq<byte>)
    requires Document(s, before, t, after) && JsonPrinter.Height(Meaning(t)) <= DEFAULT_MAX_DEPTH
    ensures JsonDecode(s) == Some(Meaning(t))
  {
    DecodeBlank(before, Put(t, after), DEFAULT_MAX_DEPTH);
    BlankEnds(t, after);
    hide Json.Decode, Put, Good, Meaning, JsonPrinter.Height;
    TreeReads(t, after, DEFAULT_MAX_DEPTH);
    SkipBlank(after, []);
    assert after + [] == after;
  }

  lemma BlankEnds(t: Tree, after: seq<byte>)
    requires Blank(after)
    ensures NumberEnds(t, after)
  {
  }

  /** Every accepted text is one that the grammar writes. */
  lemma Accepted(s: seq<byte>) returns (before: seq<byte>, t: Tree, after: seq<byte>)
    requires JsonDecode(s).Some?
    ensures Document(s, before, t, after) && JsonDecode(s) == Some(Meaning(t))
    ensures JsonPrinter.Height(Meaning(t)) <= DEFAULT_MAX_DEPTH
  {
    JsonPrinter.DecodedHeight(s, DEFAULT_MAX_DEPTH);
    hide Json.Decode, Put, Good, Meaning, JsonPrinter.Height, SkipSpaces;
    before, t := TreeFrom(s, DEFAULT_MAX_DEPTH);
    after := SpacesFrom(Json.Decode(s, DEFAULT_MAX_DEPTH).rest);
    assert after + [] == after;
  }

  /**
    json_decode returns a value exactly for the texts that the grammar writes for it: white space anywhere between
    tokens, every escape, hexadecimal digits in either case and every number token, nested at most 100 deep.
  */
  lemma DecodesExactly(s: seq<byte>, v: JsonValue)
    ensures JsonDecode(s) == Some(v) <==>
      && JsonPrinter.Height(v) <= DEFAULT_MAX_DEPTH
      && exists before, t, after :: Document(s, before, t, after) && Meaning(t) == v
  {
    hide JsonDecode, Put, Good, JsonPrinter.Height, Blank;
    if JsonDecode(s) == Some(v) {
      var before, t, after := Accepted(s);
    } else if JsonPrinter.Height(v) <= DEFAULT_MAX_DEPTH {
      forall before, t, after | Document(s, before, t, after) ensures Meaning(t) != v {
        if Meaning(t) == v {
          Accepts(s, before, t, after);
        }
      }
    }
  }

  // ---------------------------------------------------------------------------------------
  // Numbers
  // ---------------------------------------------------------------------------------------

  predicate Digits(s: seq<byte>) { s != [] && forall i :: 0 <= i < |s| ==> 0x30 <= s[i] <= 0x39 }

  predicate IntPart(s: seq<byte>) { Digits(s) && (s[0] == 0x30 ==> |s| == 1) }

  predicate FracPart(s: seq<byte>) { s == [] || (s[0] == 0x2E && Digits(s[1..])) }

  predicate ExpPart(s: seq<byte>) {
    s == []
    || ((s[0] == 0x65 || s[0] == 0x45)
        && (Digits(s[1..]) || (|s| > 1 && (s[1] == 0x2B || s[1] == 0x2D) && Digits(s[2..]))))
  }

  /** A number of section 6 of RFC 8259, from its parts. */
  function RfcNumber(minus: bool, whole: seq<byte>, frac: seq<byte>, exp: seq<byte>): seq<byte> {
    (if minus then [0x2D] else []) + whole + frac + exp
  }

  lemma NumeralJoin(a: seq<byte>, b: seq<byte>)
    requires NumeralOk(a) && forall i :: 0 <= i < |b| ==> NumeralByte(b[i])
    ensures NumeralOk(a + b)
  {
  }

  lemma FracBytes(s: seq<byte>)
    requires FracPart(s)
    ensures forall i :: 0 <= i < |s| ==> NumeralByte(s[i])
  {
    forall i | 0 <= i < |s| ensures NumeralByte(s[i]) {
      if i > 0 {
        assert s[i] == s[1..][i - 1];
      }
    }
  }

  lemma ExpBytes(s: seq<byte>)
    requires ExpPart(s)
    ensures forall i :: 0 <= i < |s| ==> NumeralByte(s[i])
  {
    forall i | 0 <= i < |s| ensures NumeralByte(s[i]) {
      if i > 1 {
        assert s[i] == s[1..][i - 1] && s[i] == s[2..][i - 2];
      } else if i == 1 {
        assert s[i] == s[1..][0];
      }
    }
  }

  /** Every number of RFC 8259 is taken whole, between any white space. */
  lemma NumbersAccepted(
      minus: bool, whole: seq<byte>, frac: seq<byte>, exp: seq<byte>, before: seq<byte>, after: seq<byte>)
    requires IntPart(whole) && FracPart(frac) && ExpPart(exp) && Blank(before) && Blank(after)
    ensures var token := RfcNumber(minus, whole, frac, exp);
            JsonDecode(before + token + after) == Some(Number(token))
  {
    var token := RfcNumber(minus, whole, frac, exp);
    FracBytes(frac);
    ExpBytes(exp);
    NumeralJoin((if minus then [0x2D] else []) + whole, frac);
    NumeralJoin((if minus then [0x2D] else []) + whole + frac, exp);
    NumberDocument(token, before, after);
  }

  lemma NumberDocument(token: seq<byte>, before: seq<byte>, after: seq<byte>)
    requires NumeralOk(token) && Blank(before) && Blank(after)
    ensures JsonDecode(before + token + after) == Some(Number(token))
  {
    hide NumeralOk, Blank, JsonDecode;
    JsonPrinter.Assoc(before, token, after);
    Accepts(before + token + after, before, Numeral(token), after);
  }
}
