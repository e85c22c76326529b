/** What json_encode prints (td/utils/JsonBuilder.cpp): printable ASCII, whatever the strings hold. */
module JsonAscii {
  import opened Utf8
  import opened Json
  import opened JsonPrinter

  /** No control character and nothing beyond ASCII. */
  predicate Visible(s: seq<byte>) { forall i :: 0 <= i < |s| ==> 0x20 <= s[i] < 0x80 }

  /** The same, with line feeds. */
  predicate Lines(s: seq<byte>) { forall i :: 0 <= i < |s| ==> 0x20 <= s[i] < 0x80 || s[i] == 0x0A }

  lemma CodeVisible(c: nat)
    requires Scalar(c)
    ensures Visible(CodeText(c))
  {
  }

  lemma {:induction false} TextVisible(s: seq<byte>)
    requires WellFormed(s)
    ensures Visible(Text(s))
    decreases |s|
  {
    if s != [] {
      CodesStep(s);
      CodeVisible(Utf8.Decode(s));
      TextVisible(s[Announced(s[0])..]);
      hide CodeText;
    }
  }

  lemma StringVisible(s: seq<byte>)
    requires WellFormed(s)
    ensures Visible(StringText(s))
  {
    TextVisible(s);
    hide Text;
  }

  /** Printable ASCII other than the quote and the backslash is printed as it is. */
  lemma {:induction false} PlainText(s: seq<byte>)
    requires Visible(s) && forall i :: 0 <= i < |s| ==> s[i] != 0x22 && s[i] != 0x5C
    ensures WellFormed(s) && Text(s) == s
    decreases |s|
  {
    if s != [] {
      PlainText(s[1..]);
      var c: nat := s[0];
      assert Encode(c) == [s[0]] && s == [s[0]] + s[1..];
      assert Starts(c, s) && WellFormed(s[|Encode(c)|..]);
      CodesStep(s);
      assert Announced(s[0]) == 1 && Utf8.Decode(s) == c && CodeText(c) == [s[0]];
    }
  }

  lemma NewLineIs(offset: int)
    ensures Lines(NewLine(offset)) && (offset < 0 ==> NewLine(offset) == [])
  {
  }

  /** The output: one line if it is compact, and nothing but printable ASCII on each line. */
  predicate Clean(s: seq<byte>, offset: int) { if offset < 0 then Visible(s) else Lines(s) }

  lemma CleanJoin(a: seq<byte>, b: seq<byte>, offset: int)
    requires Clean(a, offset) && Clean(b, offset)
    ensures Clean(a + b, offset)
  {
  }

  lemma CleanLine(s: seq<byte>, offset: int)
    requires Visible(s)
    ensures Clean(s, offset)
  {
  }

  /** What goes between the parts. */
  lemma CleanMark(offset: int)
    ensures Clean([], offset) && Clean([COMMA], offset) && Clean(Separator(offset), offset)
    ensures Clean(NewLine(offset), offset)
  {
    NewLineIs(offset);
  }

  lemma {:induction false} PrintedClean(v: JsonValue, offset: int)
    requires Printable(v)
    ensures Clean(Printed(v, offset), offset)
    decreases v, Count(v) + 1
  {
    hide StringText, ItemsText, FieldsText, NewLine;
    match v
    case String(s) => StringVisible(s);
    case Array(items) =>
      ItemsClean(v, 0, Deeper(offset));
      NewLineIs(offset);
    case Object(fields) =>
      FieldsClean(v, 0, Deeper(offset));
      NewLineIs(offset);
    case _ =>
  }

  lemma {:induction false} ItemsClean(v: JsonValue, i: nat, offset: int)
    requires Printable(v) && v.Array? && i <= |v.items|
    ensures Clean(ItemsText(v, i, offset), offset)
    decreases v, |v.items| - i
  {
    hide Printed, NewLine;
    if i < |v.items| {
      NewLineIs(offset);
      PrintedClean(v.items[i], offset);
      ItemsClean(v, i + 1, offset);
    }
  }

  lemma {:induction false} FieldsClean(v: JsonValue, i: nat, offset: int)
    requires Printable(v) && v.Object? && i <= |v.fields|
    ensures Clean(FieldsText(v, i, offset), offset)
    decreases v, |v.fields| - i
  {
    hide Clean, Count, GoodNumber, NewLine, Printed, Separator, StringText, Visible, WellFormed;
    CleanMark(offset);
    if i < |v.fields| {
      var name, value := v.fields[i].name, v.fields[i].value;
      StringVisible(name);
      CleanLine(StringText(name), offset);
      PrintedClean(value, offset);
      FieldsClean(v, i + 1, offset);
      var t := Printed(value, offset) + FieldsText(v, i + 1, offset);
      CleanJoin(Printed(value, offset), FieldsText(v, i + 1, offset), offset);
      CleanJoin(Separator(offset), t, offset);
      CleanJoin(StringText(name), Separator(offset) + t, offset);
      CleanJoin(NewLine(offset), StringText(name) + (Separator(offset) + t), offset);
      CleanJoin(if i == 0 then [] else [COMMA], NewLine(offset) + (StringText(name) + (Separator(offset) + t)), offset);
    }
  }

  /** The text of json_encode is printable ASCII; only the pretty one has line feeds, the last of them at the end. */
  lemma EncodeIsAscii(v: JsonValue, pretty: bool)
    requires Printable(v)
    ensures if pretty then Lines(JsonEncode(v, true)) && JsonEncode(v, true)[|JsonEncode(v, true)| - 1] == 0x0A
            else Visible(JsonEncode(v, false))
  {
    PrintedClean(v, if pretty then 0 else -1);
    hide Printed;
  }
}
