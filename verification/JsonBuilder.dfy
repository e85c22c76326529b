/**
  JsonBuilder (td/utils/JsonBuilder.h and JsonBuilder.cpp) as it works: one shared output that strings,
  separators and offsets are appended to, against the text that module JsonPrinter describes.
*/
module JsonBuilder {
  import opened Utf8
  import opened Json
  import opened JsonPrinter

  class Builder {
    var sb: seq<byte>
    var offset: int

    constructor (offset: int)
      ensures sb == [] && this.offset == offset
    {
      sb, this.offset := [], offset;
    }

    method Append(bytes: seq<byte>)
      modifies this`sb
      ensures sb == old(sb) + bytes
    {
      sb := sb + bytes;
    }

    method PrintOffset()
      modifies this`sb
      ensures sb == old(sb) + NewLine(offset)
    {
      if offset >= 0 {
        Append([NEWLINE]);
        ghost var before := sb;
        for x := 0 to offset
          invariant sb == before + seq(3 * x, i => SPACE)
        {
          assert seq(3 * x, i => SPACE) + [SPACE, SPACE, SPACE] == seq(3 * (x + 1), i => SPACE);
          Append([SPACE, SPACE, SPACE]);
        }
      }
    }

    method IncOffset()
      modifies this`offset
      ensures offset == Deeper(old(offset))
    {
      if offset >= 0 {
        offset := offset + 1;
      }
    }

    /** The CHECK that the offset is positive is the precondition. */
    method DecOffset()
      requires offset != 0
      modifies this`offset
      ensures old(offset) == Deeper(offset)
    {
      if offset >= 0 {
        offset := offset - 1;
      }
    }

    lemma Enclosed(before: seq<byte>, text: seq<byte>)
      ensures before + [QUOTE] + text + [QUOTE] == before + ([QUOTE] + text + [QUOTE])
    {
    }

    /** The printer of JsonString. Every CHECK on the bytes holds for well-formed text. */
    method PrintString(s: seq<byte>)
      requires WellFormed(s)
      modifies this`sb
      ensures sb == old(sb) + StringText(s)
    {
      hide WellFormed, Text, CodeText, Utf8.Encode, Utf8.Decode, Announced, Scalar;
      Append([QUOTE]);
      ghost var start := sb;
      var pos := 0;
      TextStart(s);
      while pos < |s|
        invariant pos <= |s| && WellFormed(s[pos..])
        invariant sb + Text(s[pos..]) == start + Text(s)
      {
        var rest := s[pos..];
        CodesStep(rest);
        TextNext(rest);
        ChecksHold(rest);
        var code, n := Utf8.Decode(rest), Announced(rest[0]);
        Assoc(sb, CodeText(code), Text(rest[n..]));
        Append(CodeText(code));
        assert rest[n..] == s[pos + n..];
        pos := pos + n;
      }
      TextEnd();
      assert s[pos..] == [] && sb + [] == sb;
      Append([QUOTE]);
      Enclosed(old(sb), Text(s));
    }

    /** JsonValue::store. The offset is back where it was when the value is done. */
    method Store(v: JsonValue)
      requires Printable(v)
      modifies this
      ensures offset == old(offset) && sb == old(sb) + Printed(v, offset)
      decreases v, Count(v) + 1
    {
      match v
      case Null => Append(NULL);
      case Boolean(b) => Append(if b then TRUE else FALSE);
      case Number(token) => Append(token);
      case String(s) => PrintString(s);
      case Array(_) => StoreArray(v);
      case Object(_) => StoreObject(v);
    }

    /** The scope of an array: a comma before every element but the first. */
    method StoreArray(v: JsonValue)
      requires Printable(v) && v.Array?
      modifies this
      ensures offset == old(offset) && sb == old(sb) + Printed(v, offset)
      decreases v, Count(v)
    {
      hide Printed, NewLine, ItemsText;
      IncOffset();
      Append([OPEN_ARRAY]);
      ghost var start, o := sb, offset;
      var isFirst := true;
      for i := 0 to |v.items|
        invariant offset == o && isFirst == (i == 0)
        invariant sb + ItemsText(v, i, o) == start + ItemsText(v, 0, o)
      {
        ItemsTextIs(v, i, o);
        ghost var from := sb;
        if !isFirst {
          Append([COMMA]);
        }
        isFirst := false;
        PrintOffset();
        Store(v.items[i]);
        ghost var sep, line, item := if i == 0 then [] else [COMMA], NewLine(o), Printed(v.items[i], o);
        Appended3(from, sep, line, item, sb, ItemsText(v, i + 1, o));
      }
      NoItems(v, o);
      assert sb + [] == sb;
      DecOffset();
      PrintOffset();
      Append([CLOSE_ARRAY]);
      ArrayUnfold(v, offset);
      Closed(old(sb), [OPEN_ARRAY], ItemsText(v, 0, o), NewLine(offset), [CLOSE_ARRAY], sb);
    }

    /** One member of an object, with the comma before all but the first. */
    method StoreMember(v: JsonValue, i: nat, isFirst: bool)
      requires Printable(v) && v.Object? && i < |v.fields| && isFirst == (i == 0)
      modifies this
      ensures offset == old(offset) && sb == old(sb) + MemberText(v, i, offset)
      decreases v, i, 0
    {
      hide Printed, NewLine, StringText, MemberText;
      if !isFirst {
        Append([COMMA]);
      }
      PrintOffset();
      PrintString(v.fields[i].name);
      if offset >= 0 {
        Append([SPACE, COLON, SPACE]);
      } else {
        Append([COLON]);
      }
      Store(v.fields[i].value);
      MemberIs(v, i, offset);
      Joined(old(sb), if i == 0 then [] else [COMMA], NewLine(offset), StringText(v.fields[i].name), Separator(offset),
             Printed(v.fields[i].value, offset));
    }

    /** The scope of an object. */
    method StoreObject(v: JsonValue)
      requires Printable(v) && v.Object?
      modifies this
      ensures offset == old(offset) && sb == old(sb) + Printed(v, offset)
      decreases v, Count(v)
    {
      hide Printed, NewLine, FieldsText, StringText, MemberText, Separator;
      IncOffset();
      Append([OPEN_OBJECT]);
      ghost var start, o := sb, offset;
      var isFirst := true;
      for i := 0 to |v.fields|
        invariant offset == o && isFirst == (i == 0)
        invariant sb + FieldsText(v, i, o) == start + FieldsText(v, 0, o)
      {
        FieldsTextIs(v, i, o);
        MemberIs(v, i, o);
        Assoc(sb, MemberText(v, i, o), FieldsText(v, i + 1, o));
        StoreMember(v, i, isFirst);
        isFirst := false;
        Assoc5(if i == 0 then [] else [COMMA], NewLine(o), StringText(v.fields[i].name), Separator(o),
               Printed(v.fields[i].value, o), FieldsText(v, i + 1, o));
      }
      NoFields(v, o);
      assert sb + [] == sb;
      DecOffset();
      PrintOffset();
      Append([CLOSE_OBJECT]);
      ObjectUnfold(v, offset);
      Closed(old(sb), [OPEN_OBJECT], FieldsText(v, 0, o), NewLine(offset), [CLOSE_OBJECT], sb);
    }
  }

  lemma TextStart(s: seq<byte>)
    requires WellFormed(s)
    ensures s[0..] == s && [] + Text(s) == Text(s)
  {
    hide Text, WellFormed;
  }

  lemma TextEnd()
    ensures WellFormed([]) && Text([]) == []
  {
  }

  lemma TextNext(s: seq<byte>)
    requires WellFormed(s) && s != []
    ensures Announced(s[0]) <= |s| && Scalar(Utf8.Decode(s)) && WellFormed(s[Announced(s[0])..]) && Announced(s[0]) > 0
    ensures Text(s) == CodeText(Utf8.Decode(s)) + Text(s[Announced(s[0])..])
  {
    CodesStep(s);
    hide CodeText, Utf8.Encode;
  }

  /** The CHECKs of the printer: continuation bytes follow, and no code point takes more bytes than it needs. */
  lemma ChecksHold(s: seq<byte>)
    requires WellFormed(s) && s != []
    ensures var n := Announced(s[0]);
            n <= |s| && (forall i :: 1 <= i < n ==> Continues(s[i])) && (n > 1 ==> s[0] / 64 % 2 == 1)
            && (n == 2 ==> s[0] % 32 / 2 > 0) && (n == 3 ==> s[0] % 16 > 0 || s[1] / 32 % 2 > 0)
            && (n == 4 ==> s[0] / 8 % 2 == 0 && (s[0] % 8 > 0 || s[1] / 16 % 4 > 0))
  {
    WellFormedStep(s);
    AcceptedDecodes(s);
    AcceptedMeans(s);
    hide WellFormed, Utf8.Encode, Utf8.Decode, Accepted, Announced;
  }

  lemma AcceptedMeans(s: seq<byte>)
    requires s != [] && Announced(s[0]) == Accepted(s, 0) > 0
    ensures var n := Announced(s[0]);
            n <= |s| && (forall i :: 1 <= i < n ==> Continues(s[i])) && (n > 1 ==> s[0] / 64 % 2 == 1)
            && (n == 2 ==> s[0] % 32 / 2 > 0) && (n == 3 ==> s[0] % 16 > 0 || s[1] / 32 % 2 > 0)
            && (n == 4 ==> s[0] / 8 % 2 == 0 && (s[0] % 8 > 0 || s[1] / 16 % 4 > 0))
  {
    var n := Announced(s[0]);
    assert n > 1 ==> At(s, 1) == s[1];
    assert n > 2 ==> At(s, 2) == s[2];
    assert n > 3 ==> At(s, 3) == s[3];
    hide Continues, At;
  }

  lemma NoItems(v: JsonValue, offset: int)
    requires Printable(v) && v.Array?
    ensures ItemsText(v, |v.items|, offset) == []
  {
  }

  lemma NoFields(v: JsonValue, offset: int)
    requires Printable(v) && v.Object?
    ensures FieldsText(v, |v.fields|, offset) == []
  {
  }

  /** A member of an object with what goes before it. */
  ghost function MemberText(v: JsonValue, i: nat, offset: int): seq<byte>
    requires Printable(v) && v.Object? && i < |v.fields|
  {
    (if i == 0 then [] else [COMMA]) + NewLine(offset) + StringText(v.fields[i].name) + Separator(offset)
    + Printed(v.fields[i].value, offset)
  }

  lemma MemberIs(v: JsonValue, i: nat, offset: int)
    requires Printable(v) && v.Object? && i < |v.fields|
    ensures MemberText(v, i, offset) ==
            (if i == 0 then [] else [COMMA]) + NewLine(offset) + StringText(v.fields[i].name) + Separator(offset)
            + Printed(v.fields[i].value, offset)
  {
    hide Printed, NewLine, StringText, Separator;
  }

  lemma Joined(s: seq<byte>, a: seq<byte>, b: seq<byte>, c: seq<byte>, d: seq<byte>, e: seq<byte>)
    ensures (if a == [] then s else s + a) + b + c + d + e == s + (a + b + c + d + e)
  {
  }

  lemma Assoc5(a: seq<byte>, b: seq<byte>, c: seq<byte>, d: seq<byte>, e: seq<byte>, f: seq<byte>)
    ensures a + b + c + d + e + f == a + (b + (c + (d + (e + f))))
  {
  }

  lemma Appended3(from: seq<byte>, sep: seq<byte>, line: seq<byte>, item: seq<byte>, sb: seq<byte>, more: seq<byte>)
    requires sb == from + sep + line + item
    ensures sb + more == from + (sep + (line + (item + more)))
  {
  }

  lemma Closed(start: seq<byte>, bra: seq<byte>, text: seq<byte>, line: seq<byte>, ket: seq<byte>, sb: seq<byte>)
    requires sb == start + bra + text + line + ket
    ensures sb == start + (bra + text + (line + ket))
  {
  }

  /** json_encode. */
  method Encode(v: JsonValue, pretty: bool) returns (r: seq<byte>)
    requires Printable(v)
    ensures r == JsonEncode(v, pretty)
  {
    hide Printed, Printable;
    var jb := new Builder(if pretty then 0 else -1);
    jb.Store(v);
    if pretty {
      jb.Append([NEWLINE]);
    }
    r := jb.sb;
  }
}
