/**
  The JSON parser and skipper (td/utils/JsonBuilder.cpp) as they work: a cursor over a buffer
  (td/utils/Parser.h), strings decoded in place, against the functions of module Json.
*/
module JsonParser {
  import opened Utf8
  import opened Json

  /** Two contents of the buffer agree on what lies before place p. */
  ghost predicate SameBefore(d: seq<byte>, d': seq<byte>, p: nat) { p <= |d| == |d'| && d[..p] == d'[..p] }

  lemma SameStart(d: seq<byte>, p: nat)
    requires p <= |d|
    ensures SameBefore(d, d, p)
  {
  }

  lemma SameChain(d: seq<byte>, d': seq<byte>, d'': seq<byte>, p: nat, q: nat)
    requires SameBefore(d', d, p) && SameBefore(d'', d', q) && p <= q
    ensures SameBefore(d'', d, p)
  {
    assert d''[..p] == d''[..q][..p] && d'[..p] == d'[..q][..p];
  }

  /** ParserImpl over a mutable buffer; the end of the data is the end of the buffer. */
  class Parser {
    const data: array<byte>
    var ptr: nat

    predicate Valid()
      reads this
    {
      ptr <= data.Length
    }

    /** What has not been read yet. */
    function Rest(): seq<byte>
      requires Valid()
      reads this, data
    {
      data[ptr..]
    }

    constructor (data: array<byte>)
      ensures Valid() && this.data == data && ptr == 0
    {
      this.data, ptr := data, 0;
    }

    function Empty(): (r: bool)
      requires Valid()
      reads this, data
      ensures r <==> Rest() == []
    {
      ptr == data.Length
    }

    /** 0 at the end. */
    function PeekChar(): (c: byte)
      requires Valid()
      reads this, data
      ensures c == if Rest() == [] then 0 else Rest()[0]
    {
      if ptr == data.Length then 0 else data[ptr]
    }

    method Advance(n: nat)
      requires Valid() && n <= |Rest()|
      modifies this
      ensures Valid() && Rest() == old(Rest())[n..] && ptr == old(ptr) + n
    {
      ptr := ptr + n;
    }

    method TrySkip(c: byte) returns (ok: bool)
      requires Valid()
      modifies this
      ensures Valid() && ok == (old(Rest()) != [] && old(Rest())[0] == c)
      ensures Rest() == (if ok then old(Rest())[1..] else old(Rest())) && ptr >= old(ptr)
    {
      if ptr != data.Length && data[ptr] == c {
        ptr := ptr + 1;
        return true;
      }
      return false;
    }

    method TrySkipWord(prefix: seq<byte>) returns (ok: bool)
      requires Valid()
      modifies this
      ensures Valid() && ok == (prefix <= old(Rest()))
      ensures Rest() == (if ok then old(Rest())[|prefix|..] else old(Rest())) && ptr >= old(ptr)
    {
      if |prefix| > data.Length - ptr || prefix != data[ptr..ptr + |prefix|] {
        PrefixOf(prefix, Rest());
        return false;
      }
      Advance(|prefix|);
      return true;
    }

    lemma PrefixOf(prefix: seq<byte>, s: seq<byte>)
      ensures prefix <= s <==> |prefix| <= |s| && s[..|prefix|] == prefix
    {
    }

    method SkipWhitespaces()
      requires Valid()
      modifies this
      ensures Valid() && Rest() == SkipSpaces(old(Rest())) && ptr >= old(ptr)
    {
      while ptr != data.Length
        invariant Valid() && SkipSpaces(Rest()) == SkipSpaces(old(Rest())) && ptr >= old(ptr)
        decreases data.Length - ptr
      {
        if !IsSpace(data[ptr]) {
          break;
        }
        assert Rest()[1..] == data[ptr + 1..];
        ptr := ptr + 1;
      }
    }

    /** read_while with the bytes of a number. */
    method ReadNumber() returns (token: seq<byte>)
      requires Valid()
      modifies this
      ensures Valid() && var n := NumberLength(old(Rest())); token == old(Rest())[..n] && Rest() == old(Rest())[n..]
      ensures ptr >= old(ptr)
    {
      ghost var s := Rest();
      var start := ptr;
      while ptr != data.Length && NumberByte(data[ptr])
        invariant start <= ptr <= data.Length && NumberLength(s) == ptr - start + NumberLength(data[ptr..])
        decreases data.Length - ptr
      {
        assert data[ptr..][1..] == data[ptr + 1..];
        ptr := ptr + 1;
      }
      token := data[start..ptr];
      assert NumberLength(data[ptr..]) == 0;
      assert s[..ptr - start] == token && s[ptr - start..] == data[ptr..];
    }

    // Strings

    /** The scan for the closing quote, from `from` on; it may look one place past a trailing backslash. */
    method FindQuote(from: nat) returns (end: nat)
      requires from <= data.Length
      ensures match Close(data[from..]) case None => end >= data.Length case Some(k) => end == from + k < data.Length
    {
      hide Close;
      end := from;
      ghost var s := data[from..];
      ghost var k: nat := 0;
      assert s[0..] == s;
      ShiftZero(Close(s));
      while end < data.Length && data[end] != QUOTE
        invariant end == from + k && k <= |s| + 1
        invariant Close(s) == if k <= |s| then Shift(k, Close(s[k..])) else None
        decreases |s| + 1 - k
      {
        CloseStep(s, k);
        if data[end] == SLASH {
          end, k := end + 1, k + 1;
        }
        end, k := end + 1, k + 1;
      }
      if k <= |s| {
        CloseDone(s[k..]);
      }
    }

    /** memchr for a backslash. */
    method FindSlash(from: nat, end: nat) returns (slash: nat)
      requires from <= end <= data.Length
      ensures from <= slash <= end && (slash < end ==> data[slash] == SLASH)
      ensures NoSlash(data[from..slash])
    {
      slash := from;
      while slash < end && data[slash] != SLASH
        invariant from <= slash <= end && NoSlash(data[from..slash])
      {
        assert data[from..slash + 1] == data[from..slash] + [data[slash]];
        slash := slash + 1;
      }
    }

    /** memmove to a lower address. */
    method Move(dest: nat, src: nat, n: nat)
      requires dest <= src && src + n <= data.Length
      modifies data
      ensures data[..dest] == old(data[..dest]) && data[dest..dest + n] == old(data[src..src + n])
      ensures data[src + n..] == old(data[src + n..])
    {
      for i := 0 to n
        invariant data[..dest] == old(data[..dest]) && data[dest..dest + i] == old(data[src..src + i])
        invariant forall x :: src + i <= x < data.Length ==> data[x] == old(data[x])
      {
        data[dest + i] := data[src + i];
        assert data[dest..dest + i + 1] == data[dest..dest + i] + [old(data[src + i])];
        assert old(data[src..src + i + 1]) == old(data[src..src + i]) + [old(data[src + i])];
      }
    }

    method Write(dest: nat, bytes: seq<byte>)
      requires dest + |bytes| <= data.Length
      modifies data
      ensures data[..dest] == old(data[..dest]) && data[dest..dest + |bytes|] == bytes
      ensures data[dest + |bytes|..] == old(data[dest + |bytes|..])
    {
      forall i | 0 <= i < |bytes| {
        data[dest + i] := bytes[i];
      }
    }

    /** Four hexadecimal digits. */
    method ReadHex(at: nat) returns (num: Option<nat>)
      requires at + 4 <= data.Length
      ensures num == Hex4(data[at..at + 4])
    {
      ghost var s := data[at..at + 4];
      var n: nat := 0;
      for i := 0 to 4
        invariant n == HexPrefix(s, i) && forall j :: 0 <= j < i ==> HexValue(s[j]) != 16
      {
        var d := HexValue(data[at + i]);
        assert data[at + i] == s[i];
        if d == 16 {
          return None;
        }
        n := n * 16 + d;
      }
      HexFour(s);
      num := Some(n);
    }

    /**
      One escape sequence, decoded in place. The write position stays behind the read position, and nothing
      from the read position on is touched.
    */
    method EscapeStep(dest: nat, src: nat, end: nat) returns (ok: bool, dest': nat, src': nat)
      requires dest <= src < end <= data.Length && data[src] == SLASH
      modifies data
      ensures data[..dest] == old(data[..dest])
      ensures match One(old(data[src..end]))
              case None => !ok
              case Some(p) =>
                ok && src < src' <= end && dest <= dest' <= src' && p.rest == old(data[src'..end])
                && data[dest..dest'] == p.out && data[src'..] == old(data[src'..])
      ensures data[end..] == old(data[end..])
    {
      hide Unicode, Escaped, SmallEscape;
      ghost var body := data[src..end];
      dest', src' := dest, src + 1;
      if src' == end {
        return false, dest', src';
      }
      var c := data[src'];
      assert body[0] == SLASH && body[1] == c && body[1..] == data[src'..end];
      if SmallEscape(c) {
        assert body[2..] == data[src' + 1..end];
        Write(dest', [Escaped(c)]);
        return true, dest' + 1, src' + 1;
      } else if c == LETTER_U {
        ok, dest', src' := UnicodeStep(dest', src' + 1, end);
        assert body[2..] == old(data[src + 2..end]);
      } else {
        ok := true;
      }
    }

    /** The four digits behind the letter u, with a second escape sequence if there is a pair. */
    method ReadUnicode(src: nat, end: nat) returns (num: Option<nat>, src': nat)
      requires src <= end <= data.Length
      ensures match Unicode(data[src..end])
              case None => num == None
              case Some(p) =>
                num.Some? && num.value < 0x110000 && src + 4 <= src' <= end
                  && p == Piece(Utf8.Encode(num.value), data[src'..end])
    {
      hide Hex4, Utf8.Encode, Pair;
      ghost var s := data[src..end];
      src' := src;
      if src' + 4 > end {
        return None, src';
      }
      HexFrom(s, data[src..src + 4]);
      var first := ReadHex(src');
      if first.None? {
        return None, src';
      }
      src' := src' + 4;
      num := first;
      assert s[4..] == data[src'..end];
      if Surrogate(num.value) && src' + 6 <= end && data[src'] == SLASH && data[src' + 1] == LETTER_U {
        assert s[4] == data[src'] && s[5] == data[src' + 1];
        HexFrom(s[6..], data[src' + 2..src' + 6]);
        var second := ReadHex(src' + 2);
        if second.None? {
          return None, src';
        }
        if Surrogate(second.value) {
          num := Some(Pair(num.value, second.value));
          src' := src' + 6;
          assert s[10..] == data[src'..end];
        }
      }
    }

    method UnicodeStep(dest: nat, src: nat, end: nat) returns (ok: bool, dest': nat, src': nat)
      requires dest + 2 <= src <= end <= data.Length
      modifies data
      ensures data[..dest] == old(data[..dest])
      ensures match Unicode(old(data[src..end]))
              case None => !ok
              case Some(p) =>
                ok && src < src' <= end && dest <= dest' <= src' && p.rest == old(data[src'..end])
                && data[dest..dest'] == p.out && data[src'..] == old(data[src'..])
      ensures data[end..] == old(data[end..])
    {
      hide Unicode, Utf8.Encode;
      var num;
      num, src' := ReadUnicode(src, end);
      if num.None? {
        return false, dest, src';
      }
      var out := Utf8.Encode(num.value);
      ghost var before := data[..];
      Write(dest, out);
      ok, dest' := true, dest + |out|;
      assert data[src'..] == data[dest'..][src' - dest'..] == before[src'..];
      assert data[end..] == data[dest'..][end - dest'..] == before[end..];
    }

    /** Copies up to the next backslash. */
    method CopyRun(begin: nat, dest: nat, src: nat, end: nat) returns (dest': nat, src': nat)
      requires begin <= dest <= src <= end <= data.Length
      modifies data
      ensures data[..begin] == old(data[..begin]) && dest <= dest' <= src' <= end && src <= src'
      ensures data[src'..] == old(data[src'..]) && (src' < end ==> data[src'] == SLASH)
      ensures Prepend(data[begin..dest'], Unescape(data[src'..end]))
        == Prepend(old(data[begin..dest]), Unescape(old(data[src..end])))
    {
      hide Unescape, Prepend;
      src' := FindSlash(src, end);
      ghost var done, run, rest := data[begin..dest], data[src..src'], data[src'..end];
      assert data[src..end] == run + rest;
      UnescapeRun(done, run, rest);
      Move(dest, src, src' - src);
      dest' := dest + (src' - src);
      assert data[src'..end] == data[src'..][..end - src'] == rest;
      assert data[begin..dest] == data[..dest][begin..] == done;
      assert data[begin..dest'] == done + run;
    }

    method EscapeInPlace(begin: nat, dest: nat, src: nat, end: nat) returns (ok: bool, dest': nat, src': nat)
      requires begin <= dest <= src < end <= data.Length && data[src] == SLASH
      modifies data
      ensures data[..begin] == old(data[..begin]) && data[end..] == old(data[end..])
      ensures if ok then
                src < src' <= end && dest <= dest' <= src' && data[src'..] == old(data[src'..])
                && Prepend(data[begin..dest'], Unescape(data[src'..end]))
                     == Prepend(old(data[begin..dest]), Unescape(old(data[src..end])))
              else Unescape(old(data[src..end])) == None
    {
      hide Unescape, Prepend, One;
      ghost var done, body := data[begin..dest], data[src..end];
      UnescapeNext(done, body);
      UnescapeFails(body);
      ok, dest', src' := EscapeStep(dest, src, end);
      assert data[begin..dest] == data[..dest][begin..] == done;
      assert data[..begin] == data[..dest][..begin] == old(data[..dest])[..begin];
      if ok {
        assert data[src'..end] == data[src'..][..end - src'] == old(data[src'..end]);
        assert data[begin..dest'] == done + data[dest..dest'];
      }
    }

    /** The loop of json_string_decode over the text between the quotes. */
    method DecodeInPlace(begin: nat, end: nat) returns (ok: bool, dest: nat)
      requires begin <= end <= data.Length
      modifies data
      ensures data[..begin] == old(data[..begin]) && data[end..] == old(data[end..])
      ensures match Unescape(old(data[begin..end]))
              case None => !ok
              case Some(str) => ok && begin <= dest <= end && data[begin..dest] == str
    {
      hide Unescape, Prepend;
      var src := begin;
      dest := begin;
      ghost var whole := Unescape(data[begin..end]);
      UnescapeStart(whole);
      assert data[begin..dest] == [];
      while src != end
        invariant begin <= dest <= src <= end && data[..begin] == old(data[..begin]) && data[end..] == old(data[end..])
        invariant whole == Prepend(data[begin..dest], Unescape(data[src..end]))
        decreases end - src
      {
        ghost var rest := data[end..];
        ghost var start := src;
        dest, src := CopyRun(begin, dest, src, end);
        assert data[end..] == data[src..][end - src..] == rest;
        if src != end {
          PrependNone(data[begin..dest]);
          ok, dest, src := EscapeInPlace(begin, dest, src, end);
          if !ok {
            return;
          }
        }
      }
      UnescapeEnd(data[begin..dest]);
      assert data[src..end] == [];
      ok := true;
    }

    /** json_string_decode: the decoded string is data[begin..end'] of the buffer, before the cursor. */
    method StringDecode() returns (ok: bool, begin: nat, end: nat)
      requires Valid()
      modifies this, data
      ensures Valid() && ptr >= old(ptr) && SameBefore(data[..], old(data[..]), old(ptr))
      ensures match Json.StringDecode(old(Rest()))
              case None => !ok
              case Some((str, rest)) => ok && begin <= end <= ptr && data[begin..end] == str && Rest() == rest
    {
      hide Unescape, Close, Json.StringDecode;
      ghost var d, p := data[..], ptr;
      StringParts(d, p);
      var isString := TrySkip(QUOTE);
      if !isString {
        return false, 0, 0;
      }
      begin := ptr;
      var quote := FindQuote(begin);
      assert data[begin..] == d[p + 1..];
      if quote >= data.Length {
        return false, 0, 0;
      }
      QuotedParts(d, p, quote);
      assert data[begin..quote] == d[p + 1..quote];
      ptr := quote + 1;
      ok, end := DecodeInPlace(begin, quote);
      KeptAround(d, data[..], p, begin, quote);
    }

    /** json_string_skip: the same checks without a result. */
    method StringSkip() returns (ok: bool)
      requires Valid()
      modifies this
      ensures Valid() && ptr >= old(ptr)
      ensures match Json.StringSkip(old(Rest())) case None => !ok case Some(rest) => ok && Rest() == rest
    {
      hide BodyOk, Close, Json.StringSkip;
      ghost var d, p := data[..], ptr;
      StringParts(d, p);
      var isString := TrySkip(QUOTE);
      if !isString {
        return false;
      }
      var begin := ptr;
      var quote := FindQuote(begin);
      assert data[begin..] == d[p + 1..];
      if quote >= data.Length {
        return false;
      }
      QuotedParts(d, p, quote);
      assert data[begin..quote] == d[p + 1..quote];
      ptr := quote + 1;
      ok := CheckBody(begin, quote);
    }

    /** The loop of json_string_skip. */
    method CheckBody(begin: nat, end: nat) returns (ok: bool)
      requires begin <= end <= data.Length
      ensures ok <==> BodyOk(data[begin..end])
    {
      hide BodyOk, SkipOne;
      var src := begin;
      while src != end
        invariant begin <= src <= end && (BodyOk(data[begin..end]) <==> BodyOk(data[src..end]))
        decreases end - src
      {
        var slash := FindSlash(src, end);
        assert data[src..end] == data[src..slash] + data[slash..end];
        BodyRun(data[src..slash], data[slash..end]);
        src := slash;
        if src != end {
          BodyNext(data[src..end]);
          var src';
          ok, src' := EscapeSkip(src, end);
          if !ok {
            return;
          }
          src := src';
        }
      }
      BodyEnd();
      assert data[src..end] == [];
      ok := true;
    }

    method EscapeSkip(src: nat, end: nat) returns (ok: bool, src': nat)
      requires src < end <= data.Length && data[src] == SLASH
      ensures match SkipOne(data[src..end])
              case None => !ok
              case Some(rest) => ok && src < src' <= end && rest == data[src'..end]
    {
      ghost var body := data[src..end];
      src' := src + 1;
      if src' == end {
        return false, src';
      }
      var c := data[src'];
      assert body[0] == SLASH && body[1] == c && body[1..] == data[src'..end];
      assert body[2..] == data[src' + 1..end];
      if SmallEscape(c) {
        return true, src' + 1;
      } else if c == LETTER_U {
        var num;
        num, src' := ReadUnicode(src' + 1, end);
        UnicodeSkips(body[2..]);
        ok := num.Some?;
      } else {
        ok := true;
      }
    }

    /** do_json_decode. On success the cursor stands behind the value; strings are decoded in place before it. */
    method DoJsonDecode(maxDepth: int) returns (r: Option<JsonValue>)
      requires Valid()
      modifies this, data
      ensures Valid() && ptr >= old(ptr) && SameBefore(data[..], old(data[..]), old(ptr))
      ensures match Json.Decode(old(Rest()), maxDepth)
              case Failed => r == None
              case Parsed(v, rest) => r == Some(v) && Rest() == rest
      decreases Levels(maxDepth), 1
    {
      hide SkipSpaces, Items, Fields, Json.StringDecode, NumberLength, SameBefore;
      SameStart(data[..], ptr);
      if maxDepth < 0 {
        return None;
      }
      SkipWhitespaces();
      var c := PeekChar();
      if c == 102 {
        r := DecodeWord(FALSE, Boolean(false));
      } else if c == 116 {
        r := DecodeWord(TRUE, Boolean(true));
      } else if c == 110 {
        r := DecodeWord(NULL, Null);
      } else if c == QUOTE {
        ghost var d, p := data[..], ptr;
        var ok, begin, end := StringDecode();
        SameChain(old(data[..]), d, data[..], old(ptr), p);
        r := if ok then Some(String(data[begin..end])) else None;
      } else if c == OPEN_ARRAY {
        ghost var d, p := data[..], ptr;
        r := DecodeArray(maxDepth);
        SameChain(old(data[..]), d, data[..], old(ptr), p);
      } else if c == OPEN_OBJECT {
        ghost var d, p := data[..], ptr;
        r := DecodeObject(maxDepth);
        SameChain(old(data[..]), d, data[..], old(ptr), p);
      } else if NumberStart(c) {
        var token := ReadNumber();
        r := Some(Number(token));
      } else {
        r := None;
      }
    }

    method DecodeWord(word: seq<byte>, v: JsonValue) returns (r: Option<JsonValue>)
      requires Valid() && word != []
      modifies this
      ensures Valid() && ptr >= old(ptr)
      ensures match Keyword(old(Rest()), word, v)
              case Failed => r == None
              case Parsed(w, rest) => r == Some(w) && Rest() == rest
    {
      var ok := TrySkipWord(word);
      r := if ok then Some(v) else None;
    }

    /** The case of an opening bracket. */
    method DecodeArray(maxDepth: int) returns (r: Option<JsonValue>)
      requires Valid() && maxDepth >= 0 && Rest() != [] && Rest()[0] == OPEN_ARRAY
      modifies this, data
      ensures Valid() && ptr >= old(ptr) && SameBefore(data[..], old(data[..]), old(ptr))
      ensures var u := SkipSpaces(old(Rest())[1..]);
              if u != [] && u[0] == CLOSE_ARRAY then r == Some(Array([])) && Rest() == u[1..]
              else match Items(u, maxDepth - 1)
                   case Failed => r == None
                   case Parsed(items, rest) => r == Some(Array(items)) && Rest() == rest
      decreases Levels(maxDepth), 0
    {
      hide SkipSpaces, Items, Json.Decode, SameBefore;
      SameStart(data[..], ptr);
      Advance(1);
      SkipWhitespaces();
      ghost var u := Rest();
      var res: seq<JsonValue> := [];
      var done := TrySkip(CLOSE_ARRAY);
      if done {
        return Some(Array([]));
      }
      ExtendNone(Items(u, maxDepth - 1));
      while true
        invariant Valid() && ptr >= old(ptr) && SameBefore(data[..], old(data[..]), old(ptr))
        invariant Items(u, maxDepth - 1) == Extend(res, Items(Rest(), maxDepth - 1))
        decreases data.Length - ptr
      {
        ItemsNext(res, Rest(), maxDepth - 1);
        if Empty() {
          return None;
        }
        ghost var d, p := data[..], ptr;
        var value := DoJsonDecode(maxDepth - 1);
        SameChain(old(data[..]), d, data[..], old(ptr), p);
        if value.None? {
          return None;
        }
        res := res + [value.value];
        SkipWhitespaces();
        done := TrySkip(CLOSE_ARRAY);
        if done {
          return Some(Array(res));
        }
        var more := TrySkip(COMMA);
        if !more {
          return None;
        }
        SkipWhitespaces();
      }
    }

    /** The case of an opening brace. */
    method DecodeObject(maxDepth: int) returns (r: Option<JsonValue>)
      requires Valid() && maxDepth >= 0 && Rest() != [] && Rest()[0] == OPEN_OBJECT
      modifies this, data
      ensures Valid() && ptr >= old(ptr) && SameBefore(data[..], old(data[..]), old(ptr))
      ensures var u := SkipSpaces(old(Rest())[1..]);
              if u != [] && u[0] == CLOSE_OBJECT then r == Some(Object([])) && Rest() == u[1..]
              else match Fields(u, maxDepth - 1)
                   case Failed => r == None
                   case Parsed(fields, rest) => r == Some(Object(fields)) && Rest() == rest
      decreases Levels(maxDepth), 0
    {
      hide SkipSpaces, Fields, Json.Decode, Json.StringDecode, Unescape, Close, SameBefore;
      SameStart(data[..], ptr);
      Advance(1);
      SkipWhitespaces();
      ghost var u := Rest();
      var res: seq<Field> := [];
      var done := TrySkip(CLOSE_OBJECT);
      if done {
        return Some(Object([]));
      }
      ExtendNone(Fields(u, maxDepth - 1));
      while true
        invariant Valid() && ptr >= old(ptr) && SameBefore(data[..], old(data[..]), old(ptr))
        invariant Fields(u, maxDepth - 1) == Extend(res, Fields(Rest(), maxDepth - 1))
        decreases data.Length - ptr
      {
        FieldsNext(res, Rest(), maxDepth - 1);
        if Empty() {
          return None;
        }
        ghost var d0, p0 := data[..], ptr;
        var ok, begin, end := StringDecode();
        SameChain(old(data[..]), d0, data[..], old(ptr), p0);
        if !ok {
          return None;
        }
        var key := data[begin..end];
        SkipWhitespaces();
        var colon := TrySkip(COLON);
        if !colon {
          return None;
        }
        ghost var d, p := data[..], ptr;
        var value := DoJsonDecode(maxDepth - 1);
        SameChain(old(data[..]), d, data[..], old(ptr), p);
        if value.None? {
          return None;
        }
        res := res + [Field(key, value.value)];
        SkipWhitespaces();
        done := TrySkip(CLOSE_OBJECT);
        if done {
          return Some(Object(res));
        }
        var more := TrySkip(COMMA);
        if !more {
          return None;
        }
        SkipWhitespaces();
      }
    }

    /** do_json_skip. */
    method DoJsonSkip(maxDepth: int) returns (ok: bool)
      requires Valid()
      modifies this
      ensures Valid() && ptr >= old(ptr)
      ensures match Skip(old(Rest()), maxDepth) case None => !ok case Some(rest) => ok && Rest() == rest
      decreases Levels(maxDepth), 1
    {
      hide SkipSpaces, SkipItems, SkipFields, Json.StringSkip, NumberLength;
      if maxDepth < 0 {
        return false;
      }
      SkipWhitespaces();
      var c := PeekChar();
      if c == 102 {
        ok := TrySkipWord(FALSE);
      } else if c == 116 {
        ok := TrySkipWord(TRUE);
      } else if c == 110 {
        ok := TrySkipWord(NULL);
      } else if c == QUOTE {
        ok := StringSkip();
      } else if c == OPEN_ARRAY {
        ok := SkipArray(maxDepth);
      } else if c == OPEN_OBJECT {
        ok := SkipObject(maxDepth);
      } else if NumberStart(c) {
        var token := ReadNumber();
        ok := true;
      } else {
        ok := false;
      }
    }

    method SkipArray(maxDepth: int) returns (ok: bool)
      requires Valid() && maxDepth >= 0 && Rest() != [] && Rest()[0] == OPEN_ARRAY
      modifies this
      ensures Valid() && ptr >= old(ptr)
      ensures var u := SkipSpaces(old(Rest())[1..]);
              if u != [] && u[0] == CLOSE_ARRAY then ok && Rest() == u[1..]
              else match SkipItems(u, maxDepth - 1) case None => !ok case Some(rest) => ok && Rest() == rest
      decreases Levels(maxDepth), 0
    {
      hide SkipSpaces, SkipItems, Skip;
      Advance(1);
      SkipWhitespaces();
      ghost var u := Rest();
      var done := TrySkip(CLOSE_ARRAY);
      if done {
        return true;
      }
      while true
        invariant Valid() && ptr >= old(ptr) && SkipItems(u, maxDepth - 1) == SkipItems(Rest(), maxDepth - 1)
        decreases data.Length - ptr
      {
        SkipItemsNext(Rest(), maxDepth - 1);
        if Empty() {
          return false;
        }
        ok := DoJsonSkip(maxDepth - 1);
        if !ok {
          return;
        }
        SkipWhitespaces();
        done := TrySkip(CLOSE_ARRAY);
        if done {
          return true;
        }
        var more := TrySkip(COMMA);
        if !more {
          return false;
        }
        SkipWhitespaces();
      }
    }

    method SkipObject(maxDepth: int) returns (ok: bool)
      requires Valid() && maxDepth >= 0 && Rest() != [] && Rest()[0] == OPEN_OBJECT
      modifies this
      ensures Valid() && ptr >= old(ptr)
      ensures var u := SkipSpaces(old(Rest())[1..]);
              if u != [] && u[0] == CLOSE_OBJECT then ok && Rest() == u[1..]
              else match SkipFields(u, maxDepth - 1) case None => !ok case Some(rest) => ok && Rest() == rest
      decreases Levels(maxDepth), 0
    {
      hide SkipSpaces, SkipFields, Skip, Json.StringSkip;
      Advance(1);
      SkipWhitespaces();
      ghost var u := Rest();
      var done := TrySkip(CLOSE_OBJECT);
      if done {
        return true;
      }
      while true
        invariant Valid() && ptr >= old(ptr) && SkipFields(u, maxDepth - 1) == SkipFields(Rest(), maxDepth - 1)
        decreases data.Length - ptr
      {
        SkipFieldsNext(Rest(), maxDepth - 1);
        if Empty() {
          return false;
        }
        ok := StringSkip();
        if !ok {
          return;
        }
        SkipWhitespaces();
        var colon := TrySkip(COLON);
        if !colon {
          return false;
        }
        ok := DoJsonSkip(maxDepth - 1);
        if !ok {
          return;
        }
        SkipWhitespaces();
        done := TrySkip(CLOSE_OBJECT);
        if done {
          return true;
        }
        var more := TrySkip(COMMA);
        if !more {
          return false;
        }
        SkipWhitespaces();
      }
    }
  }

  lemma SkipItemsNext(s: seq<byte>, depth: int)
    ensures SkipItems(s, depth) ==
            if s == [] then None
            else match Skip(s, depth)
                 case None => None
                 case Some(rest) =>
                   var t := SkipSpaces(rest);
                   if t != [] && t[0] == CLOSE_ARRAY then Some(t[1..])
                   else if t != [] && t[0] == COMMA then SkipItems(SkipSpaces(t[1..]), depth)
                   else None
  {
    hide Skip, SkipSpaces;
  }

  function SkipFieldsRound(s: seq<byte>, depth: int): Option<seq<byte>> {
    if s == [] then None
    else
      match Json.StringSkip(s)
      case None => None
      case Some(afterName) =>
        var c := SkipSpaces(afterName);
        if c == [] || c[0] != COLON then None
        else
          match Skip(c[1..], depth)
          case None => None
          case Some(rest) =>
            var t := SkipSpaces(rest);
            if t != [] && t[0] == CLOSE_OBJECT then Some(t[1..])
            else if t != [] && t[0] == COMMA then SkipFields(SkipSpaces(t[1..]), depth)
            else None
  }

  lemma SkipFieldsNext(s: seq<byte>, depth: int)
    ensures SkipFields(s, depth) == SkipFieldsRound(s, depth)
  {
    hide Skip, SkipSpaces, Json.StringSkip;
  }

  /** One round of the loop over the members of an object. */
  function FieldsRound(done: seq<Field>, s: seq<byte>, depth: int): Parsed<seq<Field>> {
    if s == [] then Failed
    else
      match Json.StringDecode(s)
      case None => Failed
      case Some((name, afterName)) =>
        var c := SkipSpaces(afterName);
        if c == [] || c[0] != COLON then Failed
        else
          match Json.Decode(c[1..], depth)
          case Failed => Failed
          case Parsed(v, rest) =>
            var t := SkipSpaces(rest);
            if t != [] && t[0] == CLOSE_OBJECT then Parsed(done + [Field(name, v)], t[1..])
            else if t != [] && t[0] == COMMA then Extend(done + [Field(name, v)], Fields(SkipSpaces(t[1..]), depth))
            else Failed
  }

  lemma FieldsNext(done: seq<Field>, s: seq<byte>, depth: int)
    ensures Extend(done, Fields(s, depth)) == FieldsRound(done, s, depth)
  {
    hide Json.Decode, SkipSpaces, Json.StringDecode;
    if s != [] && Json.StringDecode(s).Some? {
      var name, c := Json.StringDecode(s).value.0, SkipSpaces(Json.StringDecode(s).value.1);
      if c != [] && c[0] == COLON && Json.Decode(c[1..], depth).Parsed? {
        var f, t := Field(name, Json.Decode(c[1..], depth).value), SkipSpaces(Json.Decode(c[1..], depth).rest);
        if t != [] && t[0] == COMMA && Fields(SkipSpaces(t[1..]), depth).Parsed? {
          var more := Fields(SkipSpaces(t[1..]), depth).value;
          assert done + ([f] + more) == done + [f] + more;
        }
      }
    }
  }

  /** The elements parsed so far, and the outcome of parsing the others. */
  function Extend<T>(done: seq<T>, r: Parsed<seq<T>>): Parsed<seq<T>> {
    match r { case Failed => Failed case Parsed(more, rest) => Parsed(done + more, rest) }
  }

  lemma ExtendNone<T>(r: Parsed<seq<T>>)
    ensures r == Extend([], r)
  {
    if r.Parsed? {
      assert [] + r.value == r.value;
    }
  }

  /** One round of the loop over the elements of an array. */
  lemma ItemsNext(done: seq<JsonValue>, s: seq<byte>, depth: int)
    ensures Extend(done, Items(s, depth)) ==
            if s == [] then Failed
            else match Json.Decode(s, depth)
                 case Failed => Failed
                 case Parsed(v, rest) =>
                   var t := SkipSpaces(rest);
                   if t != [] && t[0] == CLOSE_ARRAY then Parsed(done + [v], t[1..])
                   else if t != [] && t[0] == COMMA then Extend(done + [v], Items(SkipSpaces(t[1..]), depth))
                   else Failed
  {
    hide Json.Decode, SkipSpaces;
    if s != [] && Json.Decode(s, depth).Parsed? {
      var v, t := Json.Decode(s, depth).value, SkipSpaces(Json.Decode(s, depth).rest);
      if t != [] && t[0] == COMMA && Items(SkipSpaces(t[1..]), depth).Parsed? {
        var more := Items(SkipSpaces(t[1..]), depth).value;
        assert done + ([v] + more) == done + [v] + more;
      }
    }
  }

  /** Without an opening or a closing quote there is no string. */
  lemma StringParts(d: seq<byte>, p: nat)
    requires p <= |d|
    ensures var s := d[p..];
            && (s == [] || s[0] != QUOTE ==> Json.StringDecode(s) == None && Json.StringSkip(s) == None)
            && (s != [] && Close(d[p + 1..]) == None ==> Json.StringDecode(s) == None && Json.StringSkip(s) == None)
  {
    hide Unescape, Close, BodyOk;
    if p < |d| {
      assert d[p..][1..] == d[p + 1..];
    }
  }

  /** With the closing quote at place q of the buffer, the string is between the quotes. */
  lemma QuotedParts(d: seq<byte>, p: nat, q: nat)
    requires p < q < |d| && d[p] == QUOTE && Close(d[p + 1..]) == Some(q - p - 1)
    ensures Json.StringDecode(d[p..]) ==
            match Unescape(d[p + 1..q]) { case None => None case Some(str) => Some((str, d[q + 1..])) }
    ensures Json.StringSkip(d[p..]) == if BodyOk(d[p + 1..q]) then Some(d[q + 1..]) else None
  {
    hide Unescape, Close, BodyOk;
    var s, k := d[p..], q - p - 1;
    assert s[1..] == d[p + 1..];
    assert s[1..1 + k] == d[p + 1..q];
    assert s[k + 2..] == d[q + 1..];
  }

  lemma KeptAround(before: seq<byte>, after: seq<byte>, start: nat, begin: nat, end: nat)
    requires start <= begin <= end < |before| == |after| && before[..begin] == after[..begin]
      && before[end..] == after[end..]
    ensures before[..start] == after[..start] && before[end + 1..] == after[end + 1..]
  {
    assert before[..start] == before[..begin][..start] && after[..start] == after[..begin][..start];
    assert before[end + 1..] == before[end..][1..] && after[end + 1..] == after[end..][1..];
  }

  lemma UnicodeSkips(s: seq<byte>)
    ensures SkipUnicode(s) == match Unicode(s) case None => None case Some(p) => Some(p.rest)
  {
  }

  lemma BodyEnd()
    ensures BodyOk([])
  {
  }

  lemma BodyNext(body: seq<byte>)
    requires body != []
    ensures BodyOk(body) <==> match SkipOne(body) case None => false case Some(rest) => BodyOk(rest)
  {
    hide SkipOne;
  }

  lemma {:induction false} BodyRun(run: seq<byte>, rest: seq<byte>)
    requires NoSlash(run)
    ensures BodyOk(run + rest) <==> BodyOk(rest)
    decreases |run|
  {
    if run == [] {
      assert run + rest == rest;
    } else {
      assert (run + rest)[1..] == run[1..] + rest;
      BodyRun(run[1..], rest);
      BodyNext(run + rest);
    }
  }

  lemma PrependNone(done: seq<byte>)
    ensures Prepend(done, None) == None
  {
  }

  lemma UnescapeFails(body: seq<byte>)
    requires body != []
    ensures One(body) == None ==> Unescape(body) == None
  {
    hide One;
  }

  predicate NoSlash(s: seq<byte>) { forall i :: 0 <= i < |s| ==> s[i] != SLASH }

  function HexPrefix(s: seq<byte>, i: nat): (n: nat)
    requires i <= |s|
  {
    if i == 0 then 0 else HexPrefix(s, i - 1) * 16 + HexValue(s[i - 1])
  }

  lemma HexFour(s: seq<byte>)
    requires |s| >= 4 && forall j :: 0 <= j < 4 ==> HexValue(s[j]) != 16
    ensures Hex4(s) == Some(HexPrefix(s, 4))
  {
    hide HexValue;
    assert HexPrefix(s, 1) == HexPrefix(s, 0) * 16 + HexValue(s[0]);
    assert HexPrefix(s, 2) == HexPrefix(s, 1) * 16 + HexValue(s[1]);
    assert HexPrefix(s, 3) == HexPrefix(s, 2) * 16 + HexValue(s[2]);
  }

  lemma HexFrom(s: seq<byte>, t: seq<byte>)
    requires |s| >= 4 && t == s[..4]
    ensures Hex4(s) == Hex4(t)
  {
  }

  lemma UnescapeStart(r: Option<seq<byte>>)
    ensures r == Prepend([], r)
  {
    if r.Some? {
      assert [] + r.value == r.value;
    }
  }

  lemma UnescapeEnd(done: seq<byte>)
    ensures Prepend(done, Unescape([])) == Some(done)
  {
    assert done + [] == done;
  }

  /** A run without backslashes is copied. */
  lemma {:induction false} UnescapeRun(done: seq<byte>, run: seq<byte>, rest: seq<byte>)
    requires NoSlash(run)
    ensures Prepend(done, Unescape(run + rest)) == Prepend(done + run, Unescape(rest))
    decreases |run|
  {
    if run == [] {
      assert run + rest == rest && done + run == done;
    } else {
      assert (run + rest)[1..] == run[1..] + rest;
      UnescapeRun(done + [run[0]], run[1..], rest);
      assert done + [run[0]] + run[1..] == done + run;
      UnescapeNext(done, run + rest);
    }
  }

  lemma UnescapeNext(done: seq<byte>, body: seq<byte>)
    requires body != []
    ensures Prepend(done, Unescape(body)) ==
            match One(body) case None => None case Some(p) => Prepend(done + p.out, Unescape(p.rest))
  {
    hide One;
    if One(body).Some? && Unescape(One(body).value.rest).Some? {
      var p := One(body).value;
      assert done + (p.out + Unescape(p.rest).value) == done + p.out + Unescape(p.rest).value;
    }
  }

  lemma ShiftZero(r: Option<nat>)
    ensures Shift(0, r) == r
  {
  }

  function Shift(n: nat, r: Option<nat>): Option<nat> {
    match r { case None => None case Some(k) => Some(n + k) }
  }

  lemma CloseStep(s: seq<byte>, k: nat)
    requires k < |s| && s[k] != QUOTE
    ensures var n := if s[k] == SLASH then 2 else 1;
            Shift(k, Close(s[k..])) == if k + n <= |s| then Shift(k + n, Close(s[k + n..])) else None
  {
    var n := if s[k] == SLASH then 2 else 1;
    if k + n <= |s| {
      assert s[k..][n..] == s[k + n..];
    }
  }

  lemma CloseDone(s: seq<byte>)
    ensures s == [] ==> Close(s) == None
    ensures s != [] && s[0] == QUOTE ==> Close(s) == Some(0)
  {
  }

  /** json_decode: the whole buffer has to be one value. */
  method ParseWhole(json: array<byte>) returns (r: Option<JsonValue>)
    modifies json
    ensures r == JsonDecode(old(json[..]))
  {
    hide Json.Decode, SkipSpaces;
    var parser := new Parser(json);
    assert json[0..] == json[..];
    r := parser.DoJsonDecode(DEFAULT_MAX_DEPTH);
    if r.Some? {
      parser.SkipWhitespaces();
      if !parser.Empty() {
        r := None;
      }
    }
  }
}
