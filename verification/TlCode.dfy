/**
  The TL storers and the TL parser (td/utils/tl_storers.h, tl_parsers.h, tl_parsers.cpp, tl_helpers.h) as they
  work, against the functions of module Tl. A pointer is a block of bytes and a position in it, so every
  read and write below is checked to stay inside its block.
*/
module TlCode {
  import opened Tl

  // ---------------------------------------------------------------------------------------
  // Storing
  // ---------------------------------------------------------------------------------------

  class TlStorerCalcLength {
    var length: nat

    constructor ()
      ensures length == 0
    {
      length := 0;
    }

    method StoreBinary(size: nat)
      modifies this
      ensures length == old(length) + size
    {
      length := length + size;
    }

    method StoreString(len: nat)
      modifies this
      ensures length == old(length) + StringLength(len)
    {
      var add := len;
      if add < 254 {
        add := add + 1;
      } else if add < TWO_24 {
        add := add + 4;
      } else {
        add := add + 8;
      }
      add := (add + 3) / 4 * 4;
      length := length + add;
    }

    method Store(v: Value)
      modifies this
      ensures length == old(length) + Length(v)
      decreases v
    {
      match v
      case IntValue(_) => StoreBinary(4);
      case LongValue(_) => StoreBinary(8);
      case StrValue(s) => StoreString(|s|);
      case VecValue(items) =>
        StoreBinary(4);
        for i := 0 to |items|
          invariant length + ItemsLength(v, i) == old(length) + 4 + ItemsLength(v, 0)
        {
          Store(items[i]);
        }
      case PairValue(a, b) =>
        Store(a);
        Store(b);
      case VariantValue(_, w) =>
        StoreBinary(4);
        Store(w);
    }
  }

  class TlStorerUnsafe {
    const buf: array<byte>
    var pos: nat

    constructor (buf: array<byte>)
      ensures this.buf == buf && pos == 0
    {
      this.buf, pos := buf, 0;
    }

    predicate Fits(n: nat)
      reads this
    {
      pos + n <= buf.Length
    }

    /** memcpy. */
    method StoreSlice(bytes: seq<byte>)
      requires Fits(|bytes|)
      modifies this, buf
      ensures pos == old(pos) + |bytes| && buf[..pos] == old(buf[..pos]) + bytes
    {
      forall i | 0 <= i < |bytes| {
        buf[pos + i] := bytes[i];
      }
      pos := pos + |bytes|;
    }

    method StoreByte(b: byte)
      requires Fits(1)
      modifies this, buf
      ensures pos == old(pos) + 1 && buf[..pos] == old(buf[..pos]) + [b]
    {
      buf[pos] := b;
      pos := pos + 1;
    }

    method StoreFour(a: byte, b: byte, c: byte, d: byte)
      requires Fits(4)
      modifies this, buf
      ensures pos == old(pos) + 4 && buf[..pos] == old(buf[..pos]) + [a, b, c, d]
    {
      StoreByte(a);
      StoreByte(b);
      StoreByte(c);
      StoreByte(d);
    }

    /** The bytes before the text. */
    method StoreHeader(len: nat)
      requires len < TWO_32 && Fits(|StringHeader(len)|)
      modifies this, buf
      ensures pos == old(pos) + |StringHeader(len)| && buf[..pos] == old(buf[..pos]) + StringHeader(len)
    {
      HeaderBytes(len);
      hide StringHeader, Word;
      ghost var before := buf[..pos];
      if len < 254 {
        StoreByte(len);
      } else if len < TWO_24 {
        TopByte(len);
        StoreFour(254, len % 256, len / 256 % 256, len / TWO_16);
      } else {
        StoreFour(255, len % 256, len / 256 % 256, len / TWO_16 % 256);
        StoreFour(len / TWO_24 % 256, 0, 0, 0);
        Eight(before, 255, len % 256, len / 256 % 256, len / TWO_16 % 256, len / TWO_24 % 256);
      }
    }

    lemma Eight(s: seq<byte>, a: byte, b: byte, c: byte, d: byte, e: byte)
      ensures s + [a, b, c, d] + [e, 0, 0, 0] == s + [a, b, c, d, e, 0, 0, 0]
    {
    }

    /** One zero for each case that the switch falls through. */
    method StorePadding(len: nat)
      requires Fits(|Padding(len)|)
      modifies this, buf
      ensures pos == old(pos) + |Padding(len)| && buf[..pos] == old(buf[..pos]) + Padding(len)
    {
      ghost var before := buf[..pos];
      var left := if len % 4 == 0 then 0 else 4 - len % 4;
      if left == 3 {
        StoreByte(0);
      }
      if left >= 2 {
        StoreByte(0);
      }
      if left >= 1 {
        StoreByte(0);
      }
      assert buf[..pos] == before + Padding(len);
    }

    method StoreString(s: seq<byte>)
      requires |s| < TWO_32 && Fits(|StringBytes(s)|)
      modifies this, buf
      ensures pos == old(pos) + |StringBytes(s)| && buf[..pos] == old(buf[..pos]) + StringBytes(s)
    {
      hide StringHeader, Padding;
      ghost var before, header := buf[..pos], StringHeader(|s|);
      var len := |s|;
      StoreHeader(len);
      if len < 254 {
        len := len + 1;
      }
      StoreSlice(s);
      StorePadding(len);
      assert before + header + s + Padding(len) == before + (header + s + Padding(len));
    }

    /** store, for every type. */
    method Store(v: Value, ghost t: Type)
      requires Has(v, t) && Fits(|Bytes(v, t)|)
      modifies this, buf
      ensures pos == old(pos) + |Bytes(v, t)| && buf[..pos] == old(buf[..pos]) + Bytes(v, t)
      decreases v, Count(v) + 1
    {
      hide StringBytes, IntBytes, LongBytes;
      ghost var before := buf[..pos];
      match v
      case IntValue(x) => StoreSlice(IntBytes(x));
      case LongValue(x) => StoreSlice(LongBytes(x));
      case StrValue(s) => StoreString(s);
      case VecValue(items) =>
        StoreSlice(IntBytes(|items|));
        StoreItems(v, t);
        Assoc(before, IntBytes(|items|), ItemBytes(v, t, 0));
      case PairValue(a, b) =>
        Store(a, t.first);
        Store(b, t.second);
        Assoc(before, Bytes(a, t.first), Bytes(b, t.second));
      case VariantValue(k, w) =>
        StoreSlice(IntBytes(k));
        Store(w, t.alts[k]);
        Assoc(before, IntBytes(k), Bytes(w, t.alts[k]));
    }

    method StoreItems(v: Value, ghost t: Type)
      requires Has(v, t) && v.VecValue? && Fits(|ItemBytes(v, t, 0)|)
      modifies this, buf
      ensures pos == old(pos) + |ItemBytes(v, t, 0)| && buf[..pos] == old(buf[..pos]) + ItemBytes(v, t, 0)
      decreases v, Count(v)
    {
      hide Bytes;
      ghost var whole := buf[..pos] + ItemBytes(v, t, 0);
      for i := 0 to |v.items|
        invariant pos + |ItemBytes(v, t, i)| == old(pos) + |ItemBytes(v, t, 0)| && pos <= buf.Length
        invariant buf[..pos] + ItemBytes(v, t, i) == whole
      {
        Assoc(buf[..pos], Bytes(v.items[i], t.elem), ItemBytes(v, t, i + 1));
        Store(v.items[i], t.elem);
      }
      assert whole == buf[..pos] + [];
    }
  }

  /** The header byte by byte. */
  lemma HeaderBytes(len: nat)
    requires len < TWO_32
    ensures StringHeader(len) ==
            if len < 254 then [len]
            else if len < TWO_24 then [254, len % 256, len / 256 % 256, len / TWO_16 % 256]
            else [255, len % 256, len / 256 % 256, len / TWO_16 % 256, len / TWO_24 % 256, 0, 0, 0]
  {
    WordBytes(len);
    hide Word;
    assert [254] + [len % 256, len / 256 % 256, len / TWO_16 % 256]
      == [254, len % 256, len / 256 % 256, len / TWO_16 % 256];
  }

  lemma TopByte(len: nat)
    requires len < TWO_24
    ensures len / TWO_16 % 256 == len / TWO_16 < 256
  {
  }

  lemma WordBytes(x: nat)
    ensures Word(x, 3) == [x % 256, x / 256 % 256, x / TWO_16 % 256]
    ensures Word(x, 4) == [x % 256, x / 256 % 256, x / TWO_16 % 256, x / TWO_24 % 256]
  {
    var a, b, c := x / 256, x / 256 / 256, x / 256 / 256 / 256;
    assert b == x / TWO_16 && c == x / TWO_24;
    WordNext(x, 3);
    WordNext(x, 4);
    WordNext(a, 2);
    WordNext(a, 3);
    WordNext(b, 1);
    WordNext(b, 2);
    WordNext(c, 0);
    WordNext(c, 1);
  }

  lemma WordNext(x: nat, n: nat)
    ensures n > 0 ==> Word(x, n) == [x % 256] + Word(x / 256, n - 1)
    ensures n == 0 ==> Word(x, n) == []
  {
  }

  /** serialize: the two passes agree, which is its CHECK. */
  method Serialize(v: Value, t: Type) returns (key: array<byte>)
    requires Has(v, t)
    ensures key[..] == Bytes(v, t)
  {
    hide Bytes;
    LengthIs(v, t);
    var calcLength := new TlStorerCalcLength();
    calcLength.Store(v);
    key := new byte[calcLength.length](i => 0);
    var storer := new TlStorerUnsafe(key);
    storer.Store(v, t);
    assert storer.pos == key.Length;
    assert key[..] == key[..storer.pos];
  }

  // ---------------------------------------------------------------------------------------
  // Parsing
  // ---------------------------------------------------------------------------------------

  /** The zeroed block that the parser falls back to after an error. */
  function EmptyData(): (r: seq<byte>)
    ensures |r| == 32 && forall i :: 0 <= i < 32 ==> r[i] == 0
  {
    seq(32, i => 0)
  }

  class TlParser {
    const source: seq<byte>
    var data: seq<byte>     // the block that the data pointer is in
    var pos: nat            // and where in it
    var dataLen: nat
    var leftLen: nat
    var error: bool
    var errorPos: nat

    /** Without an error what is left is counted right; after one the pointer is in the fallback block. */
    predicate Valid()
      reads this
    {
      if error then data == EmptyData() && pos <= 32 && leftLen == dataLen == 0 && errorPos <= |source|
      else data == source && dataLen == |source| == pos + leftLen
    }

    /** What has not been fetched; nothing matters after an error. */
    function Rest(): seq<byte>
      requires Valid()
      reads this
    {
      if error then [] else source[pos..]
    }

    constructor (slice: seq<byte>)
      ensures Valid() && !error && Rest() == slice && source == slice
    {
      source, data, pos, dataLen, leftLen, error, errorPos := slice, slice, 0, |slice|, |slice|, false, 0;
    }

    /** The pointer may be ahead of leftLen by `ahead` bytes that a fetch has yet to account for. */
    predicate Between(ahead: nat)
      reads this
    {
      if error then data == EmptyData() && leftLen == dataLen == 0 && errorPos <= |source|
      else data == source && dataLen == |source| == pos + leftLen + ahead
    }

    method SetError()
      requires error || (data == source && dataLen == |source| && leftLen <= dataLen)
      requires error ==> leftLen == dataLen == 0 && errorPos <= |source|
      modifies this
      ensures Valid() && error && pos == 0
    {
      if !error {
        error := true;
        errorPos := dataLen - leftLen;
        data, pos := EmptyData(), 0;
        leftLen, dataLen := 0, 0;
      } else {
        data, pos := EmptyData(), 0;
      }
    }

    /**
      check_len. Afterwards `len` bytes can be read: they were left, or the pointer is at the start of the
      fallback block. A request for nothing after an error leaves the pointer where it is.
    */
    method CheckLen(len: nat)
      requires Valid()
      modifies this
      ensures !error <==> !old(error) && len <= old(leftLen)
      ensures !error ==>
        pos == old(pos) && leftLen == old(leftLen) - len && Between(len) && data == source && dataLen == |source|
      ensures error ==> Valid() && (len > 0 || !old(error) ==> pos == 0)
    {
      if leftLen < len {
        SetError();
      } else {
        leftLen := leftLen - len;
      }
    }

    method FetchInt() returns (x: int)
      requires Valid()
      modifies this
      ensures Valid()
      ensures if old(error) then error else
              match Tl.FetchInt(old(Rest()))
              case Failed => error
              case Fetched(y, rest) => !error && x == y && Rest() == rest
      ensures -TWO_31 <= x < TWO_31 && (error ==> x == 0)
    {
      ghost var s := Rest();
      CheckLen(4);
      var bytes := data[pos..pos + 4];
      pos := pos + 4;
      x := ToInt(Number(bytes));
      FourBytes(bytes);
      if !error {
        assert bytes == s[..4];
      }
    }

    method FetchLong() returns (x: int)
      requires Valid()
      modifies this
      ensures Valid()
      ensures if old(error) then error else
              match Tl.FetchLong(old(Rest()))
              case Failed => error
              case Fetched(y, rest) => !error && x == y && Rest() == rest
      ensures error ==> x == 0
    {
      ghost var s := Rest();
      CheckLen(8);
      var bytes := data[pos..pos + 8];
      pos := pos + 8;
      x := ToLong(Number(bytes));
      if !error {
        assert bytes == s[..8];
      } else {
        ZeroBytes(bytes);
      }
    }

    /** fetch_binary for a type of any size that the fallback block has room for. */
    method FetchBinary(size: nat) returns (bytes: seq<byte>)
      requires Valid() && 0 < size <= 32
      modifies this
      ensures Valid() && |bytes| == size
      ensures if old(error) || size > |old(Rest())| then error else
                !error && bytes == old(Rest())[..size] && Rest() == old(Rest())[size..]
      ensures error ==> forall i :: 0 <= i < size ==> bytes[i] == 0
    {
      CheckLen(size);
      bytes := data[pos..pos + size];
      pos := pos + size;
    }

    /** fetch_string_raw. */
    method FetchStringRaw(size: nat) returns (bytes: seq<byte>)
      requires Valid()
      modifies this
      ensures Valid()
      ensures if old(error) || size > |old(Rest())| then error else
                !error && bytes == old(Rest())[..size] && Rest() == old(Rest())[size..]
    {
      CheckLen(size);
      if error {
        return [];
      }
      bytes := data[pos..pos + size];
      pos := pos + size;
    }

    /** The first part of fetch_string: the pointer moves behind the header. */
    method FetchHeader() returns (begin: nat, len: nat, aligned: nat)
      requires Valid()
      modifies this
      ensures Valid() && begin <= pos && len <= pos - begin + aligned && (old(error) ==> error)
      ensures error ==> aligned == 0 && (old(error) || Tl.FetchHeader(old(Rest())) == None)
      ensures !error ==>
                pos <= |source| && old(pos) <= begin && |old(Rest())| == |source| - old(pos)
                && Tl.FetchHeader(old(Rest())) == Some(Header(begin - old(pos), len, pos - old(pos) + aligned))
    {
      hide Number, RoundUp, Tl.FetchHeader;
      if !error {
        HeaderAt(source, pos);
      }
      RoundUpBounds();
      CheckLen(4);
      len := data[pos];
      if len < 254 {
        begin := pos + 1;
        aligned := len / 4 * 4;
        pos := pos + 4;
      } else if len == 254 {
        len := Number(data[pos + 1..pos + 4]);
        begin := pos + 4;
        aligned := RoundUp(len);
        pos := pos + 4;
      } else {
        SecondCheck();
        len := Number(data[pos + 1..pos + 8]);
        if error {
          ZeroBytes(data[pos + 1..pos + 8]);
        }
        begin := pos + 8;
        aligned := RoundUp(len);
        pos := pos + 8;
      }
    }

    /** fetch_string: the header says where the text begins and how much of it is aligned. */
    method FetchString() returns (str: seq<byte>)
      requires Valid()
      modifies this
      ensures Valid()
      ensures if old(error) then error else
              match Tl.FetchString(old(Rest()))
              case Failed => error
              case Fetched(y, rest) => !error && str == y && Rest() == rest
    {
      hide Tl.FetchHeader;
      ghost var s, start := Rest(), pos;
      var begin, len, aligned := FetchHeader();
      if !error {
        assert s == source[start..] && |source| - |s| == start;
      }
      str := FetchText(s, begin, len, aligned);
    }

    /** The check for the second half of a long header. */
    method SecondCheck()
      requires !error && Between(4)
      modifies this
      ensures !error <==> old(leftLen) >= 4
      ensures !error ==> pos == old(pos) && Between(8) && data == source
      ensures error ==> Valid() && pos == 0
    {
      if leftLen < 4 {
        SetError();
      } else {
        leftLen := leftLen - 4;
      }
    }

    /** The end of fetch_string: the text and its padding have to be there. */
    method FetchText(ghost s: seq<byte>, begin: nat, len: nat, aligned: nat) returns (str: seq<byte>)
      requires Valid() && begin <= pos && len <= pos - begin + aligned
      requires error ==> aligned == 0
      requires !error ==> pos <= |source| && |s| <= |source| && s == source[|source| - |s|..] && |source| - |s| <= begin
      modifies this
      ensures Valid() && (old(error) ==> error)
      ensures !old(error) ==>
                var off := |source| - |s|;
                match Taken(s, begin - off, len, old(pos) - off + aligned)
                case Failed => error
                case Fetched(y, rest) => !error && str == y && Rest() == rest
    {
      CheckLen(aligned);
      if error {
        return [];
      }
      ghost var off := |source| - |s|;
      pos := pos + aligned;
      str := data[begin..begin + len];
      assert str == s[begin - off..begin - off + len];
    }

    method FetchEnd()
      requires Valid()
      modifies this
      ensures Valid() && (error <==> old(error) || old(Rest()) != [])
    {
      if leftLen != 0 {
        SetError();
      }
    }

    /** parse, for every type; after an error it goes on with zeros, and the error stays. */
    method Parse(t: Type) returns (v: Value)
      requires Valid()
      modifies this
      ensures Valid()
      ensures if old(error) then error else
              match Tl.Parse(t, old(Rest()))
              case Failed => error
              case Fetched(w, rest) => !error && v == w && Rest() == rest
      decreases t, 1
    {
      hide Tl.FetchInt, Tl.FetchLong, Tl.FetchString;
      match t
      case Int =>
        var x := FetchInt();
        v := IntValue(x);
      case Long =>
        var x := FetchLong();
        v := LongValue(x);
      case Str =>
        var x := FetchString();
        v := StrValue(x);
      case Vec(elem) => v := ParseVector(elem);
      case Pair(first, second) =>
        var a := Parse(first);
        var b := Parse(second);
        v := PairValue(a, b);
      case Variant(alts) =>
        var k := FetchInt();
        v := IntValue(0);
        if k < 0 || k >= |alts| {
          SetError();
        } else {
          var w := Parse(alts[k]);
          v := VariantValue(k, w);
        }
    }

    method ParseVector(elem: Type) returns (v: Value)
      requires Valid()
      modifies this
      ensures Valid()
      ensures if old(error) then error else
              match Tl.Parse(Vec(elem), old(Rest()))
              case Failed => error
              case Fetched(w, rest) => !error && v == w && Rest() == rest
      decreases elem, 2
    {
      hide Tl.FetchInt, ParseItems;
      v := VecValue([]);
      var x := FetchInt();
      var size: nat := if x < 0 then x + TWO_32 else x;
      if leftLen < size {
        SetError();
        return;
      }
      ghost var failed, s := error, Rest();
      var items: seq<Value> := [];
      ItemsStart(ParseItems(elem, size, s));
      for i := 0 to size
        invariant Valid() && (failed ==> error)
        invariant !failed && error ==> ParseItems(elem, size, s) == Failed
        invariant !failed && !error ==> ParseItems(elem, size, s) == Extend(items, ParseItems(elem, size - i, Rest()))
      {
        ItemsNext(items, elem, size - i, Rest());
        var item := Parse(elem);
        items := items + [item];
      }
      if !error {
        ItemsDone(items, elem, Rest());
      }
      v := VecValue(items);
    }
  }

  function Extend(done: seq<Value>, r: Fetched<seq<Value>>): Fetched<seq<Value>> {
    match r { case Failed => Failed case Fetched(more, rest) => Fetched(done + more, rest) }
  }

  lemma ItemsStart(r: Fetched<seq<Value>>)
    ensures r == Extend([], r)
  {
    if r.Fetched? {
      assert [] + r.value == r.value;
    }
  }

  lemma ItemsDone(done: seq<Value>, elem: Type, s: seq<byte>)
    ensures Extend(done, ParseItems(elem, 0, s)) == Fetched(done, s)
  {
    assert done + [] == done;
  }

  lemma ItemsNext(done: seq<Value>, elem: Type, n: nat, s: seq<byte>)
    requires n > 0
    ensures Extend(done, ParseItems(elem, n, s)) ==
            match Tl.Parse(elem, s)
            case Failed => Failed
            case Fetched(v, rest) => Extend(done + [v], ParseItems(elem, n - 1, rest))
  {
    hide Tl.Parse;
    if Tl.Parse(elem, s).Fetched? {
      var v, r := Tl.Parse(elem, s).value, ParseItems(elem, n - 1, Tl.Parse(elem, s).rest);
      if r.Fetched? {
        assert done + ([v] + r.value) == done + [v] + r.value;
      }
    }
  }

  /** unserialize. */
  method UnserializeBytes(t: Type, data: seq<byte>) returns (r: Option<Value>)
    ensures r == Unserialize(t, data)
  {
    hide Tl.Parse;
    var parser := new TlParser(data);
    var v := parser.Parse(t);
    parser.FetchEnd();
    r := if parser.error then None else Some(v);
  }

  lemma RoundUpBounds()
    ensures RoundUp(0) == 0 && forall n: nat :: RoundUp(n) >= n
  {
  }

  /** The header of a string at place p, seen in the whole input. */
  lemma HeaderAt(source: seq<byte>, p: nat)
    requires p <= |source|
    ensures Tl.FetchHeader(source[p..]) ==
            var n := |source| - p;
            if n < 4 then None
            else if source[p] < 254 then (var len: int := source[p]; Some(Header(1, len, 4 + len / 4 * 4)))
            else if source[p] == 254 then
              (var len := Number(source[p + 1..p + 4]); Some(Header(4, len, 4 + RoundUp(len))))
            else if n < 8 then None
            else (var len := Number(source[p + 1..p + 8]); Some(Header(8, len, 8 + RoundUp(len))))
  {
    hide Number, RoundUp;
    var s := source[p..];
    if |s| >= 4 {
      assert s[1..4] == source[p + 1..p + 4];
    }
    if |s| >= 8 {
      assert s[1..8] == source[p + 1..p + 8];
    }
  }

  lemma {:induction false} ZeroBytes(s: seq<byte>)
    requires forall i :: 0 <= i < |s| ==> s[i] == 0
    ensures Number(s) == 0
    decreases |s|
  {
    if s != [] {
      ZeroBytes(s[1..]);
    }
  }

  lemma FourBytes(s: seq<byte>)
    requires |s| == 4
    ensures Number(s) < TWO_32 && ((forall i :: 0 <= i < 4 ==> s[i] == 0) ==> Number(s) == 0)
  {
    var a, b, c := s[1..], s[2..], s[3..];
    assert s[1..][1..] == b && b[1..] == c && c[1..] == [];
    assert Number(c) == c[0] + 256 * Number([]);
    assert Number(b) == b[0] + 256 * Number(c);
    assert Number(a) == a[0] + 256 * Number(b);
  }
}
