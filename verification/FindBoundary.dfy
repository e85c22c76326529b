/** Reading a chained buffer (td/utils/buffer.h) and find_boundary (td/utils/find_boundary.cpp). */
module FindBoundary {
  // Readers never change nodes, so a chain is a value; the iterator and the reader are objects that move along it. The
  // writer goes on meanwhile: each prepare_read sees some chain that extends the one the iterator saw before.

  /** `data` holds the published bytes of the node's buffer; `start` and `cut` delimit slice_. */
  datatype Chain = End | Node(data: seq<int>, start: nat, cut: nat, sync: bool, hasWriter: bool, next: Chain)
  {
    function Limit(): nat
      requires Node?
    {
      if sync then |data| else cut
    }

    predicate Valid() {
      Node? ==> start <= cut <= Limit() <= |data| && next.Valid()
    }

    /** The bytes that a reader can reach from here on. */
    function Bytes(): seq<int>
      requires Valid()
      decreases this, 1
    {
      if End? then [] else data[start..Limit()] + Rest()
    }

    /** The bytes behind this node. */
    function Rest(): seq<int>
      requires Valid() && Node?
      decreases this, 0
    {
      if hasWriter then [] else next.Bytes()
    }
  }

  /** What the writer may have made of a chain: bytes and nodes are added behind what is there. */
  predicate Extends(c: Chain, d: Chain)
    requires c.Valid() && d.Valid()
  {
    if c.End? then d.End?
    else
      && d.Node? && d.start == c.start && d.cut == c.cut && d.sync == c.sync && c.Limit() <= d.Limit()
      && d.data[c.start..c.Limit()] == c.data[c.start..c.Limit()]
      && (!c.hasWriter ==> !d.hasWriter && d.Limit() == c.Limit() && Extends(c.next, d.next))
  }

  lemma {:induction false} ExtendsSelf(c: Chain)
    requires c.Valid()
    ensures Extends(c, c)
  {
    if c.Node? {
      ExtendsSelf(c.next);
    }
  }

  /** The bytes from a place in the first node on. */
  function From(c: Chain, begin: nat): seq<int>
    requires c.Valid() && (c.Node? ==> c.start <= begin <= c.Limit())
  {
    if c.End? then [] else c.data[begin..c.Limit()] + c.Rest()
  }

  lemma SliceOf(s: seq<int>, lo: nat, hi: nat, a: nat, b: nat)
    requires lo <= a <= b <= hi <= |s|
    ensures s[lo..hi][a - lo..b - lo] == s[a..b]
  {
    var slice := s[lo..hi];
    forall i | 0 <= i < b - a
      ensures slice[a - lo..b - lo][i] == s[a..b][i]
    {
      assert slice[a - lo + i] == s[a + i];
    }
  }

  /** What could be read before still can, with more behind it. */
  lemma {:induction false} ExtendsBytes(c: Chain, d: Chain, begin: nat)
    requires c.Valid() && d.Valid() && Extends(c, d) && (c.Node? ==> c.start <= begin <= c.Limit())
    ensures From(c, begin) <= From(d, begin)
  {
    if c.Node? {
      SliceOf(c.data, c.start, c.Limit(), begin, c.Limit());
      SliceOf(d.data, c.start, c.Limit(), begin, c.Limit());
      assert d.data[begin..d.Limit()] == d.data[begin..c.Limit()] + d.data[c.Limit()..d.Limit()];
      if !c.hasWriter {
        ExtendsBytes(c.next, d.next, if c.next.Node? then c.next.start else 0);
        assert c.Rest() == c.next.Bytes() && d.Rest() == d.next.Bytes();
      }
    }
  }

  lemma ExtendsReady(c: Chain, d: Chain, begin: nat, end: nat)
    requires c.Valid() && d.Valid() && Extends(c, d) && (c.Node? ==> c.start <= begin <= end <= c.Limit())
    ensures c.Node? ==> c.data[begin..end] == d.data[begin..end]
  {
    if c.Node? {
      SliceOf(c.data, c.start, c.Limit(), begin, end);
      SliceOf(d.data, c.start, c.Limit(), begin, end);
    }
  }

  function Min(a: nat, b: nat): nat { if a < b then a else b }

  class ChainBufferIterator {
    var head: Chain
    var begin: nat
    var end: nat
    var needSync: bool
    var offset: nat

    /** How many bytes the writer will still append for this iterator to see. */
    var unseen: nat

    predicate Valid()
      reads this
    {
      && head.Valid()
      && (head.Node? ==>
            && head.start <= begin <= end <= head.Limit() && needSync == head.sync
            && (!head.sync ==> end == head.cut))
    }

    /** Everything from the iterator's position on. */
    function Left(): seq<int>
      requires Valid()
      reads this
    {
      From(head, begin)
    }

    /** The slice at hand. */
    function Ready(): seq<int>
      requires Valid()
      reads this
    {
      if head.End? then [] else head.data[begin..end]
    }

    constructor (chain: Chain, coming: nat)
      requires chain.Valid()
      ensures Valid() && Left() == chain.Bytes() && offset == 0 && unseen == coming
    {
      head, offset, unseen := chain, 0, coming;
      begin := if chain.Node? then chain.start else 0;
      end := if chain.Node? then chain.cut else 0;
      needSync := chain.Node? && chain.sync;
    }

    method Clone() returns (it: ChainBufferIterator)
      requires Valid()
      ensures fresh(it) && it.Valid() && it.Left() == Left() && it.offset == offset && it.unseen == unseen
    {
      it := new ChainBufferIterator(End, unseen);
      it.head, it.begin, it.end, it.needSync, it.offset := head, begin, end, needSync, offset;
    }

    method LoadHead()
      requires head.Valid()
      modifies this
      ensures Valid() && head == old(head) && offset == old(offset) && unseen == old(unseen) && Left() == head.Bytes()
    {
      if head.Node? {
        begin, end, needSync := head.start, head.cut, head.sync;
      }
    }

    /** The writer goes on: the iterator sees any chain that extends the one it saw, within what is still to come. */
    method WriterGoesOn()
      requires Valid()
      modifies this`head, this`unseen
      ensures Valid() && Extends(old(head), head)
      ensures old(Left()) <= Left() && |Left()| + unseen == old(|Left()| + unseen) && Ready() == old(Ready())
    {
      var was := Left();
      ExtendsSelf(head);
      var now: Chain :| now.Valid() && Extends(head, now) && |From(now, begin)| <= |From(head, begin)| + unseen;
      ExtendsBytes(head, now, begin);
      ExtendsReady(head, now, begin, end);
      hide From;
      head := now;
      unseen := |was| + unseen - |Left()|;
    }

    /** Returns nothing only where nothing is left, and never moves past a byte. */
    method PrepareRead() returns (ready: seq<int>)
      requires Valid()
      modifies this
      ensures Valid() && old(Left()) <= Left() && |Left()| + unseen == old(|Left()| + unseen) && offset == old(offset)
      ensures ready == Ready() <= Left()
      ensures ready == [] <==> Left() == []
    {
      WriterGoesOn();
      if head.End? {
        return [];
      }
      ghost var left := Left();
      while true
        invariant Valid() && head.Node? && Left() == left && offset == old(offset)
          && unseen == old(|Left()| + unseen) - |left|
        decreases head
      {
        ready := head.data[begin..end];
        if ready != [] {
          ReadyPrefix();
          return;
        }
        var hasWriter := head.hasWriter;
        if needSync {
          end := |head.data|;
          ready := head.data[begin..end];
          if ready != [] {
            ReadyPrefix();
            return;
          }
        }
        NothingHere();
        if hasWriter {
          return;
        }
        head := head.next;
        if head.End? {
          return [];
        }
        LoadHead();
      }
    }

    lemma NothingHere()
      requires Valid() && head.Node? && begin >= head.Limit()
      ensures Left() == head.Rest()
    {
    }

    lemma ReadyPrefix()
      requires Valid()
      ensures Ready() <= Left()
    {
      if head.Node? {
        assert head.data[begin..head.Limit()] == head.data[begin..end] + head.data[end..head.Limit()];
      }
    }

    method ConfirmRead(size: nat)
      requires Valid() && size <= |Ready()|
      modifies this
      ensures Valid() && size <= |old(Left())| && Left() == old(Left())[size..] && offset == old(offset) + size
      ensures unseen == old(unseen)
    {
      ReadyPrefix();
      if head.Node? {
        assert head.data[begin..head.Limit()][size..] == head.data[begin + size..head.Limit()];
      }
      offset := offset + size;
      begin := begin + size;
    }

    /** Everything is consumed, also what comes meanwhile. */
    method AdvanceTillEnd()
      requires Valid()
      modifies this
      ensures Valid() && Left() == [] && offset >= old(offset) + |old(Left())|
      ensures offset + unseen == old(offset + |Left()| + unseen)
    {
      while true
        invariant Valid() && offset + |Left()| >= old(offset) + |old(Left())|
        invariant offset + |Left()| + unseen == old(offset + |Left()| + unseen)
        decreases |Left()| + unseen
      {
        var ready := PrepareRead();
        if ready == [] {
          break;
        }
        ConfirmRead(|ready|);
      }
    }

    /** Skips up to `n` bytes and copies as many of them as fit into `dest`; `seen` is all that came into sight. */
    method Advance(n: nat, dest: array<int>) returns (skipped: nat, ghost seen: seq<int>)
      requires Valid()
      modifies this, dest
      ensures Valid() && old(Left()) <= seen && |seen| + unseen == old(|Left()| + unseen)
      ensures skipped == Min(n, |seen|) && Left() == seen[skipped..] && offset == old(offset) + skipped
      ensures var m := Min(skipped, dest.Length); dest[..m] == seen[..m]
    {
      seen := Left();
      skipped := 0;
      var todo: nat, filled: nat := n, 0;
      while todo != 0
        invariant Valid() && old(Left()) <= seen && |seen| + unseen == old(|Left()| + unseen)
        invariant todo + skipped == n && skipped <= |seen| && Left() == seen[skipped..]
          && offset == old(offset) + skipped
        invariant filled == Min(skipped, dest.Length) && dest[..filled] == seen[..filled]
        decreases todo
      {
        ghost var had := seen;
        var ready := PrepareRead();
        seen := seen[..skipped] + Left();
        MoreSeen(had, skipped, Left(), seen);
        if ready == [] {
          break;
        }
        ready := ready[..Min(todo, |ready|)];
        PrefixOfRest(seen, skipped, ready);
        filled := Fill(dest, filled, ready, seen, skipped);
        ConfirmRead(|ready|);
        todo, skipped := todo - |ready|, skipped + |ready|;
      }
    }
  }

  lemma MoreSeen(had: seq<int>, skipped: nat, left: seq<int>, seen: seq<int>)
    requires skipped <= |had| && had[skipped..] <= left && seen == had[..skipped] + left
    ensures had <= seen && seen[skipped..] == left && forall m :: 0 <= m <= skipped ==> seen[..m] == had[..m]
  {
    assert had == had[..skipped] + had[skipped..];
  }

  lemma PrefixOfRest(left: seq<int>, k: nat, ready: seq<int>)
    requires k <= |left| && ready <= left[k..]
    ensures k + |ready| <= |left| && left[k..][|ready|..] == left[k + |ready|..]
    ensures ready == left[k..k + |ready|]
  {
  }

  /** Copies the part of `ready` that fits; the copied bytes are the first bytes of `left`. */
  method Fill(dest: array<int>, filled: nat, ready: seq<int>, ghost left: seq<int>, ghost skipped: nat)
    returns (filled': nat)
    requires skipped + |ready| <= |left| && ready == left[skipped..skipped + |ready|]
    requires filled == Min(skipped, dest.Length) && dest[..filled] == left[..filled]
    modifies dest
    ensures filled' == Min(skipped + |ready|, dest.Length) && dest[..filled'] == left[..filled']
  {
    var k := Min(|ready|, dest.Length - filled);
    forall i | 0 <= i < k {
      dest[filled + i] := ready[i];
    }
    filled' := filled + k;
    forall i | 0 <= i < filled' ensures dest[i] == left[i] {
      if i < filled {
        assert old(dest[..filled])[i] == left[..filled][i];
      }
    }
  }

  /** Some bytes lose the first n, of which as many as fit are in `dest`. */
  predicate Taken(bytes: seq<int>, n: nat, rest: seq<int>, dest: seq<int>) {
    && n <= |bytes| && rest == bytes[n..]
    && var m := Min(n, |dest|); dest[..m] == bytes[..m]
  }

  lemma TakenOf(content: seq<int>, size: nat, seen: seq<int>, n: nat, dest: seq<int>)
    requires n <= size == |content| && content <= seen && var m := Min(n, |dest|); dest[..m] == seen[..m]
    ensures Taken(content, n, seen[n..][..size - n], dest)
  {
  }

  class ChainBufferReader {
    var begin: ChainBufferIterator
    var end: ChainBufferIterator

    predicate Valid()
      reads this, begin, end
    {
      && begin != end && begin.Valid() && end.Valid() && begin.offset <= end.offset
      && end.offset - begin.offset <= |begin.Left()|
    }

    function Size(): nat
      requires Valid()
      reads this, begin, end
    {
      end.offset - begin.offset
    }

    /** The bytes of the range. */
    function Content(): (r: seq<int>)
      requires Valid()
      reads this, begin, end
      ensures |r| == Size()
    {
      begin.Left()[..Size()]
    }

    /** The range of all bytes that are there; what comes later does not belong to it. */
    constructor (chain: Chain, coming: nat)
      requires chain.Valid()
      ensures Valid() && Content() == chain.Bytes() && fresh(begin) && fresh(end) && begin.unseen == coming
    {
      begin := new ChainBufferIterator(chain, coming);
      end := new ChainBufferIterator(chain, 0);
      new;
      end.AdvanceTillEnd();
    }

    constructor FromIterators(first: ChainBufferIterator, last: ChainBufferIterator)
      requires first != last && first.Valid() && last.Valid() && first.offset <= last.offset
      requires last.offset - first.offset <= |first.Left()|
      ensures Valid() && begin == first && end == last
    {
      begin, end := first, last;
    }

    method Clone() returns (r: ChainBufferReader)
      requires Valid()
      ensures r.Valid() && fresh(r) && fresh(r.begin) && fresh(r.end) && r.Content() == Content()
    {
      var first := begin.Clone();
      var last := end.Clone();
      r := new ChainBufferReader.FromIterators(first, last);
    }

    method PrepareRead() returns (ready: seq<int>)
      requires Valid()
      modifies begin
      ensures Valid() && Content() == old(Content()) && ready <= Content() && (ready == [] <==> Content() == [])
    {
      ready := begin.PrepareRead();
      ready := ready[..Min(Size(), |ready|)];
    }

    /** The range loses its first `n` bytes; as many of them as fit go to `dest`. */
    method Advance(n: nat, dest: array<int>)
      requires Valid() && n <= Size()
      modifies begin, dest
      ensures Valid() && Taken(old(Content()), n, Content(), dest[..])
    {
      ghost var content, size := Content(), Size();
      ghost var seen;
      var skipped;
      skipped, seen := begin.Advance(n, dest);
      TakenOf(content, size, seen, n, dest[..]);
    }
  }

  // ---------------------------------------------------------------------------------------
  // find_boundary
  // ---------------------------------------------------------------------------------------

  predicate MatchAt(text: seq<int>, boundary: seq<int>, i: nat) {
    i + |boundary| <= |text| && text[i..i + |boundary|] == boundary
  }

  /** Whatever follows the text, the boundary does not start at `i`, as far as find_boundary looks. */
  predicate Dead(text: seq<int>, boundary: seq<int>, i: nat)
    requires i < |text| && boundary != []
  {
    text[i] != boundary[0] || (i + |boundary| <= |text| && !MatchAt(text, boundary, i))
  }

  /** The first place from `a` on that is not dead. */
  function Stop(text: seq<int>, boundary: seq<int>, a: nat): (r: nat)
    requires a <= |text| && boundary != []
    ensures a <= r <= |text|
    ensures forall i :: a <= i < r ==> Dead(text, boundary, i)
    ensures r < |text| ==> !Dead(text, boundary, r)
    decreases |text| - a
  {
    if a < |text| && Dead(text, boundary, a) then Stop(text, boundary, a + 1) else a
  }

  function FirstIndex(s: seq<int>, x: int): (k: nat)
    ensures k <= |s| && (k < |s| ==> s[k] == x) && forall j :: 0 <= j < k ==> s[j] != x
  {
    if s == [] || s[0] == x then 0 else 1 + FirstIndex(s[1..], x)
  }

  lemma {:induction false} StopUnique(text: seq<int>, boundary: seq<int>, a: nat, r: nat)
    requires boundary != [] && a <= r <= |text| && (forall i :: a <= i < r ==> Dead(text, boundary, i))
    ensures Stop(text, boundary, a) == Stop(text, boundary, r)
    decreases r - a
  {
    if a < r {
      StopUnique(text, boundary, a + 1, r);
    }
  }

  /** The longest boundary the code accepts: MAX_BOUNDARY_LENGTH + 4. */
  const LONGEST: nat := 74

  /** Reads as many bytes as the boundary has and compares; `save` is the range as it was. */
  method Compare(r: ChainBufferReader, boundary: seq<int>) returns (same: bool, save: ChainBufferReader)
    requires r.Valid() && |boundary| <= r.Size() && |boundary| <= LONGEST
    modifies r.begin
    ensures same <==> old(r.Content())[..|boundary|] == boundary
    ensures save.Valid() && fresh(save) && fresh(save.begin) && fresh(save.end) && save.Content() == old(r.Content())
  {
    save := r.Clone();
    var x := new int[LONGEST];
    r.Advance(|boundary|, x);
    same := x[..|boundary|] == boundary;
  }

  /**
    On a chain cut into nodes in any way, the answer is that of a search of the flat bytes: the search
    stops at the first place that is not dead, and succeeds if the boundary is there.
  */
  method FindBoundary(range: ChainBufferReader, boundary: seq<int>, alreadyRead: nat) returns (found: bool, read: nat)
    requires range.Valid() && 0 < |boundary| <= LONGEST && alreadyRead <= range.Size()
    modifies range, range.begin, range.end
    ensures read == Stop(old(range.Content()), boundary, alreadyRead)
    ensures found <==> MatchAt(old(range.Content()), boundary, read)
  {
    hide *;
    ghost var text := range.Content();
    var none := new int[0];
    range.Advance(alreadyRead, none);
    var r := range;
    read := alreadyRead;
    while r.Size() != 0
      invariant r.Valid() && fresh({r, r.begin, r.end} - {range, old(range.begin), old(range.end)})
      invariant read <= |text| && r.Content() == text[read..]
      invariant Stop(text, boundary, alreadyRead) == Stop(text, boundary, read)
      decreases |text| - read
    {
      var ready := r.PrepareRead();
      if ready[0] == boundary[0] {
        if r.Size() < |boundary| {
          StopsShort(text, boundary, read);
          return false, read;
        }
        var same, save := Compare(r, boundary);
        Compared(text, boundary, read);
        if same {
          return true, read;
        }
        r := save;
        r.Advance(1, none);
        read := read + 1;
      } else {
        var shift := FirstIndex(ready, boundary[0]);
        Skipped(text, boundary, read, ready, shift);
        read := read + shift;
        r.Advance(shift, none);
      }
    }
    StopsShort(text, boundary, read);
    found := false;
  }

  lemma StopsShort(text: seq<int>, boundary: seq<int>, read: nat)
    requires boundary != [] && read <= |text| < read + |boundary| && (read < |text| ==> text[read] == boundary[0])
    ensures Stop(text, boundary, read) == read && !MatchAt(text, boundary, read)
  {
  }

  lemma Compared(text: seq<int>, boundary: seq<int>, read: nat)
    requires boundary != [] && read + |boundary| <= |text| && text[read] == boundary[0]
    ensures MatchAt(text, boundary, read) <==> text[read..][..|boundary|] == boundary
    ensures if MatchAt(text, boundary, read) then Stop(text, boundary, read) == read
            else Stop(text, boundary, read) == Stop(text, boundary, read + 1)
  {
    assert text[read..][..|boundary|] == text[read..read + |boundary|];
  }

  lemma Skipped(text: seq<int>, boundary: seq<int>, read: nat, ready: seq<int>, shift: nat)
    requires boundary != [] && read + |ready| <= |text| && ready == text[read..][..|ready|] && shift <= |ready|
    requires forall j :: 0 <= j < shift ==> ready[j] != boundary[0]
    ensures Stop(text, boundary, read) == Stop(text, boundary, read + shift)
  {
    forall i | read <= i < read + shift ensures Dead(text, boundary, i) {
      assert text[i] == ready[i - read];
    }
    StopUnique(text, boundary, read, read + shift);
  }

  /** The search finds a boundary exactly when there is one, and then the first. */
  lemma StopFindsFirst(text: seq<int>, boundary: seq<int>, a: nat)
    requires boundary != [] && a <= |text|
    ensures var r := Stop(text, boundary, a);
            && (MatchAt(text, boundary, r) <==> exists i: nat :: a <= i && MatchAt(text, boundary, i))
            && forall i: nat :: a <= i < r ==> !MatchAt(text, boundary, i)
  {
    var r := Stop(text, boundary, a);
    forall i: nat | a <= i < r ensures !MatchAt(text, boundary, i) {
      MatchNotDead(text, boundary, i);
    }
    if !MatchAt(text, boundary, r) {
      assert r + |boundary| > |text|;
    }
  }

  lemma MatchNotDead(text: seq<int>, boundary: seq<int>, i: nat)
    requires boundary != [] && i < |text|
    ensures Dead(text, boundary, i) ==> !MatchAt(text, boundary, i)
  {
    if MatchAt(text, boundary, i) {
      assert text[i..i + |boundary|][0] == boundary[0];
    }
  }

  /**
    The search can be resumed: when more bytes have arrived, going on from where it stopped finds what a
    search of everything from the start finds.
  */
  lemma {:induction false} SearchResumes(text: seq<int>, more: seq<int>, boundary: seq<int>, a: nat)
    requires boundary != [] && a <= |text|
    ensures Stop(text + more, boundary, a) == Stop(text + more, boundary, Stop(text, boundary, a))
  {
    var r := Stop(text, boundary, a);
    forall i | a <= i < r ensures Dead(text + more, boundary, i) {
      DeadStays(text, more, boundary, i);
    }
    StopUnique(text + more, boundary, a, r);
  }

  lemma DeadStays(text: seq<int>, more: seq<int>, boundary: seq<int>, i: nat)
    requires boundary != [] && i < |text| && Dead(text, boundary, i)
    ensures Dead(text + more, boundary, i)
  {
    if i + |boundary| <= |text| {
      assert (text + more)[i..i + |boundary|] == text[i..i + |boundary|];
    }
  }

  function Join(pieces: seq<seq<int>>): seq<int> {
    if pieces == [] then [] else Join(pieces[..|pieces| - 1]) + pieces[|pieces| - 1]
  }

  /** Searching after each of several arrivals, each time from where the last search stopped. */
  function Resumed(pieces: seq<seq<int>>, boundary: seq<int>): (r: nat)
    requires boundary != []
    ensures r <= |Join(pieces)|
  {
    if pieces == [] then 0
    else Stop(Join(pieces), boundary, Resumed(pieces[..|pieces| - 1], boundary))
  }

  /** However the bytes arrive, the searches together stop where one search of all of them stops. */
  lemma {:induction false} ArrivalsDoNotMatter(pieces: seq<seq<int>>, boundary: seq<int>)
    requires boundary != []
    ensures Resumed(pieces, boundary) == Stop(Join(pieces), boundary, 0)
  {
    if pieces != [] {
      var init := pieces[..|pieces| - 1];
      ArrivalsDoNotMatter(init, boundary);
      SearchResumes(Join(init), pieces[|pieces| - 1], boundary, 0);
    }
  }
}
