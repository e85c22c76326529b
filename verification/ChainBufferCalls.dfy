/**
  What the calls on a chained buffer do (td/utils/buffer.h): append adds its bytes, confirm_read takes as many as it is
  told, and prepare_read shows the rest of the node where the next unread byte is.
*/
module ChainBufferCalls {
  import opened ChainBuffer
  import opened ChainBufferRuns

  // ---------------------------------------------------------------------------------------
  // The writer
  // ---------------------------------------------------------------------------------------

  /** The bytes an event hands to the writer. */
  function Handed(ev: Event): seq<int> {
    match ev
    case Copy(bytes) => bytes
    case LinkSlice(bytes) => bytes
    case _ => []
  }

  function Asked(events: seq<Event>): seq<int> {
    if events == [] then [] else Asked(events[..|events| - 1]) + Handed(events[|events| - 1])
  }

  /** Bytes copied and not yet confirmed. */
  function InHand(s: State): seq<int> {
    if s.writer.Copied? && s.tail < |s.nodes| && s.nodes[s.tail].end + s.writer.n <= |s.nodes[s.tail].data| then
      s.nodes[s.tail].data[s.nodes[s.tail].end..s.nodes[s.tail].end + s.writer.n]
    else []
  }

  predicate Took(s: State, ev: Event, s': State) {
    s'.appended + InHand(s') == s.appended + InHand(s) + Handed(ev)
  }

  lemma CopyTakes(s: State, ev: Event)
    requires ChainOk(s) && Enabled(s, ev) && ev.Copy?
    ensures Took(s, ev, Next(s, ev))
  {
    var s', n := Next(s, ev), s.nodes[s.tail];
    hide ChainOk;
    assert s'.nodes[s.tail].data[n.end..n.end + |ev.bytes|] == ev.bytes;
    assert InHand(s) == [];
    assert InHand(s') == ev.bytes;
  }

  lemma PublishTakes(s: State)
    requires ChainOk(s) && Enabled(s, Publish)
    ensures Took(s, Publish, Next(s, Publish))
  {
    assert InHand(Next(s, Publish)) == [];
  }

  lemma LinkTakes(s: State, ev: Event)
    requires ChainOk(s) && Enabled(s, ev) && (ev.LinkBuffer? || ev.LinkSlice? || ev.Release? || ev.Close?)
    ensures Took(s, ev, Next(s, ev))
  {
    hide ChainOk;
    assert InHand(s) == [] && InHand(Next(s, ev)) == [];
  }

  lemma ReaderTakes(s: State, ev: Event)
    requires Enabled(s, ev) && !WriterEvent(ev)
    ensures Took(s, ev, Next(s, ev))
  {
    ReaderFrame(s, ev);
    hide Next;
    assert InHand(Next(s, ev)) == InHand(s);
  }

  /** On every run, what was handed to the writer, in that order, is what is appended or just being appended. */
  lemma {:induction false} WritesAll(size: nat, states: seq<State>, events: seq<Event>, i: nat)
    requires IsRun(size, states, events) && i < |states|
    ensures states[i].appended + InHand(states[i]) == Asked(events[..i])
  {
    if i > 0 {
      WritesAll(size, states, events, i - 1);
      RunInvariant(size, states, events, i - 1);
      var s, ev := states[i - 1], events[i - 1];
      assert events[..i][..i - 1] == events[..i - 1];
      hide Next, InHand;
      if ev.Copy? {
        CopyTakes(s, ev);
      } else if ev.Publish? {
        PublishTakes(s);
      } else if WriterEvent(ev) {
        LinkTakes(s, ev);
      } else {
        ReaderTakes(s, ev);
      }
    }
  }

  const SMALL: nat := 1024
  const BLOCK: nat := 4096
  const INPLACE: nat := 256

  /** What is left of the writer's buffer; a slice that was linked has no writer's buffer. */
  function Room(n: Node): nat { if n.sync && n.end < |n.data| then |n.data| - n.end else 0 }

  function Min(a: nat, b: nat): nat { if a < b then a else b }
  function Max(a: nat, b: nat): nat { if a < b then b else a }

  /** The size of a new buffer: at least 4096 for small hints, and a multiple of 8. */
  function NewSize(hint: nat): nat { ((if hint < SMALL then BLOCK else hint) + 7) / 8 * 8 }

  /** copy_from and confirm_append. */
  function Fill(s: State, bytes: seq<int>): State
    requires Enabled(s, Copy(bytes))
  {
    Next(Next(s, Copy(bytes)), Publish)
  }

  /** prepare_append_alloc. */
  function Alloc(s: State, hint: nat): State
    requires Enabled(s, LinkBuffer(NewSize(hint))) && Enabled(Next(s, LinkBuffer(NewSize(hint))), Release)
  {
    Next(Next(s, LinkBuffer(NewSize(hint))), Release)
  }

  /** Between two of its calls the writer has added `bytes`, in `k` new nodes. */
  predicate Added(s: State, bytes: seq<int>, k: nat, s': State) {
    && Inv(s') && s'.writer.Open? && s'.iters == s.iters && s'.appended == s.appended + bytes
    && |s'.nodes| == |s.nodes| + k
  }

  lemma FillOk(s: State, bytes: seq<int>)
    requires Inv(s) && s.writer.Open? && s.tail < |s.nodes| && |bytes| <= Room(s.nodes[s.tail]) && bytes != []
    ensures Enabled(s, Copy(bytes)) && Added(s, bytes, 0, Fill(s, bytes))
    ensures var s' := Fill(s, bytes);
            s'.tail == s.tail && Room(s'.nodes[s.tail]) == Room(s.nodes[s.tail]) - |bytes|
  {
    var c := Copy(bytes);
    WriterStep(s, c);
    CopyTakes(s, c);
    var s1 := Next(s, c);
    WriterStep(s1, Publish);
    PublishTakes(s1);
    hide ChainOk, IterOk, ChainGrows;
    var s' := Next(s1, Publish);
    assert InHand(s') == [] && InHand(s) == [];
  }

  lemma AllocOk(s: State, hint: nat)
    requires Inv(s) && s.writer.Open?
    ensures var e := LinkBuffer(NewSize(hint)); Enabled(s, e) && Enabled(Next(s, e), Release)
    ensures var s' := Alloc(s, hint);
            Added(s, [], 1, s') && s'.tail < |s'.nodes| && Room(s'.nodes[s'.tail]) == NewSize(hint) >= hint
  {
    var e := LinkBuffer(NewSize(hint));
    WriterStep(s, e);
    var s1 := Next(s, e);
    NextOfTail(s1);
    WriterStep(s1, Release);
    LinkedRoom(s, hint);
    hide Alloc, ChainGrows, ChainOk, Enabled, IterOk, NewSize, Next, Room, WriterEvent;
  }

  lemma LinkedRoom(s: State, hint: nat)
    requires ChainOk(s) && s.writer.Open? && Enabled(s, LinkBuffer(NewSize(hint)))
    requires Enabled(Next(s, LinkBuffer(NewSize(hint))), Release)
    ensures var s' := Alloc(s, hint);
            && s'.tail < |s'.nodes| == |s.nodes| + 1 && Room(s'.nodes[s'.tail]) == NewSize(hint) >= hint
            && s'.writer.Open? && s'.iters == s.iters && s'.appended == s.appended + []
  {
  }

  /** The loop of append(Slice). */
  function Append(s: State, bytes: seq<int>, hint: nat): State
    requires Inv(s) && s.writer.Open?
    decreases |bytes|, if s.tail < |s.nodes| && Room(s.nodes[s.tail]) > 0 then 0 else 1
  {
    NextOfTail(s);
    var room := Room(s.nodes[s.tail]);
    if bytes == [] then s
    else if room == 0 then
      AllocOk(s, Max(|bytes|, hint));
      Append(Alloc(s, Max(|bytes|, hint)), bytes, hint)
    else
      var n := Min(room, |bytes|);
      FillOk(s, bytes[..n]);
      Append(Fill(s, bytes[..n]), bytes[n..], hint)
  }

  /** append(BufferSlice): a long one that does not fit becomes a node of its own. */
  function AppendBuffer(s: State, bytes: seq<int>): State
    requires Inv(s) && s.writer.Open?
  {
    NextOfTail(s);
    if |bytes| < INPLACE || Room(s.nodes[s.tail]) >= |bytes| then Append(s, bytes, 0)
    else
      LinkSliceOk(s, bytes);
      Next(Next(s, LinkSlice(bytes)), Release)
  }

  lemma LinkSliceOk(s: State, bytes: seq<int>)
    requires Inv(s) && s.writer.Open?
    ensures var e := LinkSlice(bytes);
            Enabled(s, e) && Enabled(Next(s, e), Release) && Added(s, bytes, 1, Next(Next(s, e), Release))
  {
    var e := LinkSlice(bytes);
    WriterStep(s, e);
    var s1 := Next(s, e);
    NextOfTail(s1);
    WriterStep(s1, Release);
    hide ChainOk, IterOk, ChainGrows;
  }

  /** append adds exactly the given bytes, with one new buffer exactly if they do not fit into the old one. */
  lemma {:induction false} AppendAlone(s: State, bytes: seq<int>, hint: nat)
    requires Inv(s) && s.writer.Open? && s.tail < |s.nodes|
    ensures Added(s, bytes, if |bytes| <= Room(s.nodes[s.tail]) then 0 else 1, Append(s, bytes, hint))
    decreases |bytes|, if Room(s.nodes[s.tail]) > 0 then 0 else 1
  {
    hide Alloc, Enabled, Fill, Inv, NewSize, Next, Room;
    var room := Room(s.nodes[s.tail]);
    if bytes == [] {
      assert s.appended + bytes == s.appended;
    } else if room == 0 {
      var h := Max(|bytes|, hint);
      AllocOk(s, h);
      var s1 := Alloc(s, h);
      AppendAlone(s1, bytes, hint);
      assert s.appended + [] + bytes == s.appended + bytes;
    } else {
      var n := Min(room, |bytes|);
      FillOk(s, bytes[..n]);
      var s1 := Fill(s, bytes[..n]);
      AppendAlone(s1, bytes[n..], hint);
      assert s.appended + bytes[..n] + bytes[n..] == s.appended + bytes;
    }
  }

  lemma AppendBufferAlone(s: State, bytes: seq<int>)
    requires Inv(s) && s.writer.Open? && s.tail < |s.nodes|
    ensures Added(s, bytes, if |bytes| <= Room(s.nodes[s.tail]) then 0 else 1, AppendBuffer(s, bytes))
  {
    hide Added, Append, Enabled, Inv, Next, Room;
    AppendAlone(s, bytes, 0);
    LinkSliceOk(s, bytes);
  }

  // ---------------------------------------------------------------------------------------
  // The reader
  // ---------------------------------------------------------------------------------------

  /** confirm_read(n) takes exactly the next n appended bytes. */
  lemma ConfirmTakes(s: State, i: nat, n: nat)
    requires Inv(s) && Enabled(s, Confirm(i, n))
    ensures var it, it' := s.iters[i], Next(s, Confirm(i, n)).iters[i];
            && it.offset + n <= |s.appended| && it'.offset == it.offset + n
            && it'.got == it.got + s.appended[it.offset..it.offset + n]
            && it'.e - it'.b == it.e - it.b - n
    ensures Next(s, Confirm(i, n)) == PutIter(s, i, Next(s, Confirm(i, n)).iters[i])
  {
    ConfirmOk(s, i, n);
    var it, it' := s.iters[i], Next(s, Confirm(i, n)).iters[i];
    assert IterOk(s, it);
    hide ChainOk;
    assert s.appended[..it.offset + n] == s.appended[..it.offset] + s.appended[it.offset..it.offset + n];
  }

  lemma PrepareStarts(s: State, i: nat)
    requires Inv(s) && Enabled(s, Prepare(i))
    ensures var it := Loop(s.iters[i]);
            && Next(s, Prepare(i)) == PutIter(s, i, it) && IterOk(s, s.iters[i]) && IterOk(s, it)
            && it.got == s.iters[i].got
            && it.node == s.iters[i].node && it.offset == s.iters[i].offset && it.b == s.iters[i].b
            && it.e == s.iters[i].e && (it.pc.Ready? || it.pc.Look?)
            && (it.pc.Look? <==> it.b == it.e && it.node != NULL)
            && (it.node == NULL ==> it.offset == Visible(s))
  {
    assert IterOk(s, s.iters[i]);
  }

  lemma NoSteps(s: State, i: nat)
    ensures Alone(s, i, 0, s)
  {
  }

  /** Only iterators of PutIter(s, i, _) are met. */
  lemma {:induction false} SameStart(s: State, i: nat, it: Iter, n: nat, m: State)
    requires i < |s.iters| && Alone(PutIter(s, i, it), i, n, m)
    ensures Alone(PutIter(PutIter(s, i, it), i, it), i, n, m)
  {
    hide Alone;
    assert s.iters[i := it][i := it] == s.iters[i := it];
  }

  lemma PutTwice(s: State, i: nat, a: Iter, b: Iter)
    requires i < |s.iters|
    ensures PutIter(PutIter(s, i, a), i, b) == PutIter(s, i, b)
  {
    assert s.iters[i := a][i := b] == s.iters[i := b];
  }

  lemma SameNodes(s: State, s': State, it: Iter)
    requires ChainOk(s) && s' == s.(iters := s'.iters)
    ensures ChainOk(s') && Visible(s') == Visible(s) && IterOk(s', it) == IterOk(s, it) && Shown(s', it) == Shown(s, it)
  {
    SameChain(s, s');
  }

  /**
    prepare_read, with the writer standing still: a slice that is not used up stays. Otherwise it shows all readable
    bytes of the node with the next unread byte, and comes back empty only if no reader can reach an unread byte.
  */
  lemma PrepareAlone(s: State, i: nat) returns (n: nat, it': Iter)
    requires Inv(s) && Enabled(s, Prepare(i))
    ensures Alone(Next(s, Prepare(i)), i, n, PutIter(s, i, it')) && it'.pc.Ready?
    ensures it'.got == s.iters[i].got && it'.offset == s.iters[i].offset && IterOk(s, it')
    ensures s.iters[i].b < s.iters[i].e ==>
              it'.node == s.iters[i].node && it'.b == s.iters[i].b && it'.e == s.iters[i].e
    ensures s.iters[i].b == s.iters[i].e && it'.node != NULL ==> Shown(s, it')
    ensures it'.b < it'.e || it'.offset == Visible(s)
  {
    hide Alone, ChainOk, IsNode, Limit, Loop, Next, Shown, Visible;
    PrepareStarts(s, i);
    var it := Loop(s.iters[i]);
    var s1 := Next(s, Prepare(i));
    if it.pc.Ready? {
      n, it' := 0, it;
      NoSteps(s1, i);
    } else {
      ReaderStep(s, Prepare(i));
      PutTwice(s, i, it, it);
      NoSteps(s1, i);
      assert s1 == s.(iters := s1.iters);
      SameNodes(s, s1, it);
      assert |s1.iters| == |s.iters|;
      PrepareFinds(s1, i, 0, it);
      n, it' :| Alone(s1, i, n, PutIter(s1, i, it')) && it'.pc.Ready? && it'.got == it.got && IterOk(s1, it')
                && Shown(s1, it') && (it'.b < it'.e || it'.offset == Visible(s1));
      PutTwice(s, i, it, it');
      SameNodes(s, s1, it');
    }
  }
}
