/**
  The chained buffer (td/utils/buffer.h) as a step system: one ChainBufferWriter and any number of
  ChainBufferIterators on the chain it grows.

  Each event is one load or store of shared memory with the local work around it. Buffers are
  garbage-collected byte sequences. `first`, `appended` and `got` are history.
*/
module ChainBuffer {

  const NULL: int := -1

  /** `data` and `end` belong to the BufferRaw; `start` and `cut` are slice_; the rest is the ChainBufferNode. */
  datatype Node =
    Node(data: seq<int>, end: nat, start: nat, cut: nat, sync: bool, hasWriter: bool, next: int, first: nat)

  datatype WriterPc = Open | Copied(n: nat) | Linked | Gone

  datatype IterPc = Ready | Look | Sync(alive: bool) | Leave

  /** An iterator: head_ is `node`, and reader_ is the slice from `b` to `e` of its buffer. */
  datatype Iter = Iter(node: int, b: nat, e: nat, needSync: bool, offset: nat, pc: IterPc, got: seq<int>)

  datatype State = State(nodes: seq<Node>, tail: nat, writer: WriterPc, iters: seq<Iter>, appended: seq<int>)

  datatype Event =
    | Copy(bytes: seq<int>) | Publish | LinkBuffer(size: nat) | LinkSlice(bytes: seq<int>) | Release | Close
    | Clone(i: nat) | Prepare(i: nat) | Confirm(i: nat, n: nat) | Step(i: nat)

  function Buffer(size: nat, first: nat): Node {
    Node(seq(size, x => 0), 0, 0, 0, true, true, NULL, first)
  }

  function Slice(bytes: seq<int>, first: nat): Node {
    Node(bytes, |bytes|, 0, |bytes|, false, true, NULL, first)
  }

  function Init(size: nat): State {
    State([Buffer(size, 0)], 0, Open, [Iter(0, 0, 0, true, 0, Ready, [])], [])
  }

  /** How far a reader of the node may come: a synced one up to the writer, another to the end of its slice. */
  function Limit(n: Node): nat { if n.sync then n.end else n.cut }

  predicate IsNode(s: State, k: int) { 0 <= k < |s.nodes| }

  predicate Enabled(s: State, ev: Event) {
    && s.tail < |s.nodes|
    && match ev
       case Copy(bytes) =>
         s.writer.Open? && s.nodes[s.tail].sync && s.nodes[s.tail].end + |bytes| <= |s.nodes[s.tail].data|
       case Publish => s.writer.Copied?
       case LinkBuffer(_) => s.writer.Open?
       case LinkSlice(_) => s.writer.Open?
       case Release => s.writer.Linked? && IsNode(s, s.nodes[s.tail].next)
       case Close => s.writer.Open?
       case Clone(i) => i < |s.iters| && s.iters[i].pc.Ready?
       case Prepare(i) => i < |s.iters| && s.iters[i].pc.Ready?
       case Confirm(i, n) =>
         i < |s.iters| && s.iters[i].pc.Ready? && s.iters[i].b + n <= s.iters[i].e
         && (IsNode(s, s.iters[i].node) ==> s.iters[i].e <= |s.nodes[s.iters[i].node].data|)
       case Step(i) => i < |s.iters| && !s.iters[i].pc.Ready? && IsNode(s, s.iters[i].node)
  }

  function NextWriter(s: State, ev: Event): State
    requires Enabled(s, ev)
    requires ev.Copy? || ev.Publish? || ev.LinkBuffer? || ev.LinkSlice? || ev.Release? || ev.Close?
  {
    var n := s.nodes[s.tail];
    match ev
    case Copy(bytes) =>
      s.(nodes := s.nodes[s.tail := n.(data := n.data[..n.end] + bytes + n.data[n.end + |bytes|..])],
        writer := Copied(|bytes|))
    case Publish =>
      var m := s.writer.n;
      s.(nodes := s.nodes[s.tail := n.(end := n.end + m)], writer := Open,
         appended := s.appended + if n.end + m <= |n.data| then n.data[n.end..n.end + m] else [])
    case LinkBuffer(size) =>
      s.(nodes := s.nodes[s.tail := n.(next := |s.nodes|)] + [Buffer(size, |s.appended|)], writer := Linked)
    case LinkSlice(bytes) =>
      s.(nodes := s.nodes[s.tail := n.(next := |s.nodes|)] + [Slice(bytes, |s.appended|)], writer := Linked,
         appended := s.appended + bytes)
    case Release => s.(nodes := s.nodes[s.tail := n.(hasWriter := false)], tail := n.next, writer := Open)
    case Close => s.(nodes := s.nodes[s.tail := n.(hasWriter := false)], writer := Gone)
  }

  function PutIter(s: State, i: nat, it: Iter): State
    requires i < |s.iters|
  {
    s.(iters := s.iters[i := it])
  }

  /** The head of prepare_read's loop: whatever is left of the slice is returned at once. */
  function Loop(it: Iter): Iter {
    it.(pc := if it.b < it.e || it.node == NULL then Ready else Look)
  }

  /** load_head. */
  function Load(it: Iter, k: int, n: Node): Iter {
    it.(node := k, b := n.start, e := n.cut, needSync := n.sync)
  }

  function StepIter(s: State, it: Iter): Iter
    requires IsNode(s, it.node) && !it.pc.Ready?
  {
    var n := s.nodes[it.node];
    match it.pc
    case Look => it.(pc := Sync(n.hasWriter))
    case Sync(alive) =>
      var e := if it.needSync then n.end else it.e;
      it.(e := e, pc := if it.b < e || alive then Ready else Leave)
    case Leave => if IsNode(s, n.next) then Loop(Load(it, n.next, s.nodes[n.next])) else it.(node := NULL, pc := Ready)
  }

  function Next(s: State, ev: Event): State
    requires Enabled(s, ev)
  {
    match ev
    case Clone(i) => s.(iters := s.iters + [s.iters[i]])
    case Prepare(i) => PutIter(s, i, Loop(s.iters[i]))
    case Confirm(i, n) =>
      var it := s.iters[i];
      PutIter(s, i, it.(b := it.b + n, offset := it.offset + n,
                        got := it.got + if IsNode(s, it.node) then s.nodes[it.node].data[it.b..it.b + n] else []))
    case Step(i) => PutIter(s, i, StepIter(s, s.iters[i]))
    case _ => NextWriter(s, ev)
  }

  // ---------------------------------------------------------------------------------------
  // The invariant
  // ---------------------------------------------------------------------------------------

  predicate NodeOk(n: Node) {
    n.start <= n.cut <= Limit(n) <= |n.data| && (n.sync ==> n.end <= |n.data| && n.cut == n.start)
  }

  function Length(n: Node): nat
    requires NodeOk(n)
  {
    Limit(n) - n.start
  }

  /** The node's readable bytes are the appended bytes from `first` on. */
  predicate Stored(n: Node, appended: seq<int>)
    requires NodeOk(n)
  {
    n.first + Length(n) <= |appended| && n.data[n.start..Limit(n)] == appended[n.first..n.first + Length(n)]
  }

  predicate ChainOk(s: State) {
    && |s.nodes| == s.tail + (if s.writer.Linked? then 2 else 1)
    && (forall k :: 0 <= k < |s.nodes| ==>
          NodeOk(s.nodes[k]) && Stored(s.nodes[k], s.appended)
            && (s.nodes[k].hasWriter <==> k >= s.tail && !s.writer.Gone?))
    && (forall k :: 0 <= k < |s.nodes| - 1 ==>
          s.nodes[k].next == k + 1 && s.nodes[k + 1].first == s.nodes[k].first + Length(s.nodes[k]))
    && s.nodes[|s.nodes| - 1].next == NULL
    && |s.appended| == s.nodes[|s.nodes| - 1].first + Length(s.nodes[|s.nodes| - 1])
    && (s.writer.Copied? ==>
          s.nodes[s.tail].sync && s.nodes[s.tail].end + s.writer.n <= |s.nodes[s.tail].data|)
  }

  predicate IterOk(s: State, it: Iter)
    requires ChainOk(s)
  {
    && it.offset == |it.got| <= |s.appended| && it.got == s.appended[..it.offset]
    && (it.node == NULL ==> it.offset == |s.appended| && s.writer.Gone? && it.pc.Ready? && it.b == it.e)
    && (it.node != NULL ==>
          IsNode(s, it.node) && it.node <= s.tail && var n := s.nodes[it.node];
          && n.start <= it.b <= it.e <= Limit(n) && it.needSync == n.sync && (!n.sync ==> it.e == n.cut)
          && it.offset == n.first + it.b - n.start
          && (it.pc.Look? ==> it.b == it.e)
          && (it.pc.Sync? ==> it.b == it.e && (!it.pc.alive ==> !n.hasWriter))
          && (it.pc.Leave? ==> !n.hasWriter && it.b == Limit(n)))
  }

  predicate Inv(s: State) {
    ChainOk(s) && forall i :: 0 <= i < |s.iters| ==> IterOk(s, s.iters[i])
  }

  lemma InitInv(size: nat)
    ensures Inv(Init(size))
  {
  }

  // Writer

  predicate WriterEvent(ev: Event) {
    ev.Copy? || ev.Publish? || ev.LinkBuffer? || ev.LinkSlice? || ev.Release? || ev.Close?
  }

  /**
    What the writer leaves alone: nodes stay, grow at most at the end while they have a writer, and keep their bytes.
  */
  predicate Grows(n: Node, n': Node)
    requires NodeOk(n)
  {
    && NodeOk(n') && n'.start == n.start && n'.cut == n.cut && n'.sync == n.sync && n'.first == n.first
    && Limit(n) <= Limit(n') && n'.data[n.start..Limit(n)] == n.data[n.start..Limit(n)]
    && (!n.hasWriter ==> !n'.hasWriter && Limit(n') == Limit(n))
  }

  predicate ChainGrows(s: State, s': State)
    requires ChainOk(s)
  {
    && |s.nodes| <= |s'.nodes| && s.tail <= s'.tail && s.appended <= s'.appended && s'.iters == s.iters
    && (s.writer.Gone? ==> s'.writer.Gone? && s'.appended == s.appended)
    && forall k :: 0 <= k < |s.nodes| ==> Grows(s.nodes[k], s'.nodes[k])
  }

  lemma CopyGrows(s: State, ev: Event)
    requires ChainOk(s) && Enabled(s, ev) && ev.Copy?
    ensures var s' := NextWriter(s, ev); ChainOk(s') && ChainGrows(s, s')
  {
    var s', n := NextWriter(s, ev), s.nodes[s.tail];
    var n' := s'.nodes[s.tail];
    assert n'.data[..n.end] == n.data[..n.end];
    assert n'.data[n.start..n.end] == n'.data[..n.end][n.start..] == n.data[n.start..n.end];
  }

  lemma PublishStored(n: Node, m: nat, appended: seq<int>)
    requires NodeOk(n) && n.sync && n.hasWriter && n.end + m <= |n.data| && Stored(n, appended)
      && |appended| == n.first + Length(n)
    ensures var n' := n.(end := n.end + m);
            NodeOk(n') && Stored(n', appended + n.data[n.end..n.end + m]) && Grows(n, n')
  {
    var added := n.data[n.end..n.end + m];
    assert n.data[n.start..n.end + m] == n.data[n.start..n.end] + added;
    assert (appended + added)[n.first..] == appended[n.first..] + added;
  }

  lemma PublishGrows(s: State)
    requires ChainOk(s) && Enabled(s, Publish)
    ensures var s' := NextWriter(s, Publish); ChainOk(s') && ChainGrows(s, s')
  {
    var s', n, m := NextWriter(s, Publish), s.nodes[s.tail], s.writer.n;
    PublishStored(n, m, s.appended);
    forall k | 0 <= k < s.tail ensures Stored(s'.nodes[k], s'.appended) && Grows(s.nodes[k], s'.nodes[k]) {
      StoredLonger(s.nodes[k], s.appended, s'.appended);
    }
    hide Stored, Grows, NodeOk, NextWriter, Enabled;
  }

  lemma StoredLonger(n: Node, a: seq<int>, a': seq<int>)
    requires NodeOk(n) && Stored(n, a) && a <= a'
    ensures Stored(n, a')
  {
    assert a'[..|a|] == a;
    assert a'[n.first..n.first + Length(n)] == a'[..|a|][n.first..n.first + Length(n)];
  }

  /** A new last node: its bytes are the ones just appended. */
  lemma LinkChain(s: State, s': State, last: Node)
    requires ChainOk(s) && s.writer.Open? && s'.writer.Linked? && s'.tail == s.tail && s'.iters == s.iters
    requires s'.nodes == s.nodes[s.tail := s.nodes[s.tail].(next := |s.nodes|)] + [last]
    requires last.start == last.first - |s.appended| == 0 && NodeOk(last) && last.hasWriter && last.next == NULL
    requires s'.appended == s.appended + last.data[..Limit(last)]
    ensures ChainOk(s') && ChainGrows(s, s')
  {
    assert Stored(last, s'.appended);
    forall k | 0 <= k < |s.nodes| ensures Stored(s'.nodes[k], s'.appended) && Grows(s.nodes[k], s'.nodes[k]) {
      StoredLonger(s.nodes[k], s.appended, s'.appended);
    }
    hide Stored, Grows;
  }

  lemma LinkGrows(s: State, ev: Event)
    requires ChainOk(s) && Enabled(s, ev) && (ev.LinkBuffer? || ev.LinkSlice?)
    ensures var s' := NextWriter(s, ev); ChainOk(s') && ChainGrows(s, s')
  {
    var last := if ev.LinkBuffer? then Buffer(ev.size, |s.appended|) else Slice(ev.bytes, |s.appended|);
    hide ChainOk, ChainGrows;
    LinkChain(s, NextWriter(s, ev), last);
  }

  lemma ReleaseChain(s: State, s': State)
    requires ChainOk(s) && s'.iters == s.iters && s'.appended == s.appended
    requires s'.nodes == s.nodes[s.tail := s.nodes[s.tail].(hasWriter := false)]
    requires if s.writer.Linked? then s'.writer.Open? && s'.tail == s.tail + 1
             else s.writer.Open? && s'.writer.Gone? && s'.tail == s.tail
    ensures ChainOk(s') && ChainGrows(s, s')
  {
    forall k | 0 <= k < |s.nodes|
      ensures NodeOk(s'.nodes[k]) && Stored(s'.nodes[k], s'.appended) && Grows(s.nodes[k], s'.nodes[k])
      ensures Length(s'.nodes[k]) == Length(s.nodes[k])
    {
      hide Stored;
      assert Stored(s.nodes[k], s.appended);
      StoredSame(s.nodes[k], s'.nodes[k], s.appended);
    }
    hide Stored, Grows, NodeOk, Length;
  }

  lemma StoredSame(n: Node, n': Node, appended: seq<int>)
    requires NodeOk(n) && Stored(n, appended) && n' == n.(hasWriter := n'.hasWriter)
    ensures NodeOk(n') && Stored(n', appended)
  {
  }

  lemma ReleaseGrows(s: State, ev: Event)
    requires ChainOk(s) && Enabled(s, ev) && (ev.Release? || ev.Close?)
    ensures var s' := NextWriter(s, ev); ChainOk(s') && ChainGrows(s, s')
  {
    NextOfTail(s);
    hide ChainOk, ChainGrows;
    ReleaseChain(s, NextWriter(s, ev));
  }

  lemma NextOfTail(s: State)
    requires ChainOk(s)
    ensures s.tail < |s.nodes| && (s.writer.Linked? ==> s.nodes[s.tail].next == s.tail + 1)
  {
  }

  /** Whatever the writer does keeps every iterator's facts. */
  lemma IterKept(s: State, s': State, it: Iter)
    requires ChainOk(s) && ChainOk(s') && ChainGrows(s, s') && IterOk(s, it)
    ensures IterOk(s', it)
  {
    assert s'.appended[..it.offset] == s'.appended[..|s.appended|][..it.offset];
    if it.node != NULL {
      assert Grows(s.nodes[it.node], s'.nodes[it.node]);
    }
  }

  lemma ItersSame(s: State, s': State)
    requires ChainOk(s) && ChainGrows(s, s')
    ensures s'.iters == s.iters
  {
  }

  lemma WriterStep(s: State, ev: Event)
    requires Inv(s) && Enabled(s, ev) && WriterEvent(ev)
    ensures Inv(Next(s, ev)) && ChainGrows(s, Next(s, ev))
  {
    hide NextWriter, ChainOk, IterOk, ChainGrows;
    var s' := Next(s, ev);
    if ev.Copy? {
      CopyGrows(s, ev);
    } else if ev.Publish? {
      PublishGrows(s);
    } else if ev.LinkBuffer? || ev.LinkSlice? {
      LinkGrows(s, ev);
    } else {
      ReleaseGrows(s, ev);
    }
    ItersSame(s, s');
    forall i | 0 <= i < |s'.iters| ensures IterOk(s', s'.iters[i]) {
      IterKept(s, s', s.iters[i]);
    }
  }

  // Readers

  lemma LookOk(s: State, it: Iter)
    requires ChainOk(s) && IterOk(s, it) && it.node != NULL && (it.pc.Look? || it.pc.Sync?)
    ensures IterOk(s, StepIter(s, it))
  {
  }

  /** Leaving a node, the iterator has read all of it: its writer had left before the end was loaded. */
  lemma LeaveOk(s: State, it: Iter)
    requires ChainOk(s) && IterOk(s, it) && it.node != NULL && it.pc.Leave?
    ensures IterOk(s, StepIter(s, it))
  {
    if it.node < |s.nodes| - 1 {
      assert s.nodes[it.node].next == it.node + 1;
    }
  }

  lemma ConfirmOk(s: State, i: nat, n: nat)
    requires Inv(s) && Enabled(s, Confirm(i, n))
    ensures IterOk(s, Next(s, Confirm(i, n)).iters[i])
  {
    var it := s.iters[i];
    assert IterOk(s, it);
    if it.node != NULL {
      TakenOk(s, it, n);
    } else {
      hide ChainOk;
    }
    hide ChainOk, IterOk;
  }

  lemma TakenOk(s: State, it: Iter, n: nat)
    requires ChainOk(s) && IterOk(s, it) && it.node != NULL && it.pc.Ready? && it.b + n <= it.e
    ensures IsNode(s, it.node) && it.e <= |s.nodes[it.node].data|
    ensures var taken := s.nodes[it.node].data[it.b..it.b + n];
            IterOk(s, it.(b := it.b + n, offset := it.offset + n, got := it.got + taken))
  {
    assert NodeOk(s.nodes[it.node]) && Stored(s.nodes[it.node], s.appended);
    TakeBytes(s.nodes[it.node], s.appended, it.b, n, it.e);
    hide ChainOk, Stored;
  }

  /** Bytes taken from a node's slice are the appended bytes at the iterator's offset. */
  lemma TakeBytes(n: Node, appended: seq<int>, b: nat, m: nat, e: nat)
    requires NodeOk(n) && Stored(n, appended) && n.start <= b <= b + m <= e <= Limit(n)
    ensures var x := n.first + b - n.start;
            x + m <= |appended| && appended[..x] + n.data[b..b + m] == appended[..x + m]
  {
    var x := n.first + b - n.start;
    SliceSlice(n.data, n.start, Limit(n), b - n.start, b + m - n.start);
    SliceSlice(appended, n.first, n.first + Length(n), b - n.start, b + m - n.start);
  }

  lemma SliceSlice(a: seq<int>, lo: nat, hi: nat, i: nat, j: nat)
    requires lo <= hi <= |a| && i <= j <= hi - lo
    ensures a[lo..hi][i..j] == a[lo + i..lo + j]
  {
    var x, y := a[lo..hi][i..j], a[lo + i..lo + j];
    assert |x| == |y| && forall k :: 0 <= k < |x| ==> x[k] == y[k];
  }

  /** A reader's event changes one iterator. */
  lemma ReaderOwn(s: State, ev: Event)
    requires Inv(s) && Enabled(s, ev) && (ev.Prepare? || ev.Confirm? || ev.Step?)
    ensures var s' := Next(s, ev);
            s' == PutIter(s, ev.i, s'.iters[ev.i]) && ev.i < |s'.iters| && IterOk(s, s'.iters[ev.i])
  {
    var i := ev.i;
    assert IterOk(s, s.iters[i]);
    if ev.Confirm? {
      ConfirmOk(s, i, ev.n);
    } else if ev.Step? {
      if s.iters[i].pc.Leave? {
        LeaveOk(s, s.iters[i]);
      } else {
        LookOk(s, s.iters[i]);
      }
    }
    hide ChainOk, StepIter;
  }

  lemma IterSame(s: State, s': State, it: Iter)
    requires ChainOk(s) && ChainOk(s') && IterOk(s, it)
    requires s'.nodes == s.nodes && s'.tail == s.tail && s'.writer == s.writer && s'.appended == s.appended
    ensures IterOk(s', it)
  {
  }

  lemma ReaderStep(s: State, ev: Event)
    requires Inv(s) && Enabled(s, ev) && !WriterEvent(ev)
    ensures Inv(Next(s, ev))
  {
    var s', i := Next(s, ev), ev.i;
    if !ev.Clone? {
      ReaderOwn(s, ev);
    }
    hide Next, ChainOk, StepIter, IterOk;
    ReaderFrame(s, ev);
    SameChain(s, s');
    forall q | 0 <= q < |s'.iters| ensures IterOk(s', s'.iters[q]) {
      assert q < |s.iters| ==> IterOk(s, s.iters[q]);
      IterSame(s, s', s'.iters[q]);
    }
  }

  lemma ReaderFrame(s: State, ev: Event)
    requires Enabled(s, ev) && !WriterEvent(ev)
    ensures var s' := Next(s, ev);
            && s'.nodes == s.nodes && s'.tail == s.tail && s'.writer == s.writer && s'.appended == s.appended
            && ev.i < |s.iters| <= |s'.iters|
            && forall q :: 0 <= q < |s'.iters| && (ev.Clone? || q != ev.i) ==>
                 s'.iters[q] == (if q < |s.iters| then s.iters[q] else s.iters[ev.i])
  {
    hide StepIter;
  }

  lemma SameChain(s: State, s': State)
    requires ChainOk(s) && s'.nodes == s.nodes && s'.tail == s.tail && s'.writer == s.writer
      && s'.appended == s.appended
    ensures ChainOk(s')
  {
  }
}
