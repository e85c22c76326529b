/**
  PollQueue over SPSCChainQueue over SPSCBlockQueue (td/utils/queue.h): one writer, one reader, a chain
  of ring buffers, and the wait state that tells the writer when to signal the event fd.

  Each event is one load or store of shared memory with the local work that follows it. The code's
  uint32 indices are the counters of this model modulo 2^32, and every branch looks at them that way.
  `first`, `written`, `read`, `flushed`, `wakePos` and `idleFlush` are history.
*/
module PollQueue {
  import opened Modular

  const WORD: nat := 0x1_0000_0000

  /** A node: the published indices w and r, the writer's copies lw and seenR, the reader's lr and seenW. */
  datatype Node = Node(data: seq<int>, w: nat, r: nat, lw: nat, seenR: nat, lr: nat, seenW: nat,
                       closed: bool, next: int, deleted: bool, first: nat)

  datatype WriterPc =
    | Resting
    | PutLoad(v: int) | PutPublish(v: int) | PutLink(v: int) | PutClose(v: int) | PutRenew(v: int) | PutWrite(v: int)
    | Publish(seen: nat) | Check(seen: nat, pos: nat) | Release(seen: nat, pos: nat) | Note(seen: nat, pos: nat)

  /** Where in reader_wait_nonblock an update happens: polling, after announcing to wait, after acquire. */
  datatype Ctx = Poll(cnt: nat) | Announced | Awake

  datatype ReaderPc =
    | Idle | First(c: Ctx) | Closed(c: Ctx) | Second(c: Ctx) | Move(c: Ctx) | Third(c: Ctx)
    | Raise | Acquire | Lower(res: nat)

  datatype State = State(
    block: nat, nodes: seq<Node>, head: nat, tail: nat,
    wait: nat, writerWait: nat, fd: bool, writer: WriterPc, reader: ReaderPc, last: nat, failed: bool,
    written: seq<int>, read: seq<int>, flushed: nat, wakePos: nat, idleFlush: bool)

  datatype Event = Put(v: int) | Flush | Write | Call | Get | Free | Read

  // Block queue

  function Slot(i: nat, block: nat): (p: nat)
    requires block > 0
    ensures p < block
  {
    (i % WORD) % block
  }

  function ReaderSize(n: Node): (r: nat) { (n.seenW % WORD - n.lr % WORD) % WORD }
  function WriterSize(n: Node, block: nat): (r: nat) { (n.seenR % WORD + block - n.lw % WORD) % WORD }
  predicate WriterEmpty(n: Node, block: nat) { (n.seenR % WORD + block) % WORD == n.lw % WORD }
  predicate ReaderEmpty(n: Node) { n.seenW % WORD == n.lr % WORD }

  function NewNode(block: nat, first: nat): Node {
    Node(seq(block, i => 0), 0, 0, 0, 0, 0, 0, false, -1, false, first)
  }

  function Init(block: nat): State {
    State(block, [NewNode(block, 0)], 0, 0, 0, 0, false, Resting, Idle, 1, false, [], [], 0, 0, false)
  }

  predicate Shape(s: State) {
    s.block > 0 && s.head < |s.nodes| && s.tail < |s.nodes|
      && |s.nodes[s.head].data| == |s.nodes[s.tail].data| == s.block
  }

  predicate Enabled(s: State, ev: Event) {
    && Shape(s) && !s.failed
    && match ev
       case Put(_) => s.writer.Resting?
       case Flush => s.writer.Resting?
       case Write => !s.writer.Resting? && (s.writer.PutClose? ==> 0 <= s.nodes[s.tail].next < |s.nodes|)
       case Call => s.reader.Idle?
       case Get => s.reader.Idle? && !ReaderEmpty(s.nodes[s.head])
       case Free => s.reader.Idle?
       case Read => !s.reader.Idle? && (s.reader.Move? ==> 0 <= s.nodes[s.head].next < |s.nodes|)
  }

  function SetNode(s: State, k: nat, n: Node): State
    requires k < |s.nodes|
  {
    s.(nodes := s.nodes[k := n])
  }

  // Writer

  function NextPut(s: State): State
    requires Enabled(s, Write)
    requires var pc := s.writer;
             pc.PutLoad? || pc.PutPublish? || pc.PutLink? || pc.PutClose? || pc.PutRenew? || pc.PutWrite?
  {
    var n := s.nodes[s.tail];
    match s.writer
    case PutLoad(v) =>
      var n' := n.(seenR := n.r);
      SetNode(s, s.tail, n').(writer := if WriterSize(n', s.block) != 0 then PutWrite(v) else PutPublish(v))
    case PutPublish(v) => SetNode(s, s.tail, n.(w := n.lw)).(writer := PutLink(v))
    case PutLink(v) =>
      s.(nodes := s.nodes[s.tail := n.(next := |s.nodes|)] + [NewNode(s.block, n.first + n.lw)], writer := PutClose(v))
    case PutClose(v) => SetNode(s, s.tail, n.(closed := true)).(tail := n.next, writer := PutRenew(v))
    case PutRenew(v) =>
      var n' := n.(seenR := n.r);
      SetNode(s, s.tail, n').(writer := PutWrite(v), failed := WriterSize(n', s.block) == 0)
    case PutWrite(v) =>
      SetNode(s, s.tail, n.(data := n.data[Slot(n.lw, s.block) := v], lw := n.lw + 1))
        .(writer := Resting, written := s.written + [v])
  }

  function NextFlush(s: State): State
    requires Enabled(s, Write)
    requires var pc := s.writer; pc.Publish? || pc.Check? || pc.Release? || pc.Note?
  {
    var n := s.nodes[s.tail];
    match s.writer
    case Publish(seen) =>
      SetNode(s, s.tail, n.(w := n.lw))
        .(writer := Check(seen, n.first + n.lw), idleFlush := s.idleFlush || n.w == n.lw)
    case Check(seen, pos) =>
      if s.wait % 2 == 1 && s.wait != s.writerWait then s.(writer := Release(seen, pos))
      else s.(writer := Resting, flushed := pos)
    case Release(seen, pos) => s.(fd := true, writer := Note(seen, pos))
    case Note(seen, pos) => s.(writerWait := seen, wakePos := pos, writer := Resting, flushed := pos)
  }

  // Reader

  /** reader_update returned `res`, in context `c`. */
  function Updated(s: State, c: Ctx, res: nat): State {
    match c
    case Poll(cnt) =>
      if res != 0 then s.(reader := Idle, last := res)
      else s.(reader := if cnt + 1 < 3 then First(Poll(cnt + 1)) else Raise)
    case Announced => s.(reader := if res != 0 then Lower(res) else Acquire)
    case Awake => if res != 0 then s.(reader := Lower(res)) else s.(reader := Idle, last := 0)
  }

  function Looked(s: State): State
    requires Shape(s)
  {
    SetNode(s, s.head, s.nodes[s.head].(seenW := s.nodes[s.head].w))
  }

  function NextUpdate(s: State): State
    requires Enabled(s, Read)
    requires var pc := s.reader; pc.First? || pc.Closed? || pc.Second? || pc.Move? || pc.Third?
  {
    var n := s.nodes[s.head];
    var res := ReaderSize(n.(seenW := n.w));
    match s.reader
    case First(c) => if res != 0 then Updated(Looked(s), c, res) else Looked(s).(reader := Closed(c))
    case Closed(c) => if n.closed then s.(reader := Second(c)) else Updated(s, c, 0)
    case Second(c) => if res != 0 then Updated(Looked(s), c, res) else Looked(s).(reader := Move(c))
    case Move(c) => SetNode(s, s.head, n.(deleted := true)).(head := n.next, reader := Third(c))
    case Third(c) => Updated(Looked(s), c, res)
  }

  function NextWait(s: State): State
    requires Enabled(s, Read)
    requires var pc := s.reader; pc.Raise? || pc.Acquire? || pc.Lower?
  {
    match s.reader
    case Raise => s.(wait := s.wait + 1, reader := First(Announced))
    case Acquire => s.(fd := false, reader := First(Awake))
    case Lower(res) => s.(wait := s.wait + 1, reader := Idle, last := res)
  }

  function NextIdle(s: State, ev: Event): State
    requires Enabled(s, ev) && (ev.Call? || ev.Get? || ev.Free?)
  {
    var n := s.nodes[s.head];
    match ev
    case Call => s.(reader := if s.wait % 2 == 0 then First(Poll(0)) else Acquire)
    case Get => SetNode(s, s.head, n.(lr := n.lr + 1)).(read := s.read + [n.data[Slot(n.lr, s.block)]])
    case Free => SetNode(s, s.head, n.(r := n.lr))
  }

  function Next(s: State, ev: Event): State
    requires Enabled(s, ev)
  {
    match ev
    case Put(v) => s.(writer := if WriterEmpty(s.nodes[s.tail], s.block) then PutLoad(v) else PutWrite(v))
    case Flush => s.(writer := Publish(s.wait))
    case Write =>
      if s.writer.Publish? || s.writer.Check? || s.writer.Release? || s.writer.Note? then NextFlush(s) else NextPut(s)
    case Read => if s.reader.Raise? || s.reader.Acquire? || s.reader.Lower? then NextWait(s) else NextUpdate(s)
    case _ => NextIdle(s, ev)
  }

  // ---------------------------------------------------------------------------------------
  // Wrapped indices
  // ---------------------------------------------------------------------------------------

  /** The block sizes the code allows: 2^P for P from 1 to 20. */
  ghost predicate GoodSize(block: nat) { exists p: nat :: 1 <= p <= 20 && block == Pow2(p) }

  lemma Powers()
    ensures Pow2(10) == 1024 && Pow2(20) == 1024 * 1024 && Pow2(32) == WORD
  {
    assert Pow2(5) == 32;
    Pow2Add(5, 5);
    Pow2Add(10, 10);
    Pow2Add(10, 2);
    Pow2Add(20, 12);
  }

  lemma SizeBounds(block: nat)
    requires GoodSize(block)
    ensures 1 <= block <= 1024 * 1024
  {
    var p: nat :| 1 <= p <= 20 && block == Pow2(p);
    Pow2Mono(p, 20);
    Powers();
  }

  /** The ring slot of a wrapped index is the slot of the true one, because 2^P divides 2^32. */
  lemma SlotIs(i: nat, block: nat)
    requires GoodSize(block)
    ensures block > 0 && Slot(i, block) == i % block
  {
    var p: nat :| 1 <= p <= 20 && block == Pow2(p);
    Pow2Add(32 - p, p);
    Powers();
    ModMod(i, WORD, block, Pow2(32 - p));
  }

  predicate NodeOk(n: Node, block: nat) {
    |n.data| == block > 0 && n.seenR <= n.r <= n.lr <= n.seenW <= n.w <= n.lw <= n.seenR + block
  }

  lemma ReaderSizeIs(n: Node, block: nat)
    requires NodeOk(n, block) && GoodSize(block)
    ensures ReaderSize(n) == n.seenW - n.lr && ReaderSize(n.(seenW := n.w)) == n.w - n.lr
    ensures ReaderEmpty(n) <==> n.seenW == n.lr
  {
    SizeBounds(block);
    WrappedDistance(n.seenW, n.lr, WORD);
    WrappedDistance(n.w, n.lr, WORD);
    if ReaderEmpty(n) {
      ModClose(n.lr, n.seenW, WORD);
    }
  }

  lemma WriterSizeIs(n: Node, block: nat)
    requires NodeOk(n, block) && GoodSize(block)
    ensures WriterSize(n, block) == n.seenR + block - n.lw
    ensures WriterSize(n.(seenR := n.r), block) == n.r + block - n.lw
    ensures WriterEmpty(n, block) <==> n.seenR + block == n.lw
  {
    SizeBounds(block);
    WriterDistance(n.seenR, n.lw, block);
    WriterDistance(n.r, n.lw, block);
    WriterEmptyIs(n.seenR, n.lw, block);
  }

  lemma WriterEmptyIs(a: nat, b: nat, block: nat)
    requires b <= a + block < b + WORD
    ensures (a % WORD + block) % WORD == b % WORD <==> a + block == b
  {
    SumMod(a, block);
    hide *;
    if (a + block) % WORD == b % WORD {
      ModClose(b, a + block, WORD);
    }
  }

  lemma SumMod(a: nat, block: nat)
    ensures (a % WORD + block) % WORD == (a + block) % WORD
  {
    var x := a % WORD + block;
    assert a + block == (a / WORD + x / WORD) * WORD + x % WORD;
    ModUnique(a + block, WORD, a / WORD + x / WORD, x % WORD);
  }

  lemma WriterDistance(a: nat, b: nat, block: nat)
    requires b <= a + block < b + WORD
    ensures (a % WORD + block - b % WORD) % WORD == a + block - b
  {
    var d := a / WORD - b / WORD;
    assert a % WORD + block - b % WORD == (0 - d) * WORD + (a + block - b);
    ModUnique(a % WORD + block - b % WORD, WORD, 0 - d, a + block - b);
  }

  // ---------------------------------------------------------------------------------------
  // The invariant
  // ---------------------------------------------------------------------------------------

  ghost predicate ChainOk(s: State) {
    && GoodSize(s.block) && s.head <= s.tail
    && |s.nodes| == s.tail + (if s.writer.PutClose? then 2 else 1)
    && (forall k :: 0 <= k < |s.nodes| ==> NodeOk(s.nodes[k], s.block) && (s.nodes[k].deleted <==> k < s.head))
    && (forall k :: 0 <= k < s.tail ==>
          s.nodes[k].closed && s.nodes[k].next == k + 1 && s.nodes[k].w == s.nodes[k].lw > 0)
    && !s.nodes[s.tail].closed
    && (forall k :: s.head < k < |s.nodes| ==> s.nodes[k].lr == s.nodes[k].seenW == 0)
    && (forall k :: s.tail < k < |s.nodes| ==> s.nodes[k].lw == 0 && !s.nodes[k].closed)
    && s.nodes[0].first == 0
    && (forall k :: 0 < k < |s.nodes| ==> s.nodes[k].first == s.nodes[k - 1].first + s.nodes[k - 1].lw)
  }

  predicate WriterOk(s: State)
    requires s.tail < |s.nodes|
  {
    var n := s.nodes[s.tail];
    match s.writer
    case PutPublish(_) => n.lw > 0
    case PutLink(_) => n.w == n.lw > 0
    case PutClose(_) => n.w == n.lw > 0 && n.next == s.tail + 1
    case PutRenew(_) => n.lw == 0
    case PutWrite(_) => n.lw < n.seenR + s.block
    case Publish(seen) => seen <= s.wait
    case Check(seen, pos) => seen <= s.wait && pos == n.first + n.w
    case Release(seen, pos) => seen <= s.wait && pos == n.first + n.w
    case Note(seen, pos) => seen <= s.wait && pos == n.first + n.w
    case _ => true
  }

  predicate ReaderOk(s: State)
    requires s.head < |s.nodes|
  {
    var n := s.nodes[s.head];
    match s.reader
    case Idle => s.last == 0 ==> n.lr == n.seenW
    case First(c) => c.Poll? || n.lr == n.seenW
    case Closed(_) => n.lr == n.seenW
    case Second(_) => n.lr == n.seenW && n.closed
    case Move(_) => n.lr == n.w && n.closed
    case Third(_) => n.lr == n.seenW == 0
    case Raise => n.lr == n.seenW
    case Acquire => n.lr == n.seenW
    case Lower(res) => res > 0
  }

  /** The reader is inside an update it started before announcing that it waits. */
  predicate Polling(pc: ReaderPc) {
    (pc.First? || pc.Closed? || pc.Second? || pc.Move? || pc.Third?) && pc.c.Poll?
  }

  /** The wait state is odd from the announcement until an update finds data. */
  predicate ParityOk(s: State) {
    s.wait % 2 == 1 <==> !(Polling(s.reader) || s.reader.Raise? || (s.reader.Idle? && s.last != 0))
  }

  /** The values of a node from its reader's position on are the values put there. */
  predicate Stored(s: State, k: nat)
    requires k < |s.nodes| && |s.nodes[k].data| == s.block > 0
  {
    forall i: nat :: s.nodes[k].lr <= i < s.nodes[k].lw ==> StoredAt(s.nodes[k], i, s.block, s.written)
  }

  /** Value number `i` of a node is where the ring puts it. */
  predicate StoredAt(n: Node, i: nat, block: nat, written: seq<int>)
    requires |n.data| == block > 0
  {
    n.first + i < |written| && n.data[i % block] == written[n.first + i]
  }

  predicate DataShape(s: State) {
    s.head < |s.nodes| && s.tail < |s.nodes| && forall k :: 0 <= k < |s.nodes| ==> |s.nodes[k].data| == s.block > 0
  }

  predicate DataOk(s: State)
    requires DataShape(s)
  {
    && |s.written| == s.nodes[s.tail].first + s.nodes[s.tail].lw
    && (forall k :: s.head <= k < |s.nodes| ==> Stored(s, k))
    && |s.read| == s.nodes[s.head].first + s.nodes[s.head].lr <= |s.written|
    && s.read == s.written[..|s.read|]
  }

  /** The number of values whose index the writer has published. */
  function Published(s: State): nat
    requires s.tail < |s.nodes|
  {
    s.nodes[s.tail].first + s.nodes[s.tail].w
  }

  /** How far the flushes got that have passed the point of signalling. */
  function Flushed(s: State): nat { if s.writer.Note? then s.writer.pos else s.flushed }

  predicate PosOk(s: State)
    requires s.tail < |s.nodes|
  {
    s.wakePos <= s.flushed <= Flushed(s) <= Published(s) && s.writerWait <= s.wait
    && (s.writer.Release? || s.writer.Note? ==> s.writerWait < s.wait)
  }

  /**
    The reader's announcement is used up: the writer has signalled for the present wait state when the reader had
    taken all there was, and will not signal for it again.
  */
  predicate Spent(s: State) { s.wait % 2 == 1 && s.writerWait == s.wait && |s.read| >= s.wakePos }

  /** The reader still has to look, and cannot come back empty-handed if there is something. */
  predicate WillLook(s: State) {
    match s.reader
    case First(c) => !c.Poll?
    case Closed(c) => c.Announced? || (c.Awake? && s.head < s.tail)
    case Second(c) => !c.Poll?
    case Move(c) => !c.Poll?
    case Third(c) => !c.Poll?
    case Acquire => true
    case Lower(_) => true
    case _ => false
  }

  predicate LateOk(s: State) {
    && !Spent(s)
    && (s.writer.Check? || s.writer.Release? || s.writer.Note? ==>
          s.wait % 2 == 1 && s.writer.seen == s.wait ==> |s.read| < s.writer.pos)
  }

  predicate AwakeOk(s: State) {
    s.wait % 2 == 1 && |s.read| < Flushed(s) ==> s.fd || WillLook(s)
  }

  ghost predicate Inv(s: State) {
    && !s.failed && ChainOk(s) && WriterOk(s) && ReaderOk(s) && ParityOk(s) && DataShape(s) && DataOk(s) && PosOk(s)
    && (!s.idleFlush ==> LateOk(s)) && (!Spent(s) ==> AwakeOk(s))
  }

  lemma InitInv(block: nat)
    requires GoodSize(block)
    ensures Inv(Init(block))
  {
    SizeBounds(block);
  }

  // Chain

  /** A change inside one node: its links, its place and its length stay. */
  predicate SameLinks(n: Node, n': Node) {
    n'.closed == n.closed && n'.next == n.next && n'.deleted == n.deleted && n'.first == n.first && n'.lw == n.lw
  }

  lemma ChainNode(s: State, s': State, k: nat)
    requires ChainOk(s) && k < |s.nodes| && |s'.nodes| == |s.nodes| && s'.nodes == s.nodes[k := s'.nodes[k]]
    requires s'.block == s.block && s'.head == s.head && s'.tail == s.tail && s'.writer.PutClose? == s.writer.PutClose?
    requires SameLinks(s.nodes[k], s'.nodes[k]) && NodeOk(s'.nodes[k], s.block)
    requires k > s.head ==> s'.nodes[k].lr == s.nodes[k].lr && s'.nodes[k].seenW == s.nodes[k].seenW
    requires k < s.tail ==> s'.nodes[k].w == s.nodes[k].w
    ensures ChainOk(s')
  {
  }

  lemma ChainSame(s: State, s': State)
    requires ChainOk(s) && s'.nodes == s.nodes && s'.block == s.block && s'.head == s.head && s'.tail == s.tail
    requires s'.writer.PutClose? == s.writer.PutClose?
    ensures ChainOk(s')
  {
  }

  lemma ChainWrite(s: State)
    requires ChainOk(s) && Enabled(s, Write) && s.writer.PutWrite? && WriterOk(s)
    ensures ChainOk(NextPut(s))
  {
    var s' := NextPut(s);
    hide GoodSize, Slot, NodeOk;
    assert NodeOk(s'.nodes[s.tail], s.block) by {
      WrittenNode(s);
    }
  }

  lemma WrittenNode(s: State)
    requires ChainOk(s) && Enabled(s, Write) && s.writer.PutWrite? && WriterOk(s)
    ensures NodeOk(NextPut(s).nodes[s.tail], s.block)
  {
    TailOk(s);
    hide ChainOk;
  }

  lemma ChainLink(s: State)
    requires ChainOk(s) && Enabled(s, Write) && s.writer.PutLink?
    ensures ChainOk(NextPut(s))
  {
  }

  lemma ChainClose(s: State)
    requires ChainOk(s) && Enabled(s, Write) && s.writer.PutClose? && WriterOk(s)
    ensures ChainOk(NextPut(s))
  {
    var s' := NextPut(s);
    hide GoodSize, NodeOk;
    assert s'.nodes == s.nodes[s.tail := s.nodes[s.tail].(closed := true)] && s'.tail == s.tail + 1;
    assert NodeOk(s'.nodes[s.tail], s.block);
  }

  lemma ChainMove(s: State)
    requires ChainOk(s) && Enabled(s, Read) && s.reader.Move? && ReaderOk(s)
    ensures ChainOk(NextUpdate(s))
  {
  }

  lemma ChainPut(s: State)
    requires Inv(s) && Enabled(s, Write)
    requires var pc := s.writer;
             pc.PutLoad? || pc.PutPublish? || pc.PutLink? || pc.PutClose? || pc.PutRenew? || pc.PutWrite?
    ensures ChainOk(NextPut(s))
  {
    TailOk(s);
    if s.writer.PutWrite? {
      ChainWrite(s);
    } else if s.writer.PutLink? {
      ChainLink(s);
    } else if s.writer.PutClose? {
      ChainClose(s);
    } else {
      hide ChainOk;
      ChainNode(s, NextPut(s), s.tail);
    }
  }

  lemma TailOk(s: State)
    requires ChainOk(s)
    ensures s.tail < |s.nodes| && NodeOk(s.nodes[s.tail], s.block) && GoodSize(s.block) && !s.nodes[s.tail].closed
    ensures s.head < |s.nodes| && NodeOk(s.nodes[s.head], s.block)
    ensures s.nodes[s.head].closed ==> s.head < s.tail && s.nodes[s.head].next == s.head + 1
  {
  }

  lemma ChainFlush(s: State)
    requires Inv(s) && Enabled(s, Write)
    requires var pc := s.writer; pc.Publish? || pc.Check? || pc.Release? || pc.Note?
    ensures ChainOk(NextFlush(s))
  {
    TailOk(s);
    hide ChainOk;
    if s.writer.Publish? {
      ChainNode(s, NextFlush(s), s.tail);
    } else {
      ChainSame(s, NextFlush(s));
    }
  }

  lemma ChainUpdate(s: State)
    requires Inv(s) && Enabled(s, Read)
    requires var pc := s.reader; pc.First? || pc.Closed? || pc.Second? || pc.Move? || pc.Third?
    ensures ChainOk(NextUpdate(s))
  {
    TailOk(s);
    if s.reader.Move? {
      ChainMove(s);
    } else {
      ChainLook(s);
    }
  }

  /** Only the reader's copy of the writer's index can change. */
  lemma UpdateLooks(s: State)
    requires Enabled(s, Read) && !s.reader.Move?
    requires var pc := s.reader; pc.First? || pc.Closed? || pc.Second? || pc.Third?
    ensures var s' := NextUpdate(s);
            s'.nodes == (if s.reader.Closed? then s.nodes else Looked(s).nodes) && s'.block == s.block
              && s'.head == s.head
            && s'.tail == s.tail && s'.writer == s.writer && s'.failed == s.failed && s'.wait == s.wait
  {
  }

  lemma ChainLook(s: State)
    requires Inv(s) && Enabled(s, Read) && !s.reader.Move?
    requires var pc := s.reader; pc.First? || pc.Closed? || pc.Second? || pc.Third?
    ensures ChainOk(NextUpdate(s))
  {
    TailOk(s);
    UpdateLooks(s);
    hide ChainOk, NextUpdate, DataOk;
    if s.reader.Closed? {
      ChainSame(s, NextUpdate(s));
    } else {
      ChainNode(s, NextUpdate(s), s.head);
    }
  }

  lemma ChainIdle(s: State, ev: Event)
    requires Inv(s) && Enabled(s, ev) && (ev.Call? || ev.Get? || ev.Free?)
    ensures ChainOk(NextIdle(s, ev))
  {
    TailOk(s);
    hide ChainOk;
    ReaderSizeIs(s.nodes[s.head], s.block);
    if ev.Call? {
      ChainSame(s, NextIdle(s, ev));
    } else {
      ChainNode(s, NextIdle(s, ev), s.head);
    }
  }

  predicate Waiting(s: State, ev: Event) {
    ev.Read? && (s.reader.Raise? || s.reader.Acquire? || s.reader.Lower?)
  }

  predicate Flushing(pc: WriterPc) { pc.Publish? || pc.Check? || pc.Release? || pc.Note? }

  lemma ChainStep(s: State, ev: Event)
    requires Inv(s) && Enabled(s, ev)
    ensures ChainOk(Next(s, ev))
  {
    hide ChainOk, WriterOk, ReaderOk, NextPut, NextFlush, NextUpdate, NextIdle, DataOk;
    if ev.Put? || ev.Flush? || Waiting(s, ev) {
      ChainSame(s, Next(s, ev));
    } else if ev.Call? || ev.Get? || ev.Free? {
      ChainIdle(s, ev);
    } else if ev.Read? {
      ChainUpdate(s);
    } else if Flushing(s.writer) {
      ChainFlush(s);
    } else {
      ChainPut(s);
    }
  }

  // Writer

  lemma WriterPut(s: State)
    requires Inv(s) && Enabled(s, Write)
    requires var pc := s.writer;
             pc.PutLoad? || pc.PutPublish? || pc.PutLink? || pc.PutClose? || pc.PutRenew? || pc.PutWrite?
    ensures var s' := NextPut(s); s'.tail < |s'.nodes| && WriterOk(s') && !s'.failed
  {
    TailOk(s);
    WriterSizeIs(s.nodes[s.tail], s.block);
    SizeBounds(s.block);
    if s.writer.PutClose? {
      assert s.nodes[s.tail + 1].lw == 0;
    }
    hide ChainOk;
  }

  lemma WriterStep(s: State, ev: Event)
    requires Inv(s) && Enabled(s, ev)
    ensures var s' := Next(s, ev); s'.tail < |s'.nodes| && WriterOk(s') && !s'.failed
  {
    hide NextPut, ChainOk, ReaderOk, DataOk;
    TailOk(s);
    if ev.Write? && !Flushing(s.writer) {
      WriterPut(s);
    } else if ev.Put? {
      WriterSizeIs(s.nodes[s.tail], s.block);
    } else if ev.Read? {
      hide WriterOk;
      TailKept(s, ev);
      WriterKept(s, Next(s, ev));
    }
  }

  /** The reader's steps leave the writer's side of the last node alone. */
  predicate SameTail(s: State, s': State)
    requires s.tail < |s.nodes|
  {
    && s'.tail == s.tail < |s'.nodes| && s'.writer == s.writer && s'.block == s.block && s.wait <= s'.wait && !s'.failed
    && var n, n' := s.nodes[s.tail], s'.nodes[s.tail];
    n'.w == n.w && n'.lw == n.lw && n'.seenR == n.seenR && n'.first == n.first && n'.next == n.next
  }

  lemma TailKept(s: State, ev: Event)
    requires Inv(s) && Enabled(s, ev) && ev.Read?
    ensures SameTail(s, Next(s, ev))
  {
    hide ChainOk, WriterOk, ReaderOk, DataOk, NextUpdate;
    if !Waiting(s, ev) {
      if s.reader.Move? {
        MoveKeepsTail(s);
      } else {
        UpdateLooks(s);
      }
    }
  }

  lemma MoveKeepsTail(s: State)
    requires Enabled(s, Read) && s.reader.Move?
    ensures SameTail(s, NextUpdate(s))
  {
  }

  lemma WriterKept(s: State, s': State)
    requires s.tail < |s.nodes| && SameTail(s, s') && WriterOk(s)
    ensures WriterOk(s')
  {
  }

  // Reader

  /** The end of an update keeps the reader's side in order. */
  lemma UpdatedOk(s: State, c: Ctx, res: nat)
    requires s.head < |s.nodes| && (s.wait % 2 == 1 <==> !c.Poll?)
    requires res == 0 ==> s.nodes[s.head].lr == s.nodes[s.head].seenW
    ensures var s' := Updated(s, c, res); s'.head < |s'.nodes| && ReaderOk(s') && ParityOk(s')
  {
  }

  lemma ReaderLook(s: State)
    requires Inv(s) && Enabled(s, Read) && (s.reader.First? || s.reader.Second?)
    ensures var s' := NextUpdate(s); s'.head < |s'.nodes| && ReaderOk(s') && ParityOk(s')
  {
    var n, c := s.nodes[s.head], s.reader.c;
    TailOk(s);
    ReaderSizeIs(n, s.block);
    UpdatedOk(Looked(s), c, n.w - n.lr);
    hide ChainOk, DataOk, ReaderSize, WriterOk, Updated;
  }

  lemma ReaderEnds(s: State)
    requires Inv(s) && Enabled(s, Read) && (s.reader.Closed? || s.reader.Third?)
    ensures var s' := NextUpdate(s); s'.head < |s'.nodes| && ReaderOk(s') && ParityOk(s')
  {
    var n, c := s.nodes[s.head], s.reader.c;
    TailOk(s);
    ReaderSizeIs(n, s.block);
    if s.reader.Closed? {
      UpdatedOk(s, c, 0);
    } else {
      UpdatedOk(Looked(s), c, n.w - n.lr);
    }
    hide ChainOk, DataOk, ReaderSize, WriterOk, Updated;
  }

  lemma ReaderMove(s: State)
    requires Inv(s) && Enabled(s, Read) && s.reader.Move?
    ensures var s' := NextUpdate(s); s'.head < |s'.nodes| && ReaderOk(s') && ParityOk(s')
  {
    TailOk(s);
    assert s.nodes[s.head + 1].lr == s.nodes[s.head + 1].seenW == 0;
    hide ChainOk, DataOk;
  }

  /** The writer's steps leave the reader's side of the first node alone. */
  predicate SameHead(s: State, s': State)
    requires s.head < |s.nodes|
  {
    && s'.head == s.head < |s'.nodes| && s'.reader == s.reader && s'.last == s.last && s'.wait == s.wait
    && var n, n' := s.nodes[s.head], s'.nodes[s.head];
    n'.lr == n.lr && n'.seenW == n.seenW && (n.closed ==> n'.closed && n'.w == n.w) && n'.first == n.first
  }

  lemma HeadKept(s: State, ev: Event)
    requires Inv(s) && Enabled(s, ev) && (ev.Put? || ev.Flush? || ev.Write?)
    ensures SameHead(s, Next(s, ev))
  {
    TailOk(s);
    hide ChainOk, DataOk, ReaderOk;
  }

  lemma HeadMeans(s: State, s': State)
    requires s.head < |s.nodes| && SameHead(s, s') && ReaderOk(s) && ParityOk(s)
    ensures ReaderOk(s') && ParityOk(s')
  {
  }

  lemma ReaderWaits(s: State)
    requires Inv(s) && Enabled(s, Read) && Waiting(s, Read)
    ensures var s' := NextWait(s); s'.head < |s'.nodes| && ReaderOk(s') && ParityOk(s')
  {
    hide ChainOk, DataOk, WriterOk;
  }

  lemma ReaderRests(s: State, ev: Event)
    requires Inv(s) && Enabled(s, ev) && (ev.Call? || ev.Get? || ev.Free?)
    ensures var s' := NextIdle(s, ev); s'.head < |s'.nodes| && ReaderOk(s') && ParityOk(s')
  {
    TailOk(s);
    ReaderSizeIs(s.nodes[s.head], s.block);
    hide ChainOk, DataOk, WriterOk, ReaderEmpty, Slot;
  }

  lemma ReaderStep(s: State, ev: Event)
    requires Inv(s) && Enabled(s, ev)
    ensures var s' := Next(s, ev); s'.head < |s'.nodes| && ReaderOk(s') && ParityOk(s')
  {
    hide NextUpdate, NextPut, NextFlush, NextWait, NextIdle, ChainOk, DataOk, ReaderOk, ParityOk;
    if ev.Put? || ev.Flush? || ev.Write? {
      TailOk(s);
      HeadKept(s, ev);
      HeadMeans(s, Next(s, ev));
    } else if ev.Read? && s.reader.Move? {
      ReaderMove(s);
    } else if ev.Read? && (s.reader.First? || s.reader.Second?) {
      ReaderLook(s);
    } else if ev.Read? && !Waiting(s, ev) {
      ReaderEnds(s);
    } else if ev.Read? {
      ReaderWaits(s);
    } else {
      ReaderRests(s, ev);
    }
  }

  // Data

  /** Nothing that says what is stored where has changed. */
  predicate SameData(n: Node, n': Node) {
    n'.data == n.data && n'.lr == n.lr && n'.lw == n.lw && n'.first == n.first
  }

  lemma ChainShape(s: State)
    requires ChainOk(s)
    ensures DataShape(s)
  {
  }

  lemma StoredKept(s: State, s': State, k: nat)
    requires DataShape(s) && DataShape(s') && k < |s.nodes| && k < |s'.nodes| && s'.block == s.block
    requires var n, n' := s.nodes[k], s'.nodes[k];
             n'.data == n.data && n'.lw == n.lw && n.lr <= n'.lr && n'.first == n.first
    requires Stored(s, k) && s.written <= s'.written
    ensures Stored(s', k)
  {
    var n, n' := s.nodes[k], s'.nodes[k];
    forall i: nat | n'.lr <= i < n'.lw ensures StoredAt(n', i, s.block, s'.written) {
      assert StoredAt(n, i, s.block, s.written);
    }
  }

  lemma DataSame(s: State, s': State)
    requires DataShape(s) && DataShape(s') && DataOk(s) && |s'.nodes| == |s.nodes| && s'.block == s.block
    requires s'.head == s.head && s'.tail == s.tail && s'.written == s.written && s'.read == s.read
    requires forall k :: 0 <= k < |s.nodes| ==> SameData(s.nodes[k], s'.nodes[k])
    ensures DataOk(s')
  {
    forall k | s.head <= k < |s.nodes| ensures Stored(s', k) {
      assert Stored(s, k) && SameData(s.nodes[k], s'.nodes[k]);
      StoredKept(s, s', k);
    }
  }

  /** The slot the writer fills holds none of the values that the reader may still take. */
  lemma SlotFree(i: nat, n: Node, block: nat)
    requires NodeOk(n, block) && n.lr <= i < n.lw < n.seenR + block
    ensures i % block != n.lw % block
  {
    if i % block == n.lw % block {
      ModClose(i, n.lw, block);
    }
  }

  lemma DataWrite(s: State)
    requires Inv(s) && Enabled(s, Write) && s.writer.PutWrite? && DataShape(NextPut(s))
    ensures DataOk(NextPut(s))
  {
    var s', t := NextPut(s), s.tail;
    TailOk(s);
    WriteStored(s);
    ChainShape(s);
    hide ChainOk, Slot, StoredAt;
    forall k | s.head <= k < |s.nodes| ensures Stored(s', k) {
      if k != t {
        assert Stored(s, k);
        StoredKept(s, s', k);
      }
    }
  }

  lemma WriteStored(s: State)
    requires Inv(s) && Enabled(s, Write) && s.writer.PutWrite? && DataShape(NextPut(s))
    ensures NextPut(s).tail == s.tail && Stored(NextPut(s), NextPut(s).tail)
  {
    TailOk(s);
    WrittenHere(s);
    assert Stored(s, s.tail);
    hide ChainOk, DataOk, WriterOk, ReaderOk, PosOk, LateOk, AwakeOk, ParityOk, Stored;
    StoredAfter(s.nodes[s.tail], s.block, s.written, s.writer.v);
    ShowStored(s, s.tail);
    ShowStored(NextPut(s), s.tail);
  }

  lemma WrittenHere(s: State)
    requires Inv(s) && Enabled(s, Write) && s.writer.PutWrite?
    ensures var n := s.nodes[s.tail]; n.lw < n.seenR + s.block && |s.written| == n.first + n.lw
  {
    hide ChainOk;
  }

  /** Every value of the node is where the ring puts it. */
  predicate AllStored(n: Node, block: nat, written: seq<int>)
    requires |n.data| == block > 0
  {
    forall i: nat :: n.lr <= i < n.lw ==> StoredAt(n, i, block, written)
  }

  lemma ShowStored(s: State, k: nat)
    requires k < |s.nodes| && |s.nodes[k].data| == s.block > 0
    ensures Stored(s, k) <==> AllStored(s.nodes[k], s.block, s.written)
  {
  }

  lemma StoredAfter(n: Node, block: nat, written: seq<int>, v: int)
    requires NodeOk(n, block) && GoodSize(block) && n.lw < n.seenR + block && |written| == n.first + n.lw
    ensures AllStored(n, block, written) ==>
      AllStored(n.(data := n.data[Slot(n.lw, block) := v], lw := n.lw + 1), block, written + [v])
  {
    SlotIs(n.lw, block);
    hide Slot;
    if AllStored(n, block, written) {
      var n' := n.(data := n.data[Slot(n.lw, block) := v], lw := n.lw + 1);
      forall i: nat | n.lr <= i < n'.lw ensures StoredAt(n', i, block, written + [v]) {
        if i < n.lw {
          assert StoredAt(n, i, block, written);
          SlotFree(i, n, block);
        }
      }
    }
  }

  lemma LastIsEmpty(s: State)
    requires ChainOk(s) && s.writer.PutClose?
    ensures s.tail + 1 < |s.nodes| && s.nodes[s.tail + 1].lw == 0
    ensures s.nodes[s.tail + 1].first == s.nodes[s.tail].first + s.nodes[s.tail].lw
  {
  }

  lemma DataLink(s: State)
    requires Inv(s) && Enabled(s, Write) && (s.writer.PutLink? || s.writer.PutClose?) && DataShape(NextPut(s))
    ensures DataOk(NextPut(s))
  {
    var s' := NextPut(s);
    TailOk(s);
    if s.writer.PutClose? {
      LastIsEmpty(s);
    }
    ChainShape(s);
    hide ChainOk, StoredAt, ReaderOk, WriterOk, PosOk, LateOk, AwakeOk, ParityOk;
    forall k | s.head <= k < |s'.nodes| ensures Stored(s', k) {
      if k < |s.nodes| {
        assert Stored(s, k);
        StoredKept(s, s', k);
      }
    }
  }

  lemma DataMove(s: State)
    requires Inv(s) && Enabled(s, Read) && s.reader.Move? && DataShape(NextUpdate(s))
    ensures DataOk(NextUpdate(s))
  {
    var s' := NextUpdate(s);
    TailOk(s);
    assert s.nodes[s.head + 1].first == s.nodes[s.head].first + s.nodes[s.head].lw;
    forall k | s'.head <= k < |s'.nodes| ensures Stored(s', k) {
      assert Stored(s, k);
    }
  }

  /** A get takes the next value that was put. */
  lemma GetTakes(s: State)
    requires Inv(s) && Enabled(s, Get)
    ensures s.nodes[s.head].lr < s.nodes[s.head].lw
    ensures |s.read| < |s.written| && NextIdle(s, Get).read == s.read + [s.written[|s.read|]]
  {
    var n := s.nodes[s.head];
    TailOk(s);
    ReaderSizeIs(n, s.block);
    SlotIs(n.lr, s.block);
    assert Stored(s, s.head) && n.lr < n.lw;
    assert StoredAt(n, n.lr, s.block, s.written);
    hide ChainOk, WriterOk, PosOk, LateOk, AwakeOk;
  }

  lemma DataGet(s: State)
    requires Inv(s) && Enabled(s, Get) && DataShape(NextIdle(s, Get))
    ensures DataOk(NextIdle(s, Get))
    ensures |s.read| < |s.written| && NextIdle(s, Get).read == s.read + [s.written[|s.read|]]
  {
    var s' := NextIdle(s, Get);
    GetTakes(s);
    ChainShape(s);
    hide ChainOk, Slot, ReaderEmpty, StoredAt;
    forall k | s.head <= k < |s.nodes| ensures Stored(s', k) {
      assert Stored(s, k);
      StoredKept(s, s', k);
    }
  }

  lemma DataRest(s: State, ev: Event)
    requires Inv(s) && Enabled(s, ev) && DataShape(s) && DataShape(Next(s, ev)) && !ev.Get?
    requires ev.Write? ==> !s.writer.PutWrite? && !s.writer.PutLink? && !s.writer.PutClose?
    requires ev.Read? ==> !s.reader.Move?
    ensures DataOk(Next(s, ev))
  {
    hide ChainOk, ReaderOk, WriterOk, DataOk, NextUpdate, NextPut;
    if ev.Read? && !Waiting(s, ev) {
      UpdateLooks(s);
      UpdateHistory(s);
    } else if ev.Write? && !Flushing(s.writer) {
      PutLooks(s);
    }
    DataSame(s, Next(s, ev));
  }

  /** The put's steps that store no value leave all stored values alone. */
  lemma PutLooks(s: State)
    requires Enabled(s, Write) && (s.writer.PutLoad? || s.writer.PutPublish? || s.writer.PutRenew?)
    ensures var s' := NextPut(s);
            && |s'.nodes| == |s.nodes| && s'.block == s.block && s'.head == s.head && s'.tail == s.tail
            && s'.written == s.written && s'.read == s.read
            && forall k :: 0 <= k < |s.nodes| ==> SameData(s.nodes[k], s'.nodes[k])
  {
    hide WriterSize;
  }

  lemma UpdateHistory(s: State)
    requires Enabled(s, Read)
    requires var pc := s.reader; pc.First? || pc.Closed? || pc.Second? || pc.Move? || pc.Third?
    ensures var s' := NextUpdate(s);
            s'.written == s.written && s'.read == s.read && s'.flushed == s.flushed && s'.wakePos == s.wakePos
            && s'.writerWait == s.writerWait && s'.idleFlush == s.idleFlush && s'.fd == s.fd && s'.wait == s.wait
                 && s'.writer == s.writer
  {
  }

  lemma DataStep(s: State, ev: Event)
    requires Inv(s) && Enabled(s, ev) && ChainOk(Next(s, ev))
    ensures DataShape(Next(s, ev)) && DataOk(Next(s, ev))
  {
    ChainShape(s);
    ChainShape(Next(s, ev));
    hide ChainOk, ReaderOk, WriterOk, DataOk, NextUpdate, NextPut, NextIdle, NextFlush;
    if ev.Get? {
      DataGet(s);
    } else if ev.Read? && s.reader.Move? {
      DataMove(s);
    } else if ev.Write? && s.writer.PutWrite? {
      DataWrite(s);
    } else if ev.Write? && (s.writer.PutLink? || s.writer.PutClose?) {
      DataLink(s);
    } else {
      DataRest(s, ev);
    }
  }

  // Waiting and signalling

  lemma {:induction false} FirstMono(s: State, j: nat, k: nat)
    requires ChainOk(s) && j < k < |s.nodes|
    ensures s.nodes[j].first + s.nodes[j].lw <= s.nodes[k].first
    decreases k
  {
    assert s.nodes[k].first == s.nodes[k - 1].first + s.nodes[k - 1].lw;
    if j < k - 1 {
      FirstMono(s, j, k - 1);
    }
  }

  /** The reader never gets ahead of what is published; with one node left, both meet where it is empty. */
  lemma ReadBehind(s: State)
    requires Inv(s)
    ensures |s.read| <= Published(s)
    ensures s.head < s.tail && s.nodes[s.head].lr == 0 ==> s.nodes[s.head].w > 0
    ensures s.head == s.tail ==> |s.read| == s.nodes[s.head].first + s.nodes[s.head].lr
  {
    if s.head < s.tail {
      FirstMono(s, s.head, s.tail);
    }
  }

  /** Nothing is taken while the wait state is odd. */
  lemma OddKeepsRead(s: State, ev: Event)
    requires Inv(s) && Enabled(s, ev) && s.wait % 2 == 1
    ensures Next(s, ev).read == s.read
  {
    hide ChainOk, DataOk, WriterOk, NextUpdate;
    assert s.reader.Idle? ==> ReaderEmpty(s.nodes[s.head]);
    if ev.Read? && !Waiting(s, ev) {
      UpdateHistory(s);
    }
  }

  lemma PosStep(s: State, ev: Event)
    requires Inv(s) && Enabled(s, ev)
    ensures var s' := Next(s, ev); s'.tail < |s'.nodes| && PosOk(s')
  {
    hide ReaderOk, DataOk, NextUpdate, NextPut, NextFlush, ChainOk;
    if ev.Read? {
      TailKept(s, ev);
      if !Waiting(s, ev) {
        UpdateHistory(s);
      }
    } else if ev.Write? {
      if Flushing(s.writer) {
        PosFlush(s);
      } else {
        PosPut(s);
      }
    }
  }

  lemma PosFlush(s: State)
    requires Inv(s) && Enabled(s, Write) && Flushing(s.writer)
    ensures var s' := NextFlush(s); s'.tail < |s'.nodes| && PosOk(s')
  {
    TailOk(s);
    hide ChainOk, ReaderOk, DataOk;
  }

  lemma PosPut(s: State)
    requires Inv(s) && Enabled(s, Write) && !Flushing(s.writer)
    ensures var s' := NextPut(s); s'.tail < |s'.nodes| && PosOk(s')
  {
    if s.writer.PutClose? {
      LastIsEmpty(s);
    }
    TailOk(s);
    PutHistory(s);
    hide ChainOk, ReaderOk, DataOk, LateOk, AwakeOk, ParityOk, WriterSize, Slot;
  }

  lemma LateStep(s: State, ev: Event)
    requires Inv(s) && Enabled(s, ev) && !Next(s, ev).idleFlush
    ensures LateOk(Next(s, ev))
  {
    FlushKept(s, ev);
    ReadBehind(s);
    hide ChainOk, ReaderOk, DataOk, NextUpdate, NextPut;
    if ev.Read? && !Waiting(s, ev) {
      UpdateHistory(s);
    } else if ev.Write? && !Flushing(s.writer) {
      PutHistory(s);
    } else if s.wait % 2 == 1 {
      OddKeepsRead(s, ev);
    }
  }

  lemma PutHistory(s: State)
    requires Enabled(s, Write) && !Flushing(s.writer) && WriterOk(s)
    ensures var s' := NextPut(s);
            s'.read == s.read && s'.flushed == s.flushed && s'.wakePos == s.wakePos && s'.writerWait == s.writerWait
            && s'.idleFlush == s.idleFlush && s'.fd == s.fd && s'.wait == s.wait && s'.reader == s.reader
            && !s'.writer.Check? && !s'.writer.Release? && !s'.writer.Note? && s'.head == s.head && s.tail <= s'.tail
  {
  }

  /** An update in the awake context comes back empty-handed only if there is nothing to find. */
  lemma AwakeUpdate(s: State)
    requires Inv(s) && Enabled(s, Read) && AwakeOk(s) && s.wait % 2 == 1
    requires var pc := s.reader; pc.First? || pc.Closed? || pc.Second? || pc.Move? || pc.Third?
    ensures AwakeOk(NextUpdate(s))
  {
    TailOk(s);
    ReadBehind(s);
    ReaderSizeIs(s.nodes[s.head], s.block);
    UpdateHistory(s);
    hide ChainOk, DataOk, WriterOk, ReaderSize;
  }

  lemma AwakeStep(s: State, ev: Event)
    requires Inv(s) && Enabled(s, ev) && !Spent(s)
    ensures AwakeOk(Next(s, ev))
  {
    hide ChainOk, ReaderOk, DataOk, WriterOk, NextUpdate, NextPut;
    if ev.Read? && !Waiting(s, ev) {
      UpdateHistory(s);
      if s.wait % 2 == 1 {
        AwakeUpdate(s);
      }
    } else if ev.Write? && !Flushing(s.writer) {
      PutHistory(s);
    } else if s.wait % 2 == 1 {
      OddKeepsRead(s, ev);
    }
  }

  /** Once spent, an announcement stays so until the reader withdraws it. */
  lemma SpentStays(s: State, ev: Event)
    requires Inv(s) && Enabled(s, ev) && Spent(s)
    ensures Spent(Next(s, ev)) || Next(s, ev).wait % 2 == 0
  {
    hide ChainOk, ReaderOk, DataOk, NextUpdate, NextPut;
    if ev.Read? && !Waiting(s, ev) {
      UpdateHistory(s);
    } else if ev.Write? && !Flushing(s.writer) {
      PutHistory(s);
    }
  }

  lemma FlushKept(s: State, ev: Event)
    requires Inv(s) && Enabled(s, ev) && !Next(s, ev).idleFlush
    ensures !s.idleFlush
  {
    hide NextPut, NextUpdate, ChainOk, DataOk, ReaderOk;
    if ev.Read? && !Waiting(s, ev) {
      UpdateHistory(s);
    } else if ev.Write? && !Flushing(s.writer) {
      PutHistory(s);
    }
  }
}
