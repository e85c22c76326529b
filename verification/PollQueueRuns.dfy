/** Whole runs of PollQueue (td/utils/queue.h). */
module PollQueueRuns {
  // First in, first out; nodes in use are live; when the reader is stranded; what an undisturbed update returns.

  import opened Modular
  import opened PollQueue

  lemma InvStep(s: State, ev: Event)
    requires Inv(s) && Enabled(s, ev)
    ensures Inv(Next(s, ev))
  {
    hide Next, Enabled, ChainOk, WriterOk, ReaderOk, ParityOk, DataOk, PosOk, LateOk, AwakeOk;
    ChainStep(s, ev);
    WriterStep(s, ev);
    ReaderStep(s, ev);
    DataStep(s, ev);
    PosStep(s, ev);
    if !Next(s, ev).idleFlush {
      FlushKept(s, ev);
      LateStep(s, ev);
    }
    if Spent(s) {
      SpentStays(s, ev);
      EvenIsAwake(Next(s, ev));
    } else {
      AwakeStep(s, ev);
    }
  }

  lemma EvenIsAwake(s: State)
    ensures s.wait % 2 == 0 ==> AwakeOk(s)
  {
  }

  ghost predicate IsRun(block: nat, states: seq<State>, events: seq<Event>) {
    && GoodSize(block) && |states| == |events| + 1 && states[0] == Init(block)
    && forall i :: 0 <= i < |events| ==> Enabled(states[i], events[i]) && states[i + 1] == Next(states[i], events[i])
  }

  lemma {:induction false} RunInvariant(block: nat, states: seq<State>, events: seq<Event>, i: nat)
    requires IsRun(block, states, events) && i < |states|
    ensures Inv(states[i])
  {
    hide Next, Inv;
    if i == 0 {
      InitInv(block);
    } else {
      RunInvariant(block, states, events, i - 1);
      InvStep(states[i - 1], events[i - 1]);
    }
  }

  /** Values come out in the order they went in, with none lost, repeated or invented, across any number of nodes. */
  lemma FirstInFirstOut(block: nat, states: seq<State>, events: seq<Event>, i: nat)
    requires IsRun(block, states, events) && i < |states|
    ensures states[i].read <= states[i].written && !states[i].failed
    ensures i < |events| && events[i].Get? ==>
              |states[i].read| < |states[i].written|
              && states[i + 1].read == states[i].read + [states[i].written[|states[i].read|]]
  {
    hide Next, ChainOk, WriterOk, ReaderOk;
    RunInvariant(block, states, events, i);
    if i < |events| && events[i].Get? {
      GetTakesNext(states[i]);
    }
  }

  lemma GetTakesNext(s: State)
    requires Inv(s) && Enabled(s, Get)
    ensures |s.read| < |s.written| && Next(s, Get).read == s.read + [s.written[|s.read|]]
  {
    ChainIdle(s, Get);
    ChainShape(NextIdle(s, Get));
    DataGet(s);
  }

  /** A node is deleted only when both sides have left it. */
  lemma NodesInUseLive(block: nat, states: seq<State>, events: seq<Event>, i: nat)
    requires IsRun(block, states, events) && i < |states|
    ensures var s := states[i];
            s.head < |s.nodes| && !s.nodes[s.head].deleted && s.tail < |s.nodes| && !s.nodes[s.tail].deleted
  {
    hide Next;
    RunInvariant(block, states, events, i);
  }

  /** The reader's last reader_wait_nonblock has returned 0, and what it has not taken was flushed without a signal. */
  predicate Stranded(s: State) { s.reader.Idle? && s.last == 0 && |s.read| < s.flushed && !s.fd }

  /** Only a spent announcement leaves the reader stranded. */
  lemma StrandedMeansSpent(block: nat, states: seq<State>, events: seq<Event>, i: nat)
    requires IsRun(block, states, events) && i < |states| && Stranded(states[i])
    ensures Spent(states[i])
  {
    hide Next, ChainOk, WriterOk, ReaderOk, DataOk;
    RunInvariant(block, states, events, i);
  }

  /**
    An announcement gets spent exactly when a flush that had nothing unread to publish has signalled and stores the
    present wait state as the one it has signalled for.
  */
  lemma SpentExactly(s: State, ev: Event)
    requires Inv(s) && Enabled(s, ev) && !Spent(s)
    ensures Spent(Next(s, ev)) <==>
      ev.Write? && s.writer.Note? && s.writer.seen == s.wait && s.wait % 2 == 1 && s.writer.pos <= |s.read|
  {
    hide ChainOk, ReaderOk, DataOk, NextUpdate, NextPut;
    if ev.Read? && !Waiting(s, ev) {
      UpdateHistory(s);
    } else if ev.Write? && !Flushing(s.writer) {
      PutHistory(s);
    } else if s.wait % 2 == 1 {
      OddKeepsRead(s, ev);
    }
  }

  /** The reader is never stranded while every flush so far had something to publish. */
  lemma NeverStranded(block: nat, states: seq<State>, events: seq<Event>, i: nat)
    requires IsRun(block, states, events) && i < |states| && !states[i].idleFlush
    ensures !Stranded(states[i])
  {
    hide Next, ChainOk, WriterOk, ReaderOk, DataOk;
    RunInvariant(block, states, events, i);
  }

  /** What one reader_update returns when the writer does not move during it. */
  function Available(s: State): nat
    requires Shape(s)
  {
    var n := s.nodes[s.head];
    if n.w > n.lr then n.w - n.lr
    else if n.closed && 0 <= n.next < |s.nodes| then s.nodes[n.next].w
    else 0
  }

  /** An undisturbed update finds something exactly when something published is unread. */
  lemma AvailableExactly(s: State)
    requires Inv(s)
    ensures Available(s) > 0 <==> |s.read| < Published(s)
  {
    ReadBehind(s);
    TailOk(s);
    assert s.head < s.tail ==> s.nodes[s.head].w == s.nodes[s.head].lw && s.nodes[s.head].closed;
    if s.head < s.tail && s.nodes[s.head].w == s.nodes[s.head].lr {
      assert s.nodes[s.head + 1].first == s.nodes[s.head].first + s.nodes[s.head].lw;
      if s.head + 1 < s.tail {
        FirstMono(s, s.head + 1, s.tail);
      }
    } else if s.head < s.tail {
      FirstMono(s, s.head, s.tail);
    }
  }

  /** The reader alone takes `n` steps. */
  ghost predicate Alone(s: State, n: nat, s': State)
    decreases n
  {
    if n == 0 then s' == s else exists m: State :: Alone(s, n - 1, m) && Enabled(m, Read) && s' == Next(m, Read)
  }

  lemma AloneNext(s: State, n: nat, m: State)
    requires Alone(s, n, m) && Enabled(m, Read)
    ensures Alone(s, n + 1, Next(m, Read))
  {
    hide Next, Enabled;
  }

  lemma StepFirst(s: State, c: Ctx)
    requires Inv(s) && Enabled(s, Read) && s.reader == First(c)
    ensures var n, s' := s.nodes[s.head], Next(s, Read);
            if n.w > n.lr then s' == Updated(s', c, n.w - n.lr) else s' == s.(reader := Closed(c))
  {
    TailOk(s);
    ReaderSizeIs(s.nodes[s.head], s.block);
    assert s.nodes[s.head := s.nodes[s.head]] == s.nodes;
    hide ChainOk, DataOk, ReaderSize, WriterOk;
  }

  lemma StepClosed(s: State, c: Ctx)
    requires Enabled(s, Read) && s.reader == Closed(c)
    ensures Next(s, Read) == if s.nodes[s.head].closed then s.(reader := Second(c)) else Updated(s, c, 0)
    ensures Updated(Updated(s, c, 0), c, 0) == Updated(s, c, 0)
  {
  }

  lemma StepSecond(s: State, c: Ctx)
    requires Enabled(s, Read) && s.reader == Second(c) && NodeOk(s.nodes[s.head], s.block) && GoodSize(s.block)
    requires var n := s.nodes[s.head]; n.w == n.seenW == n.lr
    ensures Next(s, Read) == s.(reader := Move(c))
  {
    ReaderSizeIs(s.nodes[s.head], s.block);
    assert s.nodes[s.head := s.nodes[s.head]] == s.nodes;
    hide ReaderSize;
  }

  function Moved(s: State, c: Ctx): State
    requires s.head < |s.nodes|
  {
    s.(reader := Third(c), head := s.head + 1, nodes := s.nodes[s.head := s.nodes[s.head].(deleted := true)])
  }

  lemma StepMove(s: State, c: Ctx)
    requires Enabled(s, Read) && s.reader == Move(c) && s.nodes[s.head].next == s.head + 1
    ensures Next(s, Read) == Moved(s, c)
  {
  }

  lemma StepThird(s: State, c: Ctx)
    requires Enabled(s, Read) && s.reader == Third(c) && NodeOk(s.nodes[s.head], s.block) && GoodSize(s.block)
    requires s.nodes[s.head].lr == 0
    ensures Next(s, Read) == Updated(Next(s, Read), c, s.nodes[s.head].w)
  {
    ReaderSizeIs(s.nodes[s.head], s.block);
    hide ReaderSize;
  }

  lemma MovedEnabled(s: State, c: Ctx)
    requires Inv(s) && s.nodes[s.head].closed
    ensures Enabled(Moved(s, c), Read) && Moved(s, c).nodes[s.head + 1] == s.nodes[s.head + 1]
  {
    NextNode(s);
    TailOk(s);
  }

  /** An undisturbed reader_update answers with what is available. */
  lemma UpdateAlone(s: State, c: Ctx)
    requires Inv(s) && s.reader == First(c)
    ensures exists n: nat, s': State :: Alone(s, n, s') && s' == Updated(s', c, Available(s))
  {
    var n := s.nodes[s.head];
    FirstLook(s, c);
    hide Alone, ChainOk, DataOk, WriterOk, Updated, Next, ReaderOk;
    if n.w <= n.lr {
      StepClosed(s.(reader := Closed(c)), c);
      AloneNext(s, 1, s.(reader := Closed(c)));
      if n.closed {
        UpdateAcross(s, c);
      }
    }
  }

  /** The first load finds elements, or leaves everything but the reader's place as it was. */
  lemma FirstLook(s: State, c: Ctx)
    requires Inv(s) && s.reader == First(c)
    ensures var n := s.nodes[s.head];
            && Alone(s, 1, Next(s, Read))
            && (n.w > n.lr ==> Next(s, Read) == Updated(Next(s, Read), c, Available(s)))
            && (n.w <= n.lr ==> n.w == n.lr && Next(s, Read) == s.(reader := Closed(c)))
  {
    hide Alone, Next, Updated;
    FirstLookFacts(s, c);
    StartsAlone(s);
    AloneNext(s, 0, s);
    StepFirst(s, c);
  }

  lemma FirstLookFacts(s: State, c: Ctx)
    requires Inv(s) && s.reader == First(c)
    ensures Enabled(s, Read) && s.nodes[s.head].lr <= s.nodes[s.head].w
  {
    hide DataOk, WriterOk, ReaderOk, PosOk, LateOk, AwakeOk, ParityOk;
    TailOk(s);
  }

  lemma StartsAlone(s: State)
    ensures Alone(s, 0, s)
  {
  }

  lemma UpdateAcross(s: State, c: Ctx)
    requires Inv(s) && s.reader == First(c) && s.nodes[s.head].w == s.nodes[s.head].lr && s.nodes[s.head].closed
    requires Alone(s, 2, s.(reader := Second(c)))
    ensures exists n: nat, s': State :: Alone(s, n, s') && s' == Updated(s', c, Available(s))
  {
    NextNode(s);
    MovesOn(s, c);
    hide ChainOk, DataOk, WriterOk, ReaderOk, Inv, Alone, Updated, Next;
    MovedEnabled(s, c);
    StepThird(Moved(s, c), c);
    AloneNext(s, 4, Moved(s, c));
  }

  /** The second look finds nothing, and the reader moves to the next node. */
  lemma MovesOn(s: State, c: Ctx)
    requires Inv(s) && s.reader == First(c) && s.nodes[s.head].w == s.nodes[s.head].lr && s.nodes[s.head].closed
    requires Alone(s, 2, s.(reader := Second(c)))
    ensures Alone(s, 4, Moved(s, c))
  {
    TailOk(s);
    NextNode(s);
    hide ChainOk, DataOk, WriterOk, ReaderOk, PosOk, LateOk, AwakeOk, ParityOk, Inv, Alone, Updated;
    StepSecond(s.(reader := Second(c)), c);
    AloneNext(s, 2, s.(reader := Second(c)));
    AloneNext(s, 3, s.(reader := Move(c)));
    StepMove(s.(reader := Move(c)), c);
  }

  lemma NextNode(s: State)
    requires Inv(s) && s.nodes[s.head].closed
    ensures s.head + 1 < |s.nodes| && s.nodes[s.head].next == s.head + 1 && s.head < s.tail
    ensures NodeOk(s.nodes[s.head + 1], s.block) && s.nodes[s.head + 1].lr == s.nodes[s.head + 1].seenW == 0
    ensures s.nodes[s.head].w == s.nodes[s.head].lr ==> s.nodes[s.head].seenW == s.nodes[s.head].w
  {
  }

  // ---------------------------------------------------------------------------------------
  // A spent announcement strands the reader
  // ---------------------------------------------------------------------------------------

  ghost predicate RunEndsIn(block: nat, states: seq<State>, events: seq<Event>, s: State) {
    IsRun(block, states, events) && states[|events|] == s
  }

  ghost predicate Reachable(block: nat, s: State) {
    exists states: seq<State>, events: seq<Event> :: RunEndsIn(block, states, events, s)
  }

  lemma Extend(block: nat, s: State, ev: Event)
    requires Reachable(block, s) && Enabled(s, ev)
    ensures Reachable(block, Next(s, ev)) && Inv(Next(s, ev))
  {
    hide Next, Enabled, Inv;
    var states: seq<State>, events: seq<Event> :| RunEndsIn(block, states, events, s);
    assert RunEndsIn(block, states + [Next(s, ev)], events + [ev], Next(s, ev));
    RunInvariant(block, states + [Next(s, ev)], events + [ev], |events| + 1);
  }

  /** Everything published has been taken. */
  predicate AllTaken(s: State) { s.tail < |s.nodes| && |s.read| == Published(s) }

  /** What the reader's fruitless update leaves alone. */
  predicate SameShared(s: State, s': State) {
    s'.wait == s.wait && s'.writerWait == s.writerWait && s'.fd == s.fd && s'.writer == s.writer
    && s'.wakePos == s.wakePos && s'.read == s.read && s'.written == s.written
  }

  /** How far the reader is from the end of an update. */
  function Distance(pc: ReaderPc): nat {
    match pc
    case First(_) => 5
    case Closed(_) => 4
    case Second(_) => 3
    case Move(_) => 2
    case Third(_) => 1
    case _ => 0
  }

  predicate InUpdate(pc: ReaderPc) { pc.First? || pc.Closed? || pc.Second? || pc.Move? || pc.Third? }

  predicate Updating(pc: ReaderPc) { InUpdate(pc) && pc.c.Awake? }

  /** With all taken, an update after acquire comes closer to returning nothing. */
  lemma FruitlessStep(s: State)
    requires Inv(s) && Enabled(s, Read) && Updating(s.reader) && AllTaken(s)
    ensures var s' := Next(s, Read);
            && SameShared(s, s') && AllTaken(s')
            && (if s'.reader.Idle? then s'.last == 0
                 else Updating(s'.reader) && Distance(s'.reader) < Distance(s.reader))
  {
    NothingThere(s);
    TailKept(s, Read);
    UpdateHistory(s);
    hide Inv, ChainOk, DataOk, WriterOk, ReaderOk, ParityOk, PosOk, LateOk, AwakeOk, ReaderSize;
  }

  lemma NothingThere(s: State)
    requires Inv(s) && Enabled(s, Read) && InUpdate(s.reader) && AllTaken(s)
    ensures s.reader.First? || s.reader.Second? || s.reader.Third? ==>
      ReaderSize(s.nodes[s.head].(seenW := s.nodes[s.head].w)) == 0
    ensures s.reader.Move? ==> s.nodes[s.head].next == s.head + 1 < |s.nodes|
  {
    TailOk(s);
    ReadBehind(s);
    ReaderSizeIs(s.nodes[s.head], s.block);
    var n := s.nodes[s.head];
    assert |s.read| == n.first + n.lr;
    if s.head < s.tail {
      FirstMono(s, s.head, s.tail);
    }
    hide DataOk, ReaderSize, PosOk, LateOk, AwakeOk, WriterOk;
  }

  /** The rest of the update: the reader goes to sleep again. */
  lemma Fruitless(block: nat, s: State) returns (s': State)
    requires Reachable(block, s) && Inv(s) && Updating(s.reader) && AllTaken(s)
    ensures Reachable(block, s') && Inv(s') && SameShared(s, s') && AllTaken(s') && s'.reader.Idle? && s'.last == 0
    decreases Distance(s.reader)
  {
    UpdateEnabled(s);
    FruitlessStep(s);
    Extend(block, s, Read);
    hide Next, Inv;
    s' := Next(s, Read);
    if !s'.reader.Idle? {
      s' := Fruitless(block, s');
    }
  }

  lemma UpdateEnabled(s: State)
    requires Inv(s) && Updating(s.reader)
    ensures Enabled(s, Read)
  {
    TailOk(s);
    hide DataOk, WriterOk, PosOk, LateOk, AwakeOk;
  }

  /** What a put leaves alone. */
  predicate SameWait(s: State, s': State) {
    s'.wait == s.wait && s'.writerWait == s.writerWait && s'.fd == s.fd && s'.reader == s.reader && s'.last == s.last
    && s'.wakePos == s.wakePos && s'.read == s.read
  }

  function PutDistance(pc: WriterPc): nat {
    match pc
    case PutLoad(_) => 6
    case PutPublish(_) => 5
    case PutLink(_) => 4
    case PutClose(_) => 3
    case PutRenew(_) => 2
    case PutWrite(_) => 1
    case _ => 0
  }

  lemma PutStep(s: State)
    requires Inv(s) && Enabled(s, Write) && PutDistance(s.writer) > 0
    ensures var s' := Next(s, Write);
            && SameWait(s, s') && (PutDistance(s'.writer) > 0 || s'.writer.Resting?)
                 && PutDistance(s'.writer) < PutDistance(s.writer)
            && |s'.written| == |s.written| + (if s'.writer.Resting? then 1 else 0)
  {
    hide ChainOk, DataOk, ReaderOk, LateOk, AwakeOk, WriterSize;
    PutHistory(s);
  }

  /** The put runs to its end. */
  lemma PutEnds(block: nat, s: State) returns (s': State)
    requires Reachable(block, s) && Inv(s) && PutDistance(s.writer) > 0
    ensures Reachable(block, s') && Inv(s') && SameWait(s, s') && s'.writer.Resting? && |s'.written| == |s.written| + 1
    decreases PutDistance(s.writer)
  {
    PutEnabled(s);
    PutStep(s);
    Extend(block, s, Write);
    hide Next, Inv;
    s' := Next(s, Write);
    if !s'.writer.Resting? {
      s' := PutEnds(block, s');
    }
  }

  lemma PutEnabled(s: State)
    requires Inv(s) && PutDistance(s.writer) > 0
    ensures Enabled(s, Write)
  {
    TailOk(s);
    hide DataOk, ReaderOk, PosOk, LateOk, AwakeOk;
  }

  lemma RestingEnabled(s: State, v: int)
    requires Inv(s) && s.writer.Resting?
    ensures Enabled(s, Put(v)) && Enabled(s, Flush)
    ensures SameWait(s, Next(s, Put(v))) && PutDistance(Next(s, Put(v)).writer) > 0
      && Next(s, Put(v)).written == s.written
  {
    TailOk(s);
    hide DataOk, ReaderOk, PosOk, LateOk, AwakeOk;
  }

  /** A flush that meets a spent announcement does not signal. */
  lemma SilentFlush(block: nat, s: State) returns (s': State)
    requires Reachable(block, s) && Inv(s) && Spent(s) && s.writer.Resting?
    ensures Reachable(block, s') && SameWait(s, s') && s'.writer.Resting? && s'.flushed == |s.written|
      && s'.written == s.written
  {
    RestingEnabled(s, 0);
    Extend(block, s, Flush);
    var s1 := Next(s, Flush);
    assert Enabled(s1, Write);
    WrittenIsStored(s1);
    Extend(block, s1, Write);
    var s2 := Next(s1, Write);
    assert Enabled(s2, Write);
    Extend(block, s2, Write);
    hide Inv;
    s' := Next(s2, Write);
  }

  lemma WrittenIsStored(s: State)
    requires Inv(s)
    ensures s.tail < |s.nodes| && |s.written| == s.nodes[s.tail].first + s.nodes[s.tail].lw
  {
  }

  lemma TakenIsWritten(s: State)
    requires Inv(s)
    ensures |s.read| <= |s.written|
  {
  }

  /**
    From every reachable state with a spent announcement in which all is taken and both sides are at rest, the reader
    can be stranded: it waits once more in vain, and the next value is put and flushed without a signal.
  */
  lemma SpentStrands(block: nat, s: State) returns (s': State)
    requires Reachable(block, s) && Inv(s) && Spent(s) && AllTaken(s) && s.reader.Idle? && s.writer.Resting?
    ensures Reachable(block, s') && Stranded(s') && s'.writer.Resting? && |s'.written| == |s.written| + 1
  {
    hide *;
    var s1 := WaitsInVain(block, s);
    s' := PutUnnoticed(block, s1);
    SleepsOn(s1, s');
  }

  /** The reader that sleeps while a value is flushed without a signal is stranded. */
  lemma SleepsOn(s: State, s': State)
    requires s.reader.Idle? && s.last == 0 && !s.fd && SameWait(s, s') && |s.read| < s'.flushed
    ensures Stranded(s')
  {
  }

  lemma SameWaitChain(s: State, m: State, s': State)
    requires SameWait(s, m) && SameWait(m, s')
    ensures SameWait(s, s')
    ensures Spent(s) ==> Spent(s')
  {
  }

  /** With a spent announcement the next value is put and flushed behind the reader's back. */
  lemma PutUnnoticed(block: nat, s: State) returns (s': State)
    requires Reachable(block, s) && Inv(s) && Spent(s) && s.writer.Resting?
    ensures Reachable(block, s') && SameWait(s, s') && s'.writer.Resting? && |s'.written| == |s.written| + 1
    ensures |s.read| < s'.flushed
  {
    hide *;
    TakenIsWritten(s);
    var m := PutDone(block, s);
    SameWaitChain(s, m, m);
    s' := SilentFlush(block, m);
    SameWaitChain(s, m, s');
  }

  lemma PutDone(block: nat, s: State) returns (s': State)
    requires Reachable(block, s) && Inv(s) && s.writer.Resting?
    ensures Reachable(block, s') && Inv(s') && SameWait(s, s') && SameWait(s', s') && s'.writer.Resting?
    ensures |s'.written| == |s.written| + 1
  {
    RestingEnabled(s, 0);
    Extend(block, s, Put(0));
    hide Next, Inv, SameWait, Reachable;
    s' := PutEnds(block, Next(s, Put(0)));
    SameWaitChain(s, Next(s, Put(0)), s');
    SameWaitSelf(s');
  }

  lemma SameWaitSelf(s: State)
    ensures SameWait(s, s)
  {
  }

  lemma WaitsInVain(block: nat, s: State) returns (s': State)
    requires Reachable(block, s) && Inv(s) && Spent(s) && AllTaken(s) && s.reader.Idle? && s.writer.Resting?
    ensures Reachable(block, s') && Inv(s') && Spent(s') && s'.reader.Idle? && s'.last == 0 && !s'.fd
    ensures s'.writer.Resting? && s'.written == s.written && s'.read == s.read
  {
    RestingEnabled(s, 0);
    assert Enabled(s, Call);
    Extend(block, s, Call);
    var s1 := Next(s, Call);
    assert Enabled(s1, Read);
    Extend(block, s1, Read);
    hide Inv;
    s' := Fruitless(block, Next(s1, Read));
  }

  // Such states are reached, whatever the block size

  /** A queue with one node that holds nothing. */
  predicate Bare(s: State) {
    s.block > 0 && s.nodes == [NewNode(s.block, 0)] && s.head == s.tail == 0 && !s.failed
  }

  /** Two steps: an update of an empty queue finds nothing. */
  lemma EmptyUpdate(block: nat, s: State, c: Ctx)
    requires Reachable(block, s) && Bare(s) && s.reader == First(c)
    ensures Reachable(block, Updated(s, c, 0))
  {
    assert s.nodes[0 := s.nodes[0]] == s.nodes;
    Extend(block, s, Read);
    assert Next(s, Read) == s.(reader := Closed(c));
    Extend(block, s.(reader := Closed(c)), Read);
  }

  lemma PollsInVain(block: nat)
    requires GoodSize(block)
    ensures Reachable(block, Init(block).(reader := Raise)) && Bare(Init(block))
  {
    var s := Init(block);
    SizeBounds(block);
    assert RunEndsIn(block, [s], [], s);
    Extend(block, s, Call);
    EmptyUpdate(block, s.(reader := First(Poll(0))), Poll(0));
    EmptyUpdate(block, s.(reader := First(Poll(1))), Poll(1));
    EmptyUpdate(block, s.(reader := First(Poll(2))), Poll(2));
  }

  /** One call of reader_wait_nonblock on an empty queue puts the reader to sleep. */
  lemma FallsAsleep(block: nat)
    requires GoodSize(block)
    ensures Reachable(block, Init(block).(wait := 1, last := 0)) && Bare(Init(block))
  {
    var s := Init(block);
    PollsInVain(block);
    Extend(block, s.(reader := Raise), Read);
    EmptyUpdate(block, s.(wait := 1, reader := First(Announced)), Announced);
    Extend(block, s.(wait := 1, reader := Acquire), Read);
    EmptyUpdate(block, s.(wait := 1, reader := First(Awake)), Awake);
  }

  /** A flush that publishes nothing signals the event fd and spends the reader's announcement. */
  lemma IdleFlush(block: nat)
    requires GoodSize(block)
    ensures Reachable(block, Init(block).(wait := 1, last := 0, writerWait := 1, fd := true, idleFlush := true))
      && Bare(Init(block))
  {
    var s := Init(block).(wait := 1, last := 0);
    FallsAsleep(block);
    assert s.nodes[0 := s.nodes[0]] == s.nodes;
    Extend(block, s, Flush);
    Extend(block, s.(writer := Publish(1)), Write);
    Extend(block, s.(writer := Check(1, 0), idleFlush := true), Write);
    Extend(block, s.(writer := Release(1, 0), idleFlush := true), Write);
    Extend(block, s.(writer := Note(1, 0), idleFlush := true, fd := true), Write);
  }

  /** For every block size, a run with one flush too many strands the reader. */
  lemma IdleFlushStrands(block: nat)
    requires GoodSize(block)
    ensures exists s: State :: Reachable(block, s) && Stranded(s) && s.writer.Resting?
  {
    var s := Init(block).(wait := 1, last := 0, writerWait := 1, fd := true, idleFlush := true);
    IdleFlush(block);
    ReachableInv(block, s);
    var s' := SpentStrands(block, s);
  }

  lemma ReachableInv(block: nat, s: State)
    requires Reachable(block, s)
    ensures Inv(s)
  {
    hide Next, Inv;
    var states: seq<State>, events: seq<Event> :| RunEndsIn(block, states, events, s);
    RunInvariant(block, states, events, |events|);
  }
}
