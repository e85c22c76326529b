/** What PollQueue::reader_wait_nonblock returns (td/utils/queue.h). */
module PollQueueAnswers {
  // On every run the answer is the number of gets that are possible; undisturbed, it is what is available.

  import opened PollQueue
  import opened PollQueueRuns

  /** The elements that the reader has seen and not yet taken. */
  function Ready(s: State): int
    requires s.head < |s.nodes|
  {
    s.nodes[s.head].seenW - s.nodes[s.head].lr
  }

  /** The answer that waits for its wait state to be stored. */
  predicate LowerOk(s: State)
    requires s.head < |s.nodes|
  {
    s.reader.Lower? ==> s.reader.res == Ready(s)
  }

  lemma HeadIn(s: State)
    requires Inv(s)
    ensures s.head < |s.nodes|
  {
    TailOk(s);
  }

  predicate Tells(s: State)
    requires s.head < |s.nodes|
  {
    && (s.reader.Lower? ==> s.reader.res == Ready(s))
    && (s.reader.Idle? ==> s.last == Ready(s))
  }

  lemma UpdatedTells(s: State, c: Ctx, res: nat)
    requires s.head < |s.nodes| && res == Ready(s)
    ensures var s' := Updated(s, c, res); s'.head < |s'.nodes| && Tells(s')
  {
  }

  lemma LookTells(s: State)
    requires Inv(s) && Enabled(s, Read) && (s.reader.First? || s.reader.Second? || s.reader.Third?)
    ensures var s' := NextUpdate(s); s'.head < |s'.nodes| && Tells(s')
  {
    var n := s.nodes[s.head];
    TailOk(s);
    ReaderSizeIs(n, s.block);
    UpdatedTells(Looked(s), s.reader.c, n.w - n.lr);
    hide ChainOk, DataOk, ReaderSize, WriterOk, ReaderOk, ParityOk, PosOk, LateOk, AwakeOk, Updated;
  }

  /** An update that ends tells how much is ready. */
  lemma UpdateTells(s: State)
    requires Inv(s) && Enabled(s, Read)
    requires var pc := s.reader; pc.First? || pc.Closed? || pc.Second? || pc.Move? || pc.Third?
    ensures var s' := NextUpdate(s); s'.head < |s'.nodes| && Tells(s')
  {
    if s.reader.Closed? {
      HeadIn(s);
      UpdatedTells(s, s.reader.c, 0);
    } else if s.reader.Move? {
      TailOk(s);
    } else {
      LookTells(s);
    }
    hide ChainOk, DataOk, ReaderSize, WriterOk, ParityOk, PosOk, LateOk, AwakeOk, Updated;
  }

  lemma WaitTells(s: State)
    requires Inv(s) && Enabled(s, Read) && Waiting(s, Read) && LowerOk(s)
    ensures var s' := NextWait(s);
            && s'.head < |s'.nodes| && !s'.reader.Lower?
            && (s'.reader.Idle? ==> s'.last == Ready(s'))
  {
    hide ChainOk, DataOk, WriterOk, ParityOk, PosOk, LateOk, AwakeOk;
  }

  /** Every step keeps a waiting answer right, and a step that ends a call leaves the right answer. */
  lemma AnswerStep(s: State, ev: Event)
    requires Inv(s) && Enabled(s, ev) && LowerOk(s)
    ensures var s' := Next(s, ev);
            && s'.head < |s'.nodes| && LowerOk(s')
            && (!s.reader.Idle? && s'.reader.Idle? ==> s'.last == Ready(s'))
  {
    HeadIn(s);
    hide ChainOk, DataOk, WriterOk, ReaderOk, ParityOk, PosOk, LateOk, AwakeOk, NextUpdate, NextWait, NextPut;
    hide NextFlush;
    if ev.Put? || ev.Flush? || ev.Write? {
      HeadKept(s, ev);
    } else if Waiting(s, ev) {
      WaitTells(s);
    } else if ev.Read? {
      UpdateTells(s);
    }
  }

  lemma {:induction false} RunAnswers(block: nat, states: seq<State>, events: seq<Event>, i: nat)
    requires IsRun(block, states, events) && i < |states|
    ensures Inv(states[i]) && states[i].head < |states[i].nodes| && LowerOk(states[i])
  {
    RunInvariant(block, states, events, i);
    HeadIn(states[i]);
    hide Next, Inv;
    if i > 0 {
      RunAnswers(block, states, events, i - 1);
      AnswerStep(states[i - 1], events[i - 1]);
    }
  }

  /** The reader can take `k` elements, one after the other. */
  predicate CanGet(s: State, k: nat)
    decreases k
  {
    k == 0 || (Enabled(s, Get) && CanGet(Next(s, Get), k - 1))
  }

  lemma GetOne(s: State)
    requires Inv(s) && s.reader.Idle?
    ensures s.head < |s.nodes| && Ready(s) >= 0
    ensures Enabled(s, Get) <==> Ready(s) > 0
    ensures Ready(s) > 0 ==>
              var s' := Next(s, Get); s'.head < |s'.nodes| && s'.reader.Idle? && Ready(s') == Ready(s) - 1
  {
    TailOk(s);
    ReaderSizeIs(s.nodes[s.head], s.block);
    ChainShape(s);
    hide ChainOk, DataOk, WriterOk, ReaderOk, ParityOk, PosOk, LateOk, AwakeOk;
  }

  lemma {:induction false} GetsPossible(s: State, k: nat)
    requires Inv(s) && s.reader.Idle?
    ensures s.head < |s.nodes| && (CanGet(s, k) <==> k <= Ready(s))
    decreases k
  {
    GetOne(s);
    hide Inv, Next, Enabled;
    if k > 0 && Ready(s) > 0 {
      InvStep(s, Get);
      GetsPossible(Next(s, Get), k - 1);
    }
  }

  /**
    On every run, a call of reader_wait_nonblock that ends has returned the number of elements that the reader
    can now take: so many gets succeed and no more.
  */
  lemma AnswerIsReady(block: nat, states: seq<State>, events: seq<Event>, i: nat, k: nat)
    requires IsRun(block, states, events) && i < |events|
    requires !states[i].reader.Idle? && states[i + 1].reader.Idle?
    ensures var s' := states[i + 1];
            && s'.head < |s'.nodes| && s'.last == s'.nodes[s'.head].seenW - s'.nodes[s'.head].lr
            && (CanGet(s', k) <==> k <= s'.last)
  {
    RunAnswers(block, states, events, i);
    RunInvariant(block, states, events, i + 1);
    AnswerStep(states[i], events[i]);
    GetsPossible(states[i + 1], k);
  }

  // ---------------------------------------------------------------------------------------
  // A call that the writer does not disturb
  // ---------------------------------------------------------------------------------------

  lemma {:induction false} AloneJoin(s: State, n: nat, m: State, k: nat, s': State)
    requires Alone(s, n, m) && Alone(m, k, s')
    ensures Alone(s, n + k, s')
    decreases k
  {
    hide Next, Enabled;
    if k > 0 {
      var p: State :| Alone(m, k - 1, p) && Enabled(p, Read) && s' == Next(p, Read);
      AloneJoin(s, n, m, k - 1, p);
      AloneNext(s, n + (k - 1), p);
    }
  }

  /** How far the reader is from the end of a call that finds nothing. */
  function Rank(pc: ReaderPc): nat {
    match pc
    case Raise => 12
    case Acquire => 6
    case Idle => 0
    case Lower(_) => 0
    case _ =>
      Distance(pc) + (match pc.c
                      case Poll(cnt) => 12 + (if cnt < 2 then (2 - cnt) * 5 else 0)
                      case Announced => 6
                      case Awake => 0)
  }

  predicate Nearer(s: State, s': State) {
    && !s'.reader.Lower?
    && if s'.reader.Idle? then s'.last == 0 else Rank(s'.reader) < Rank(s.reader)
  }

  lemma FindsNothing(s: State)
    requires Inv(s) && Enabled(s, Read) && InUpdate(s.reader) && AllTaken(s)
    ensures var s' := Next(s, Read); AllTaken(s') && Nearer(s, s')
  {
    NothingThere(s);
    TakenStays(s);
    hide *;
    UpdateStep(s);
    ComesNearer(s);
  }

  lemma UpdateStep(s: State)
    requires Enabled(s, Read) && InUpdate(s.reader)
    ensures s.reader.First? || s.reader.Closed? || s.reader.Second? || s.reader.Move? || s.reader.Third?
    ensures Next(s, Read) == NextUpdate(s)
  {
    hide NextUpdate;
  }

  lemma ComesNearer(s: State)
    requires Enabled(s, Read)
    requires var pc := s.reader; pc.First? || pc.Closed? || pc.Second? || pc.Move? || pc.Third?
    requires s.reader.First? || s.reader.Second? || s.reader.Third? ==>
      ReaderSize(s.nodes[s.head].(seenW := s.nodes[s.head].w)) == 0
    ensures Nearer(s, NextUpdate(s))
  {
    hide ReaderSize;
  }

  lemma TakenStays(s: State)
    requires Inv(s) && Enabled(s, Read) && InUpdate(s.reader) && AllTaken(s)
    ensures AllTaken(Next(s, Read))
  {
    TailKept(s, Read);
    UpdateHistory(s);
    hide Inv, NextUpdate;
  }

  lemma FindsNothingStep(s: State)
    requires Inv(s) && AllTaken(s) && !s.reader.Idle? && !s.reader.Lower?
    ensures Enabled(s, Read)
    ensures var s' := Next(s, Read); AllTaken(s') && Nearer(s, s')
  {
    TailOk(s);
    if InUpdate(s.reader) {
      FindsNothing(s);
    }
    hide ChainOk, DataOk, WriterOk, ReaderOk, ParityOk, PosOk, LateOk, AwakeOk, NextUpdate, NextPut, NextFlush;
  }

  lemma {:induction false} EndsWithNothing(s: State, n: nat, m: State) returns (k: nat, s': State)
    requires Alone(s, n, m) && Inv(m) && AllTaken(m) && !m.reader.Idle? && !m.reader.Lower?
    ensures Alone(s, k, s') && s'.reader.Idle? && s'.last == 0
    decreases Rank(m.reader)
  {
    hide Inv, Next, Enabled, Alone, AllTaken;
    FindsNothingStep(m);
    InvStep(m, Read);
    AloneNext(s, n, m);
    k, s' := n + 1, Next(m, Read);
    if !s'.reader.Idle? {
      k, s' := EndsWithNothing(s, k, s');
    }
  }

  lemma LowerAlone(s: State, n: nat, m: State) returns (s': State)
    requires Alone(s, n, m) && m.reader.Lower? && Enabled(m, Read)
    ensures Alone(s, n + 1, s') && s'.reader.Idle? && s'.last == m.reader.res
  {
    AloneNext(s, n, m);
    s' := Next(m, Read);
  }

  lemma LowerEnabled(s: State)
    requires Shape(s) && !s.failed && s.reader.Lower?
    ensures Enabled(s, Read)
  {
  }

  lemma {:induction false} AloneInv(s: State, n: nat, s': State)
    requires Alone(s, n, s') && Inv(s)
    ensures Inv(s')
    decreases n
  {
    hide Inv, Next, Enabled;
    if n > 0 {
      var m: State :| Alone(s, n - 1, m) && Enabled(m, Read) && s' == Next(m, Read);
      AloneInv(s, n - 1, m);
      InvStep(m, Read);
    }
  }

  lemma InvShape(s: State)
    requires Inv(s)
    ensures Shape(s) && !s.failed
  {
    TailOk(s);
  }

  /** An update that finds something answers with it, at once or after one more store. */
  lemma UpdatedEnds(s: State, c: Ctx, res: nat)
    requires s == Updated(s, c, res) && res > 0
    ensures s.reader == Lower(res) || (s.reader.Idle? && s.last == res)
  {
  }

  /** An update that finds something ends the call with it. */
  lemma EndsWith(s: State, n: nat, m: State, c: Ctx) returns (k: nat, s': State)
    requires Alone(s, n, m) && Inv(m) && m.reader == First(c) && Available(m) > 0
    ensures Alone(s, k, s') && s'.reader.Idle? && s'.last == Available(m)
  {
    hide *;
    InvShape(m);
    UpdateAlone(m, c);
    var d: nat, u: State :| Alone(m, d, u) && u == Updated(u, c, Available(m));
    AloneJoin(s, n, m, d, u);
    AloneInv(m, d, u);
    InvShape(u);
    UpdatedEnds(u, c, Available(m));
    k, s' := n + d, u;
    if u.reader.Lower? {
      LowerEnabled(u);
      s' := LowerAlone(s, n + d, u);
      k := n + d + 1;
    }
  }

  lemma CallStarts(s: State)
    requires Inv(s) && Enabled(s, Call)
    ensures var s1 := Next(s, Call);
            && Inv(s1) && Available(s1) == Available(s) && Published(s1) == Published(s) && s1.read == s.read
            && (s1.reader == First(Poll(0)) || s1.reader.Acquire?)
            && s1.tail < |s1.nodes|
  {
    InvStep(s, Call);
    hide ChainOk, DataOk, WriterOk, ReaderOk, ParityOk, PosOk, LateOk, AwakeOk;
  }

  lemma AcquireStep(s: State)
    requires Inv(s) && s.reader.Acquire?
    ensures Enabled(s, Read)
    ensures var s1 := Next(s, Read); Inv(s1) && s1.reader == First(Awake) && Available(s1) == Available(s)
  {
    InvShape(s);
    InvStep(s, Read);
    hide ChainOk, DataOk, WriterOk, ReaderOk, ParityOk, PosOk, LateOk, AwakeOk;
  }

  /**
    An undisturbed call of reader_wait_nonblock returns the number of elements available: what is published
    in the reader's node, or if that is closed and read, in the next one.
  */
  lemma CallAlone(s: State) returns (k: nat, s': State)
    requires Inv(s) && Enabled(s, Call)
    ensures Alone(Next(s, Call), k, s') && s'.reader.Idle? && s'.last == Available(s)
  {
    CallStarts(s);
    AvailableExactly(s);
    var s1 := Next(s, Call);
    hide Inv, Next, Enabled, Alone;
    StartsAlone(s1);
    if Available(s) == 0 {
      ReadBehindOnly(s1);
      k, s' := EndsWithNothing(s1, 0, s1);
    } else if s1.reader.Acquire? {
      AcquireStep(s1);
      AloneNext(s1, 0, s1);
      k, s' := EndsWith(s1, 1, Next(s1, Read), Awake);
    } else {
      k, s' := EndsWith(s1, 0, s1, Poll(0));
    }
  }

  lemma ReadBehindOnly(s: State)
    requires Inv(s)
    ensures |s.read| <= Published(s)
  {
    ReadBehind(s);
  }

  // ---------------------------------------------------------------------------------------
  // Writer calls that the reader does not disturb
  // ---------------------------------------------------------------------------------------

  /** Up to n steps of the writer, until its call ends. */
  function Writes(s: State, n: nat): State
    decreases n
  {
    if n == 0 || !Enabled(s, Write) then s else Writes(Next(s, Write), n - 1)
  }

  lemma WriteOne(s: State, n: nat)
    requires n > 0 && Enabled(s, Write)
    ensures Writes(s, n) == Writes(Next(s, Write), n - 1)
  {
  }

  lemma RestingWrites(s: State, n: nat)
    requires s.writer.Resting?
    ensures Writes(s, n) == s
  {
  }

  /** The last node cannot take a value: the reader has given back no slot of it. */
  predicate Full(s: State)
    requires s.tail < |s.nodes|
  {
    s.nodes[s.tail].lw == s.nodes[s.tail].r + s.block
  }

  /** What a step of a put does to the chain, and to the room in the last node. */
  lemma PutGoes(s: State)
    requires Inv(s) && PutDistance(s.writer) > 0
    ensures Enabled(s, Write)
    ensures var s' := Next(s, Write);
            && (PutDistance(s'.writer) > 0 || s'.writer.Resting?) && PutDistance(s'.writer) < PutDistance(s.writer)
            && |s'.nodes| == |s.nodes| + (if s.writer.PutLink? then 1 else 0)
            && (if s.writer.PutLoad? then (s'.writer.PutPublish? <==> Full(s)) && (s'.writer.PutWrite? <==> !Full(s))
                else if s.writer.PutPublish? then s'.writer.PutLink?
                else s'.writer.PutLink? ==> false)
            && (s.writer.PutWrite? ==> s'.written == s.written + [s.writer.v])
            && (!s.writer.PutWrite? ==> s'.written == s.written && s'.writer.v == s.writer.v)
  {
    TailOk(s);
    PutEnabled(s);
    PutStep(s);
    WriterSizeIs(s.nodes[s.tail], s.block);
    hide ChainOk, DataOk, ReaderOk, LateOk, AwakeOk, PosOk, ParityOk, WriterSize, Slot;
  }

  /** Whether the rest of a put makes a new node. */
  predicate Grows(s: State)
    requires s.tail < |s.nodes|
  {
    if s.writer.PutLoad? then Full(s) else s.writer.PutPublish? || s.writer.PutLink?
  }

  lemma {:induction false} PutRuns(s: State, v: int, k: nat)
    requires Inv(s) && PutDistance(s.writer) > 0 && s.writer.v == v && k >= PutDistance(s.writer)
    ensures s.tail < |s.nodes|
    ensures var s' := Writes(s, k);
            && Inv(s') && s'.writer.Resting? && s'.written == s.written + [v]
            && |s'.nodes| == |s.nodes| + (if Grows(s) then 1 else 0)
    decreases k
  {
    InvShape(s);
    PutGoes(s);
    InvStep(s, Write);
    hide Enabled, Full, Inv, Next, Writes;
    WriteOne(s, k);
    var s' := Next(s, Write);
    InvShape(s');
    if s'.writer.Resting? {
      RestingWrites(s', k - 1);
    } else {
      PutRuns(s', v, k - 1);
    }
  }

  lemma PutStarts(s: State, v: int)
    requires Inv(s) && Enabled(s, Put(v))
    ensures s.tail < |s.nodes|
    ensures var s1 := Next(s, Put(v));
            && s1.nodes == s.nodes && s1.written == s.written && s1.tail == s.tail && s1.block == s.block
            && (s1.writer == PutLoad(v) || (s1.writer == PutWrite(v) && !Full(s)))
  {
    TailOk(s);
    WriterSizeIs(s.nodes[s.tail], s.block);
    hide ChainOk, DataOk, ReaderOk, LateOk, AwakeOk, PosOk, ParityOk, WriterEmpty;
  }

  /** An undisturbed put stores its value, in a new node exactly if the reader has given back no slot of the last. */
  lemma PutAlone(s: State, v: int, k: nat)
    requires Inv(s) && Enabled(s, Put(v)) && k >= 6
    ensures s.tail < |s.nodes|
    ensures var s' := Writes(Next(s, Put(v)), k);
            && s'.writer.Resting? && s'.written == s.written + [v]
            && |s'.nodes| == |s.nodes| + (if s.nodes[s.tail].lw == s.nodes[s.tail].r + s.block then 1 else 0)
  {
    PutStarts(s, v);
    InvStep(s, Put(v));
    hide Inv, Next, Enabled;
    PutRuns(Next(s, Put(v)), v, k);
  }

  /** reader_flush gives back every slot that has been read. */
  lemma FreeAnswers(s: State)
    requires Inv(s) && Enabled(s, Free)
    ensures var s' := Next(s, Free);
            && Inv(s') && s'.read == s.read && s'.head == s.head < |s'.nodes| == |s.nodes|
            && (s'.head == s'.tail ==> |s'.written| - |s'.read| == s'.nodes[s'.tail].lw - s'.nodes[s'.tail].r)
  {
    InvStep(s, Free);
    WrittenIsStored(Next(s, Free));
    ReadBehind(Next(s, Free));
    hide ChainOk, DataOk, ReaderOk, LateOk, AwakeOk, PosOk, ParityOk, WriterOk;
  }

  /** With one node and its slots given back, a put makes a new node exactly if the ring is full of unread values. */
  lemma PutAfterFree(s: State, v: int, k: nat)
    requires Inv(s) && Enabled(s, Free) && Enabled(Next(s, Free), Put(v)) && s.head == s.tail && k >= 6
    ensures var s1 := Next(s, Free);
            |Writes(Next(s1, Put(v)), k).nodes| == |s1.nodes| + (if |s.written| - |s.read| == s.block then 1 else 0)
  {
    FreeAnswers(s);
    FreeKeeps(s);
    hide Inv, Next, Enabled;
    PutAlone(Next(s, Free), v, k);
  }

  lemma FreeKeeps(s: State)
    requires Enabled(s, Free)
    ensures var s' := Next(s, Free);
            && s'.written == s.written && s'.read == s.read
            && s'.head == s.head && s'.tail == s.tail && s'.block == s.block
  {
  }

  /** The state in which a flush has published everything. */
  function PublishedAll(s: State): State
    requires s.tail < |s.nodes|
  {
    var n := s.nodes[s.tail];
    SetNode(s, s.tail, n.(w := n.lw))
      .(writer := Check(s.wait, n.first + n.lw), idleFlush := s.idleFlush || n.w == n.lw)
  }

  lemma FlushStores(s: State, k: nat)
    requires Enabled(s, Flush) && k > 0
    ensures Writes(Next(s, Flush), k) == Writes(PublishedAll(s), k - 1)
  {
    WriteOne(Next(s, Flush), k);
  }

  lemma FlushSleeps(s: State, k: nat)
    requires Shape(s) && !s.failed && s.writer.Check? && k > 0
    requires s.wait % 2 == 0 || s.wait == s.writerWait
    ensures Writes(s, k) == s.(writer := Resting, flushed := s.writer.pos)
  {
    WriteOne(s, k);
    RestingWrites(Next(s, Write), k - 1);
  }

  lemma FlushSignals(s: State, k: nat)
    requires Shape(s) && !s.failed && s.writer.Check? && k >= 3
    requires s.wait % 2 == 1 && s.wait != s.writerWait
    ensures Writes(s, k) ==
            s.(writer := Resting, flushed := s.writer.pos, wakePos := s.writer.pos, fd := true,
               writerWait := s.writer.seen)
  {
    var s1 := s.(writer := Release(s.writer.seen, s.writer.pos));
    WriteOne(s, k);
    WriteOne(s1, k - 1);
    var s2 := s1.(fd := true, writer := Note(s.writer.seen, s.writer.pos));
    WriteOne(s2, k - 2);
    RestingWrites(Next(s2, Write), k - 3);
  }

  /** writer_flush, from its start to its end, when the reader does not move. */
  lemma FlushAlone(s: State, k: nat)
    requires Inv(s) && Enabled(s, Flush) && k >= 4
    ensures var s', signals := Writes(Next(s, Flush), k), s.wait % 2 == 1 && s.wait != s.writerWait;
            && s'.writer.Resting? && s'.flushed == |s.written| && s'.tail < |s'.nodes| && Published(s') == |s.written|
            && s'.fd == (s.fd || signals) && s'.writerWait == (if signals then s.wait else s.writerWait)
  {
    WrittenIsStored(s);
    InvShape(s);
    FlushStores(s, k);
    hide Inv, Writes, Next, Enabled;
    if s.wait % 2 == 1 && s.wait != s.writerWait {
      FlushSignals(PublishedAll(s), k - 1);
    } else {
      FlushSleeps(PublishedAll(s), k - 1);
    }
  }
}
