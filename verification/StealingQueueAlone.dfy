/**
  What local_push, local_pop and steal do (td/utils/StealingQueue.h): on the live elements of the rings when
  nobody disturbs the call, and when a disturbed call may come back with nothing.
*/
module StealingQueueAlone {
  import opened StealingQueue
  import opened StealingQueueRuns

  /** The elements at `n` positions from `from` on. */
  function Span(buf: seq<int>, from: int, n: nat, size: nat): (r: seq<int>)
    requires |buf| == size > 0
    ensures |r| == n
  {
    seq(n, i => buf[Slot(from + i, size)])
  }

  /** The live elements of a ring, oldest first. */
  function Live(w: Worker, size: nat): seq<int>
    requires |w.buf| == size > 0
  {
    if w.tail < w.head then [] else Span(w.buf, w.head, w.tail - w.head, size)
  }

  lemma LiveOk(s: State, t: nat)
    requires Inv(s) && t < |s.ws|
    ensures |s.ws[t].buf| == s.size > 0 && |Live(s.ws[t], s.size)| == s.ws[t].tail - s.ws[t].head <= s.size
  {
    assert WorkerOk(s, s.ws[t]);
  }

  /** Up to n steps of one worker, until its call ends. */
  function Steps(s: State, t: nat, n: nat): State
    decreases n
  {
    if n == 0 || !Enabled(s, Step(t)) then s else Steps(Next(s, Step(t)), t, n - 1)
  }

  lemma OneStep(s: State, t: nat, n: nat)
    requires n > 0 && Enabled(s, Step(t))
    ensures Steps(s, t, n) == Steps(Next(s, Step(t)), t, n - 1)
  {
  }

  lemma IdleStays(s: State, t: nat, n: nat)
    requires t < |s.ws| && s.ws[t].pc.Idle?
    ensures Steps(s, t, n) == s
  {
  }

  // ---------------------------------------------------------------------------------------
  // local_pop
  // ---------------------------------------------------------------------------------------

  lemma PopHeads(s: State, t: nat)
    requires Shape(s) && t < |s.ws| && s.ws[t].pc.PopHead?
    ensures var w := s.ws[t];
            Enabled(s, Step(t)) &&
            Next(s, Step(t)) == Put(s, t, w.(pc := if w.head == w.tail then Idle else PopRead(w.head)))
  {
  }

  lemma PopReads(s: State, t: nat, h: int)
    requires Shape(s) && t < |s.ws| && s.ws[t].pc == PopRead(h)
    ensures var w := s.ws[t];
            Enabled(s, Step(t)) && Next(s, Step(t)) == Put(s, t, w.(pc := PopCas(h, w.buf[Slot(h, s.size)])))
  {
  }

  lemma PopSwaps(s: State, t: nat, h: int, x: int)
    requires Shape(s) && t < |s.ws| && s.ws[t].pc == PopCas(h, x)
    ensures var w := s.ws[t];
            Enabled(s, Step(t)) &&
            Next(s, Step(t)) ==
            if w.head == h then Put(s, t, w.(head := h + 1, pc := Idle)).(taken := s.taken + multiset{x})
            else Put(s, t, w.(pc := Idle))
  {
  }

  lemma PopStarts(s: State, t: nat)
    requires Enabled(s, Pop(t))
    ensures Shape(s) && s.ws[t].pc.Idle? && Next(s, Pop(t)) == Put(s, t, s.ws[t].(pc := PopHead))
  {
  }

  lemma PopTakes(s: State, t: nat, k: nat)
    requires Enabled(s, Pop(t)) && k >= 3
    ensures var s', w := Steps(Next(s, Pop(t)), t, k), s.ws[t];
            s' == if w.head == w.tail then s else
                  s.(ws := s.ws[t := w.(head := w.head + 1)], taken := s.taken + multiset{w.buf[Slot(w.head, s.size)]})
  {
    PopStarts(s, t);
    hide Next, Enabled, Steps, StepPop, StepPush, StepSteal, Slot;
    var w, s1 := s.ws[t], Next(s, Pop(t));
    PopHeads(s1, t);
    OneStep(s1, t, k);
    var s2 := Next(s1, Step(t));
    if w.head == w.tail {
      IdleStays(s2, t, k - 1);
      assert s2.ws == s.ws;
    } else {
      PopReads(s2, t, w.head);
      OneStep(s2, t, k - 1);
      var s3 := Next(s2, Step(t));
      PopSwaps(s3, t, w.head, w.buf[Slot(w.head, s.size)]);
      OneStep(s3, t, k - 2);
      IdleStays(Next(s3, Step(t)), t, k - 3);
      assert Next(s3, Step(t)).ws == s.ws[t := w.(head := w.head + 1)];
    }
  }

  lemma OldestGone(w: Worker, size: nat)
    requires |w.buf| == size > 0 && w.head < w.tail
    ensures Live(w, size)[0] == w.buf[Slot(w.head, size)] && Live(w.(head := w.head + 1), size) == Live(w, size)[1..]
  {
  }

  /** An undisturbed local_pop takes the oldest element; it comes back empty exactly if there is none. */
  lemma PopAlone(s: State, t: nat, k: nat)
    requires Inv(s) && Enabled(s, Pop(t)) && k >= 3
    ensures |s.ws[t].buf| == s.size > 0
    ensures var s', w, xs := Steps(Next(s, Pop(t)), t, k), s.ws[t], Live(s.ws[t], s.size);
            && (xs == [] ==> s' == s)
            && (xs != [] ==>
                  && s' == s.(ws := s.ws[t := w.(head := w.head + 1)], taken := s.taken + multiset{xs[0]})
                  && Live(s'.ws[t], s.size) == xs[1..])
  {
    LiveOk(s, t);
    PopTakes(s, t, k);
    hide *;
    if s.ws[t].head < s.ws[t].tail {
      OldestGone(s.ws[t], s.size);
    }
  }

  // ---------------------------------------------------------------------------------------
  // local_push
  // ---------------------------------------------------------------------------------------

  lemma PushHeads(s: State, t: nat, v: int)
    requires Shape(s) && t < |s.ws| && s.ws[t].pc == PushHead(v)
    ensures var w := s.ws[t];
            Enabled(s, Step(t)) && Next(s, Step(t)) ==
            Put(s, t, w.(pc := if w.tail - w.head < s.size then PushStore(v, w.head) else PushCas(v, w.head)))
    ensures Shape(Next(s, Step(t)))
  {
  }

  lemma PushStores(s: State, t: nat, v: int, h: int)
    requires Shape(s) && t < |s.ws| && s.ws[t].pc == PushStore(v, h)
    ensures var w := s.ws[t];
            Enabled(s, Step(t)) && Next(s, Step(t)) ==
            Put(s, t, w.(buf := w.buf[Slot(w.tail, s.size) := v], pc := PushTail(v)))
  {
  }

  lemma PushTails(s: State, t: nat, v: int)
    requires Shape(s) && t < |s.ws| && s.ws[t].pc == PushTail(v)
    ensures var w := s.ws[t];
            Enabled(s, Step(t)) && Next(s, Step(t)) == Put(s, t, w.(tail := w.tail + 1, pc := Idle))
  {
  }

  lemma PushSwaps(s: State, t: nat, v: int)
    requires Shape(s) && t < |s.ws| && s.ws[t].pc == PushCas(v, s.ws[t].head)
    ensures var w := s.ws[t];
            Enabled(s, Step(t)) && Next(s, Step(t)) ==
            Put(s, t, w.(head := w.head + Batch(s.size), pc := PushDrain(v, w.head, 0)))
  {
  }

  lemma PushDrains(s: State, t: nat, v: int, h: int, k: int)
    requires Shape(s) && t < |s.ws| && s.ws[t].pc == PushDrain(v, h, k)
    ensures var w := s.ws[t];
            Enabled(s, Step(t)) && Next(s, Step(t)) ==
            if k < Batch(s.size) then
              Put(s, t, w.(pc := PushDrain(v, h, k + 1)))
                .(overflowed := s.overflowed + multiset{w.buf[Slot(h + k, s.size)]})
            else Put(s, t, w.(pc := Idle)).(overflowed := s.overflowed + multiset{v})
  {
  }

  lemma PushStarts(s: State, t: nat, v: int)
    requires Enabled(s, Push(t, v))
    ensures Shape(s) && t < |s.ws| && s.ws[t].pc.Idle?
    ensures Next(s, Push(t, v)) == Put(s, t, s.ws[t].(pc := PushHead(v))).(pushed := s.pushed + multiset{v})
    ensures Shape(Next(s, Push(t, v)))
  {
  }

  lemma SpanFirst(buf: seq<int>, from: int, n: nat, size: nat)
    requires |buf| == size > 0 && n > 0
    ensures Span(buf, from, n, size) == [buf[Slot(from, size)]] + Span(buf, from + 1, n - 1, size)
  {
  }

  /** The drain hands over the elements one by one, then the value being pushed. */
  lemma {:induction false} DrainAlone(s: State, t: nat, v: int, h: int, j: nat, k: nat)
    requires Shape(s) && t < |s.ws| && s.ws[t].pc == PushDrain(v, h, j) && j <= Batch(s.size) && k > Batch(s.size) - j
    ensures Steps(s, t, k) ==
            s.(ws := s.ws[t := s.ws[t].(pc := Idle)],
               overflowed := s.overflowed + multiset(Span(s.ws[t].buf, h + j, Batch(s.size) - j, s.size)) + multiset{v})
    decreases Batch(s.size) - j
  {
    hide Next, Enabled, Steps, StepPop, StepPush, StepSteal, Slot;
    PushDrains(s, t, v, h, j);
    OneStep(s, t, k);
    var s1 := Next(s, Step(t));
    if j < Batch(s.size) {
      DrainAlone(s1, t, v, h, j + 1, k - 1);
      SpanFirst(s.ws[t].buf, h + j, Batch(s.size) - j, s.size);
      assert s1.ws[t := s1.ws[t].(pc := Idle)] == s.ws[t := s.ws[t].(pc := Idle)];
      DrainSum(s, t, v, h, j);
    } else {
      IdleStays(s1, t, k - 1);
    }
  }

  lemma DrainSum(s: State, t: nat, v: int, h: int, j: nat)
    requires Shape(s) && t < |s.ws| && j < Batch(s.size)
    ensures var w, n := s.ws[t], Batch(s.size) - j;
            s.overflowed + multiset{w.buf[Slot(h + j, s.size)]} + multiset(Span(w.buf, h + (j + 1), n - 1, s.size))
            == s.overflowed + multiset(Span(w.buf, h + j, n, s.size))
  {
    SpanFirst(s.ws[t].buf, h + j, Batch(s.size) - j, s.size);
    assert h + j + 1 == h + (j + 1);
  }

  /** Room for one more: the value goes behind the tail. */
  lemma PushFits(s: State, t: nat, v: int, k: nat)
    requires Enabled(s, Push(t, v)) && s.ws[t].tail - s.ws[t].head < s.size && k >= 3
    ensures var w := s.ws[t];
            Steps(Next(s, Push(t, v)), t, k) ==
            s.(ws := s.ws[t := w.(buf := w.buf[Slot(w.tail, s.size) := v], tail := w.tail + 1)],
               pushed := s.pushed + multiset{v})
  {
    PushStarts(s, t, v);
    hide Next, Enabled, Steps, StepPop, StepPush, StepSteal, Slot;
    var w, s1 := s.ws[t], Next(s, Push(t, v));
    PushHeads(s1, t, v);
    OneStep(s1, t, k);
    var s2 := Next(s1, Step(t));
    PushStores(s2, t, v, w.head);
    OneStep(s2, t, k - 1);
    var s3 := Next(s2, Step(t));
    PushTails(s3, t, v);
    OneStep(s3, t, k - 2);
    IdleStays(Next(s3, Step(t)), t, k - 3);
    assert Next(s3, Step(t)).ws == s.ws[t := w.(buf := w.buf[Slot(w.tail, s.size) := v], tail := w.tail + 1)];
  }

  /** The pusher has moved the head of its full ring and holds the batch. */
  function Draining(s: State, t: nat, v: int): State
    requires t < |s.ws|
  {
    var w := s.ws[t];
    s.(ws := s.ws[t := w.(head := w.head + Batch(s.size), pc := PushDrain(v, w.head, 0))],
       pushed := s.pushed + multiset{v})
  }

  lemma DrainingIs(s: State, t: nat, v: int)
    requires Enabled(s, Push(t, v))
    ensures var s', w := Draining(s, t, v), s.ws[t];
            && Shape(s') && t < |s'.ws| && s'.size == s.size && s'.overflowed == s.overflowed
            && s'.ws[t].pc == PushDrain(v, w.head, 0) && s'.ws[t].buf == w.buf
            && s'.(ws := s'.ws[t := s'.ws[t].(pc := Idle)])
               == s.(ws := s.ws[t := w.(head := w.head + Batch(s.size))], pushed := s.pushed + multiset{v})
  {
    var s', w := Draining(s, t, v), s.ws[t];
    assert s'.ws[t := s'.ws[t].(pc := Idle)] == s.ws[t := w.(head := w.head + Batch(s.size))];
  }

  /** A full ring: the head moves by a batch. */
  lemma PushMakesRoom(s: State, t: nat, v: int, k: nat)
    requires Enabled(s, Push(t, v)) && s.ws[t].tail - s.ws[t].head == s.size && k >= 2
    ensures Steps(Next(s, Push(t, v)), t, k) == Steps(Draining(s, t, v), t, k - 2)
  {
    hide Batch, Enabled, Next, Shape, Steps;
    PushStarts(s, t, v);
    var w, s1 := s.ws[t], Next(s, Push(t, v));
    PushHeads(s1, t, v);
    OneStep(s1, t, k);
    var s2 := Next(s1, Step(t));
    PushSwaps(s2, t, v);
    OneStep(s2, t, k - 1);
    assert Next(s2, Step(t)).ws == Draining(s, t, v).ws;
  }

  lemma DrainAll(s: State, t: nat, v: int, h: int, k: nat)
    requires Shape(s) && t < |s.ws| && s.ws[t].pc == PushDrain(v, h, 0) && k > Batch(s.size)
    ensures Steps(s, t, k) ==
            s.(ws := s.ws[t := s.ws[t].(pc := Idle)],
               overflowed := s.overflowed + multiset(Span(s.ws[t].buf, h, Batch(s.size), s.size)) + multiset{v})
  {
    hide Steps, Span;
    DrainAlone(s, t, v, h, 0, k);
    assert h + 0 == h && Batch(s.size) - 0 == Batch(s.size);
  }

  /** Then the batch and the value overflow. */
  lemma PushSpills(s: State, t: nat, v: int, k: nat)
    requires Enabled(s, Push(t, v)) && s.ws[t].tail - s.ws[t].head == s.size && k >= Batch(s.size) + 3
    ensures var w := s.ws[t];
            Steps(Next(s, Push(t, v)), t, k) ==
            s.(ws := s.ws[t := w.(head := w.head + Batch(s.size))], pushed := s.pushed + multiset{v},
               overflowed := s.overflowed + multiset(Span(w.buf, w.head, Batch(s.size), s.size)) + multiset{v})
  {
    assert k >= 2;
    hide *;
    PushStarts(s, t, v);
    PushMakesRoom(s, t, v, k);
    DrainingIs(s, t, v);
    var s3 := Draining(s, t, v);
    DrainAll(s3, t, v, s.ws[t].head, k - 2);
  }

  lemma LiveAppended(w: Worker, v: int, size: nat)
    requires |w.buf| == size > 0 && w.head <= w.tail < w.head + size
    ensures Live(w.(buf := w.buf[Slot(w.tail, size) := v], tail := w.tail + 1), size) == Live(w, size) + [v]
  {
    WriteAbove(w, w.tail, v, size);
    hide Slot;
  }

  lemma LiveFrom(w: Worker, n: nat, size: nat)
    requires |w.buf| == size > 0 && n <= w.tail - w.head
    ensures Span(w.buf, w.head, n, size) == Live(w, size)[..n]
    ensures Live(w.(head := w.head + n), size) == Live(w, size)[n..]
  {
    hide Slot;
    var a, b := Live(w.(head := w.head + n), size), Live(w, size)[n..];
    forall i | 0 <= i < |b| ensures a[i] == b[i] {
      assert w.head + n + i == w.head + (n + i);
    }
  }

  /**
    An undisturbed local_push appends the value. If the ring is full, the oldest size / 2 + 1 elements and the
    value overflow instead.
  */
  lemma PushAlone(s: State, t: nat, v: int, k: nat)
    requires Inv(s) && Enabled(s, Push(t, v)) && k >= s.size + 3
    ensures |s.ws[t].buf| == s.size > 0 && Batch(s.size) <= s.size
    ensures var s', w, xs := Steps(Next(s, Push(t, v)), t, k), s.ws[t], Live(s.ws[t], s.size);
            && |s'.ws| == |s.ws| && |s'.ws[t].buf| == s.size && s'.pushed == s.pushed + multiset{v}
            && s' == s.(ws := s.ws[t := s'.ws[t]], pushed := s'.pushed, overflowed := s'.overflowed)
            && s'.ws[t].pc.Idle?
            && (|xs| < s.size ==> Live(s'.ws[t], s.size) == xs + [v] && s'.overflowed == s.overflowed)
            && (|xs| == s.size ==>
                  && Live(s'.ws[t], s.size) == xs[Batch(s.size)..]
                  && s'.overflowed == s.overflowed + multiset(xs[..Batch(s.size)]) + multiset{v})
  {
    LiveOk(s, t);
    PushStarts(s, t, v);
    hide Inv, Next, Enabled, Steps, Slot, Span, Live;
    if |Live(s.ws[t], s.size)| < s.size {
      PushFits(s, t, v, k);
      LiveAppended(s.ws[t], v, s.size);
    } else {
      PushSpills(s, t, v, k);
      LiveFrom(s.ws[t], Batch(s.size), s.size);
    }
  }

  // ---------------------------------------------------------------------------------------
  // steal
  // ---------------------------------------------------------------------------------------

  lemma StealStarts(s: State, t: nat, o: nat)
    requires Enabled(s, Steal(t, o))
    ensures Shape(s) && t < |s.ws| && s.ws[t].pc.Idle? && o < |s.ws|
    ensures Next(s, Steal(t, o)) == Put(s, t, s.ws[t].(pc := StealHead(o)))
  {
  }

  lemma StealHeads(s: State, t: nat, o: nat)
    requires Shape(s) && t < |s.ws| && s.ws[t].pc == StealHead(o) && o < |s.ws|
    ensures Enabled(s, Step(t)) && Next(s, Step(t)) == Put(s, t, s.ws[t].(pc := StealOtherHead(o, s.ws[t].head)))
  {
  }

  lemma StealOtherHeads(s: State, t: nat, o: nat, h: int)
    requires Shape(s) && t < |s.ws| && s.ws[t].pc == StealOtherHead(o, h) && o < |s.ws|
    ensures Enabled(s, Step(t))
    ensures Next(s, Step(t)) == Put(s, t, s.ws[t].(pc := StealOtherTail(o, h, s.ws[o].head)))
  {
  }

  lemma StealPlans(s: State, t: nat, o: nat, h: int, oh: int)
    requires Shape(s) && t < |s.ws| && s.ws[t].pc == StealOtherTail(o, h, oh) && o < |s.ws|
    ensures Enabled(s, Step(t))
    ensures Next(s, Step(t)) == Put(s, t, s.ws[t].(pc := Plan(s.size, o, h, s.ws[t].tail, oh, s.ws[o].tail)))
  {
  }

  /** How many elements a thief takes: half of the other's, rounded up, as far as it has room. */
  function Share(mine: nat, others: nat, size: nat): int { Min(others - others / 2, size - mine) }

  lemma PlanIs(s: State, t: nat, o: nat)
    requires Inv(s) && t < |s.ws| && o < |s.ws|
    ensures |s.ws[t].buf| == |s.ws[o].buf| == s.size > 0
    ensures var w, v := s.ws[t], s.ws[o];
            var m := Share(|Live(w, s.size)|, |Live(v, s.size)|, s.size);
            && 0 <= m <= |Live(v, s.size)|
            && Plan(s.size, o, w.head, w.tail, v.head, v.tail) == if m == 0 then Idle else StealLoad(o, v.head, m, 0)
  {
    LiveOk(s, t);
    LiveOk(s, o);
  }

  /** The loads of heads and tails. */
  lemma StealLooks(s: State, t: nat, o: nat, k: nat)
    requires Enabled(s, Steal(t, o)) && k >= 3
    ensures Shape(s) && t < |s.ws| && o < |s.ws| && s.ws[t].pc.Idle?
    ensures Steps(Next(s, Steal(t, o)), t, k) ==
            Steps(Put(s, t, s.ws[t].(pc := Plan(s.size, o, s.ws[t].head, s.ws[t].tail, s.ws[o].head, s.ws[o].tail))),
                  t, k - 3)
  {
    StealStarts(s, t, o);
    hide Next, Enabled, Steps, StepPop, StepPush, StepSteal, Slot, Plan;
    var s1 := Next(s, Steal(t, o));
    StealHeads(s1, t, o);
    OneStep(s1, t, k);
    var s2 := Next(s1, Step(t));
    StealOtherHeads(s2, t, o, s.ws[t].head);
    OneStep(s2, t, k - 1);
    var s3 := Next(s2, Step(t));
    StealPlans(s3, t, o, s.ws[t].head, s.ws[o].head);
    OneStep(s3, t, k - 2);
    var w := s.ws[t].(pc := Plan(s.size, o, s.ws[t].head, s.ws[t].tail, s.ws[o].head, s.ws[o].tail));
    assert Next(s3, Step(t)).ws == s.ws[t := w];
  }

  /** Only the thief's slots outside its live part change while it copies. */
  predicate Copying(s: State, s': State, t: nat)
    requires t < |s.ws| && s.size > 0
  {
    && |s'.ws| == |s.ws| && s' == s.(ws := s.ws[t := s'.ws[t]])
    && Moved(s, s.ws[t], s'.ws[t]) && s'.ws[t] == s.ws[t].(buf := s'.ws[t].buf, pc := s'.ws[t].pc)
  }

  lemma CopyOne(s: State, t: nat)
    requires Inv(s) && t < |s.ws| && (s.ws[t].pc.StealLoad? || s.ws[t].pc.StealStore?)
    ensures Enabled(s, Step(t))
    ensures var s', pc := Next(s, Step(t)), s.ws[t].pc;
            && Inv(s') && Copying(s, s', t)
            && match pc
               case StealLoad(o, oh, n, j) =>
                 j < n && s'.ws[t].pc.StealStore? && s'.ws[t].pc == StealStore(o, oh, n, j, s'.ws[t].pc.x)
               case StealStore(o, oh, n, j, _) =>
                 s'.ws[t].pc == if j + 1 < n then StealLoad(o, oh, n, j + 1) else StealCas(o, oh, n)
  {
    assert WorkerOk(s, s.ws[t]);
    InvStep(s, Step(t));
    OwnMoved(s, Step(t));
    hide Slot;
  }

  lemma CopyingJoin(s: State, m: State, s': State, t: nat)
    requires Shape(s) && t < |s.ws| && Copying(s, m, t) && Copying(m, s', t)
    ensures Copying(s, s', t)
  {
    assert forall p :: s.ws[t].head <= p < s.ws[t].tail ==>
      m.ws[t].buf[Slot(p, s.size)] == s.ws[t].buf[Slot(p, s.size)];
    hide Slot;
  }

  /** One round of the copying loop. */
  lemma CopyTwo(s: State, t: nat, o: nat, oh: int, n: int, j: nat, k: nat) returns (s': State)
    requires Inv(s) && t < |s.ws| && s.ws[t].pc == StealLoad(o, oh, n, j) && k >= 2
    ensures Shape(s) && Inv(s') && t < |s'.ws| && s.size > 0 && Copying(s, s', t)
    ensures s'.ws[t].pc == if j + 1 < n then StealLoad(o, oh, n, j + 1) else StealCas(o, oh, n)
    ensures Steps(s, t, k) == Steps(s', t, k - 2)
  {
    ShapeOf(s);
    CopyOne(s, t);
    OneStep(s, t, k);
    var s1 := Next(s, Step(t));
    CopyOne(s1, t);
    OneStep(s1, t, k - 1);
    s' := Next(s1, Step(t));
    hide Inv, Next, Enabled, Steps, Copying, Moved;
    CopyingJoin(s, s1, s', t);
  }

  /** The copying loop of an undisturbed thief. */
  lemma {:induction false} CopyAlone(s: State, t: nat, o: nat, oh: int, n: int, j: nat, k: nat) returns (s': State)
    requires Inv(s) && t < |s.ws| && s.ws[t].pc == StealLoad(o, oh, n, j) && j < n && k >= 2 * (n - j)
    ensures Shape(s) && Inv(s') && Copying(s, s', t) && s'.ws[t].pc == StealCas(o, oh, n)
    ensures Steps(s, t, k) == Steps(s', t, k - 2 * (n - j))
    decreases n - j
  {
    hide *;
    s' := CopyTwo(s, t, o, oh, n, j, k);
    if j + 1 < n {
      var m := s';
      s' := CopyAlone(m, t, o, oh, n, j + 1, k - 2);
      CopyingJoin(s, m, s', t);
    }
  }

  lemma ShapeOf(s: State)
    requires Inv(s)
    ensures Shape(s)
  {
  }

  lemma StealSwaps(s: State, t: nat, o: nat, oh: int, n: int)
    requires Shape(s) && t < |s.ws| && s.ws[t].pc == StealCas(o, oh, n) && o < |s.ws| && s.ws[o].head == oh
    ensures Enabled(s, Step(t))
    ensures var s1 := Put(s, o, s.ws[o].(head := oh + n));
            Next(s, Step(t)) == Put(s1, t, s1.ws[t].(pc := StealTake(n - 1)))
  {
  }

  lemma StealTakes(s: State, t: nat, n: int)
    requires Shape(s) && t < |s.ws| && s.ws[t].pc == StealTake(n)
    ensures var w := s.ws[t];
            Enabled(s, Step(t)) && Next(s, Step(t)) ==
            Put(s, t, w.(pc := StealTail(n, w.buf[Slot(w.tail + n, s.size)])))
  {
  }

  lemma StealTails(s: State, t: nat, n: int, x: int)
    requires Shape(s) && t < |s.ws| && s.ws[t].pc == StealTail(n, x)
    ensures var w := s.ws[t];
            Enabled(s, Step(t)) && Next(s, Step(t)) ==
            Put(s, t, w.(tail := w.tail + n, pc := Idle)).(taken := s.taken + multiset{x})
  {
  }

  /** The rings after a theft of `n` elements by `t` from `o`; the thief keeps all but the last. */
  function Robbed(ws: seq<Worker>, t: nat, o: nat, n: int): seq<Worker>
    requires t < |ws| && o < |ws|
  {
    var mid := ws[o := ws[o].(head := ws[o].head + n)];
    mid[t := mid[t].(tail := mid[t].tail + n - 1, pc := Idle)]
  }

  lemma TheftAlone(s: State, t: nat, o: nat, n: int, k: nat)
    requires Shape(s) && t < |s.ws| && o < |s.ws| && s.ws[t].pc == StealCas(o, s.ws[o].head, n) && k >= 3
    ensures Steps(s, t, k) ==
            s.(ws := Robbed(s.ws, t, o, n),
               taken := s.taken + multiset{s.ws[t].buf[Slot(s.ws[t].tail + (n - 1), s.size)]})
  {
    hide Next, Enabled, Steps, StepPop, StepPush, StepSteal, Slot;
    StealSwaps(s, t, o, s.ws[o].head, n);
    OneStep(s, t, k);
    var s1 := Next(s, Step(t));
    StealTakes(s1, t, n - 1);
    OneStep(s1, t, k - 1);
    var s2 := Next(s1, Step(t));
    StealTails(s2, t, n - 1, s.ws[t].buf[Slot(s.ws[t].tail + (n - 1), s.size)]);
    OneStep(s2, t, k - 2);
    IdleStays(Next(s2, Step(t)), t, k - 3);
    assert Next(s2, Step(t)).ws == Robbed(s.ws, t, o, n);
  }

  /** The thief's new elements are the first of the other's, in order. */
  lemma LiveRobbed(s: State, t: nat, o: nat, n: int)
    requires Inv(s) && t < |s.ws| && o < |s.ws| && s.ws[t].pc == StealCas(o, s.ws[o].head, n)
    ensures |s.ws[t].buf| == |s.ws[o].buf| == s.size > 0 && 0 < n <= |Live(s.ws[o], s.size)|
    ensures var w, v, ys, ws := s.ws[t], s.ws[o], Live(s.ws[o], s.size), Robbed(s.ws, t, o, n);
            && |ws[t].buf| == |ws[o].buf| == s.size
            && w.buf[Slot(w.tail + (n - 1), s.size)] == ys[n - 1]
            && (if t == o then Live(ws[t], s.size) == ys[n..] + ys[..n - 1]
                else Live(ws[o], s.size) == ys[n..] && Live(ws[t], s.size) == Live(w, s.size) + ys[..n - 1])
  {
    var w, v := s.ws[t], s.ws[o];
    assert WorkerOk(s, w) && WorkerOk(s, v);
    hide Inv, Slot, Span, Live;
    CopiedSpan(w, v, n, s.size);
    LiveFrom(v, n, s.size);
    if t == o {
      LiveRobbedSelf(s, t, n);
    } else {
      LiveRobbedOther(s, t, o, n);
    }
  }

  lemma LiveRobbedSelf(s: State, t: nat, n: nat)
    requires t < |s.ws| && |s.ws[t].buf| == s.size > 0 && s.ws[t].head + n <= s.ws[t].tail && n > 0
    requires var w := s.ws[t];
             && Span(w.buf, w.tail, n - 1, s.size) == Live(w, s.size)[..n - 1]
             && Live(w.(head := w.head + n), s.size) == Live(w, s.size)[n..]
    ensures var ys, ws := Live(s.ws[t], s.size), Robbed(s.ws, t, t, n);
            |ws[t].buf| == s.size && Live(ws[t], s.size) == ys[n..] + ys[..n - 1]
  {
    var w := s.ws[t];
    LiveJoined(w.(head := w.head + n), n - 1, s.size);
    assert Robbed(s.ws, t, t, n)[t] == w.(head := w.head + n, tail := w.tail + (n - 1), pc := Idle);
  }

  lemma LiveRobbedOther(s: State, t: nat, o: nat, n: nat)
    requires t < |s.ws| && |s.ws[t].buf| == s.size > 0 && s.ws[t].head <= s.ws[t].tail && n > 0
    requires o < |s.ws| && |s.ws[o].buf| == s.size && t != o
    requires var w, v := s.ws[t], s.ws[o];
             && n <= |Live(v, s.size)| && Span(w.buf, w.tail, n - 1, s.size) == Live(v, s.size)[..n - 1]
             && Live(v.(head := v.head + n), s.size) == Live(v, s.size)[n..]
    ensures var ys, ws := Live(s.ws[o], s.size), Robbed(s.ws, t, o, n);
            && |ws[t].buf| == |ws[o].buf| == s.size
            && Live(ws[o], s.size) == ys[n..] && Live(ws[t], s.size) == Live(s.ws[t], s.size) + ys[..n - 1]
  {
    var w, v := s.ws[t], s.ws[o];
    LiveJoined(w, n - 1, s.size);
    assert Robbed(s.ws, t, o, n)[t] == w.(tail := w.tail + (n - 1), pc := Idle);
    assert Robbed(s.ws, t, o, n)[o] == v.(head := v.head + n);
  }

  lemma CopiedSpan(w: Worker, v: Worker, n: nat, size: nat)
    requires |w.buf| == |v.buf| == size > 0 && Copied(v.buf, v.head, w.buf, w.tail, n, size)
    requires 0 < n <= v.tail - v.head
    ensures Span(w.buf, w.tail, n, size) == Live(v, size)[..n]
    ensures Span(w.buf, w.tail, n - 1, size) == Live(v, size)[..n - 1]
    ensures w.buf[Slot(w.tail + (n - 1), size)] == Live(v, size)[n - 1]
  {
    hide Slot;
    forall i | 0 <= i < n ensures Span(w.buf, w.tail, n, size)[i] == Live(v, size)[i] {
      assert w.buf[Slot(w.tail + i, size)] == v.buf[Slot(w.tail + i - w.tail + v.head, size)];
      assert w.tail + i - w.tail + v.head == v.head + i;
    }
    assert Span(w.buf, w.tail, n, size)[n - 1] == Live(v, size)[n - 1];
    assert Span(w.buf, w.tail, n - 1, size) == Span(w.buf, w.tail, n, size)[..n - 1];
  }

  lemma LiveJoined(w: Worker, n: nat, size: nat)
    requires |w.buf| == size > 0 && w.head <= w.tail
    ensures Live(w.(tail := w.tail + n), size) == Live(w, size) + Span(w.buf, w.tail, n, size)
    ensures Live(w.(tail := w.tail + n, pc := Idle), size) == Live(w.(tail := w.tail + n), size)
  {
    hide Slot;
    var a, b := Live(w.(tail := w.tail + n), size), Live(w, size) + Span(w.buf, w.tail, n, size);
    forall i | 0 <= i < |b| ensures a[i] == b[i] {
      if i >= w.tail - w.head {
        assert w.tail + (i - (w.tail - w.head)) == w.head + i;
      }
    }
  }

  lemma CopyingLive(s: State, s': State, t: nat, q: nat)
    requires Shape(s) && t < |s.ws| && q < |s.ws| && Copying(s, s', t) && s.ws[t].head <= s.ws[t].tail
    ensures |s'.ws[q].buf| == s.size && Live(s'.ws[q], s.size) == Live(s.ws[q], s.size)
    ensures s'.ws[q].head == s.ws[q].head && s'.ws[q].tail == s.ws[q].tail
    ensures q != t ==> s'.ws[q] == s.ws[q]
  {
    hide Slot;
    if q == t {
      assert forall i :: 0 <= i < s.ws[t].tail - s.ws[t].head ==>
        Live(s'.ws[t], s.size)[i] == Live(s.ws[t], s.size)[i];
    }
  }

  /** What a theft of `n` elements makes of the rings. */
  predicate Stolen(s: State, s': State, t: nat, o: nat, n: nat)
    requires t < |s.ws| && o < |s.ws| && |s.ws[t].buf| == |s.ws[o].buf| == s.size > 0
    requires 0 < n <= |Live(s.ws[o], s.size)|
  {
    var xs, ys := Live(s.ws[t], s.size), Live(s.ws[o], s.size);
    && |s'.ws| == |s.ws| && |s'.ws[t].buf| == |s'.ws[o].buf| == s.size
    && s' == s.(ws := s'.ws, taken := s.taken + multiset{ys[n - 1]})
    && (if t == o then Live(s'.ws[t], s.size) == ys[n..] + ys[..n - 1]
        else Live(s'.ws[o], s.size) == ys[n..] && Live(s'.ws[t], s.size) == xs + ys[..n - 1])
    && s'.ws[t].pc.Idle? && s'.ws[o].pc == s.ws[o].pc
    && forall q :: 0 <= q < |s.ws| && q != t && q != o ==> s'.ws[q] == s.ws[q]
  }

  lemma CopyingFrom(s: State, s1: State, s': State, t: nat)
    requires Shape(s) && t < |s.ws| == |s1.ws| && s1 == Put(s, t, s.ws[t].(pc := s1.ws[t].pc))
    requires Copying(s1, s', t)
    ensures Copying(s, s', t)
  {
    assert s'.ws == s.ws[t := s'.ws[t]];
  }

  lemma StealCopies(s: State, t: nat, o: nat, n: nat, k: nat) returns (s': State)
    requires Inv(s) && Enabled(s, Steal(t, o)) && k >= 2 * n + 3 && n > 0
    requires Plan(s.size, o, s.ws[t].head, s.ws[t].tail, s.ws[o].head, s.ws[o].tail) == StealLoad(o, s.ws[o].head, n, 0)
    ensures Shape(s) && Inv(s') && Copying(s, s', t) && s'.ws[t].pc == StealCas(o, s.ws[o].head, n)
    ensures Steps(Next(s, Steal(t, o)), t, k) == Steps(s', t, k - 3 - 2 * n)
  {
    hide Copying, Enabled, Inv, Next, Plan, Shape, Steps;
    StealLooks(s, t, o, k);
    ShapeOf(s);
    LoadOk(s, t, o, n);
    var s1 := Put(s, t, s.ws[t].(pc := StealLoad(o, s.ws[o].head, n, 0)));
    s' := CopyAlone(s1, t, o, s.ws[o].head, n, 0, k - 3);
    CopyingFrom(s, s1, s', t);
  }

  /** A thief that has just made its plan is in order. */
  lemma LoadOk(s: State, t: nat, o: nat, n: nat)
    requires Inv(s) && t < |s.ws| && o < |s.ws| && n > 0
    requires Plan(s.size, o, s.ws[t].head, s.ws[t].tail, s.ws[o].head, s.ws[o].tail) == StealLoad(o, s.ws[o].head, n, 0)
    ensures Inv(Put(s, t, s.ws[t].(pc := StealLoad(o, s.ws[o].head, n, 0))))
  {
    var s1 := Put(s, t, s.ws[t].(pc := StealOtherTail(o, s.ws[t].head, s.ws[o].head)));
    PlannedOk(s, t, o);
    StealPlans(s1, t, o, s.ws[t].head, s.ws[o].head);
    InvStep(s1, Step(t));
    hide Inv, Next;
    assert Next(s1, Step(t)).ws == Put(s, t, s.ws[t].(pc := StealLoad(o, s.ws[o].head, n, 0))).ws;
  }

  lemma PlannedOk(s: State, t: nat, o: nat)
    requires Inv(s) && t < |s.ws| && o < |s.ws|
    ensures Inv(Put(s, t, s.ws[t].(pc := StealOtherTail(o, s.ws[t].head, s.ws[o].head))))
  {
    var s1 := Put(s, t, s.ws[t].(pc := StealOtherTail(o, s.ws[t].head, s.ws[o].head)));
    assert WorkerOk(s, s.ws[t]);
    assert AllMoved(s, s1);
    forall q | 0 <= q < |s1.ws| ensures WorkerOk(s1, s1.ws[q]) {
      assert WorkerOk(s, s.ws[q]);
      if q != t {
        OtherKeeps(s, s1, s.ws[q], s1.ws[q]);
      }
    }
  }

  /**
    An undisturbed steal takes half of the other's elements, rounded up, as far as the thief has room: the last of
    them is handed out and the others go behind the thief's own. It fails exactly if that number is 0.
  */
  lemma StealAlone(s: State, t: nat, o: nat, k: nat)
    requires Inv(s) && Enabled(s, Steal(t, o)) && k >= 2 * s.size + 6
    ensures |s.ws[t].buf| == |s.ws[o].buf| == s.size > 0
    ensures var s' := Steps(Next(s, Steal(t, o)), t, k);
            var m := Share(|Live(s.ws[t], s.size)|, |Live(s.ws[o], s.size)|, s.size);
            && 0 <= m <= |Live(s.ws[o], s.size)|
            && if m == 0 then s' == s else Stolen(s, s', t, o, m)
  {
    StealStarts(s, t, o);
    PlanIs(s, t, o);
    LiveOk(s, o);
    LiveOk(s, t);
    var n := Share(|Live(s.ws[t], s.size)|, |Live(s.ws[o], s.size)|, s.size);
    hide *;
    if n == 0 {
      StealNothing(s, t, o, k);
    } else {
      var m := StealCopies(s, t, o, n, k);
      StolenIs(s, m, t, o, n, k - 3 - 2 * n);
    }
  }

  lemma StealNothing(s: State, t: nat, o: nat, k: nat)
    requires Enabled(s, Steal(t, o)) && k >= 3
    requires Plan(s.size, o, s.ws[t].head, s.ws[t].tail, s.ws[o].head, s.ws[o].tail) == Idle
    ensures Steps(Next(s, Steal(t, o)), t, k) == s
  {
    hide Enabled, Next, Plan, Shape, Steps;
    StealLooks(s, t, o, k);
    IdleStays(Put(s, t, s.ws[t].(pc := Idle)), t, k - 3);
    assert Put(s, t, s.ws[t].(pc := Idle)).ws == s.ws;
  }

  lemma StolenIs(s: State, m: State, t: nat, o: nat, n: nat, k: nat)
    requires Shape(s) && t < |s.ws| && o < |s.ws| && Inv(m) && Copying(s, m, t) && s.ws[t].head <= s.ws[t].tail
    requires m.ws[t].pc == StealCas(o, s.ws[o].head, n) && k >= 3 && s.ws[t].pc.Idle?
    requires 0 < n <= |Live(s.ws[o], s.size)|
    ensures Stolen(s, Steps(m, t, k), t, o, n)
  {
    ShapeOf(m);
    CopyingLive(s, m, t, t);
    CopyingLive(s, m, t, o);
    LiveRobbed(m, t, o, n);
    TheftAlone(m, t, o, n, k);
    hide Inv, Steps, Live, Slot;
    assert forall q :: 0 <= q < |s.ws| && q != t ==> m.ws[q] == s.ws[q];
  }

  // ---------------------------------------------------------------------------------------
  // Calls that others disturb
  // ---------------------------------------------------------------------------------------

  predicate InPop(pc: Pc) { pc.PopRead? || pc.PopCas? }

  /** Worker `t` has loaded its head in a pop and not yet come to the end. */
  predicate Popping(s: State, t: nat) { t < |s.ws| && InPop(s.ws[t].pc) }

  lemma RunStep(size: nat, workers: nat, states: seq<State>, events: seq<Event>, i: nat)
    requires IsRun(size, workers, states, events) && i < |events|
    ensures Enabled(states[i], events[i]) && states[i + 1] == Next(states[i], events[i])
  {
  }

  /** It has loaded `h`. */
  predicate Held(s: State, t: nat, h: int) { Popping(s, t) && s.ws[t].pc.h == h }

  lemma PopHoldsStep(s: State, ev: Event, t: nat, h: int)
    requires Enabled(s, ev) && Held(s, t, h) && Popping(Next(s, ev), t)
    ensures Held(Next(s, ev), t, h)
  {
    FrameStep(s, ev);
  }

  /** Until it ends, a pop keeps the head that it loaded. */
  lemma {:induction false} PopHolds(
    size: nat, workers: nat, states: seq<State>, events: seq<Event>, i: nat, m: nat, t: nat)
    requires IsRun(size, workers, states, events) && i < m <= |events| < |states| && events[i] == Step(t)
    requires t < |states[i].ws| && states[i].ws[t].pc.PopHead?
    requires forall j :: i < j <= m ==> Popping(states[j], t)
    ensures Held(states[m], t, states[i].ws[t].head) && states[i].ws[t].head != states[i].ws[t].tail
    decreases m
  {
    hide *;
    RunStep(size, workers, states, events, m - 1);
    if m == i + 1 {
      PopLoads(states[i], t);
      assert Popping(states[m], t);
      HeldFirst(states[i], t, states[m]);
    } else {
      PopHolds(size, workers, states, events, i, m - 1, t);
      PopHoldsStep(states[m - 1], events[m - 1], t, states[i].ws[t].head);
    }
  }

  lemma HeldFirst(s: State, t: nat, s': State)
    requires Popping(s', t) && t < |s.ws|
    requires var w := s.ws[t]; s'.ws[t].pc == if w.head == w.tail then Idle else PopRead(w.head)
    ensures Held(s', t, s.ws[t].head) && s.ws[t].head != s.ws[t].tail
  {
  }

  lemma PopLoads(s: State, t: nat)
    requires Enabled(s, Step(t)) && s.ws[t].pc.PopHead?
    ensures var w, s' := s.ws[t], Next(s, Step(t));
            && t < |s'.ws| && s'.taken == s.taken
            && s'.ws[t].pc == if w.head == w.tail then Idle else PopRead(w.head)
  {
  }

  lemma PopSwapAnswers(s: State, t: nat)
    requires Inv(s) && Enabled(s, Step(t)) && s.ws[t].pc.PopCas?
    ensures var w, s' := s.ws[t], Next(s, Step(t));
            && |w.buf| == s.size > 0
            && (w.head != w.pc.h ==> s'.taken == s.taken)
            && (w.head == w.pc.h ==>
                  Live(w, s.size) != [] && s'.taken == s.taken + multiset{Live(w, s.size)[0]})
  {
    LiveOk(s, t);
    assert WorkerOk(s, s.ws[t]);
  }

  lemma OneMore(a: multiset<int>, x: int)
    ensures a + multiset{x} != a
  {
    assert (a + multiset{x})[x] == a[x] + 1;
  }

  /**
    On every run, a local_pop that loads `head` at step `i` and ends at step `j` comes back empty exactly if the
    ring was empty at its load or its head has been moved since; otherwise it takes the oldest element.
  */
  lemma PopAnswers(size: nat, workers: nat, states: seq<State>, events: seq<Event>, i: nat, j: nat, t: nat)
    requires IsRun(size, workers, states, events) && i <= j < |events| && events[i] == events[j] == Step(t)
    requires t < |states[i].ws| && states[i].ws[t].pc.PopHead?
    requires forall m :: i < m <= j ==> Popping(states[m], t)
    requires t < |states[j + 1].ws| && states[j + 1].ws[t].pc.Idle?
    ensures t < |states[j].ws| && |states[j].ws[t].buf| == states[j].size > 0
    ensures var a, b, xs := states[i].ws[t], states[j].ws[t], Live(states[j].ws[t], states[j].size);
            var empty := a.head == a.tail || b.head != a.head;
            && (states[j + 1].taken == states[j].taken <==> empty)
            && (!empty ==> xs != [] && states[j + 1].taken == states[j].taken + multiset{xs[0]})
  {
    NothingLostOrDuplicated(size, workers, states, events, j);
    RunStep(size, workers, states, events, j);
    hide IsRun, Inv, Next, Enabled, Conserved, Live, Slot;
    if i == j {
      PopLoads(states[i], t);
      LiveOk(states[i], t);
    } else {
      PopHolds(size, workers, states, events, i, j, t);
      LastPopStep(states[j], t);
      PopSwapAnswers(states[j], t);
      if states[j].ws[t].head == states[i].ws[t].head {
        OneMore(states[j].taken, Live(states[j].ws[t], states[j].size)[0]);
      }
    }
  }

  lemma LastPopStep(s: State, t: nat)
    requires Enabled(s, Step(t)) && Popping(s, t) && t < |Next(s, Step(t)).ws| && Next(s, Step(t)).ws[t].pc.Idle?
    ensures s.ws[t].pc.PopCas?
  {
  }

  /** A steal plans to take nothing exactly if the loaded indices show nothing to take or no room for it. */
  lemma PlanFails(size: nat, o: nat, h: int, tail: int, oh: int, ot: int)
    requires size > 0 && tail <= h + size
    ensures Plan(size, o, h, tail, oh, ot).Idle? <==> 0 <= ot - oh <= size && (ot == oh || tail == h + size)
  {
  }

  /**
    A steal that ends has either taken an element, or has failed; it fails at the load of the other's tail, exactly if
    that is the head it loaded before, or its own ring was full of elements when it loaded its own head.
  */
  lemma StealAnswers(s: State, t: nat)
    requires Inv(s) && Enabled(s, Step(t)) && Stealing(s.ws[t].pc)
    ensures var w, s' := s.ws[t], Next(s, Step(t));
            && t < |s'.ws|
            && (s'.taken != s.taken <==> w.pc.StealTail?)
            && (s'.ws[t].pc.Idle? && s'.taken == s.taken <==>
                  && w.pc.StealOtherTail? && w.pc.o < |s.ws|
                  && 0 <= s.ws[w.pc.o].tail - w.pc.oh <= s.size
                  && (s.ws[w.pc.o].tail == w.pc.oh || w.tail == w.pc.h + s.size))
  {
    var w := s.ws[t];
    assert WorkerOk(s, w);
    if w.pc.StealOtherTail? {
      PlanFails(s.size, w.pc.o, w.pc.h, w.tail, w.pc.oh, s.ws[w.pc.o].tail);
      hide Plan;
    } else if w.pc.StealTail? {
      OneMore(s.taken, w.pc.x);
    }
  }
}
