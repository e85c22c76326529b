/**
  StealingQueue (td/utils/StealingQueue.h) as a step system.

  Worker `i` owns ring `i`. It alone pushes, pops and moves `tail`; any worker may advance any
  `head` by a successful compare-and-swap. Each event is one load, store or CAS. `pushed`, `taken`
  and `overflowed` are history.
*/
module StealingQueue {

  datatype Pc =
    | Idle
    | PushHead(v: int) | PushStore(v: int, h: int) | PushTail(v: int)
    | PushCas(v: int, h: int) | PushDrain(v: int, h: int, k: int)
    | PopHead | PopRead(h: int) | PopCas(h: int, x: int)
    | StealHead(o: nat) | StealOtherHead(o: nat, h: int) | StealOtherTail(o: nat, h: int, oh: int)
    | StealLoad(o: nat, oh: int, n: int, k: int) | StealStore(o: nat, oh: int, n: int, k: int, x: int)
    | StealCas(o: nat, oh: int, n: int) | StealTake(n: int) | StealTail(n: int, x: int)

  datatype Worker = Worker(head: int, tail: int, buf: seq<int>, pc: Pc)

  /** `size` is the ring size N; the code asks only that it be a power of two. */
  datatype State = State(
    size: nat, ws: seq<Worker>, pushed: multiset<int>, taken: multiset<int>, overflowed: multiset<int>)

  datatype Event =
    | Push(t: nat, v: int)
    | Pop(t: nat)
    | Steal(t: nat, o: nat)
    | Step(t: nat)

  function Init(size: nat, workers: nat): State {
    State(size, seq(workers, i => Worker(0, 0, seq(size, j => 0), Idle)), multiset{}, multiset{}, multiset{})
  }

  /** The slot of position `p`: p & MASK. */
  function Slot(p: int, size: nat): (i: nat)
    requires size > 0
    ensures i < size
  {
    p % size
  }

  lemma SlotsDiffer(p: int, q: int, size: nat)
    requires size > 0 && p != q && -(size as int) < p - q < size
    ensures Slot(p, size) != Slot(q, size)
  {
    var d := p / size - q / size;
    assert p - q == size * d + (Slot(p, size) - Slot(q, size));
    if d >= 1 {
      assert size * d >= size;
    } else if d <= -1 {
      assert size * d <= -(size as int);
    }
  }

  predicate Shape(s: State) {
    s.size > 0 && forall i :: 0 <= i < |s.ws| ==> |s.ws[i].buf| == s.size
  }

  predicate Enabled(s: State, ev: Event) {
    Shape(s) && ev.t < |s.ws| &&
    match ev
    case Push(t, _) => s.ws[t].pc.Idle?
    case Pop(t) => s.ws[t].pc.Idle?
    case Steal(t, o) => s.ws[t].pc.Idle? && o < |s.ws|
    case Step(t) =>
      match s.ws[t].pc
      case Idle => false
      case StealOtherHead(o, _) => o < |s.ws|
      case StealOtherTail(o, _, _) => o < |s.ws|
      case StealLoad(o, _, _, _) => o < |s.ws|
      case StealStore(o, _, _, _, _) => o < |s.ws|
      case StealCas(o, _, _) => o < |s.ws|
      case _ => true
  }

  function Put(s: State, t: nat, w: Worker): State
    requires t < |s.ws|
  {
    s.(ws := s.ws[t := w])
  }

  function Min(a: int, b: int): int { if a < b then a else b }

  /** How many elements overflow out of a full ring: N / 2 + 1. */
  function Batch(size: nat): int { size / 2 + 1 }

  function StepPush(s: State, t: nat): State
    requires Enabled(s, Step(t))
    requires var pc := s.ws[t].pc; pc.PushHead? || pc.PushStore? || pc.PushTail? || pc.PushCas? || pc.PushDrain?
  {
    var w := s.ws[t];
    match w.pc
    case PushHead(v) =>
      Put(s, t, w.(pc := if w.tail - w.head < s.size then PushStore(v, w.head) else PushCas(v, w.head)))
    case PushStore(v, _) => Put(s, t, w.(buf := w.buf[Slot(w.tail, s.size) := v], pc := PushTail(v)))
    case PushTail(_) => Put(s, t, w.(tail := w.tail + 1, pc := Idle))
    case PushCas(v, h) =>
      if w.head == h then Put(s, t, w.(head := h + Batch(s.size), pc := PushDrain(v, h, 0)))
      else Put(s, t, w.(pc := PushHead(v)))
    case PushDrain(v, h, k) =>
      if k < Batch(s.size) then
        Put(s, t, w.(pc := PushDrain(v, h, k + 1)))
          .(overflowed := s.overflowed + multiset{w.buf[Slot(h + k, s.size)]})
      else
        Put(s, t, w.(pc := Idle)).(overflowed := s.overflowed + multiset{v})
  }

  function StepPop(s: State, t: nat): State
    requires Enabled(s, Step(t))
    requires var pc := s.ws[t].pc; pc.PopHead? || pc.PopRead? || pc.PopCas?
  {
    var w := s.ws[t];
    match w.pc
    case PopHead => Put(s, t, w.(pc := if w.head == w.tail then Idle else PopRead(w.head)))
    case PopRead(h) => Put(s, t, w.(pc := PopCas(h, w.buf[Slot(h, s.size)])))
    case PopCas(h, x) =>
      if w.head == h then Put(s, t, w.(head := h + 1, pc := Idle)).(taken := s.taken + multiset{x})
      else Put(s, t, w.(pc := Idle))
  }

  predicate Stealing(pc: Pc) {
    pc.StealHead? || pc.StealOtherHead? || pc.StealOtherTail? || pc.StealLoad? || pc.StealStore? || pc.StealCas?
    || pc.StealTake? || pc.StealTail?
  }

  /** The half of `other` a thief may copy, given the heads and tails it has read. */
  function Plan(size: nat, o: nat, h: int, tail: int, oh: int, ot: int): Pc {
    var n := ot - oh;
    if n < 0 || n > size then StealHead(o)
    else
      var m := Min(n - n / 2, h + size - tail);
      if m == 0 then Idle else StealLoad(o, oh, m, 0)
  }

  function StepSteal(s: State, t: nat): State
    requires Enabled(s, Step(t)) && Stealing(s.ws[t].pc)
  {
    var w := s.ws[t];
    match w.pc
    case StealHead(o) => Put(s, t, w.(pc := StealOtherHead(o, w.head)))
    case StealOtherHead(o, h) => Put(s, t, w.(pc := StealOtherTail(o, h, s.ws[o].head)))
    case StealOtherTail(o, h, oh) => Put(s, t, w.(pc := Plan(s.size, o, h, w.tail, oh, s.ws[o].tail)))
    case StealLoad(o, oh, n, k) => Put(s, t, w.(pc := StealStore(o, oh, n, k, s.ws[o].buf[Slot(oh + k, s.size)])))
    case StealStore(o, oh, n, k, x) =>
      Put(s, t, w.(buf := w.buf[Slot(w.tail + k, s.size) := x],
                   pc := if k + 1 < n then StealLoad(o, oh, n, k + 1) else StealCas(o, oh, n)))
    case StealCas(o, oh, n) =>
      if s.ws[o].head == oh then
        var s1 := Put(s, o, s.ws[o].(head := oh + n));
        Put(s1, t, s1.ws[t].(pc := StealTake(n - 1)))
      else Put(s, t, w.(pc := StealHead(o)))
    case StealTake(n) => Put(s, t, w.(pc := StealTail(n, w.buf[Slot(w.tail + n, s.size)])))
    case StealTail(n, x) => Put(s, t, w.(tail := w.tail + n, pc := Idle)).(taken := s.taken + multiset{x})
  }

  function StepCall(s: State, t: nat): State
    requires Enabled(s, Step(t))
  {
    var pc := s.ws[t].pc;
    if Stealing(pc) then StepSteal(s, t)
    else if pc.PopHead? || pc.PopRead? || pc.PopCas? then StepPop(s, t)
    else StepPush(s, t)
  }

  function Next(s: State, ev: Event): State
    requires Enabled(s, ev)
  {
    match ev
    case Push(t, v) => Put(s, t, s.ws[t].(pc := PushHead(v))).(pushed := s.pushed + multiset{v})
    case Pop(t) => Put(s, t, s.ws[t].(pc := PopHead))
    case Steal(t, o) => Put(s, t, s.ws[t].(pc := StealHead(o)))
    case Step(t) => StepCall(s, t)
  }

  // ---------------------------------------------------------------------------------------
  // The invariant
  // ---------------------------------------------------------------------------------------

  /** `b` from position `q` on agrees with `a` from position `p` on, for `n` positions. */
  predicate Copied(a: seq<int>, p: int, b: seq<int>, q: int, n: int, size: nat)
    requires size > 0 && |a| == |b| == size
  {
    forall i :: q <= i < q + n ==> b[Slot(i, size)] == a[Slot(i - q + p, size)]
  }

  /** A thief's plan: what it wants is below the other's tail and fits into its own free room. */
  predicate PlanOk(s: State, w: Worker, o: nat, oh: int, n: int)
    requires Shape(s)
  {
    o < |s.ws| && 0 < n && oh <= s.ws[o].head && oh + n <= s.ws[o].tail && w.tail + n <= w.head + s.size
  }

  predicate ThiefOk(s: State, w: Worker, o: nat, oh: int, n: int, k: int)
    requires Shape(s) && |w.buf| == s.size
  {
    PlanOk(s, w, o, oh, n) && 0 <= k <= n &&
    (s.ws[o].head == oh ==> Copied(s.ws[o].buf, oh, w.buf, w.tail, k, s.size))
  }

  predicate WorkerOk(s: State, w: Worker)
    requires Shape(s) && |w.buf| == s.size
  {
    w.head <= w.tail <= w.head + s.size &&
    match w.pc
    case Idle => true
    case PushHead(_) => true
    case PushStore(_, h) => h <= w.head && w.tail < h + s.size
    case PushTail(v) => w.tail < w.head + s.size && w.buf[Slot(w.tail, s.size)] == v
    case PushCas(_, h) => h <= w.head && h + s.size <= w.tail
    case PushDrain(_, h, k) => 0 <= k <= Batch(s.size) && w.tail == h + s.size
    case PopHead => true
    case PopRead(h) => h <= w.head && h < w.tail
    case PopCas(h, x) => h <= w.head && h < w.tail && w.buf[Slot(h, s.size)] == x
    case StealHead(o) => o < |s.ws|
    case StealOtherHead(o, h) => o < |s.ws| && h <= w.head && w.tail <= h + s.size
    case StealOtherTail(o, h, oh) => o < |s.ws| && h <= w.head && w.tail <= h + s.size && oh <= s.ws[o].head
    case StealLoad(o, oh, n, k) => k < n && ThiefOk(s, w, o, oh, n, k)
    case StealStore(o, oh, n, k, x) =>
      k < n && ThiefOk(s, w, o, oh, n, k) && (s.ws[o].head == oh ==> x == s.ws[o].buf[Slot(oh + k, s.size)])
    case StealCas(o, oh, n) => ThiefOk(s, w, o, oh, n, n)
    case StealTake(n) => 0 <= n && w.tail + n + 1 <= w.head + s.size
    case StealTail(n, _) => 0 <= n && w.tail + n <= w.head + s.size
  }

  predicate Inv(s: State) {
    Shape(s) && forall i :: 0 <= i < |s.ws| ==> WorkerOk(s, s.ws[i])
  }

  /** What one event may do to any ring, seen from its positions. */
  predicate Moved(s: State, w: Worker, w': Worker)
    requires s.size > 0
  {
    && |w.buf| == |w'.buf| == s.size
    && w.head <= w'.head && w.tail <= w'.tail
    && forall p :: w.head <= p < w.tail ==> w'.buf[Slot(p, s.size)] == w.buf[Slot(p, s.size)]
  }

  // ---------------------------------------------------------------------------------------
  // Every event keeps it
  // ---------------------------------------------------------------------------------------

  /** The other ring an event changes: the victim of a successful compare-and-swap, or -1. */
  function Victim(s: State, ev: Event): int
    requires Enabled(s, ev)
  {
    if !ev.Step? then -1 else
    match s.ws[ev.t].pc
    case StealCas(o, oh, n) => if s.ws[o].head == oh && o != ev.t then o else -1
    case _ => -1
  }

  lemma FrameStep(s: State, ev: Event)
    requires Enabled(s, ev)
    ensures var s', x := Next(s, ev), Victim(s, ev);
            && |s'.ws| == |s.ws| && s'.size == s.size && x < |s.ws| && x != ev.t
            && (forall q :: 0 <= q < |s.ws| && q != ev.t && q != x ==> s'.ws[q] == s.ws[q])
            && (x >= 0 ==> s.ws[ev.t].pc.StealCas? && s'.ws[x] == s.ws[x].(head := s.ws[ev.t].pc.oh + s.ws[ev.t].pc.n))
  {
  }

  /** Writing at a position at or above the tail, with room, leaves every live position alone. */
  lemma WriteAbove(w: Worker, at: int, x: int, size: nat)
    requires size > 0 && |w.buf| == size && w.tail <= at < w.head + size
    ensures forall p :: w.head <= p < w.tail ==> w.buf[Slot(at, size) := x][Slot(p, size)] == w.buf[Slot(p, size)]
  {
    forall p | w.head <= p < w.tail ensures w.buf[Slot(at, size) := x][Slot(p, size)] == w.buf[Slot(p, size)] {
      SlotsDiffer(p, at, size);
    }
  }

  /** The owner writes only to positions at or above its tail that no live position shares a slot with. */
  lemma OwnMoved(s: State, ev: Event)
    requires Inv(s) && Enabled(s, ev)
    ensures ev.t < |Next(s, ev).ws| && Moved(s, s.ws[ev.t], Next(s, ev).ws[ev.t])
  {
    var w := s.ws[ev.t];
    assert WorkerOk(s, w);
    if ev.Step? && w.pc.PushStore? {
      WriteAbove(w, w.tail, w.pc.v, s.size);
    } else if ev.Step? && w.pc.StealStore? {
      WriteAbove(w, w.tail + w.pc.k, w.pc.x, s.size);
    }
  }

  predicate AllMoved(s: State, s': State)
    requires s.size > 0
  {
    |s'.ws| == |s.ws| && s'.size == s.size && forall q :: 0 <= q < |s.ws| ==> Moved(s, s.ws[q], s'.ws[q])
  }

  lemma MovedStep(s: State, ev: Event)
    requires Inv(s) && Enabled(s, ev)
    ensures AllMoved(s, Next(s, ev))
  {
    FrameStep(s, ev);
    OwnMoved(s, ev);
    var s', x := Next(s, ev), Victim(s, ev);
    forall q | 0 <= q < |s.ws| ensures Moved(s, s.ws[q], s'.ws[q]) {
      if q == x {
        assert WorkerOk(s, s.ws[ev.t]);
      }
    }
  }

  /** A copy made from another ring stays good as long as that ring's head has not moved. */
  lemma ThiefKeeps(s: State, s': State, w: Worker, w': Worker, o: nat, oh: int, n: int, k: int)
    requires Shape(s) && Shape(s') && AllMoved(s, s') && |w.buf| == s.size
    requires ThiefOk(s, w, o, oh, n, k)
    requires w'.buf == w.buf && w'.tail == w.tail && w.head <= w'.head
    ensures ThiefOk(s', w', o, oh, n, k)
  {
    var v, v' := s.ws[o], s'.ws[o];
    assert Moved(s, v, v');
    if v'.head == oh {
      forall i | w.tail <= i < w.tail + k
        ensures w'.buf[Slot(i, s.size)] == v'.buf[Slot(i - w.tail + oh, s.size)]
      {
        var p := i - w.tail + oh;
        assert v'.buf[Slot(p, s.size)] == v.buf[Slot(p, s.size)];
      }
    }
  }

  /** Other workers' events leave a worker's own bookkeeping true, even when they take from its ring. */
  lemma OtherKeeps(s: State, s': State, w: Worker, w': Worker)
    requires Shape(s) && Shape(s') && AllMoved(s, s') && |w.buf| == s.size && WorkerOk(s, w)
    requires w' == w.(head := w'.head) && w.head <= w'.head <= w'.tail
    ensures WorkerOk(s', w')
  {
    hide Slot;
    match w.pc
    case StealLoad(o, oh, n, k) => ThiefKeeps(s, s', w, w', o, oh, n, k);
    case StealStore(o, oh, n, k, x) =>
      ThiefKeeps(s, s', w, w', o, oh, n, k);
      assert Moved(s, s.ws[o], s'.ws[o]);
    case StealCas(o, oh, n) => ThiefKeeps(s, s', w, w', o, oh, n, n);
    case StealOtherTail(o, h, oh) => assert Moved(s, s.ws[o], s'.ws[o]);
    case _ =>
  }

  lemma OwnPush(s: State, t: nat)
    requires Inv(s) && Enabled(s, Step(t))
    requires var pc := s.ws[t].pc; pc.PushHead? || pc.PushStore? || pc.PushTail? || pc.PushCas? || pc.PushDrain?
    ensures var s' := StepPush(s, t); Shape(s') && WorkerOk(s', s'.ws[t])
  {
    assert WorkerOk(s, s.ws[t]);
  }

  lemma OwnPop(s: State, t: nat)
    requires Inv(s) && Enabled(s, Step(t))
    requires var pc := s.ws[t].pc; pc.PopHead? || pc.PopRead? || pc.PopCas?
    ensures var s' := StepPop(s, t); Shape(s') && WorkerOk(s', s'.ws[t])
  {
    assert WorkerOk(s, s.ws[t]);
  }

  lemma PlanFits(size: nat, o: nat, h: int, tail: int, oh: int, ot: int)
    requires size > 0 && tail <= h + size
    ensures var pc := Plan(size, o, h, tail, oh, ot);
            pc == StealHead(o) || pc == Idle ||
            (pc.StealLoad? && pc.o == o && pc.oh == oh && pc.k == 0 && 0 < pc.n &&
             oh + pc.n <= ot && tail + pc.n <= h + size)
  {
  }

  lemma OwnStealReads(s: State, t: nat)
    requires Inv(s) && Enabled(s, Step(t))
    requires var pc := s.ws[t].pc;
             pc.StealHead? || pc.StealOtherHead? || pc.StealOtherTail? || pc.StealTake? || pc.StealTail?
    ensures var s' := StepSteal(s, t); Shape(s') && WorkerOk(s', s'.ws[t])
  {
    var w := s.ws[t];
    assert WorkerOk(s, w);
    if w.pc.StealOtherTail? {
      PlanFits(s.size, w.pc.o, w.pc.h, w.tail, w.pc.oh, s.ws[w.pc.o].tail);
      var w' := StepSteal(s, t).ws[t];
      if w'.pc.StealLoad? {
        assert Copied(s.ws[w.pc.o].buf, w.pc.oh, w.buf, w.tail, 0, s.size);
      }
    }
  }

  lemma OwnStealLoad(s: State, t: nat)
    requires Inv(s) && Enabled(s, Step(t)) && s.ws[t].pc.StealLoad? && AllMoved(s, StepSteal(s, t))
    ensures var s' := StepSteal(s, t); Shape(s') && WorkerOk(s', s'.ws[t])
  {
    var w, s' := s.ws[t], StepSteal(s, t);
    assert WorkerOk(s, w);
    ThiefKeeps(s, s', w, s'.ws[t], w.pc.o, w.pc.oh, w.pc.n, w.pc.k);
  }

  lemma CopyStep(s: State, s': State, w: Worker, o: nat, oh: int, n: int, k: nat, x: int)
    requires Shape(s) && Shape(s') && AllMoved(s, s') && |w.buf| == s.size && w.head <= w.tail
    requires ThiefOk(s, w, o, oh, n, k) && k < n && s'.ws[o].head == oh
    requires s.ws[o].head == oh ==> x == s.ws[o].buf[Slot(oh + k, s.size)]
    ensures Copied(s'.ws[o].buf, oh, w.buf[Slot(w.tail + k, s.size) := x], w.tail, k + 1, s.size)
  {
    var v, v' := s.ws[o], s'.ws[o];
    assert Moved(s, v, v') && v.head == oh;
    var b' := w.buf[Slot(w.tail + k, s.size) := x];
    forall i | w.tail <= i < w.tail + k + 1
      ensures b'[Slot(i, s.size)] == v'.buf[Slot(i - w.tail + oh, s.size)]
    {
      var p := i - w.tail + oh;
      assert v'.buf[Slot(p, s.size)] == v.buf[Slot(p, s.size)];
      if i < w.tail + k {
        SlotsDiffer(i, w.tail + k, s.size);
        assert b'[Slot(i, s.size)] == w.buf[Slot(i, s.size)];
      }
    }
  }

  lemma OwnStealStore(s: State, t: nat)
    requires Inv(s) && Enabled(s, Step(t)) && s.ws[t].pc.StealStore? && AllMoved(s, StepSteal(s, t))
    ensures var s' := StepSteal(s, t); Shape(s') && WorkerOk(s', s'.ws[t])
  {
    var w, s' := s.ws[t], StepSteal(s, t);
    assert WorkerOk(s, w);
    var o, oh, n, k := w.pc.o, w.pc.oh, w.pc.n, w.pc.k;
    hide Inv, Slot;
    assert ThiefOk(s', s'.ws[t], o, oh, n, k + 1) by {
      assert Moved(s, s.ws[o], s'.ws[o]);
      if s'.ws[o].head == oh {
        CopyStep(s, s', w, o, oh, n, k, w.pc.x);
      }
    }
  }

  lemma OwnStealCas(s: State, t: nat)
    requires Inv(s) && Enabled(s, Step(t)) && s.ws[t].pc.StealCas?
    ensures var s' := StepSteal(s, t); Shape(s') && WorkerOk(s', s'.ws[t])
  {
    assert WorkerOk(s, s.ws[t]);
  }

  lemma OwnStep(s: State, ev: Event)
    requires Inv(s) && Enabled(s, ev) && AllMoved(s, Next(s, ev))
    ensures Shape(Next(s, ev)) && WorkerOk(Next(s, ev), Next(s, ev).ws[ev.t])
  {
    var w := s.ws[ev.t];
    assert WorkerOk(s, w);
    if ev.Step? {
      if w.pc.StealLoad? {
        OwnStealLoad(s, ev.t);
      } else if w.pc.StealStore? {
        OwnStealStore(s, ev.t);
      } else if w.pc.StealCas? {
        OwnStealCas(s, ev.t);
      } else if Stealing(w.pc) {
        OwnStealReads(s, ev.t);
      } else if w.pc.PopHead? || w.pc.PopRead? || w.pc.PopCas? {
        OwnPop(s, ev.t);
      } else {
        OwnPush(s, ev.t);
      }
    }
  }

  // ---------------------------------------------------------------------------------------
  // Conservation
  // ---------------------------------------------------------------------------------------

  function One(b: bool): int { if b then 1 else 0 }

  /** How often `v` occurs in the positions [from, till) of a ring. */
  function Occurs(buf: seq<int>, from: int, till: int, size: nat, v: int): nat
    requires size > 0 && |buf| == size
    decreases till - from
  {
    if from >= till then 0 else One(buf[Slot(from, size)] == v) + Occurs(buf, from + 1, till, size, v)
  }

  lemma {:induction false} OccursSplit(buf: seq<int>, from: int, mid: int, till: int, size: nat, v: int)
    requires size > 0 && |buf| == size && from <= mid <= till
    ensures Occurs(buf, from, till, size, v) == Occurs(buf, from, mid, size, v) + Occurs(buf, mid, till, size, v)
    decreases mid - from
  {
    if from < mid {
      OccursSplit(buf, from + 1, mid, till, size, v);
    }
  }

  lemma {:induction false} OccursCopied(a: seq<int>, p: int, b: seq<int>, q: int, n: nat, size: nat, v: int)
    requires size > 0 && |a| == |b| == size && Copied(a, p, b, q, n, size)
    ensures Occurs(b, q, q + n, size, v) == Occurs(a, p, p + n, size, v)
    decreases n
  {
    if n > 0 {
      assert b[Slot(q, size)] == a[Slot(q - q + p, size)];
      forall i | q + 1 <= i < q + n ensures b[Slot(i, size)] == a[Slot(i - (q + 1) + (p + 1), size)] {
        assert b[Slot(i, size)] == a[Slot(i - q + p, size)];
        assert i - q + p == i - (q + 1) + (p + 1);
      }
      OccursCopied(a, p + 1, b, q + 1, n - 1, size, v);
    }
  }

  /** What a worker holds outside every ring: a value being pushed, overflow being drained, loot. */
  function InFlight(w: Worker, size: nat, v: int): nat
    requires size > 0 && |w.buf| == size
  {
    match w.pc
    case PushHead(x) => One(x == v)
    case PushStore(x, _) => One(x == v)
    case PushTail(x) => One(x == v)
    case PushCas(x, _) => One(x == v)
    case PushDrain(x, h, k) => One(x == v) + Occurs(w.buf, h + k, h + Batch(size), size, v)
    case StealTake(n) => Occurs(w.buf, w.tail, w.tail + n + 1, size, v)
    case StealTail(n, x) => Occurs(w.buf, w.tail, w.tail + n, size, v) + One(x == v)
    case _ => 0
  }

  function Holdings(w: Worker, size: nat, v: int): nat
    requires size > 0 && |w.buf| == size
  {
    Occurs(w.buf, w.head, w.tail, size, v) + InFlight(w, size, v)
  }

  function Total(ws: seq<Worker>, size: nat, v: int): nat
    requires size > 0 && forall i :: 0 <= i < |ws| ==> |ws[i].buf| == size
  {
    if ws == [] then 0 else Holdings(ws[0], size, v) + Total(ws[1..], size, v)
  }

  lemma {:induction false} TotalUpdate(ws: seq<Worker>, t: nat, w: Worker, size: nat, v: int)
    requires size > 0 && t < |ws| && |w.buf| == size && forall i :: 0 <= i < |ws| ==> |ws[i].buf| == size
    ensures Total(ws[t := w], size, v) == Total(ws, size, v) - Holdings(ws[t], size, v) + Holdings(w, size, v)
  {
    if t > 0 {
      assert ws[t := w][1..] == ws[1..][t - 1 := w];
      TotalUpdate(ws[1..], t - 1, w, size, v);
    } else {
      assert ws[t := w][1..] == ws[1..];
    }
  }

  /**
    Every copy of every value pushed is in some ring, in some worker's hands, taken by a pop or a
    steal, or overflowed: in exactly one of these places.
  */
  ghost predicate Conserved(s: State) {
    Shape(s) && forall v :: s.pushed[v] == Total(s.ws, s.size, v) + s.taken[v] + s.overflowed[v]
  }

  /** The live part of a ring after a step that only writes outside it. */
  lemma LiveKept(s: State, w: Worker, w': Worker, v: int)
    requires s.size > 0 && Moved(s, w, w') && w.head <= w.tail
    ensures Occurs(w'.buf, w.head, w.tail, s.size, v) == Occurs(w.buf, w.head, w.tail, s.size, v)
  {
    OccursCopied(w.buf, w.head, w'.buf, w.head, w.tail - w.head, s.size, v);
  }

  /** What has come in less what has gone out, for one value. */
  function Net(s: State, v: int): int { s.pushed[v] as int - s.taken[v] as int - s.overflowed[v] as int }

  /** A full ring's oldest batch moves from the live part to the pusher's hands. */
  lemma OverflowBalance(w: Worker, size: nat, v: int)
    requires size > 0 && |w.buf| == size && w.pc.PushCas? && w.tail == w.head + size
    ensures Holdings(w.(head := w.head + Batch(size), pc := PushDrain(w.pc.v, w.head, 0)), size, v)
      == Holdings(w, size, v)
  {
    OccursSplit(w.buf, w.head, w.head + Batch(size), w.tail, size, v);
  }

  lemma BalancePush(s: State, t: nat, v: int)
    requires Inv(s) && Enabled(s, Step(t))
    requires var pc := s.ws[t].pc; pc.PushTail? || pc.PushCas?
    ensures var s' := StepPush(s, t);
            t < |s'.ws| && |s'.ws[t].buf| == s.size &&
            Holdings(s'.ws[t], s.size, v) - Holdings(s.ws[t], s.size, v) == Net(s', v) - Net(s, v)
  {
    var w := s.ws[t];
    assert WorkerOk(s, w);
    if w.pc.PushTail? {
      OccursSplit(w.buf, w.head, w.tail, w.tail + 1, s.size, v);
    } else if w.head == w.pc.h {
      OverflowBalance(w, s.size, v);
    }
  }

  lemma BalanceDrain(s: State, t: nat, v: int)
    requires Inv(s) && Enabled(s, Step(t)) && s.ws[t].pc.PushDrain?
    ensures var s' := StepPush(s, t);
            t < |s'.ws| && |s'.ws[t].buf| == s.size &&
            Holdings(s'.ws[t], s.size, v) - Holdings(s.ws[t], s.size, v) == Net(s', v) - Net(s, v)
  {
    assert WorkerOk(s, s.ws[t]);
  }

  lemma BalanceSteal(s: State, t: nat, v: int)
    requires Inv(s) && Enabled(s, Step(t))
    requires var pc := s.ws[t].pc; pc.StealTake? || pc.StealTail?
    ensures var s' := StepSteal(s, t);
            t < |s'.ws| && |s'.ws[t].buf| == s.size &&
            Holdings(s'.ws[t], s.size, v) - Holdings(s.ws[t], s.size, v) == Net(s', v) - Net(s, v)
  {
    var w := s.ws[t];
    assert WorkerOk(s, w);
    match w.pc
    case StealTake(n) => OccursSplit(w.buf, w.tail, w.tail + n, w.tail + n + 1, s.size, v);
    case StealTail(n, _) => OccursSplit(w.buf, w.head, w.tail, w.tail + n, s.size, v);
  }

  /** Steps that only read, or write outside the live part of the own ring. */
  lemma BalanceQuiet(s: State, ev: Event, v: int)
    requires Inv(s) && Enabled(s, ev) && Moved(s, s.ws[ev.t], Next(s, ev).ws[ev.t])
    requires var pc := s.ws[ev.t].pc;
             !ev.Step?
               || !(pc.PushTail? || pc.PushCas? || pc.PushDrain? || pc.StealCas? || pc.StealTake? || pc.StealTail?)
    ensures var s' := Next(s, ev);
            Holdings(s'.ws[ev.t], s.size, v) - Holdings(s.ws[ev.t], s.size, v) == Net(s', v) - Net(s, v)
  {
    assert WorkerOk(s, s.ws[ev.t]);
    LiveKept(s, s.ws[ev.t], Next(s, ev).ws[ev.t], v);
  }

  /** A successful theft: the loot in hand is exactly what left the other ring. */
  lemma LootIsLive(s: State, t: nat, v: int)
    requires Inv(s) && t < |s.ws| && s.ws[t].pc.StealCas?
    requires var pc := s.ws[t].pc; pc.o < |s.ws| && s.ws[pc.o].head == pc.oh
    ensures var w := s.ws[t]; var o := s.ws[w.pc.o];
            w.pc.oh + w.pc.n <= o.tail && w.pc.n > 0 &&
            Copied(o.buf, w.pc.oh, w.buf, w.tail, w.pc.n, s.size) &&
            Occurs(o.buf, o.head, o.tail, s.size, v)
            == Occurs(w.buf, w.tail, w.tail + w.pc.n, s.size, v) + Occurs(o.buf, w.pc.oh + w.pc.n, o.tail, s.size, v)
  {
    var w := s.ws[t];
    assert WorkerOk(s, w);
    var o := s.ws[w.pc.o];
    OccursCopied(o.buf, w.pc.oh, w.buf, w.tail, w.pc.n, s.size, v);
    OccursSplit(o.buf, o.head, w.pc.oh + w.pc.n, o.tail, s.size, v);
  }

  lemma HeadMoved(w: Worker, head: int, size: nat, v: int)
    requires size > 0 && |w.buf| == size && w.head <= head <= w.tail
    ensures Holdings(w.(head := head), size, v) + Occurs(w.buf, w.head, w.tail, size, v)
         == Holdings(w, size, v) + Occurs(w.buf, head, w.tail, size, v)
  {
  }

  lemma LootTaken(w: Worker, n: nat, size: nat, v: int)
    requires size > 0 && |w.buf| == size && w.pc.StealCas? && n > 0
    ensures Holdings(w.(pc := StealTake(n - 1)), size, v)
         == Holdings(w, size, v) + Occurs(w.buf, w.tail, w.tail + n, size, v)
  {
  }

  /** Moving `n` elements from the live part of one worker's ring into a thief's hands keeps the total. */
  lemma TheftTotal(ws: seq<Worker>, o: nat, t: nat, n: nat, size: nat, v: int)
    requires size > 0 && o < |ws| && t < |ws| && forall i :: 0 <= i < |ws| ==> |ws[i].buf| == size
    requires ws[t].pc.StealCas? && n > 0 && ws[o].head + n <= ws[o].tail
    requires Occurs(ws[o].buf, ws[o].head, ws[o].tail, size, v)
          == Occurs(ws[t].buf, ws[t].tail, ws[t].tail + n, size, v)
             + Occurs(ws[o].buf, ws[o].head + n, ws[o].tail, size, v)
    ensures var mid := ws[o := ws[o].(head := ws[o].head + n)];
            var end := mid[t := mid[t].(pc := StealTake(n - 1))];
            (forall i :: 0 <= i < |end| ==> |end[i].buf| == size) && Total(end, size, v) == Total(ws, size, v)
  {
    var mid := ws[o := ws[o].(head := ws[o].head + n)];
    TotalUpdate(ws, o, mid[o], size, v);
    HeadMoved(ws[o], mid[o].head, size, v);
    TotalUpdate(mid, t, mid[t].(pc := StealTake(n - 1)), size, v);
    LootTaken(mid[t], n, size, v);
  }

  lemma TheftShape(s: State, t: nat)
    requires Enabled(s, Step(t)) && s.ws[t].pc.StealCas?
    ensures var w, ws := s.ws[t], s.ws; var o, n := w.pc.o, w.pc.n;
            StepSteal(s, t).ws ==
            if ws[o].head == w.pc.oh then
              var mid := ws[o := ws[o].(head := ws[o].head + n)]; mid[t := mid[t].(pc := StealTake(n - 1))]
            else ws[t := w.(pc := StealHead(o))]
  {
  }

  lemma TheftBalances(s: State, t: nat, v: int)
    requires Inv(s) && Enabled(s, Step(t)) && s.ws[t].pc.StealCas? && Shape(StepSteal(s, t))
    ensures Total(StepSteal(s, t).ws, s.size, v) == Total(s.ws, s.size, v)
  {
    hide StepSteal;
    TheftShape(s, t);
    var w := s.ws[t];
    if s.ws[w.pc.o].head == w.pc.oh {
      LootIsLive(s, t, v);
      TheftTotal(s.ws, w.pc.o, t, w.pc.n, s.size, v);
    } else {
      TotalUpdate(s.ws, t, w.(pc := StealHead(w.pc.o)), s.size, v);
    }
  }

  lemma OwnBalance(s: State, ev: Event, v: int)
    requires Inv(s) && Enabled(s, ev) && AllMoved(s, Next(s, ev)) && !(ev.Step? && s.ws[ev.t].pc.StealCas?)
    ensures var s' := Next(s, ev);
            Holdings(s'.ws[ev.t], s.size, v) - Holdings(s.ws[ev.t], s.size, v) == Net(s', v) - Net(s, v)
  {
    var pc := s.ws[ev.t].pc;
    assert Moved(s, s.ws[ev.t], Next(s, ev).ws[ev.t]);
    if ev.Step? && (pc.PushTail? || pc.PushCas?) {
      BalancePush(s, ev.t, v);
    } else if ev.Step? && pc.PushDrain? {
      BalanceDrain(s, ev.t, v);
    } else if ev.Step? && (pc.StealTake? || pc.StealTail?) {
      BalanceSteal(s, ev.t, v);
    } else {
      BalanceQuiet(s, ev, v);
    }
  }
}
