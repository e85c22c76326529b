/** Whole runs of StealingQueue (td/utils/StealingQueue.h). */
module StealingQueueRuns {
  // Every event keeps the invariant and the balance, so nothing is lost or duplicated, and a successful thief has
  // copied live slots.

  import opened StealingQueue

  lemma InvStep(s: State, ev: Event)
    requires Inv(s) && Enabled(s, ev)
    ensures Inv(Next(s, ev))
  {
    var s', x := Next(s, ev), Victim(s, ev);
    FrameStep(s, ev);
    MovedStep(s, ev);
    OwnStep(s, ev);
    forall q | 0 <= q < |s'.ws| ensures WorkerOk(s', s'.ws[q]) {
      assert WorkerOk(s, s.ws[q]) && WorkerOk(s, s.ws[ev.t]);
      if q != ev.t {
        OtherKeeps(s, s', s.ws[q], s'.ws[q]);
      }
    }
  }

  lemma ConservedStep(s: State, ev: Event)
    requires Inv(s) && Conserved(s) && Enabled(s, ev)
    ensures Conserved(Next(s, ev))
  {
    var s' := Next(s, ev);
    InvStep(s, ev);
    MovedStep(s, ev);
    FrameStep(s, ev);
    forall v ensures s'.pushed[v] == Total(s'.ws, s'.size, v) + s'.taken[v] + s'.overflowed[v] {
      if ev.Step? && s.ws[ev.t].pc.StealCas? {
        TheftBalances(s, ev.t, v);
      } else {
        OwnBalance(s, ev, v);
        assert s'.ws == s.ws[ev.t := s'.ws[ev.t]];
        TotalUpdate(s.ws, ev.t, s'.ws[ev.t], s.size, v);
      }
    }
  }

  ghost predicate IsRun(size: nat, workers: nat, states: seq<State>, events: seq<Event>) {
    && size > 0 && |states| == |events| + 1 && states[0] == Init(size, workers)
    && forall i :: 0 <= i < |events| ==> Enabled(states[i], events[i]) && states[i + 1] == Next(states[i], events[i])
  }

  lemma {:induction false} TotalInit(size: nat, workers: nat, v: int)
    requires size > 0
    ensures Shape(Init(size, workers)) && Total(Init(size, workers).ws, size, v) == 0
  {
    if workers > 0 {
      assert Init(size, workers).ws[1..] == Init(size, workers - 1).ws;
      TotalInit(size, workers - 1, v);
    }
  }

  /** No run loses or duplicates an element. */
  lemma {:induction false} NothingLostOrDuplicated(
    size: nat, workers: nat, states: seq<State>, events: seq<Event>, i: nat)
    requires IsRun(size, workers, states, events) && i < |states|
    ensures Inv(states[i]) && Conserved(states[i])
  {
    if i == 0 {
      forall v ensures Total(Init(size, workers).ws, size, v) == 0 {
        TotalInit(size, workers, v);
      }
    } else {
      NothingLostOrDuplicated(size, workers, states, events, i - 1);
      InvStep(states[i - 1], events[i - 1]);
      ConservedStep(states[i - 1], events[i - 1]);
    }
  }

  /**
    On every run, a thief whose compare-and-swap is about to succeed has copied exactly the live
    elements that its success removes from the other ring, none of them overwritten meanwhile.
  */
  lemma SuccessfulThiefCopiedLiveSlots(
    size: nat, workers: nat, states: seq<State>, events: seq<Event>, i: nat, t: nat)
    requires IsRun(size, workers, states, events) && i < |states| && t < |states[i].ws|
    requires states[i].ws[t].pc.StealCas?
    requires var pc := states[i].ws[t].pc; pc.o < |states[i].ws| && states[i].ws[pc.o].head == pc.oh
    ensures var w := states[i].ws[t]; var o := states[i].ws[w.pc.o]; var size := states[i].size;
            size > 0 && |w.buf| == |o.buf| == size && o.head == w.pc.oh &&
            0 < w.pc.n && o.head + w.pc.n <= o.tail && w.tail + w.pc.n <= w.head + size &&
            forall k :: w.tail <= k < w.tail + w.pc.n ==> w.buf[Slot(k, size)] == o.buf[Slot(k - w.tail + o.head, size)]
  {
    NothingLostOrDuplicated(size, workers, states, events, i);
    LootIsLive(states[i], t, 0);
    assert WorkerOk(states[i], states[i].ws[t]);
  }
}
