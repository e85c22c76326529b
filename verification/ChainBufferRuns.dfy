/**
  Whole runs of the chained buffer (td/utils/buffer.h): every reader sees a prefix of what was appended, skips no
  byte, and finds what there is to find.
*/
module ChainBufferRuns {
  import opened ChainBuffer

  ghost predicate IsRun(size: nat, states: seq<State>, events: seq<Event>) {
    && |states| == |events| + 1 && states[0] == Init(size)
    && forall i :: 0 <= i < |events| ==> Enabled(states[i], events[i]) && states[i + 1] == Next(states[i], events[i])
  }

  lemma {:induction false} RunInvariant(size: nat, states: seq<State>, events: seq<Event>, i: nat)
    requires IsRun(size, states, events) && i < |states|
    ensures Inv(states[i])
  {
    hide Next, Inv;
    if i == 0 {
      InitInv(size);
    } else {
      RunInvariant(size, states, events, i - 1);
      if WriterEvent(events[i - 1]) {
        WriterStep(states[i - 1], events[i - 1]);
      } else {
        ReaderStep(states[i - 1], events[i - 1]);
      }
    }
  }

  /** Every iterator has read a prefix of what was appended, and knows how long it is. */
  lemma FaithfulStream(size: nat, states: seq<State>, events: seq<Event>, i: nat, q: nat)
    requires IsRun(size, states, events) && i < |states| && q < |states[i].iters|
    ensures states[i].iters[q].got <= states[i].appended && states[i].iters[q].offset == |states[i].iters[q].got|
    ensures states[i].iters[q].node == NULL ==> states[i].iters[q].got == states[i].appended
  {
    hide Next, ChainOk;
    RunInvariant(size, states, events, i);
    assert IterOk(states[i], states[i].iters[q]);
  }

  /** When an iterator leaves a node, it leaves no byte of it behind, and none is added afterwards. */
  lemma NoByteSkipped(size: nat, states: seq<State>, events: seq<Event>, i: nat, j: nat, q: nat)
    requires IsRun(size, states, events) && i <= j < |states| && q < |states[i].iters|
    requires states[i].iters[q].pc.Leave?
    ensures var k := states[i].iters[q].node;
            IsNode(states[i], k) && IsNode(states[j], k) && states[i].iters[q].b == Limit(states[j].nodes[k])
    decreases j
  {
    hide Next, ChainOk, ChainGrows;
    RunInvariant(size, states, events, i);
    assert IterOk(states[i], states[i].iters[q]);
    if i < j {
      NoByteSkipped(size, states, events, i, j - 1, q);
      RunInvariant(size, states, events, j - 1);
      NodesFinal(size, states, events, i, j, states[i].iters[q].node);
    }
  }

  lemma {:induction false} NodesFinal(size: nat, states: seq<State>, events: seq<Event>, i: nat, j: nat, k: nat)
    requires IsRun(size, states, events) && i <= j < |states| && k < |states[i].nodes| && !states[i].nodes[k].hasWriter
    ensures k < |states[j].nodes| && !states[j].nodes[k].hasWriter
      && Limit(states[j].nodes[k]) == Limit(states[i].nodes[k])
    decreases j
  {
    hide Next, Inv, Limit, ChainGrows;
    if i < j {
      NodesFinal(size, states, events, i, j - 1, k);
      RunInvariant(size, states, events, j - 1);
      if WriterEvent(events[j - 1]) {
        WriterStep(states[j - 1], events[j - 1]);
        GrowsFinal(states[j - 1], states[j], k);
      } else {
        ReaderFrame(states[j - 1], events[j - 1]);
      }
    }
  }

  lemma GrowsFinal(s: State, s': State, k: nat)
    requires Inv(s) && ChainGrows(s, s') && k < |s.nodes| && !s.nodes[k].hasWriter
    ensures k < |s'.nodes| && !s'.nodes[k].hasWriter && Limit(s'.nodes[k]) == Limit(s.nodes[k])
  {
    assert Grows(s.nodes[k], s'.nodes[k]);
  }

  // ---------------------------------------------------------------------------------------
  // An undisturbed prepare_read
  // ---------------------------------------------------------------------------------------

  /** Bytes that a reader can reach: those of the nodes up to the writer's. */
  function Visible(s: State): nat
    requires ChainOk(s)
  {
    s.nodes[s.tail].first + Length(s.nodes[s.tail])
  }

  /** Iterator `i` alone takes `n` steps. */
  ghost predicate Alone(s: State, i: nat, n: nat, s': State)
    decreases n
  {
    if n == 0 then s' == s
    else exists m: State :: Alone(s, i, n - 1, m) && Enabled(m, Step(i)) && s' == Next(m, Step(i))
  }

  lemma AloneNext(s: State, i: nat, n: nat, m: State)
    requires Alone(s, i, n, m) && Enabled(m, Step(i))
    ensures Alone(s, i, n + 1, Next(m, Step(i)))
  {
    hide Next, Enabled;
  }

  lemma StepSame(m: State, s: State, it: Iter)
    requires m.nodes == s.nodes && !it.pc.Ready? && IsNode(s, it.node)
    ensures StepIter(m, it) == StepIter(s, it)
  {
  }

  lemma AloneIter(s: State, i: nat, n: nat, it: Iter)
    requires ChainOk(s) && i < |s.iters| && Alone(s, i, n, PutIter(s, i, it)) && !it.pc.Ready? && IsNode(s, it.node)
    ensures Alone(s, i, n + 1, PutIter(s, i, StepIter(s, it)))
  {
    hide Alone, StepIter;
    var m := PutIter(s, i, it);
    AloneNext(s, i, n, m);
    assert m.iters[i] == it && StepIter(m, it) == StepIter(s, it) by { StepSame(m, s, it); }
    assert m.iters[i := StepIter(s, it)] == s.iters[i := StepIter(s, it)];
    assert Next(m, Step(i)) == PutIter(s, i, StepIter(s, it));
  }

  /** The slice at hand ends where the node's readable bytes end. */
  predicate Shown(s: State, it: Iter) { IsNode(s, it.node) ==> it.e == Limit(s.nodes[it.node]) }

  /**
    While the writer stands still, prepare_read comes back empty-handed only to an iterator that has
    read every byte a reader can reach; and it never loses its place. What it shows is all the node has.
  */
  lemma {:induction false} PrepareFinds(s: State, i: nat, n: nat, it: Iter)
    requires Inv(s) && i < |s.iters| && Alone(s, i, n, PutIter(s, i, it)) && IterOk(s, it) && it.node != NULL
      && it.pc.Look?
    ensures exists n': nat, it': Iter ::
              Alone(s, i, n', PutIter(s, i, it')) && it'.pc.Ready? && it'.got == it.got && IterOk(s, it')
              && Shown(s, it') && (it'.b < it'.e || it'.offset == Visible(s))
    decreases |s.nodes| - it.node
  {
    hide ChainOk, StepIter, Alone, Visible, Shown;
    var it1 := StepIter(s, it);
    Stages(s, it);
    AloneIter(s, i, n, it);
    LookOk(s, it);
    var it2 := StepIter(s, it1);
    AloneIter(s, i, n + 1, it1);
    LookOk(s, it1);
    if it2.pc.Ready? {
      StaysReady(s, it);
    } else {
      var it3 := StepIter(s, it2);
      AloneIter(s, i, n + 2, it2);
      LeaveOk(s, it2);
      MovesOn(s, it2);
      if it3.pc.Look? {
        PrepareFinds(s, i, n + 3, it3);
      }
    }
  }

  lemma StaysReady(s: State, it: Iter)
    requires ChainOk(s) && IterOk(s, it) && it.node != NULL && it.pc.Look?
    ensures var it2 := StepIter(s, StepIter(s, it));
            && it2.got == it.got && (it2.pc.Ready? && it2.b >= it2.e ==> it2.offset == Visible(s))
            && Shown(s, it2)
  {
  }

  lemma Stages(s: State, it: Iter)
    requires ChainOk(s) && IterOk(s, it) && it.node != NULL && it.pc.Look?
    ensures var it1 := StepIter(s, it);
            it1.pc.Sync? && it1.node == it.node && var it2 := StepIter(s, it1);
            it2.node == it.node && (it2.pc.Ready? || it2.pc.Leave?) && it2.got == it.got
  {
  }

  lemma MovesOn(s: State, it: Iter)
    requires ChainOk(s) && IterOk(s, it) && it.node != NULL && it.pc.Leave?
    ensures var it3 := StepIter(s, it);
            it3.got == it.got && (it3.node == NULL ==> it3.offset == Visible(s))
              && (it3.node != NULL ==> it3.node == it.node + 1)
            && (it3.pc.Ready? ==> Shown(s, it3) && (it3.b < it3.e || it3.node == NULL))
            && (it3.pc.Ready? || it3.pc.Look?)
  {
  }
}
