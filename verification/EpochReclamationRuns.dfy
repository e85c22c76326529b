/**
  Whole runs of epoch-based memory reclamation (td/utils/EpochBasedMemoryReclamation.h): what a reader
  may rely on.
*/
module EpochReclamationRuns {
  import opened EpochReclamation

  lemma InvStep(s: State, ev: Event)
    requires Inv(s) && Enabled(s, ev)
    ensures Inv(Next(s, ev))
  {
    ThreadsStep(s, ev);
    EpochsStep(s, ev);
    FreedStep(s, ev);
    forall q, b | 0 <= q < |s.threads| && 0 <= b < MAX_BAGS
      ensures BagOk(Next(s, ev), Next(s, ev).threads[q], b)
    {
      BagStep(s, ev, q, b);
    }
  }

  lemma ConservedStep(s: State, ev: Event)
    requires ThreadsOk(s) && Conserved(s) && Enabled(s, ev)
    ensures Conserved(Next(s, ev))
  {
    ThreadsStep(s, ev);
    OwnThreadStep(s, ev);
    OwnBagsStep(s, ev);
    var s' := Next(s, ev);
    var d, d' := s.threads[ev.t], s'.threads[ev.t];
    assert s'.threads == s.threads[ev.t := d'];
    HeldUpdate(s.threads, ev.t, d');
    Cancel(Held(s.threads), Held(s'.threads), InBags(d), InBags(d'), s.freed, s'.freed, s.retired, s'.retired);
  }

  ghost predicate IsRun(n: nat, states: seq<State>, events: seq<Event>) {
    && n > 0 && |states| == |events| + 1 && states[0] == Init(n)
    && forall i :: 0 <= i < |events| ==> Enabled(states[i], events[i]) && states[i + 1] == Next(states[i], events[i])
  }

  lemma {:induction false} HeldInit(k: nat)
    ensures Held(seq(k, i => InitThread())) == multiset{}
  {
    if k > 0 {
      assert seq(k, i => InitThread())[1..] == seq(k - 1, i => InitThread());
      HeldInit(k - 1);
    }
  }

  /** The invariant and conservation hold in every state of every run. */
  lemma {:induction false} RunInvariant(n: nat, states: seq<State>, events: seq<Event>, i: nat)
    requires IsRun(n, states, events) && i < |states|
    ensures Inv(states[i]) && Conserved(states[i]) && |states[i].threads| == n
  {
    if i == 0 {
      HeldInit(n);
    } else {
      RunInvariant(n, states, events, i - 1);
      InvStep(states[i - 1], events[i - 1]);
      ConservedStep(states[i - 1], events[i - 1]);
      OwnThreadStep(states[i - 1], events[i - 1]);
    }
  }

  predicate Forward(s: State, s': State, r: nat) {
    && r < |s.threads| == |s'.threads|
    && s.global <= s'.global && s.retired <= s'.retired
    && s.threads[r].session <= s'.threads[r].session
    && (s.threads[r].session == s'.threads[r].session ==> s.threads[r].pin == s'.threads[r].pin)
  }

  lemma ForwardStep(s: State, ev: Event, r: nat)
    requires ThreadsOk(s) && Enabled(s, ev) && r < |s.threads|
    ensures Forward(s, Next(s, ev), r)
  {
    OwnThreadStep(s, ev);
    assert ev.RetireObject? || Next(s, ev).retired == s.retired;
  }

  /** Global epoch, session counters and the retired objects only grow; a session keeps its pin. */
  lemma {:induction false} RunForward(n: nat, states: seq<State>, events: seq<Event>, i: nat, j: nat, r: nat)
    requires IsRun(n, states, events) && i <= j < |states| && r < n
    ensures Forward(states[i], states[j], r)
    decreases j - i
  {
    RunInvariant(n, states, events, i);
    if i < j {
      RunForward(n, states, events, i + 1, j, r);
      ForwardStep(states[i], events[i], r);
    }
  }

  /**
    While a thread stays in one announced session the global epoch rises by at most one, even if
    the epoch it announced was stale.
  */
  lemma EpochRisesByAtMostOne(n: nat, states: seq<State>, events: seq<Event>, i: nat, j: nat, r: nat)
    requires IsRun(n, states, events) && i <= j < |states| && r < n
    requires |states[i].threads| == |states[j].threads| == n
    requires states[i].threads[r].Active() && states[j].threads[r].Active()
    requires states[i].threads[r].session == states[j].threads[r].session
    ensures states[j].global <= states[i].global + 1
  {
    RunInvariant(n, states, events, i);
    RunInvariant(n, states, events, j);
    RunForward(n, states, events, i, j, r);
    assert PinOk(states[i], r) && PinOk(states[j], r);
  }

  /** No destroyed object was retired during a session that is still open. */
  lemma NothingFreedUnderAGuard(n: nat, states: seq<State>, events: seq<Event>, i: nat, o: Object, g: (nat, nat))
    requires IsRun(n, states, events) && i < |states|
    requires o in states[i].freed && g in o.guards
    ensures !Current(states[i], g)
  {
    RunInvariant(n, states, events, i);
    assert Over(states[i], g);
  }

  /**
    Safety of reclamation: an object retired at event `i`, while thread `r` was inside an announced
    session, is still held in some bag in every later state `j` in which `r` has neither left nor
    announced again.
  */
  lemma RetiredObjectsOutliveReaders(n: nat, states: seq<State>, events: seq<Event>, i: nat, j: nat, r: nat)
    requires IsRun(n, states, events) && i < j < |states| && events[i].RetireObject? && r < n
    requires |states[i].threads| == |states[j].threads| == n
    requires states[i].threads[r].Active() && states[j].threads[r].Active()
    requires states[i].threads[r].session == states[j].threads[r].session
    ensures var o := Object(events[i].id, Guards(states[i]));
            o !in states[j].freed && Conserved(states[j]) && o in Held(states[j].threads)
  {
    RunInvariant(n, states, events, j);
    RunForward(n, states, events, i + 1, j, r);
    var o := Object(events[i].id, Guards(states[i]));
    var g := (r, states[i].threads[r].session);
    assert g in o.guards && Current(states[j], g);
    assert o in states[i + 1].retired;
    assert !Over(states[j], g);
  }
}
