/**
  Whole runs of MpmcSleepyWaiter (td/utils/MpmcWaiter.h): no wakeup is lost, and how many workers the
  CHECKs allow.
*/
module SleepyWaiterRuns {
  import opened SleepyWaiter

  lemma InvStep(s: State, ev: Event)
    requires Inv(s) && Enabled(s, ev)
    ensures Inv(Next(s, ev))
  {
    TargetStep(s, ev);
    FrameStep(s, ev);
    FailStep(s, ev);
    MutexStep(s, ev);
    AgentsStep(s, ev);
    SleepersStep(s, ev, Next(s, ev));
    CountsStep(s, ev, Next(s, ev));
    ProducerStep(s, ev, Next(s, ev));
  }

  lemma AttendedStep(s: State, ev: Event)
    requires Inv(s) && Enabled(s, ev) && Attended(s)
    ensures Attended(Next(s, ev))
  {
    var s' := Next(s, ev);
    if s'.pending > 0 {
      InvStep(s, ev);
      TargetStep(s, ev);
      FrameStep(s, ev);
      TargetRole(s, ev);
      var r: nat := ev.t;
      if !ev.Produce? {
        r :| r < |s.agents| && Responsible(s.agents[r]);
      }
      if r == ev.t {
        if ev.Produce? {
          ProduceResponsible(s, ev.t);
        } else {
          OwnResponsible(s, ev, s');
        }
      } else if r == Target(s, ev) {
        TargetResponsible(s, ev, r);
      }
      assert Responsible(s'.agents[r]) || SomeoneResponsible(s');
    }
  }

  ghost predicate IsRun(workers: nat, producers: nat, states: seq<State>, events: seq<Event>) {
    && |states| == |events| + 1 && states[0] == Init(workers, producers)
    && forall i :: 0 <= i < |events| ==> Enabled(states[i], events[i]) && states[i + 1] == Next(states[i], events[i])
  }

  lemma {:induction false} CountEqual(agents: seq<Agent>, role: Role, same: bool)
    requires forall a :: a in agents ==> (a.role == role) == same
    ensures Count(agents, role) == if same then |agents| else 0
  {
    if agents != [] {
      CountEqual(agents[1..], role, same);
    }
  }

  lemma {:induction false} CountJoin(a: seq<Agent>, b: seq<Agent>, role: Role)
    ensures Count(a + b, role) == Count(a, role) + Count(b, role)
  {
    if a == [] {
      assert a + b == b;
    } else {
      assert (a + b)[1..] == a[1..] + b;
      CountJoin(a[1..], b, role);
    }
  }

  lemma CountInit(workers: nat, producers: nat, role: Role)
    ensures Count(Init(workers, producers).agents, role)
            == if role.Producer? then producers else if role.Working? then workers else 0
  {
    var first := seq(workers, i => Agent(Working, Work, false, Ready));
    var rest := seq(producers, i => Agent(Producer, Work, false, Ready));
    assert Init(workers, producers).agents == first + rest;
    hide Count, Init;
    CountEqual(first, role, role.Working?);
    CountEqual(rest, role, role.Producer?);
    CountJoin(first, rest, role);
  }

  lemma InitInv(workers: nat, producers: nat)
    requires 0 < workers < 1000
    ensures Inv(Init(workers, producers)) && Attended(Init(workers, producers))
  {
    CountInit(workers, producers, Producer);
    CountInit(workers, producers, Searching);
    CountInit(workers, producers, Parked);
    var s := Init(workers, producers);
    assert MutexOk(s);
    assert forall t :: 0 <= t < |s.agents| ==> AgentOk(s.agents[t], Moving(s) == t, Waking(s) == t);
  }

  lemma {:induction false} RunInvariant(workers: nat, producers: nat, states: seq<State>, events: seq<Event>, i: nat)
    requires 0 < workers < 1000 && IsRun(workers, producers, states, events) && i < |states|
    ensures Inv(states[i]) && Attended(states[i])
  {
    if i == 0 {
      InitInv(workers, producers);
    } else {
      RunInvariant(workers, producers, states, events, i - 1);
      InvStep(states[i - 1], events[i - 1]);
      AttendedStep(states[i - 1], events[i - 1]);
    }
  }

  /** Every worker is blocked in park and every producer has finished its notify. */
  predicate Quiescent(s: State) {
    forall t :: 0 <= t < |s.agents| ==>
                  var a := s.agents[t];
                  if a.role.Producer? then a.pc.Ready? else a.pc.Park? && !a.flag
  }

  /** Nobody is responsible for pending work when everybody is blocked and nobody is in notify. */
  lemma QuiescentMeansNobody(s: State)
    requires Inv(s) && Quiescent(s)
    ensures !SomeoneResponsible(s)
  {
    assert s.mutex == FREE;
    forall t: nat | t < |s.agents| ensures !Responsible(s.agents[t]) {
      assert AgentOk(s.agents[t], Moving(s) == t, Waking(s) == t);
    }
  }

  /** No lost wakeup: on every run, when everybody is blocked and nobody is in notify, no work is left. */
  lemma NoLostWakeup(workers: nat, producers: nat, states: seq<State>, events: seq<Event>, i: nat)
    requires 0 < workers < 1000 && IsRun(workers, producers, states, events) && i < |states|
    requires Quiescent(states[i])
    ensures states[i].pending == 0
  {
    RunInvariant(workers, producers, states, events, i);
    QuiescentMeansNobody(states[i]);
  }

  /** Whenever sleepers_mutex_ is free the packed parked count is the length of the list. */
  lemma ParkedCountIsListSize(workers: nat, producers: nat, states: seq<State>, events: seq<Event>, i: nat)
    requires 0 < workers < 1000 && IsRun(workers, producers, states, events) && i < |states|
    requires states[i].mutex == FREE
    ensures ParkedCount(states[i].state) == |states[i].sleepers| && NoDuplicates(states[i].sleepers)
    ensures 0 <= states[i].state < 0x8000_0000
  {
    RunInvariant(workers, producers, states, events, i);
    Unpack(states[i]);
  }

  // ---------------------------------------------------------------------------------------
  // CHECK(state_view.searching_count < 1000)
  // ---------------------------------------------------------------------------------------

  ghost predicate CanFail(workers: nat, producers: nat) {
    exists states: seq<State>, events: seq<Event> ::
      IsRun(workers, producers, states, events) && states[|events|].failed
  }

  /** The state in which the first `k` workers have started searching. */
  function Gathered(workers: nat, producers: nat, k: nat): State {
    State(seq(workers, i =>
                if i < k then Agent(Searching, Search, false, Ready) else Agent(Working, Work, false, Ready))
          + seq(producers, i => Agent(Producer, Work, false, Ready)),
          k, [], FREE, 0, false)
  }

  ghost predicate RunEndsIn(workers: nat, producers: nat, states: seq<State>, events: seq<Event>, s: State) {
    IsRun(workers, producers, states, events) && states[|events|] == s
  }

  lemma Extend(workers: nat, producers: nat, states: seq<State>, events: seq<Event>, s: State, ev: Event)
    requires RunEndsIn(workers, producers, states, events, s) && Enabled(s, ev)
    ensures RunEndsIn(workers, producers, states + [Next(s, ev)], events + [ev], Next(s, ev))
  {
    var states', events' := states + [Next(s, ev)], events + [ev];
    forall i | 0 <= i < |events'|
      ensures Enabled(states'[i], events'[i]) && states'[i + 1] == Next(states'[i], events'[i])
    {
      if i < |events| {
        assert states'[i] == states[i] && states'[i + 1] == states[i + 1] && events'[i] == events[i];
      }
    }
  }

  lemma {:induction false} Gather(workers: nat, producers: nat, k: nat)
    returns (states: seq<State>, events: seq<Event>)
    requires k <= workers
    ensures RunEndsIn(workers, producers, states, events, Gathered(workers, producers, k))
  {
    if k == 0 {
      states, events := [Init(workers, producers)], [];
      assert Gathered(workers, producers, 0).agents == Init(workers, producers).agents;
    } else {
      states, events := Gather(workers, producers, k - 1);
      var t := k - 1;
      var s := Gathered(workers, producers, t);
      var s1 := Next(s, Wait(t));
      Extend(workers, producers, states, events, s, Wait(t));
      states, events := states + [s1], events + [Wait(t)];
      Extend(workers, producers, states, events, s1, Step(t));
      assert Next(s1, Step(t)).agents == Gathered(workers, producers, k).agents;
      states, events := states + [Next(s1, Step(t))], events + [Step(t)];
    }
  }

  lemma ManyWorkersFail(workers: nat, producers: nat)
    requires 1000 <= workers
    ensures CanFail(workers, producers)
  {
    var states, events := Gather(workers, producers, 1000);
    var s := Gathered(workers, producers, 1000);
    var s1 := Next(s, Stop(0, false));
    Extend(workers, producers, states, events, s, Stop(0, false));
    Extend(workers, producers, states + [s1], events + [Stop(0, false)], s1, Step(0));
    assert Next(s1, Step(0)).failed;
  }

  /** With at least one worker, some run breaks a CHECK exactly when there are 1000 workers or more. */
  lemma ChecksHoldExactlyBelow1000Workers(workers: nat, producers: nat)
    requires workers > 0
    ensures CanFail(workers, producers) <==> workers >= 1000
  {
    if workers >= 1000 {
      ManyWorkersFail(workers, producers);
    } else if CanFail(workers, producers) {
      var states: seq<State>, events: seq<Event> :|
        IsRun(workers, producers, states, events) && states[|events|].failed;
      RunInvariant(workers, producers, states, events, |events|);
      assert false;
    }
  }
}
