/**
  Who looks for pending work (td/utils/MpmcWaiter.h): the invariant "if possible, in Search state" over
  whole runs, and what wait, stop_wait and notify do when nobody else moves.
*/
module SleepyWaiterWatch {
  import opened SleepyWaiter
  import opened SleepyWaiterRuns

  /** A parked worker that looks for work once more before it can block, or has found some. */
  predicate LastLook(a: Agent) {
    && a.role.Parked?
    && (|| (a.pc.Ready? && a.slot.Sleep?) || (a.pc.WaitPush? && SearchingCount(a.pc.seen) == 1)
        || a.pc.StopLock? || a.pc.StopErase? || a.pc.StopAdd?)
  }

  /** Searching, about to wake a searcher, or on a last look. */
  predicate Watches(a: Agent) { a.role.Searching? || Notifying(a.pc) || LastLook(a) }

  ghost predicate Watched(s: State) {
    || (exists t: nat :: t < |s.agents| && Watches(s.agents[t]))
    || forall t: nat :: t < |s.agents| ==> !s.agents[t].role.Parked?
  }

  lemma NobodyParked(s: State)
    ensures Count(s.agents, Parked) == 0 <==> forall t: nat :: t < |s.agents| ==> !s.agents[t].role.Parked?
  {
    forall a | a in s.agents && a.role.Parked? ensures exists t: nat :: t < |s.agents| && s.agents[t].role.Parked? {
      var t: nat :| t < |s.agents| && s.agents[t] == a;
    }
  }

  lemma SearcherWatches(s: State)
    requires Count(s.agents, Searching) > 0
    ensures Watched(s)
  {
    var t := SomeWithRole(s.agents, Searching);
    assert Watches(s.agents[t]);
  }

  /** A worker that counts itself as parked while others search leaves a searcher; the last one looks again. */
  lemma ParkingWatched(s: State, t: nat, s': State)
    requires Inv(s) && Inv(s') && Enabled(s, Step(t)) && s.agents[t].pc.WaitAdd? && s' == Next(s, Step(t))
    requires Framed(s, s', t, -1) && OwnOk(s, t)
    ensures Watched(s')
  {
    Unpack(s);
    CountStep(s, Step(t), s', Searching);
    if Count(s.agents, Searching) == 1 {
      assert LastLook(s'.agents[t]);
    } else {
      SearcherWatches(s');
    }
  }

  predicate Parks(s: State, ev: Event)
    requires Enabled(s, ev)
  {
    ev.Step? && s.agents[ev.t].pc.WaitAdd?
  }

  /** Only fetch_add in wait makes a parked worker. */
  lemma NoNewParked(s: State, ev: Event)
    requires Enabled(s, ev) && !Parks(s, ev) && !Next(s, ev).failed
    requires Framed(s, Next(s, ev), ev.t, Target(s, ev))
    ensures forall q: nat :: q < |s.agents| && Next(s, ev).agents[q].role.Parked? ==> s.agents[q].role.Parked?
  {
  }

  lemma TargetWatches(s: State, ev: Event, x: nat)
    requires Enabled(s, ev) && x == Target(s, ev) && x < |s.agents| && x != ev.t && Watches(s.agents[x])
    requires !Next(s, ev).failed && x < |Next(s, ev).agents|
    ensures Watches(Next(s, ev).agents[x])
  {
  }

  /** The last searcher that goes to work calls notify. */
  lemma LeavingWatched(s: State, t: nat, s': State)
    requires Inv(s) && Enabled(s, Step(t)) && s.agents[t].pc.StopSub? && s' == Next(s, Step(t))
    requires Framed(s, s', t, -1) && OwnOk(s, t)
    ensures Watched(s')
  {
    Unpack(s);
    CountStep(s, Step(t), s', Searching);
    if Count(s.agents, Searching) == 1 {
      assert Notifying(s'.agents[t].pc);
    } else {
      SearcherWatches(s');
    }
  }

  /** An agent that leaves notify leaves a searcher, or nobody is parked. */
  lemma NotifiedWatched(s: State, t: nat, s': State)
    requires Inv(s) && Enabled(s, Step(t)) && Notifying(s.agents[t].pc) && s' == Next(s, Step(t)) && !s'.failed
    requires Framed(s, s', t, Target(s, Step(t)))
    ensures Watched(s')
  {
    TargetStep(s, Step(t));
    TargetRole(s, Step(t));
    StepOfPc(s, Step(t));
    if s.agents[t].pc.NotifyUnpark? {
      assert Watches(s'.agents[Target(s, Step(t))]);
    } else {
      NotifyEnds(s, t);
      if Notifying(s'.agents[t].pc) {
        assert Watches(s'.agents[t]);
      } else {
        EndedWatched(s, t, s');
      }
    }
  }

  lemma EndedWatched(s: State, t: nat, s': State)
    requires Inv(s) && Enabled(s, Step(t)) && Framed(s, s', t, -1) && Target(s, Step(t)) == -1
    requires s'.agents[t].role == s.agents[t].role
    requires SearchingCount(s.state) > 0 || ParkedCount(s.state) == 0
    ensures Watched(s')
  {
    Unpack(s);
    CountStep(s, Step(t), s', Searching);
    CountStep(s, Step(t), s', Parked);
    if Count(s'.agents, Searching) > 0 {
      SearcherWatches(s');
    } else {
      NobodyParked(s');
    }
  }

  /** Any other step of a watching agent keeps it watching. */
  lemma StaysWatching(s: State, ev: Event)
    requires Enabled(s, ev) && MutexOk(s) && OwnOk(s, ev.t) && Watches(s.agents[ev.t]) && Next(s, ev).pending > 0
    requires !Parks(s, ev) && (ev.Step? ==> !s.agents[ev.t].pc.StopSub? && !Notifying(s.agents[ev.t].pc))
    requires !Next(s, ev).failed && |Next(s, ev).agents| == |s.agents|
    ensures Watches(Next(s, ev).agents[ev.t])
  {
  }

  lemma OwnWatched(s: State, ev: Event, s': State)
    requires Inv(s) && Enabled(s, ev) && s' == Next(s, ev) && Inv(s') && Framed(s, s', ev.t, Target(s, ev))
    requires Watches(s.agents[ev.t]) && s'.pending > 0 && OwnOk(s, ev.t) && !Parks(s, ev)
    ensures Watched(s')
  {
    if ev.Step? && s.agents[ev.t].pc.StopSub? {
      LeavingWatched(s, ev.t, s');
    } else if ev.Step? && Notifying(s.agents[ev.t].pc) {
      NotifiedWatched(s, ev.t, s');
    } else {
      StaysWatching(s, ev);
    }
  }

  lemma ProducerWatches(s: State, t: nat)
    requires Enabled(s, Produce(t))
    ensures Watched(Next(s, Produce(t)))
  {
    assert Watches(Next(s, Produce(t)).agents[t]);
  }

  /** Only a producer adds work. */
  lemma PendingBefore(s: State, ev: Event)
    requires Enabled(s, ev) && !ev.Produce?
    ensures Next(s, ev).pending <= s.pending
  {
  }

  /** A watching agent that does not act keeps watching, whoever acts. */
  lemma OtherWatches(s: State, ev: Event, s': State, r: nat)
    requires Inv(s) && Enabled(s, ev) && s' == Next(s, ev) && !s'.failed && Framed(s, s', ev.t, Target(s, ev))
    requires r < |s.agents| && r != ev.t && Watches(s.agents[r])
    ensures Watched(s')
  {
    if r == Target(s, ev) {
      TargetWatches(s, ev, r);
    }
    assert Watches(s'.agents[r]);
  }

  lemma WatchedAfter(s: State, ev: Event, s': State)
    requires Inv(s) && Inv(s') && Enabled(s, ev) && s' == Next(s, ev) && Framed(s, s', ev.t, Target(s, ev))
    requires !ev.Produce? && OwnOk(s, ev.t) && s'.pending > 0 && Watched(s) && (Parks(s, ev) ==> Target(s, ev) == -1)
    ensures Watched(s')
  {
    hide Next, Target, Watches, OwnOk, SleepersOk, CountsOk, AgentsOk, MutexOk;
    if Parks(s, ev) {
      ParkingWatched(s, ev.t, s');
    } else if r: nat :| r < |s.agents| && Watches(s.agents[r]) {
      if r == ev.t {
        OwnWatched(s, ev, s');
      } else {
        OtherWatches(s, ev, s', r);
      }
    } else {
      NoNewParked(s, ev);
    }
  }

  lemma WatchedStep(s: State, ev: Event)
    requires Inv(s) && Enabled(s, ev) && (s.pending > 0 ==> Watched(s))
    ensures var s' := Next(s, ev); s'.pending > 0 ==> Watched(s')
  {
    var s' := Next(s, ev);
    if ev.Produce? {
      ProducerWatches(s, ev.t);
    } else if s'.pending > 0 {
      PendingBefore(s, ev);
      InvStep(s, ev);
      TargetStep(s, ev);
      FrameStep(s, ev);
      TargetRole(s, ev);
      WatchedAfter(s, ev, s');
    }
  }

  /**
    On every run, while work is pending: somebody is searching, somebody is inside notify, a parked worker
    looks for work once more, or nobody is parked.
  */
  lemma {:induction false} WorkIsWatched(
      workers: nat, producers: nat, states: seq<State>, events: seq<Event>, i: nat)
    requires 0 < workers < 1000 && IsRun(workers, producers, states, events) && i < |states|
    ensures states[i].pending > 0 ==> Watched(states[i])
  {
    if i > 0 {
      WorkIsWatched(workers, producers, states, events, i - 1);
      RunInvariant(workers, producers, states, events, i - 1);
      WatchedStep(states[i - 1], events[i - 1]);
    }
  }

  // ---------------------------------------------------------------------------------------
  // Calls that nobody disturbs
  // ---------------------------------------------------------------------------------------

  /** Up to n steps of one agent, until its call ends or blocks. */
  function Steps(s: State, t: nat, n: nat): State
    decreases n
  {
    if n == 0 || !Enabled(s, Step(t)) then s else Steps(Next(s, Step(t)), t, n - 1)
  }

  /** Some worker sleeps and nobody is searching: notify has somebody to wake. */
  predicate Wakes(s: State) {
    && s.sleepers != [] && s.sleepers[|s.sleepers| - 1] < |s.agents|
    && forall a :: a in s.agents ==> !a.role.Searching?
  }

  /** The packed word of an idle waiter tells whom notify wakes. */
  lemma WakesIs(s: State)
    requires Inv(s) && s.mutex == FREE
    ensures Wakes(s) <==> SearchingCount(s.state) == 0 && ParkedCount(s.state) > 0
    ensures ParkedCount(s.state) == |s.sleepers|
  {
    Unpack(s);
    if s.sleepers != [] {
      assert s.sleepers[|s.sleepers| - 1] in s.sleepers;
    }
  }

  lemma LastSleeper(s: State, t: nat)
    requires Inv(s) && s.mutex == FREE && t < |s.agents| && Notifying(s.agents[t].pc) && s.sleepers != []
    ensures var x := s.sleepers[|s.sleepers| - 1]; x < |s.agents| && x != t
  {
    var x := s.sleepers[|s.sleepers| - 1];
    assert x in s.sleepers && MemberOk(s, x);
    assert AgentOk(s.agents[t], Moving(s) == t, Waking(s) == t);
  }

  lemma OneStep(s: State, t: nat, n: nat)
    requires n > 0 && Enabled(s, Step(t))
    ensures Steps(s, t, n) == Steps(Next(s, Step(t)), t, n - 1)
  {
  }

  lemma EndedStays(s: State, t: nat, n: nat)
    requires !Enabled(s, Step(t))
    ensures Steps(s, t, n) == s
  {
  }

  /** Having seen that somebody sleeps and nobody searches, notify waits for the mutex. */
  lemma NotifyLoads(s: State, t: nat)
    requires t < |s.agents| && s.agents[t].pc.NotifyLoad? && !s.failed
    ensures var a := s.agents[t];
            Enabled(s, Step(t)) && Next(s, Step(t)) ==
            Put(s, t, if SearchingCount(s.state) > 0 || ParkedCount(s.state) == 0 then Notified(a)
                      else a.(pc := NotifyLock))
  {
  }

  lemma NotifyLocks(s: State, t: nat)
    requires t < |s.agents| && s.agents[t].pc.NotifyLock? && s.mutex == FREE && !s.failed
    ensures Enabled(s, Step(t)) && Next(s, Step(t)) == Put(s, t, s.agents[t].(pc := NotifyReload)).(mutex := t)
  {
  }

  lemma NotifyPops(s: State, t: nat)
    requires t < |s.agents| && s.agents[t].pc.NotifyReload? && !s.failed && s.sleepers != []
    requires SearchingCount(s.state) == 0 && ParkedCount(s.state) == |s.sleepers|
    ensures var n := |s.sleepers| - 1;
            Enabled(s, Step(t)) && Next(s, Step(t)) ==
            Put(s, t, s.agents[t].(pc := NotifySub(s.sleepers[n]))).(sleepers := s.sleepers[..n])
  {
  }

  lemma NotifySubs(s: State, t: nat, x: nat)
    requires t < |s.agents| && s.agents[t].pc == NotifySub(x) && x < |s.agents| && x != t && !s.failed
    ensures Enabled(s, Step(t)) && Next(s, Step(t)) ==
            s.(agents := s.agents[x := s.agents[x].(role := Searching)][t := s.agents[t].(pc := NotifyUnpark(x))],
               state := s.state - (PARKING - 1))
  {
  }

  lemma NotifyUnparks(s: State, t: nat, x: nat)
    requires t < |s.agents| && s.agents[t].pc == NotifyUnpark(x) && x < |s.agents| && x != t && !s.failed
    ensures Enabled(s, Step(t)) && Next(s, Step(t)) ==
            s.(agents := s.agents[x := s.agents[x].(flag := true)][t := Notified(s.agents[t])], mutex := FREE)
  {
  }

  /** What an undisturbed notify leaves. */
  function Woken(s: State, t: nat): State
    requires t < |s.agents|
  {
    var a := Notified(s.agents[t]);
    if !Wakes(s) then Put(s, t, a) else
    var n := |s.sleepers| - 1;
    var x := s.sleepers[n];
    s.(agents := s.agents[x := s.agents[x].(role := Searching, flag := true)][t := a],
       sleepers := s.sleepers[..n], state := s.state - (PARKING - 1))
  }

  lemma NotifyIgnored(s: State, t: nat, k: nat)
    requires t < |s.agents| && s.agents[t].pc.NotifyLoad? && !s.failed && k > 0
    requires SearchingCount(s.state) > 0 || ParkedCount(s.state) == 0
    ensures Steps(s, t, k) == Put(s, t, Notified(s.agents[t]))
  {
    NotifyLoads(s, t);
    OneStep(s, t, k);
    EndedStays(Put(s, t, Notified(s.agents[t])), t, k - 1);
  }

  lemma NotifyTakes(s: State, t: nat, n: nat, k: nat)
    requires t < |s.agents| && s.agents[t].pc.NotifyLoad? && s.mutex == FREE && !s.failed && |s.sleepers| == n + 1
    requires SearchingCount(s.state) == 0 && ParkedCount(s.state) == |s.sleepers| && k >= 3
    ensures Steps(s, t, k) ==
            Steps(Put(s, t, s.agents[t].(pc := NotifySub(s.sleepers[n])))
                    .(sleepers := s.sleepers[..n], mutex := t), t, k - 3)
  {
    hide SearchingCount, ParkedCount, Steps, StepNotify, StepWait, StepStop, StepCall, Next, Enabled, Notified;
    NotifyLoads(s, t);
    OneStep(s, t, k);
    var s1 := Put(s, t, s.agents[t].(pc := NotifyLock));
    NotifyLocks(s1, t);
    OneStep(s1, t, k - 1);
    var s2 := Put(s, t, s.agents[t].(pc := NotifyReload)).(mutex := t);
    assert s2 == Next(s1, Step(t));
    NotifyPops(s2, t);
    OneStep(s2, t, k - 2);
    assert Next(s2, Step(t))
      == Put(s, t, s.agents[t].(pc := NotifySub(s.sleepers[n]))).(sleepers := s.sleepers[..n], mutex := t);
  }

  lemma NotifyHands(s: State, t: nat, x: nat, k: nat)
    requires t < |s.agents| && s.agents[t].pc == NotifySub(x) && x < |s.agents| && x != t && !s.failed && k >= 2
    ensures Steps(s, t, k) ==
            s.(agents := s.agents[x := s.agents[x].(role := Searching, flag := true)][t := Notified(s.agents[t])],
               state := s.state - (PARKING - 1), mutex := FREE)
  {
    hide SearchingCount, ParkedCount, Steps, StepNotify, StepWait, StepStop, StepCall, Next, Enabled;
    NotifySubs(s, t, x);
    OneStep(s, t, k);
    var s1 := Next(s, Step(t));
    NotifyUnparks(s1, t, x);
    OneStep(s1, t, k - 1);
    var s2 := Next(s1, Step(t));
    assert s2.agents == s.agents[x := s.agents[x].(role := Searching, flag := true)][t := Notified(s.agents[t])];
    ReadyEnded(s2, t);
    EndedStays(s2, t, k - 2);
  }

  lemma ReadyEnded(s: State, t: nat)
    requires t < |s.agents| && s.agents[t].pc.Ready?
    ensures !Enabled(s, Step(t))
  {
  }

  lemma NotifyWakes(s: State, t: nat, n: nat, k: nat)
    requires t < |s.agents| && s.agents[t].pc.NotifyLoad? && s.mutex == FREE && !s.failed && |s.sleepers| == n + 1
    requires SearchingCount(s.state) == 0 && ParkedCount(s.state) == |s.sleepers| && Wakes(s)
    requires s.sleepers[n] < |s.agents| && s.sleepers[n] != t && k >= 5
    ensures Steps(s, t, k) == Woken(s, t)
  {
    var x := s.sleepers[n];
    hide Wakes, SearchingCount, ParkedCount, Steps, StepNotify, StepWait, StepStop, StepCall, Next, Enabled;
    NotifyTakes(s, t, n, k);
    var s3 := Put(s, t, s.agents[t].(pc := NotifySub(x))).(sleepers := s.sleepers[..n], mutex := t);
    NotifyHands(s3, t, x, k - 3);
    assert s3.agents[x := s3.agents[x].(role := Searching, flag := true)][t := Notified(s3.agents[t])]
      == Woken(s, t).agents;
  }

  /** An undisturbed notify wakes the worker that fell asleep last, exactly if some sleep and nobody is searching. */
  lemma NotifyAlone(s: State, t: nat, k: nat)
    requires Inv(s) && s.mutex == FREE && t < |s.agents| && s.agents[t].pc.NotifyLoad? && k >= 5
    ensures Steps(s, t, k) == Woken(s, t)
  {
    WakesIs(s);
    if s.sleepers != [] {
      LastSleeper(s, t);
    }
    hide Inv, Steps;
    if Wakes(s) {
      NotifyWakes(s, t, |s.sleepers| - 1, k);
    } else {
      NotifyIgnored(s, t, k);
    }
  }

  /** A worker that is not on its way to sleep and leaves `searching` notifies if it was the last. */
  lemma StopSubs(s: State, t: nat)
    requires t < |s.agents| && s.agents[t].pc.StopSub? && !s.failed
    ensures var a, seen := s.agents[t], SearchingCount(s.state);
            Enabled(s, Step(t)) && Next(s, Step(t)) ==
            Put(s, t, if seen == 1 then Agent(Working, Search, a.flag, NotifyLoad)
                      else Agent(Working, Work, a.flag, Ready))
              .(state := s.state - 1, failed := seen == 0 || seen >= 1000)
  {
  }

  /** The state in which a worker has gone to work. */
  function AtWork(s: State, t: nat, word: int): State
    requires t < |s.agents|
  {
    Put(s, t, Agent(Working, Work, false, Ready)).(state := word)
  }

  lemma SameWoken(s: State, s': State, t: nat)
    requires t < |s.agents| == |s'.agents| && s' == Put(s, t, s'.agents[t])
    requires s'.agents[t] == s.agents[t].(slot := Work, pc := Ready)
    ensures Woken(s', t) == Woken(s, t)
  {
    assert Wakes(s') == Wakes(s) by {
      forall a | a in s.agents ensures exists b :: b in s'.agents && b.role == a.role {
        var q: nat :| q < |s.agents| && s.agents[q] == a;
        assert s'.agents[q] in s'.agents && s'.agents[q].role == a.role;
      }
      forall a | a in s'.agents ensures exists b :: b in s.agents && b.role == a.role {
        var q: nat :| q < |s'.agents| && s'.agents[q] == a;
        assert s.agents[q] in s.agents && s.agents[q].role == a.role;
      }
    }
    if Wakes(s) {
      assert Woken(s', t).agents == Woken(s, t).agents;
    }
  }

  lemma LeavingAgent(s: State, t: nat)
    requires Inv(s) && s.mutex == FREE && t < |s.agents| && s.agents[t].pc.StopSub?
    ensures !s.agents[t].flag && s.agents[t].role.Searching?
  {
    assert AgentOk(s.agents[t], Moving(s) == t, Waking(s) == t);
    hide AgentsOk, CountsOk, AgentOk, MemberOk;
  }

  lemma OneLess(x: int)
    requires SearchingCount(x) >= 1
    ensures SearchingCount(x - 1) == SearchingCount(x) - 1
  {
  }

  lemma LeavingCounts(s: State)
    requires Inv(s)
    ensures SearchingCount(s.state) == Count(s.agents, Searching) < 1000
  {
    Unpack(s);
  }

  /** What the packed word tells a worker that leaves `searching`. */
  lemma LeavingFacts(s: State, t: nat)
    requires Inv(s) && s.mutex == FREE && t < |s.agents| && s.agents[t].pc.StopSub?
    ensures !s.agents[t].flag && s.agents[t].role.Searching? && 1 <= SearchingCount(s.state) < 1000
    ensures SearchingCount(s.state - 1) == SearchingCount(s.state) - 1
  {
    hide *;
    LeavingAgent(s, t);
    LeavingCounts(s);
    OnlyOne(s.agents, t, Searching);
    OneLess(s.state);
  }

  lemma LeavesOthers(s: State, t: nat, k: nat)
    requires t < |s.agents| && s.agents[t].pc.StopSub? && !s.failed && !s.agents[t].flag && k > 0
    requires 1 < SearchingCount(s.state) < 1000
    ensures Steps(s, t, k) == AtWork(s, t, s.state - 1)
  {
    StopSubs(s, t);
    OneStep(s, t, k);
    ReadyEnded(AtWork(s, t, s.state - 1), t);
    EndedStays(AtWork(s, t, s.state - 1), t, k - 1);
  }

  lemma OthersSearch(s: State, s': State)
    requires Inv(s') && s'.mutex == FREE && SearchingCount(s'.state) > 0
    requires |s.agents| == |s'.agents|
    requires forall q: nat :: q < |s.agents| ==> s.agents[q].role == s'.agents[q].role
    ensures !Wakes(s)
  {
    Unpack(s');
    var q := SomeWithRole(s'.agents, Searching);
    assert s.agents[q] in s.agents && s.agents[q].role.Searching?;
  }

  lemma LeavesLast(s: State, t: nat, s1: State, k: nat)
    requires t < |s.agents| && s.mutex == FREE && Enabled(s, Step(t)) && s1 == Next(s, Step(t)) && Inv(s1) && k >= 6
    requires s1 == Put(s, t, Agent(Working, Search, false, NotifyLoad)).(state := s.state - 1)
    ensures Steps(s, t, k) == Woken(AtWork(s, t, s.state - 1), t)
  {
    hide Enabled, Inv, Next, Steps, Woken;
    OneStep(s, t, k);
    NotifyAlone(s1, t, k - 1);
    SameWoken(s1, AtWork(s, t, s.state - 1), t);
  }

  lemma StopSubAlone(s: State, t: nat, k: nat)
    requires Inv(s) && s.mutex == FREE && t < |s.agents| && s.agents[t].pc.StopSub? && k >= 6
    ensures Steps(s, t, k) == Woken(AtWork(s, t, s.state - 1), t)
  {
    LeavingFacts(s, t);
    StopSubs(s, t);
    InvStep(s, Step(t));
    hide Inv, SearchingCount, Steps, StepStop, StepNotify, StepWait, StepCall;
    if SearchingCount(s.state) == 1 {
      LeavesLast(s, t, Next(s, Step(t)), k);
    } else {
      LeavesOthers(s, t, k);
      OthersSearch(AtWork(s, t, s.state - 1), Next(s, Step(t)));
    }
  }

  lemma StopLocks(s: State, t: nat)
    requires t < |s.agents| && s.agents[t].pc.StopLock? && !s.failed && s.mutex == FREE
    ensures Enabled(s, Step(t)) && Next(s, Step(t)) == Put(s, t, s.agents[t].(pc := StopErase)).(mutex := t)
  {
  }

  lemma StopErases(s: State, t: nat)
    requires t < |s.agents| && s.agents[t].pc.StopErase? && !s.failed
    ensures Enabled(s, Step(t)) && Next(s, Step(t)) ==
            if t in s.sleepers then Put(s, t, s.agents[t].(pc := StopAdd)).(sleepers := Erase(s.sleepers, t))
            else Put(s, t, s.agents[t].(pc := StopCancel)).(mutex := FREE)
  {
  }

  lemma StopAdds(s: State, t: nat)
    requires t < |s.agents| && s.agents[t].pc.StopAdd? && !s.failed
    ensures Enabled(s, Step(t)) && Next(s, Step(t)) ==
            Put(s, t, s.agents[t].(role := Searching, pc := StopSub)).(state := s.state - (PARKING - 1), mutex := FREE)
  {
  }

  lemma StopCancels(s: State, t: nat)
    requires t < |s.agents| && s.agents[t].pc.StopCancel? && !s.failed && s.agents[t].flag
    ensures Enabled(s, Step(t)) && Next(s, Step(t)) == Put(s, t, s.agents[t].(flag := false, pc := StopSub))
  {
  }

  /** Where a worker on a last look stands once it is counted as searching again. */
  function Awake(s: State, t: nat): State
    requires t < |s.agents|
  {
    var s1 := Put(s, t, Agent(Searching, Work, false, StopSub));
    if t in s.sleepers then s1.(sleepers := Erase(s.sleepers, t), state := s.state - (PARKING - 1)) else s1
  }

  lemma StopLockAgent(s: State, t: nat)
    requires Inv(s) && s.mutex == FREE && t < |s.agents| && s.agents[t].pc.StopLock?
    ensures s.agents[t].flag <==> t !in s.sleepers
    ensures t !in s.sleepers ==> s.agents[t].role.Searching?
  {
    assert AgentOk(s.agents[t], Moving(s) == t, Waking(s) == t) && MemberOk(s, t);
  }

  /** A worker that leaves its sleep on a last look is first counted as searching. */
  lemma StopLockAlone(s: State, t: nat, k: nat)
    requires t < |s.agents| && s.agents[t].pc.StopLock? && s.agents[t].slot.Work?
    requires !s.failed && s.mutex == FREE && k >= 3
    requires Inv(s) && (s.agents[t].flag <==> t !in s.sleepers) && (t !in s.sleepers ==> s.agents[t].role.Searching?)
    ensures Inv(Awake(s, t)) && Steps(s, t, k) == Steps(Awake(s, t), t, k - 3)
  {
    hide Enabled, Erase, Inv, Next, Steps;
    StopLocks(s, t);
    InvStep(s, Step(t));
    OneStep(s, t, k);
    var s1 := Put(s, t, s.agents[t].(pc := StopErase)).(mutex := t);
    assert s1 == Next(s, Step(t));
    StopErases(s1, t);
    InvStep(s1, Step(t));
    OneStep(s1, t, k - 1);
    var s2 := Next(s1, Step(t));
    if t in s.sleepers {
      StopAdds(s2, t);
    } else {
      StopCancels(s2, t);
    }
    InvStep(s2, Step(t));
    OneStep(s2, t, k - 2);
    assert Next(s2, Step(t)) == Awake(s, t);
  }

  /** The state in which a searching or sleeping worker has gone to work. */
  function Off(s: State, t: nat): State
    requires t < |s.agents|
  {
    var s1 := Put(s, t, Agent(Working, Work, false, Ready));
    if t in s.sleepers then s1.(sleepers := Erase(s.sleepers, t), state := s.state - PARKING)
    else s1.(state := s.state - 1)
  }

  lemma AwakeOff(s: State, t: nat)
    requires t < |s.agents| && s.mutex == FREE
    ensures var s1 := Awake(s, t);
            && t < |s1.agents| && s1.mutex == FREE && s1.agents[t].pc.StopSub?
            && AtWork(s1, t, s1.state - 1) == Off(s, t)
  {
    var s1 := Awake(s, t);
    assert s1.agents[t := Agent(Working, Work, false, Ready)] == Off(s, t).agents;
  }

  lemma StopLockFree(s: State, t: nat)
    requires Inv(s)
    ensures !s.failed
  {
  }

  lemma StopFromSleep(s: State, t: nat, k: nat)
    requires Inv(s) && s.mutex == FREE && t < |s.agents| && s.agents[t].pc.StopLock? && s.agents[t].slot.Work? && k >= 9
    ensures Steps(s, t, k) == Woken(Off(s, t), t)
  {
    hide *;
    StopLockAgent(s, t);
    StopLockFree(s, t);
    StopLockAlone(s, t, k);
    AwakeOff(s, t);
    StopSubAlone(Awake(s, t), t, k - 3);
  }

  lemma SearcherUnlisted(s: State, t: nat)
    requires Inv(s) && s.mutex == FREE && t < |s.agents| && s.agents[t].pc.StopSub?
    ensures t !in s.sleepers
  {
    assert AgentOk(s.agents[t], Moving(s) == t, Waking(s) == t) && MemberOk(s, t);
  }

  lemma StopEnters(s: State, t: nat, take: bool)
    requires Enabled(s, Stop(t, take)) && !s.agents[t].slot.Work?
    ensures var s1 := Next(s, Stop(t, take));
            && |s1.agents| == |s.agents| && s1.mutex == s.mutex
            && Off(s1, t) == Off(s.(pending := s1.pending), t)
            && (s.agents[t].slot.Sleep? ==> s1.agents[t].pc.StopLock? && s1.agents[t].slot.Work?)
            && (s.agents[t].slot.Search? ==> s1.agents[t].pc.StopSub?)
  {
  }

  /**
    An undisturbed stop_wait takes the worker off the sleepers and the searchers. If it was the last
    searcher and somebody sleeps, the last sleeper is woken up to search in its place.
  */
  lemma StopAlone(s: State, t: nat, take: bool, k: nat)
    requires Inv(s) && s.mutex == FREE && Enabled(s, Stop(t, take)) && k >= 9
    ensures var s0 := s.(pending := if take then s.pending - 1 else s.pending);
            Steps(Next(s, Stop(t, take)), t, k) == if s.agents[t].slot.Work? then s0 else Woken(Off(s0, t), t)
  {
    var s1 := Next(s, Stop(t, take));
    if s.agents[t].slot.Work? {
      assert s1.agents == s.agents;
      ReadyEnded(s1, t);
      EndedStays(s1, t, k);
    } else {
      StopEnters(s, t, take);
      InvStep(s, Stop(t, take));
      hide Inv, Steps, Woken, SearchingCount;
      if s.agents[t].slot.Sleep? {
        StopFromSleep(s1, t, k);
      } else {
        SearcherUnlisted(s1, t);
        StopSubAlone(s1, t, k);
        assert AtWork(s1, t, s1.state - 1) == Off(s1, t);
      }
    }
  }

  /** The state in which an undisturbed wait leaves its caller: searching, on a last look, or blocked. */
  function Waited(s: State, t: nat): State
    requires t < |s.agents|
  {
    var a := s.agents[t];
    match a.slot
    case Work => Put(s, t, a.(role := Searching, slot := Search)).(state := s.state + 1)
    case Search =>
      var last := forall q: nat :: q < |s.agents| && q != t ==> !s.agents[q].role.Searching?;
      Put(s, t, a.(role := Parked, slot := Sleep, pc := if last then Ready else Park))
        .(sleepers := s.sleepers + [t], state := s.state + PARKING - 1)
    case Sleep => Put(s, t, if a.flag then a.(flag := false, slot := Search) else a.(pc := Park))
  }

  lemma WaitSearches(s: State, t: nat)
    requires t < |s.agents| && s.agents[t].pc.WaitSearch? && !s.failed
    ensures Enabled(s, Step(t)) && Next(s, Step(t)) ==
            Put(s, t, s.agents[t].(role := Searching, slot := Search, pc := Ready)).(state := s.state + 1)
  {
  }

  lemma WaitLocks(s: State, t: nat)
    requires t < |s.agents| && s.agents[t].pc.WaitLock? && s.mutex == FREE && !s.failed
    ensures Enabled(s, Step(t)) && Next(s, Step(t)) == Put(s, t, s.agents[t].(pc := WaitAdd)).(mutex := t)
  {
  }

  lemma WaitAdds(s: State, t: nat)
    requires t < |s.agents| && s.agents[t].pc.WaitAdd? && !s.failed && SearchingCount(s.state) > 0
    ensures Enabled(s, Step(t)) && Next(s, Step(t)) ==
            Put(s, t, s.agents[t].(role := Parked, pc := WaitPush(s.state))).(state := s.state + PARKING - 1)
  {
  }

  lemma WaitPushes(s: State, t: nat)
    requires t < |s.agents| && s.agents[t].pc.WaitPush? && !s.failed && !s.agents[t].flag
    ensures Enabled(s, Step(t)) && Next(s, Step(t)) ==
            Put(s, t, s.agents[t].(pc := if SearchingCount(s.agents[t].pc.seen) == 1 then Ready else Park))
              .(sleepers := s.sleepers + [t], mutex := FREE)
  {
  }

  lemma WaitParks(s: State, t: nat)
    requires t < |s.agents| && s.agents[t].pc.Park? && !s.failed
    ensures Enabled(s, Step(t)) <==> s.agents[t].flag
    ensures s.agents[t].flag ==>
              Next(s, Step(t)) == Put(s, t, s.agents[t].(flag := false, slot := Search, pc := Ready))
  {
  }

  lemma SearchingFree(s: State, t: nat)
    requires Inv(s) && s.mutex == FREE && t < |s.agents| && s.agents[t].pc.WaitLock?
    ensures s.agents[t].slot.Sleep? && s.agents[t].role.Searching? && !s.agents[t].flag
    ensures SearchingCount(s.state) > 0
    ensures SearchingCount(s.state) == 1 <==>
            forall q: nat :: q < |s.agents| && q != t ==> !s.agents[q].role.Searching?
  {
    Unpack(s);
    assert AgentOk(s.agents[t], Moving(s) == t, Waking(s) == t);
    hide Inv, CountsOk, AgentOk;
    OnlyOne(s.agents, t, Searching);
  }

  lemma OnlyOne(agents: seq<Agent>, t: nat, role: Role)
    requires t < |agents| && agents[t].role == role
    ensures Count(agents, role) > 0
    ensures Count(agents, role) == 1 <==> forall q: nat :: q < |agents| && q != t ==> agents[q].role != role
  {
    var rest := agents[t := agents[t].(role := if role.Producer? then Working else Producer)];
    CountUpdate(agents, t, rest[t], role);
    assert Count(rest, role) == Count(agents, role) - 1;
    if forall q: nat :: q < |agents| && q != t ==> agents[q].role != role {
      assert forall a :: a in rest ==> a.role != role;
    } else {
      var q: nat :| q < |agents| && q != t && agents[q].role == role;
      assert rest[q] in rest;
    }
  }

  lemma WaitLockAlone(s: State, t: nat, k: nat)
    requires t < |s.agents| && s.agents[t].pc.WaitLock? && s.mutex == FREE && !s.failed && !s.agents[t].flag
    requires SearchingCount(s.state) > 0 && k >= 3
    ensures Steps(s, t, k) ==
            Put(s, t, s.agents[t].(role := Parked, pc := if SearchingCount(s.state) == 1 then Ready else Park))
              .(sleepers := s.sleepers + [t], state := s.state + PARKING - 1)
  {
    hide SearchingCount, ParkedCount, Steps, StepNotify, StepWait, StepStop, StepCall, Next, Enabled;
    WaitLocks(s, t);
    OneStep(s, t, k);
    var s1 := Next(s, Step(t));
    WaitAdds(s1, t);
    OneStep(s1, t, k - 1);
    var s2 := Next(s1, Step(t));
    WaitPushes(s2, t);
    OneStep(s2, t, k - 2);
    var s3 := Next(s2, Step(t));
    if SearchingCount(s.state) == 1 {
      ReadyEnded(s3, t);
    } else {
      WaitParks(s3, t);
    }
    EndedStays(s3, t, k - 3);
  }

  lemma WaitEnters(s: State, t: nat)
    requires Enabled(s, Wait(t))
    ensures Next(s, Wait(t)) == Put(s, t, EnterWait(s.agents[t])) && !s.failed
  {
  }

  /**
    An undisturbed wait starts a search; after the search it puts the worker to sleep, with one more look for
    the last searcher; and from sleep it returns only to a worker that has been woken up.
  */
  lemma WaitAlone(s: State, t: nat, k: nat)
    requires Inv(s) && s.mutex == FREE && Enabled(s, Wait(t)) && k >= 3
    ensures Steps(Next(s, Wait(t)), t, k) == Waited(s, t)
  {
    var s1 := Next(s, Wait(t));
    WaitEnters(s, t);
    WaitsReady(s, t);
    InvStep(s, Wait(t));
    hide *;
    if s.agents[t].slot.Search? {
      SearchWaits(s, s1, t, k);
    } else if s.agents[t].slot.Work? {
      WorkWaits(s, s1, t, k);
    } else {
      SleepWaits(s, s1, t, k);
    }
  }

  lemma WaitsReady(s: State, t: nat)
    requires Enabled(s, Wait(t))
    ensures s.agents[t].pc.Ready?
  {
  }

  lemma SearchWaits(s: State, s1: State, t: nat, k: nat)
    requires t < |s.agents| && s.agents[t].slot.Search? && !s.failed && s.mutex == FREE && k >= 3
    requires Inv(s1) && s1 == Put(s, t, EnterWait(s.agents[t]))
    ensures Steps(s1, t, k) == Waited(s, t)
  {
    hide Inv, SearchingCount, Steps, Next;
    SearchingFree(s1, t);
    WaitLockAlone(s1, t, k);
    assert forall q: nat :: q < |s.agents| && q != t ==> s1.agents[q].role == s.agents[q].role;
    assert Steps(s1, t, k).agents == Waited(s, t).agents;
  }

  lemma WorkWaits(s: State, s1: State, t: nat, k: nat)
    requires t < |s.agents| && s.agents[t].slot.Work? && !s.failed && s1 == Put(s, t, EnterWait(s.agents[t])) && k > 0
    requires s.agents[t].pc.Ready?
    ensures Steps(s1, t, k) == Waited(s, t)
  {
    WaitSearches(s1, t);
    OneStep(s1, t, k);
    ReadyEnded(Next(s1, Step(t)), t);
    EndedStays(Next(s1, Step(t)), t, k - 1);
    assert Steps(s1, t, k).agents == Waited(s, t).agents;
  }

  lemma SleepWaits(s: State, s1: State, t: nat, k: nat)
    requires t < |s.agents| && s.agents[t].slot.Sleep? && !s.failed && s1 == Put(s, t, EnterWait(s.agents[t])) && k > 0
    requires s.agents[t].pc.Ready?
    ensures Steps(s1, t, k) == Waited(s, t)
  {
    WaitParks(s1, t);
    if s.agents[t].flag {
      OneStep(s1, t, k);
      ReadyEnded(Next(s1, Step(t)), t);
      EndedStays(Next(s1, Step(t)), t, k - 1);
    } else {
      EndedStays(s1, t, k);
    }
    assert Steps(s1, t, k).agents == Waited(s, t).agents;
  }
}
