/**
  MpmcSleepyWaiter (td/utils/MpmcWaiter.h) as a step system.

  Agents are workers, which own a slot and call wait and stop_wait, and producers, which add work
  and call notify. Each event is one access to `state`, to an unpark flag or to the work counter, or
  a stretch of code protected by sleepers_mutex_ that makes no such access. `role` is history: how
  `state` currently counts the worker.
*/
module SleepyWaiter {

  const PARKING: int := 65536  // 1 << PARKING_SHIFT

  function ParkedCount(x: int): int { x / PARKING }
  function SearchingCount(x: int): int { x % PARKING }

  datatype Slot = Search | Work | Sleep
  datatype Role = Producer | Working | Searching | Parked

  datatype Pc =
    | Ready                     // between calls
    | WaitSearch                // wait: slot was Work
    | WaitLock | WaitAdd | WaitPush(seen: int)
    | Park
    | StopLock | StopErase | StopAdd | StopCancel | StopSub
    | NotifyLoad | NotifyLock | NotifyReload
    | NotifySub(sleeper: nat) | NotifyUnpark(sleeper: nat)

  datatype Agent = Agent(role: Role, slot: Slot, flag: bool, pc: Pc)

  /** `pending` is the work added and not yet taken; `failed` records a failed CHECK. */
  datatype State = State(
    agents: seq<Agent>, state: int, sleepers: seq<nat>, mutex: int, pending: nat, failed: bool)

  const FREE: int := -1

  datatype Event =
    | Produce(t: nat)             // add one piece of work, then call notify
    | Take(t: nat)                // a working worker takes a piece of work
    | Wait(t: nat)                // a worker that has just seen no work calls wait
    | Stop(t: nat, take: bool)    // a worker calls stop_wait, perhaps with work in hand
    | Step(t: nat)                // next step inside the current call

  function Init(workers: nat, producers: nat): State {
    State(seq(workers, i => Agent(Working, Work, false, Ready))
          + seq(producers, i => Agent(Producer, Work, false, Ready)),
          0, [], FREE, 0, false)
  }

  predicate Enabled(s: State, ev: Event) {
    !s.failed && ev.t < |s.agents| &&
    var a := s.agents[ev.t];
    match ev
    case Produce(_) => a.pc.Ready? && (a.role.Producer? || a.slot.Work?)
    case Take(_) => a.pc.Ready? && a.role.Working? && a.slot.Work? && s.pending > 0
    case Wait(_) => a.pc.Ready? && !a.role.Producer? && s.pending == 0
    case Stop(_, take) => a.pc.Ready? && !a.role.Producer? && (take ==> s.pending > 0)
    case Step(t) =>
      match a.pc
      case Ready => false
      case Park => a.flag
      case WaitLock => s.mutex == FREE
      case StopLock => s.mutex == FREE
      case NotifyLock => s.mutex == FREE
      case NotifySub(x) => x < |s.agents|
      case NotifyUnpark(x) => x < |s.agents|
      case _ => true
  }

  function Put(s: State, t: nat, a: Agent): State
    requires t < |s.agents|
  {
    s.(agents := s.agents[t := a])
  }

  /** Where wait and stop_wait continue, by slot state. */
  function EnterWait(a: Agent): Agent {
    match a.slot
    case Work => a.(pc := WaitSearch)
    case Search => a.(slot := Sleep, pc := WaitLock)
    case Sleep => a.(pc := Park)
  }

  function EnterStop(a: Agent): Agent {
    match a.slot
    case Work => a
    case Search => a.(pc := StopSub)
    case Sleep => a.(slot := Work, pc := StopLock)
  }

  /** End of notify; in a worker also the end of the stop_wait around it. */
  function Notified(a: Agent): Agent { a.(slot := Work, pc := Ready) }

  function Erase(sleepers: seq<nat>, t: nat): seq<nat> {
    if sleepers == [] then []
    else if sleepers[0] == t then sleepers[1..]
    else [sleepers[0]] + Erase(sleepers[1..], t)
  }

  function StepWait(s: State, t: nat): State
    requires Enabled(s, Step(t))
    requires var pc := s.agents[t].pc; pc.WaitSearch? || pc.WaitLock? || pc.WaitAdd? || pc.WaitPush? || pc.Park?
  {
    var a := s.agents[t];
    match a.pc
    case WaitSearch => Put(s, t, a.(role := Searching, slot := Search, pc := Ready)).(state := s.state + 1)
    case WaitLock => Put(s, t, a.(pc := WaitAdd)).(mutex := t)
    case WaitAdd =>
      Put(s, t, a.(role := Parked, pc := WaitPush(s.state)))
        .(state := s.state + PARKING - 1, failed := SearchingCount(s.state) == 0)
    case WaitPush(seen) =>
      Put(s, t, a.(pc := if SearchingCount(seen) == 1 then Ready else Park))
        .(sleepers := s.sleepers + [t], mutex := FREE, failed := a.flag)
    case Park => Put(s, t, a.(flag := false, slot := Search, pc := Ready))
  }

  function StepStop(s: State, t: nat): State
    requires Enabled(s, Step(t))
    requires var pc := s.agents[t].pc; pc.StopLock? || pc.StopErase? || pc.StopAdd? || pc.StopCancel? || pc.StopSub?
  {
    var a := s.agents[t];
    match a.pc
    case StopLock => Put(s, t, a.(pc := StopErase)).(mutex := t)
    case StopErase =>
      if t in s.sleepers then Put(s, t, a.(pc := StopAdd)).(sleepers := Erase(s.sleepers, t))
      else Put(s, t, a.(pc := StopCancel)).(mutex := FREE)
    case StopAdd => Put(s, t, a.(role := Searching, pc := StopSub)).(state := s.state - (PARKING - 1), mutex := FREE)
    case StopCancel => Put(s, t, a.(flag := false, pc := StopSub)).(failed := !a.flag)
    case StopSub =>
      var b := a.(role := Working, slot := Search);
      var seen := SearchingCount(s.state);
      Put(s, t, if seen == 1 then b.(pc := NotifyLoad) else Notified(b))
        .(state := s.state - 1, failed := seen == 0 || seen >= 1000)
  }

  function StepNotify(s: State, t: nat): State
    requires Enabled(s, Step(t))
    requires var pc := s.agents[t].pc;
             pc.NotifyLoad? || pc.NotifyLock? || pc.NotifyReload? || pc.NotifySub? || pc.NotifyUnpark?
  {
    var a := s.agents[t];
    match a.pc
    case NotifyLoad =>
      if SearchingCount(s.state) > 0 || ParkedCount(s.state) == 0 then Put(s, t, Notified(a))
      else Put(s, t, a.(pc := NotifyLock))
    case NotifyLock => Put(s, t, a.(pc := NotifyReload)).(mutex := t)
    case NotifyReload =>
      if SearchingCount(s.state) > 0 then Put(s, t, Notified(a)).(mutex := FREE)
      else if ParkedCount(s.state) != |s.sleepers| then s.(failed := true)
      else if s.sleepers == [] then Put(s, t, Notified(a)).(mutex := FREE)
      else
        var n := |s.sleepers| - 1;
        Put(s, t, a.(pc := NotifySub(s.sleepers[n]))).(sleepers := s.sleepers[..n])
    case NotifySub(x) =>
      var s1 := Put(s, x, s.agents[x].(role := Searching)).(state := s.state - (PARKING - 1));
      Put(s1, t, s1.agents[t].(pc := NotifyUnpark(x)))
    case NotifyUnpark(x) =>
      var s1 := Put(s, x, s.agents[x].(flag := true)).(mutex := FREE);
      Put(s1, t, Notified(s1.agents[t]))
  }

  function StepCall(s: State, t: nat): State
    requires Enabled(s, Step(t))
  {
    match s.agents[t].pc
    case WaitSearch | WaitLock | WaitAdd | WaitPush(_) | Park => StepWait(s, t)
    case StopLock | StopErase | StopAdd | StopCancel | StopSub => StepStop(s, t)
    case NotifyLoad | NotifyLock | NotifyReload | NotifySub(_) | NotifyUnpark(_) => StepNotify(s, t)
  }

  function Next(s: State, ev: Event): State
    requires Enabled(s, ev)
  {
    match ev
    case Produce(t) => Put(s, t, s.agents[t].(pc := NotifyLoad)).(pending := s.pending + 1)
    case Take(t) => s.(pending := s.pending - 1)
    case Wait(t) => Put(s, t, EnterWait(s.agents[t]))
    case Stop(t, take) => Put(s, t, EnterStop(s.agents[t])).(pending := if take then s.pending - 1 else s.pending)
    case Step(t) => StepCall(s, t)
  }

  // ---------------------------------------------------------------------------------------
  // Counting roles
  // ---------------------------------------------------------------------------------------

  function Count(agents: seq<Agent>, role: Role): (n: nat)
    ensures n <= |agents|
    ensures n == 0 <==> forall a :: a in agents ==> a.role != role
  {
    if agents == [] then 0 else (if agents[0].role == role then 1 else 0) + Count(agents[1..], role)
  }

  function One(b: bool): int { if b then 1 else 0 }

  lemma {:induction false} CountUpdate(agents: seq<Agent>, t: nat, a: Agent, role: Role)
    requires t < |agents|
    ensures Count(agents[t := a], role) == Count(agents, role) - One(agents[t].role == role) + One(a.role == role)
  {
    if t == 0 {
      assert agents[t := a][1..] == agents[1..];
    } else {
      assert agents[t := a][1..] == agents[1..][t - 1 := a];
      CountUpdate(agents[1..], t - 1, a, role);
    }
  }

  function Workers(agents: seq<Agent>): int { |agents| - Count(agents, Producer) }

  lemma {:induction false} CountTotal(agents: seq<Agent>)
    ensures Count(agents, Working) + Count(agents, Searching) + Count(agents, Parked) == Workers(agents)
  {
    if agents != [] {
      CountTotal(agents[1..]);
    }
  }

  lemma SomeWithRole(agents: seq<Agent>, role: Role) returns (t: nat)
    requires Count(agents, role) > 0
    ensures t < |agents| && agents[t].role == role
  {
    t :| 0 <= t < |agents| && agents[t].role == role;
  }

  // ---------------------------------------------------------------------------------------
  // The invariant
  // ---------------------------------------------------------------------------------------

  predicate Holding(pc: Pc) {
    pc.WaitAdd? || pc.WaitPush? || pc.StopErase? || pc.StopAdd? || pc.NotifyReload? || pc.NotifySub? || pc.NotifyUnpark?
  }

  predicate Notifying(pc: Pc) {
    pc.NotifyLoad? || pc.NotifyLock? || pc.NotifyReload? || pc.NotifySub? || pc.NotifyUnpark?
  }

  /** sleepers_mutex_ is held by exactly the agent inside a protected stretch. */
  predicate MutexOk(s: State) {
    -1 <= s.mutex < |s.agents| && forall t :: 0 <= t < |s.agents| ==> (Holding(s.agents[t].pc) <==> s.mutex == t)
  }

  /** The worker that `state` counts as parked although it is not in the list, or -1. */
  function Moving(s: State): int
    requires MutexOk(s)
  {
    if s.mutex == FREE then -1 else
    match s.agents[s.mutex].pc
    case WaitPush(_) => s.mutex
    case StopAdd => s.mutex
    case NotifySub(x) => x
    case _ => -1
  }

  /** The worker that has been counted as searching but whose flag is not raised yet, or -1. */
  function Waking(s: State): int
    requires MutexOk(s)
  {
    if s.mutex == FREE then -1 else
    match s.agents[s.mutex].pc
    case NotifyUnpark(x) => x
    case _ => -1
  }

  /** In the sleepers list, or out of it but not yet aware of that. */
  predicate Dormant(a: Agent) {
    !a.role.Producer?
      && ((a.pc.Ready? && a.slot.Sleep?) || (a.pc.Park? && a.slot.Sleep?) || a.pc.StopLock? || a.pc.StopErase?)
  }

  predicate AgentOk(a: Agent, moving: bool, waking: bool) {
    && (moving ==> a.role.Parked?)
    && (waking ==> a.role.Searching? && Dormant(a))
    && match a.role
       case Producer => a.slot.Work? && !a.flag && (a.pc.Ready? || Notifying(a.pc))
       case Working => !a.flag && ((a.slot.Work? && (a.pc.Ready? || a.pc.WaitSearch?)) || Notifying(a.pc))
       case Searching =>
         if Dormant(a) then a.flag <==> !waking
         else if a.pc.StopCancel? then a.flag
         else !a.flag && ((a.pc.Ready? && a.slot.Search?) || a.pc.StopSub?
                          || (a.slot.Sleep? && (a.pc.WaitLock? || a.pc.WaitAdd?)))
       case Parked => !a.flag && (Dormant(a) || (a.slot.Sleep? && a.pc.WaitPush?) || a.pc.StopAdd?)
  }

  predicate AgentsOk(s: State)
    requires MutexOk(s)
  {
    && (forall t :: 0 <= t < |s.agents| ==> AgentOk(s.agents[t], Moving(s) == t, Waking(s) == t))
    && Moving(s) < |s.agents| && Waking(s) < |s.agents|
  }

  predicate NoDuplicates(xs: seq<nat>) {
    forall i, j :: 0 <= i < j < |xs| ==> xs[i] != xs[j]
  }

  predicate MemberOk(s: State, q: nat)
    requires MutexOk(s) && q < |s.agents|
  {
    q in s.sleepers <==> s.agents[q].role.Parked? && Moving(s) != q
  }

  predicate SleepersOk(s: State)
    requires MutexOk(s)
  {
    && NoDuplicates(s.sleepers)
    && (forall x :: x in s.sleepers ==> x < |s.agents|)
    && (forall x: nat :: x < |s.agents| ==> MemberOk(s, x))
  }

  predicate CountsOk(s: State)
    requires MutexOk(s)
  {
    && Count(s.agents, Parked) == |s.sleepers| + One(Moving(s) != -1)
    && s.state == PARKING * Count(s.agents, Parked) + Count(s.agents, Searching)
  }

  predicate Inv(s: State) {
    !s.failed && 0 < Workers(s.agents) < 1000 && MutexOk(s) && AgentsOk(s) && SleepersOk(s) && CountsOk(s)
  }

  /** The packed word read back. */
  lemma Unpack(s: State)
    requires MutexOk(s) && CountsOk(s) && Workers(s.agents) < 1000
    ensures ParkedCount(s.state) == Count(s.agents, Parked)
    ensures SearchingCount(s.state) == Count(s.agents, Searching) < 1000
    ensures 0 <= s.state < 0x8000_0000
  {
    CountTotal(s.agents);
  }

  // ---------------------------------------------------------------------------------------
  // Every event keeps it
  // ---------------------------------------------------------------------------------------

  /** The only other agent an event concerns: the sleeper being popped and unparked. */
  function Target(s: State, ev: Event): int
    requires Enabled(s, ev)
  {
    if !ev.Step? then -1 else
    match s.agents[ev.t].pc
    case NotifyReload =>
      if SearchingCount(s.state) > 0 || s.sleepers == [] then -1 else s.sleepers[|s.sleepers| - 1]
    case NotifySub(x) => x
    case NotifyUnpark(x) => x
    case _ => -1
  }

  predicate Framed(s: State, s': State, t: nat, x: int) {
    && |s'.agents| == |s.agents| && t < |s.agents| && x != t
    && (forall q: nat :: q < |s.agents| && q != t && q != x ==> s'.agents[q] == s.agents[q])
    && (forall q: nat :: q < |s.agents| && q != t ==> s'.agents[q].pc == s.agents[q].pc)
  }

  lemma TargetStep(s: State, ev: Event)
    requires Inv(s) && Enabled(s, ev)
    ensures var x := Target(s, ev);
            x != ev.t && x < |s.agents| && (x != -1 ==> 0 <= x && Dormant(s.agents[x]) && s.mutex == ev.t)
  {
    var x := Target(s, ev);
    if x != -1 {
      assert Holding(s.agents[ev.t].pc);
      if s.agents[ev.t].pc.NotifyReload? {
        assert x in s.sleepers && MemberOk(s, x);
      }
      assert AgentOk(s.agents[x], Moving(s) == x, Waking(s) == x);
      assert AgentOk(s.agents[ev.t], Moving(s) == ev.t, Waking(s) == ev.t);
    }
  }

  lemma FrameStep(s: State, ev: Event)
    requires Enabled(s, ev) && Target(s, ev) != ev.t
    ensures Framed(s, Next(s, ev), ev.t, Target(s, ev))
  {
  }

  /** An event leaves the mutex alone, takes it when free, or releases it. */
  lemma OwnMutexStep(s: State, ev: Event)
    requires Enabled(s, ev) && !Next(s, ev).failed && Target(s, ev) != ev.t
    requires Holding(s.agents[ev.t].pc) <==> s.mutex == ev.t
    ensures var s' := Next(s, ev);
            |s'.agents| == |s.agents| &&
            (Holding(s'.agents[ev.t].pc) <==> s'.mutex == ev.t) &&
            (s'.mutex == s.mutex || (s.mutex == FREE && s'.mutex == ev.t) || (s.mutex == ev.t && s'.mutex == FREE))
  {
  }

  lemma MutexStep(s: State, ev: Event)
    requires Inv(s) && Enabled(s, ev) && !Next(s, ev).failed
    ensures MutexOk(Next(s, ev))
  {
    TargetStep(s, ev);
    FrameStep(s, ev);
    OwnMutexStep(s, ev);
  }

  predicate InWait(pc: Pc) { pc.WaitSearch? || pc.WaitLock? || pc.WaitAdd? || pc.WaitPush? || pc.Park? }
  predicate InStop(pc: Pc) { pc.StopLock? || pc.StopErase? || pc.StopAdd? || pc.StopCancel? || pc.StopSub? }

  lemma NotifyDoesNotFail(s: State, t: nat)
    requires Inv(s) && Enabled(s, Step(t)) && Notifying(s.agents[t].pc)
    ensures !StepNotify(s, t).failed
  {
    Unpack(s);
  }

  lemma WaitDoesNotFail(s: State, t: nat)
    requires Inv(s) && Enabled(s, Step(t)) && InWait(s.agents[t].pc)
    ensures !StepWait(s, t).failed
  {
    Unpack(s);
    assert AgentOk(s.agents[t], Moving(s) == t, Waking(s) == t);
  }

  lemma StopDoesNotFail(s: State, t: nat)
    requires Inv(s) && Enabled(s, Step(t)) && InStop(s.agents[t].pc)
    ensures !StepStop(s, t).failed
  {
    Unpack(s);
    assert AgentOk(s.agents[t], Moving(s) == t, Waking(s) == t);
  }

  lemma FailStep(s: State, ev: Event)
    requires Inv(s) && Enabled(s, ev)
    ensures !Next(s, ev).failed
  {
    if ev.Step? {
      var pc := s.agents[ev.t].pc;
      if Notifying(pc) {
        NotifyDoesNotFail(s, ev.t);
      } else if InWait(pc) {
        WaitDoesNotFail(s, ev.t);
      } else {
        StopDoesNotFail(s, ev.t);
      }
    }
  }

  /** Unless the mutex changes hands, the links change only where the event says so. */
  lemma LinkSame(s: State, s': State, t: nat, x: int)
    requires MutexOk(s) && MutexOk(s') && Framed(s, s', t, x) && s'.mutex == s.mutex != t
    ensures Moving(s') == Moving(s) && Waking(s') == Waking(s)
  {
  }

  predicate Among(y: int, t: nat, x: int) { y == -1 || y == t || y == x }

  /** When the acting agent holds the mutex before or after, the links name only it and the sleeper. */
  lemma LinkOwn(s: State, ev: Event)
    requires MutexOk(s) && Enabled(s, ev) && MutexOk(Next(s, ev)) && !Next(s, ev).failed
    requires |Next(s, ev).agents| == |s.agents| && Target(s, ev) != ev.t
    requires s.mutex == ev.t || Next(s, ev).mutex == ev.t
    requires s.mutex == ev.t || s.mutex == FREE
    requires Next(s, ev).mutex == ev.t || Next(s, ev).mutex == FREE
    ensures Among(Moving(s), ev.t, Target(s, ev)) && Among(Waking(s), ev.t, Target(s, ev))
    ensures Among(Moving(Next(s, ev)), ev.t, Target(s, ev)) && Among(Waking(Next(s, ev)), ev.t, Target(s, ev))
  {
  }

  lemma LinkStep(s: State, ev: Event, q: nat)
    requires MutexOk(s) && Enabled(s, ev) && MutexOk(Next(s, ev)) && !Next(s, ev).failed
    requires Framed(s, Next(s, ev), ev.t, Target(s, ev))
    requires q < |s.agents| && q != ev.t && q != Target(s, ev)
    ensures (Moving(Next(s, ev)) == q <==> Moving(s) == q) && (Waking(Next(s, ev)) == q <==> Waking(s) == q)
  {
    OwnMutexStep(s, ev);
    if s.mutex != ev.t && Next(s, ev).mutex != ev.t {
      LinkSame(s, Next(s, ev), ev.t, Target(s, ev));
    } else {
      LinkOwn(s, ev);
    }
  }

  /** What the acting agent knows of itself. */
  predicate OwnOk(s: State, t: nat)
    requires MutexOk(s) && t < |s.agents|
  {
    AgentOk(s.agents[t], Moving(s) == t, Waking(s) == t) && MemberOk(s, t)
  }

  lemma WaitAgentStep(s: State, t: nat)
    requires MutexOk(s) && Enabled(s, Step(t)) && OwnOk(s, t) && InWait(s.agents[t].pc)
    requires var s' := StepWait(s, t); MutexOk(s') && !s'.failed
    ensures var s' := StepWait(s, t);
            |s'.agents| == |s.agents| && AgentOk(s'.agents[t], Moving(s') == t, Waking(s') == t)
  {
  }

  lemma StopAgentStep(s: State, t: nat)
    requires MutexOk(s) && Enabled(s, Step(t)) && OwnOk(s, t) && InStop(s.agents[t].pc)
    requires var s' := StepStop(s, t); MutexOk(s') && !s'.failed
    ensures var s' := StepStop(s, t);
            |s'.agents| == |s.agents| && AgentOk(s'.agents[t], Moving(s') == t, Waking(s') == t)
  {
  }

  lemma NotifyAgentStep(s: State, t: nat)
    requires MutexOk(s) && Enabled(s, Step(t)) && OwnOk(s, t) && Notifying(s.agents[t].pc) && Target(s, Step(t)) != t
    requires var s' := StepNotify(s, t); MutexOk(s') && !s'.failed
    ensures var s' := StepNotify(s, t);
            |s'.agents| == |s.agents| && AgentOk(s'.agents[t], Moving(s') == t, Waking(s') == t)
  {
  }

  lemma CallAgentStep(s: State, ev: Event)
    requires Inv(s) && Enabled(s, ev) && !ev.Step? && MutexOk(Next(s, ev))
    ensures var s' := Next(s, ev);
            ev.t < |s'.agents| && AgentOk(s'.agents[ev.t], Moving(s') == ev.t, Waking(s') == ev.t)
  {
    var s' := Next(s, ev);
    assert AgentOk(s.agents[ev.t], Moving(s) == ev.t, Waking(s) == ev.t);
    assert s'.mutex == s.mutex;
    if s.mutex != FREE {
      assert s'.agents[s.mutex].pc == s.agents[s.mutex].pc || s.mutex == ev.t;
    }
  }

  lemma OwnAgentStep(s: State, ev: Event)
    requires Inv(s) && Enabled(s, ev) && MutexOk(Next(s, ev)) && !Next(s, ev).failed
    requires |Next(s, ev).agents| == |s.agents| && Target(s, ev) != ev.t
    ensures AgentOk(Next(s, ev).agents[ev.t], Moving(Next(s, ev)) == ev.t, Waking(Next(s, ev)) == ev.t)
  {
    assert AgentOk(s.agents[ev.t], Moving(s) == ev.t, Waking(s) == ev.t) && MemberOk(s, ev.t);
    if !ev.Step? {
      CallAgentStep(s, ev);
    } else if Notifying(s.agents[ev.t].pc) {
      NotifyAgentStep(s, ev.t);
    } else if InWait(s.agents[ev.t].pc) {
      WaitAgentStep(s, ev.t);
    } else {
      StopAgentStep(s, ev.t);
    }
  }

  lemma TargetIsSleeper(s: State, ev: Event)
    requires Enabled(s, ev) && Target(s, ev) != -1
    ensures ev.Step? && Notifying(s.agents[ev.t].pc)
  {
  }

  lemma TargetAgentStep(s: State, ev: Event, x: nat)
    requires Inv(s) && Enabled(s, ev) && MutexOk(Next(s, ev)) && !Next(s, ev).failed
    requires Framed(s, Next(s, ev), ev.t, Target(s, ev))
    requires x == Target(s, ev) && x < |s.agents|
    ensures AgentOk(Next(s, ev).agents[x], Moving(Next(s, ev)) == x, Waking(Next(s, ev)) == x)
  {
    TargetIsSleeper(s, ev);
    assert AgentOk(s.agents[x], Moving(s) == x, Waking(s) == x) && MemberOk(s, x);
    assert AgentOk(s.agents[ev.t], Moving(s) == ev.t, Waking(s) == ev.t);
    hide Inv, CountsOk, SleepersOk, AgentsOk, Next, AgentOk, StepNotify;
    if s.agents[ev.t].pc.NotifyUnpark? {
      TargetWakes(s, ev.t, x);
    } else {
      TargetPops(s, ev.t, x);
    }
  }

  lemma TargetPops(s: State, t: nat, x: nat)
    requires Enabled(s, Step(t)) && Notifying(s.agents[t].pc) && !s.agents[t].pc.NotifyUnpark? && MutexOk(s)
    requires MutexOk(Next(s, Step(t))) && !Next(s, Step(t)).failed && Framed(s, Next(s, Step(t)), t, x)
    requires x == Target(s, Step(t)) && x < |s.agents|
    requires AgentOk(s.agents[x], Moving(s) == x, Waking(s) == x) && MemberOk(s, x)
    requires AgentOk(s.agents[t], Moving(s) == t, Waking(s) == t)
    ensures AgentOk(Next(s, Step(t)).agents[x], Moving(Next(s, Step(t))) == x, Waking(Next(s, Step(t))) == x)
  {
  }

  lemma TargetWakes(s: State, t: nat, x: nat)
    requires Enabled(s, Step(t)) && s.agents[t].pc.NotifyUnpark? && MutexOk(s)
    requires MutexOk(Next(s, Step(t))) && !Next(s, Step(t)).failed && Framed(s, Next(s, Step(t)), t, x)
    requires x == Target(s, Step(t)) && x < |s.agents|
    requires AgentOk(s.agents[x], Moving(s) == x, Waking(s) == x) && MemberOk(s, x)
    requires AgentOk(s.agents[t], Moving(s) == t, Waking(s) == t)
    ensures AgentOk(Next(s, Step(t)).agents[x], Moving(Next(s, Step(t))) == x, Waking(Next(s, Step(t))) == x)
  {
  }

  lemma AgentsStep(s: State, ev: Event)
    requires Inv(s) && Enabled(s, ev) && MutexOk(Next(s, ev)) && !Next(s, ev).failed
    requires Framed(s, Next(s, ev), ev.t, Target(s, ev))
    ensures AgentsOk(Next(s, ev))
  {
    var s' := Next(s, ev);
    TargetStep(s, ev);
    OwnAgentStep(s, ev);
    if Target(s, ev) != -1 {
      TargetAgentStep(s, ev, Target(s, ev));
    }
    forall q | 0 <= q < |s'.agents| ensures AgentOk(s'.agents[q], Moving(s') == q, Waking(s') == q) {
      if q != ev.t && q != Target(s, ev) {
        assert AgentOk(s.agents[q], Moving(s) == q, Waking(s) == q);
        LinkStep(s, ev, q);
      }
    }
    LinkBounds(s, ev);
  }

  lemma LinkBounds(s: State, ev: Event)
    requires MutexOk(s) && Moving(s) < |s.agents| && Waking(s) < |s.agents|
    requires Enabled(s, ev) && MutexOk(Next(s, ev)) && !Next(s, ev).failed
    requires Framed(s, Next(s, ev), ev.t, Target(s, ev)) && Target(s, ev) < |s.agents|
    ensures Moving(Next(s, ev)) < |s.agents| && Waking(Next(s, ev)) < |s.agents|
  {
    OwnMutexStep(s, ev);
    if s.mutex != ev.t && Next(s, ev).mutex != ev.t {
      LinkSame(s, Next(s, ev), ev.t, Target(s, ev));
    } else {
      LinkOwn(s, ev);
    }
  }

  // The sleepers list

  lemma {:induction false} EraseFacts(xs: seq<nat>, t: nat)
    requires NoDuplicates(xs) && t in xs
    ensures NoDuplicates(Erase(xs, t)) && |Erase(xs, t)| == |xs| - 1
    ensures forall x :: x in Erase(xs, t) <==> x in xs && x != t
  {
    assert xs == [xs[0]] + xs[1..];
    assert xs[0] !in xs[1..];
    if xs[0] != t {
      EraseFacts(xs[1..], t);
      var rest := Erase(xs[1..], t);
      assert Erase(xs, t) == [xs[0]] + rest && xs[0] !in rest;
    }
  }

  lemma LastFacts(xs: seq<nat>)
    requires NoDuplicates(xs) && xs != []
    ensures var n := |xs| - 1; NoDuplicates(xs[..n]) && forall x :: x in xs[..n] <==> x in xs && x != xs[n]
  {
    assert xs == xs[..|xs| - 1] + [xs[|xs| - 1]];
  }

  predicate Pushes(s: State, ev: Event)
    requires Enabled(s, ev)
  {
    ev.Step? && s.agents[ev.t].pc.WaitPush?
  }

  predicate Erases(s: State, ev: Event)
    requires Enabled(s, ev)
  {
    ev.Step? && s.agents[ev.t].pc.StopErase? && ev.t in s.sleepers
  }

  predicate Pops(s: State, ev: Event)
    requires Enabled(s, ev)
  {
    ev.Step? && s.agents[ev.t].pc.NotifyReload? && Target(s, ev) != -1
  }

  /** The list after an event, as a list and as a set. */
  lemma ListStep(s: State, ev: Event)
    requires Enabled(s, ev) && NoDuplicates(s.sleepers) && !Next(s, ev).failed
    requires Pushes(s, ev) ==> ev.t !in s.sleepers
    ensures NoDuplicates(Next(s, ev).sleepers)
    ensures forall q: nat :: q in Next(s, ev).sleepers <==>
              if Pushes(s, ev) then q == ev.t || q in s.sleepers
              else if Erases(s, ev) then q != ev.t && q in s.sleepers
              else if Pops(s, ev) then q != Target(s, ev) && q in s.sleepers
              else q in s.sleepers
    ensures |Next(s, ev).sleepers| == |s.sleepers| + One(Pushes(s, ev)) - One(Erases(s, ev)) - One(Pops(s, ev))
  {
    if Erases(s, ev) {
      EraseFacts(s.sleepers, ev.t);
    } else if Pops(s, ev) {
      LastFacts(s.sleepers);
    } else if Pushes(s, ev) {
    } else {
      assert Next(s, ev).sleepers == s.sleepers;
    }
  }

  lemma OwnMemberCall(s: State, ev: Event)
    requires Enabled(s, ev) && MutexOk(s) && OwnOk(s, ev.t) && MutexOk(Next(s, ev)) && !ev.Step?
    ensures |Next(s, ev).agents| == |s.agents| && MemberOk(Next(s, ev), ev.t)
  {
    var s' := Next(s, ev);
    if s.mutex != FREE {
      assert s'.agents[s.mutex].pc == s.agents[s.mutex].pc || s.mutex == ev.t;
    }
  }

  lemma OwnMemberStep(s: State, t: nat)
    requires Enabled(s, Step(t)) && MutexOk(s) && OwnOk(s, t) && MutexOk(StepCall(s, t)) && !StepCall(s, t).failed
    requires Target(s, Step(t)) != t && |StepCall(s, t).agents| == |s.agents|
    requires t in StepCall(s, t).sleepers <==> Pushes(s, Step(t)) || (!Erases(s, Step(t)) && t in s.sleepers)
    ensures MemberOk(StepCall(s, t), t)
  {
    var s' := StepCall(s, t);
    if InWait(s.agents[t].pc) {
    } else if InStop(s.agents[t].pc) {
    } else {
      assert !s.agents[t].role.Parked?;
    }
  }

  lemma TargetMember(s: State, ev: Event, x: nat)
    requires Enabled(s, ev) && MutexOk(s) && MutexOk(Next(s, ev)) && !Next(s, ev).failed
    requires x == Target(s, ev) && x < |s.agents| == |Next(s, ev).agents| && x != ev.t && OwnOk(s, x)
    requires x in Next(s, ev).sleepers <==> !Pops(s, ev) && x in s.sleepers
    ensures MemberOk(Next(s, ev), x)
  {
    assert s.mutex == ev.t;
  }

  lemma OtherMember(s: State, ev: Event, q: nat)
    requires Enabled(s, ev) && MutexOk(s) && MutexOk(Next(s, ev)) && !Next(s, ev).failed
    requires Framed(s, Next(s, ev), ev.t, Target(s, ev)) && q < |s.agents| && MemberOk(s, q)
    requires q != ev.t && q != Target(s, ev)
    requires q in Next(s, ev).sleepers <==> q in s.sleepers
    ensures MemberOk(Next(s, ev), q)
  {
    LinkStep(s, ev, q);
  }

  lemma MemberStep(s: State, ev: Event, q: nat)
    requires Inv(s) && Enabled(s, ev) && MutexOk(Next(s, ev)) && !Next(s, ev).failed
    requires Framed(s, Next(s, ev), ev.t, Target(s, ev)) && q < |s.agents|
    ensures MemberOk(Next(s, ev), q)
  {
    PushFresh(s, ev);
    ListStep(s, ev);
    assert AgentOk(s.agents[q], Moving(s) == q, Waking(s) == q) && MemberOk(s, q);
    if q == ev.t {
      if ev.Step? {
        OwnMemberStep(s, q);
      } else {
        OwnMemberCall(s, ev);
      }
    } else if q == Target(s, ev) {
      TargetMember(s, ev, q);
    } else {
      OtherMember(s, ev, q);
    }
  }

  lemma ListBounds(s: State, ev: Event)
    requires Enabled(s, ev) && !Next(s, ev).failed && MutexOk(s) && SleepersOk(s)
    requires Pushes(s, ev) ==> ev.t !in s.sleepers
    ensures NoDuplicates(Next(s, ev).sleepers) && forall x :: x in Next(s, ev).sleepers ==> x < |s.agents|
  {
    ListStep(s, ev);
  }

  lemma SleepersStep(s: State, ev: Event, s': State)
    requires Inv(s) && Enabled(s, ev) && s' == Next(s, ev) && MutexOk(s') && !s'.failed
    requires Framed(s, s', ev.t, Target(s, ev))
    ensures SleepersOk(s')
  {
    PushFresh(s, ev);
    ListBounds(s, ev);
    forall q: nat | q < |s'.agents| ensures MemberOk(s', q) {
      MemberStep(s, ev, q);
    }
  }

  lemma PushFresh(s: State, ev: Event)
    requires Inv(s) && Enabled(s, ev)
    ensures Pushes(s, ev) ==> ev.t !in s.sleepers
  {
    assert MemberOk(s, ev.t);
  }

  // The packed counters

  function RoleDelta(s: State, s': State, t: nat, x: int, role: Role): int
    requires t < |s.agents| == |s'.agents| && x < |s.agents|
  {
    One(s'.agents[t].role == role) - One(s.agents[t].role == role)
    + (if x < 0 then 0 else One(s'.agents[x].role == role) - One(s.agents[x].role == role))
  }

  lemma CountStep(s: State, ev: Event, s': State, role: Role)
    requires Enabled(s, ev) && Framed(s, s', ev.t, Target(s, ev)) && -1 <= Target(s, ev) < |s.agents|
    ensures Count(s'.agents, role) == Count(s.agents, role) + RoleDelta(s, s', ev.t, Target(s, ev), role)
  {
    var t, x := ev.t, Target(s, ev);
    hide Count, Next;
    CountUpdate(s.agents, t, s'.agents[t], role);
    var mid := s.agents[t := s'.agents[t]];
    if x == -1 {
      assert s'.agents == mid;
    } else {
      CountUpdate(mid, x, s'.agents[x], role);
      assert s'.agents == mid[x := s'.agents[x]];
    }
  }

  lemma WordStep(s: State, ev: Event)
    requires Enabled(s, ev) && MutexOk(s) && OwnOk(s, ev.t) && !Next(s, ev).failed
    requires Framed(s, Next(s, ev), ev.t, Target(s, ev)) && Target(s, ev) < |s.agents|
    requires s.agents[ev.t].pc.NotifySub? && ev.Step? ==> s.agents[Target(s, ev)].role.Parked?
    requires s.agents[ev.t].pc.NotifyUnpark? && ev.Step? ==> s.agents[Target(s, ev)].role.Searching?
    ensures var s' := Next(s, ev);
            s'.state == s.state + PARKING * RoleDelta(s, s', ev.t, Target(s, ev), Parked)
                                + RoleDelta(s, s', ev.t, Target(s, ev), Searching)
  {
  }

  lemma TransitStep(s: State, ev: Event)
    requires Enabled(s, ev) && MutexOk(s) && OwnOk(s, ev.t) && !Next(s, ev).failed && MutexOk(Next(s, ev))
    requires Framed(s, Next(s, ev), ev.t, Target(s, ev)) && Target(s, ev) < |s.agents|
    requires s.agents[ev.t].pc.NotifySub? && ev.Step? ==> s.agents[Target(s, ev)].role.Parked?
    requires s.agents[ev.t].pc.NotifyUnpark? && ev.Step? ==> s.agents[Target(s, ev)].role.Searching?
    ensures var s' := Next(s, ev);
            One(Moving(s') != -1) + One(Pushes(s, ev)) - One(Erases(s, ev)) - One(Pops(s, ev))
            == One(Moving(s) != -1) + RoleDelta(s, s', ev.t, Target(s, ev), Parked)
  {
    OwnMutexStep(s, ev);
    if s.mutex != ev.t && Next(s, ev).mutex != ev.t {
      LinkSame(s, Next(s, ev), ev.t, Target(s, ev));
    }
  }

  lemma TargetRole(s: State, ev: Event)
    requires Inv(s) && Enabled(s, ev)
    ensures s.agents[ev.t].pc.NotifySub? && ev.Step? ==> s.agents[Target(s, ev)].role.Parked?
    ensures s.agents[ev.t].pc.NotifyUnpark? && ev.Step? ==> s.agents[Target(s, ev)].role.Searching?
    ensures OwnOk(s, ev.t)
  {
    var x := Target(s, ev);
    assert AgentOk(s.agents[ev.t], Moving(s) == ev.t, Waking(s) == ev.t) && MemberOk(s, ev.t);
    if x >= 0 && x < |s.agents| {
      assert AgentOk(s.agents[x], Moving(s) == x, Waking(s) == x);
    }
  }

  lemma CountsFrom(s: State, s': State, parked: int, searching: int)
    requires MutexOk(s) && CountsOk(s) && MutexOk(s')
    requires Count(s'.agents, Parked) == Count(s.agents, Parked) + parked
    requires Count(s'.agents, Searching) == Count(s.agents, Searching) + searching
    requires s'.state == s.state + PARKING * parked + searching
    requires |s'.sleepers| + One(Moving(s') != -1) == |s.sleepers| + One(Moving(s) != -1) + parked
    ensures CountsOk(s')
  {
  }

  lemma CountsStep(s: State, ev: Event, s': State)
    requires Inv(s) && Enabled(s, ev) && s' == Next(s, ev) && MutexOk(s') && !s'.failed
    requires Framed(s, s', ev.t, Target(s, ev))
    ensures CountsOk(s')
  {
    TargetStep(s, ev);
    TargetRole(s, ev);
    CountStep(s, ev, s', Parked);
    CountStep(s, ev, s', Searching);
    WordStep(s, ev);
    TransitStep(s, ev);
    PushFresh(s, ev);
    ListStep(s, ev);
    var x := Target(s, ev);
    CountsFrom(s, s', RoleDelta(s, s', ev.t, x, Parked), RoleDelta(s, s', ev.t, x, Searching));
  }

  lemma SameProducer(s: State, ev: Event, s': State)
    requires Enabled(s, ev) && s' == Next(s, ev) && MutexOk(s) && OwnOk(s, ev.t) && Framed(s, s', ev.t, Target(s, ev))
    requires Target(s, ev) == -1 || (0 <= Target(s, ev) < |s.agents| && Dormant(s.agents[Target(s, ev)]))
    ensures RoleDelta(s, s', ev.t, Target(s, ev), Producer) == 0
  {
  }

  lemma ProducerStep(s: State, ev: Event, s': State)
    requires Inv(s) && Enabled(s, ev) && s' == Next(s, ev) && Framed(s, s', ev.t, Target(s, ev))
    ensures Count(s'.agents, Producer) == Count(s.agents, Producer)
  {
    TargetStep(s, ev);
    TargetRole(s, ev);
    SameProducer(s, ev, s');
    CountStep(s, ev, s', Producer);
  }

  // ---------------------------------------------------------------------------------------
  // No lost wakeup
  // ---------------------------------------------------------------------------------------

  /** An agent that will look for work, or wake somebody who will, before it can block. */
  predicate Responsible(a: Agent) {
    || a.role.Searching? || a.role.Working?
    || a.pc.StopLock? || a.pc.StopErase? || a.pc.StopAdd?
    || (a.pc.Ready? && !a.role.Producer?)
    || (a.pc.WaitPush? && SearchingCount(a.pc.seen) == 1)
    || (a.role.Producer? && Notifying(a.pc))
  }

  predicate SomeoneResponsible(s: State) {
    exists t: nat :: t < |s.agents| && Responsible(s.agents[t])
  }

  predicate Attended(s: State) { s.pending > 0 ==> SomeoneResponsible(s) }

  lemma AwakeIsResponsible(s: State, role: Role)
    requires (role.Searching? || role.Working?) && Count(s.agents, role) > 0
    ensures SomeoneResponsible(s)
  {
    var t := SomeWithRole(s.agents, role);
    assert Responsible(s.agents[t]);
  }

  /** notify ignores the call only when somebody is searching or everybody is working. */
  lemma IgnoredNotify(s: State)
    requires Inv(s) && (SearchingCount(s.state) > 0 || ParkedCount(s.state) == 0)
    ensures Count(s.agents, Searching) > 0 || Count(s.agents, Working) > 0
  {
    Unpack(s);
    CountTotal(s.agents);
  }

  lemma IgnoredNotifyHandsOver(s: State, t: nat, s': State)
    requires Inv(s) && Enabled(s, Step(t)) && Framed(s, s', t, -1) && Target(s, Step(t)) == -1
    requires s'.agents[t].role == s.agents[t].role
    requires SearchingCount(s.state) > 0 || ParkedCount(s.state) == 0
    ensures SomeoneResponsible(s')
  {
    CountStep(s, Step(t), s', Searching);
    CountStep(s, Step(t), s', Working);
    IgnoredNotify(s);
    if Count(s'.agents, Searching) > 0 {
      AwakeIsResponsible(s', Searching);
    } else {
      AwakeIsResponsible(s', Working);
    }
  }

  lemma UnparkHandsOver(s: State, t: nat, s': State)
    requires Inv(s) && Enabled(s, Step(t)) && s.agents[t].pc.NotifyUnpark?
    requires s' == StepNotify(s, t) && Framed(s, s', t, Target(s, Step(t)))
    ensures SomeoneResponsible(s')
  {
    TargetStep(s, Step(t));
    TargetRole(s, Step(t));
    assert Responsible(s'.agents[Target(s, Step(t))]);
  }

  /** A producer that leaves notify leaves an awake worker behind. */
  /** A notify that does not unpark goes on, or ends because somebody is searching or nobody is parked. */
  lemma NotifyEnds(s: State, t: nat)
    requires Enabled(s, Step(t)) && Notifying(s.agents[t].pc) && !s.agents[t].pc.NotifyUnpark?
      && !StepNotify(s, t).failed
    requires Target(s, Step(t)) != t
    ensures t < |StepNotify(s, t).agents|
    ensures var a, a' := s.agents[t], StepNotify(s, t).agents[t];
            && a'.role == a.role
            && (Notifying(a'.pc)
                || (Target(s, Step(t)) == -1 && (SearchingCount(s.state) > 0 || ParkedCount(s.state) == 0)))
  {
  }

  lemma ProducerHandsOver(s: State, t: nat, s': State)
    requires Inv(s) && Enabled(s, Step(t)) && s.agents[t].role.Producer? && Notifying(s.agents[t].pc)
    requires s' == StepNotify(s, t) && !s'.failed
    ensures t < |s'.agents| && (Responsible(s'.agents[t]) || SomeoneResponsible(s'))
  {
    TargetStep(s, Step(t));
    FrameStep(s, Step(t));
    assert Next(s, Step(t)) == s';
    if s.agents[t].pc.NotifyUnpark? {
      UnparkHandsOver(s, t, s');
    } else {
      NotifyEnds(s, t);
      hide StepNotify, Inv, Next, Target, SearchingCount, ParkedCount;
      if !Notifying(s'.agents[t].pc) {
        IgnoredNotifyHandsOver(s, t, s');
      }
    }
  }

  /** A searching worker that parks is either the last one, and will look again, or leaves another. */
  lemma SearcherHandsOver(s: State, t: nat, s': State)
    requires Inv(s) && Enabled(s, Step(t)) && s.agents[t].pc.WaitAdd?
    requires s' == StepWait(s, t)
    ensures t < |s'.agents| && (Responsible(s'.agents[t]) || SomeoneResponsible(s'))
  {
    hide Count, RoleDelta, Responsible, AgentsOk, SleepersOk, SearchingCount, ParkedCount;
    TargetStep(s, Step(t));
    FrameStep(s, Step(t));
    TargetRole(s, Step(t));
    Unpack(s);
    SearcherAdds(s, t);
    hide *;
    SearcherLeaves(s, t, s');
  }

  lemma SearcherLeaves(s: State, t: nat, s': State)
    requires Enabled(s, Step(t)) && Framed(s, s', t, -1) && Target(s, Step(t)) == -1
    requires SearchingCount(s.state) == Count(s.agents, Searching) && RoleDelta(s, s', t, -1, Searching) == -1
    requires SearchingCount(s.state) == 1 ==> Responsible(s'.agents[t])
    ensures Responsible(s'.agents[t]) || SomeoneResponsible(s')
  {
    CountStep(s, Step(t), s', Searching);
    if SearchingCount(s.state) != 1 {
      hide *;
      AwakeIsResponsible(s', Searching);
    }
  }

  lemma SearcherAdds(s: State, t: nat)
    requires Enabled(s, Step(t)) && s.agents[t].pc.WaitAdd? && MutexOk(s) && OwnOk(s, t)
    ensures var s' := StepWait(s, t);
            && Next(s, Step(t)) == s' && t < |s'.agents| && Target(s, Step(t)) == -1 && !s'.failed ==>
              RoleDelta(s, s', t, -1, Searching) == -1
              && (SearchingCount(s.state) == 1 ==> Responsible(s'.agents[t]))
  {
  }

  /** Which function makes the step of an agent inside notify, or about to add itself to the sleepers. */
  lemma StepOfPc(s: State, ev: Event)
    requires Enabled(s, ev) && ev.Step?
    ensures Notifying(s.agents[ev.t].pc) ==> Next(s, ev) == StepNotify(s, ev.t)
    ensures s.agents[ev.t].pc.WaitAdd? ==> Next(s, ev) == StepWait(s, ev.t)
  {
  }

  lemma OwnResponsible(s: State, ev: Event, s': State)
    requires Inv(s) && Enabled(s, ev) && s' == Next(s, ev) && Inv(s') && Framed(s, s', ev.t, Target(s, ev))
    requires Responsible(s.agents[ev.t]) && s'.pending > 0 && OwnOk(s, ev.t)
    ensures Responsible(s'.agents[ev.t]) || SomeoneResponsible(s')
  {
    var a := s.agents[ev.t];
    TargetStep(s, ev);
    if ev.Step? {
      StepOfPc(s, ev);
    }
    hide CountsOk, SleepersOk, AgentsOk, OwnOk, Next, Target;
    if ev.Step? && a.role.Producer? {
      ProducerHandsOver(s, ev.t, s');
    } else if ev.Step? && a.pc.WaitAdd? {
      SearcherHandsOver(s, ev.t, s');
    } else {
      StaysResponsible(s, ev);
    }
  }

  lemma StaysResponsible(s: State, ev: Event)
    requires Enabled(s, ev) && MutexOk(s) && OwnOk(s, ev.t) && Responsible(s.agents[ev.t]) && Next(s, ev).pending > 0
    requires ev.Step? ==> !s.agents[ev.t].role.Producer? && !s.agents[ev.t].pc.WaitAdd?
    requires Target(s, ev) != ev.t && !Next(s, ev).failed
    ensures |Next(s, ev).agents| == |s.agents| && Responsible(Next(s, ev).agents[ev.t])
  {
  }

  lemma TargetResponsible(s: State, ev: Event, x: nat)
    requires Enabled(s, ev) && x == Target(s, ev) && x < |s.agents| && x != ev.t && Responsible(s.agents[x])
    requires !Next(s, ev).failed
    requires s.agents[ev.t].pc.NotifyUnpark? ==> s.agents[x].role.Searching?
    ensures x < |Next(s, ev).agents| && Responsible(Next(s, ev).agents[x])
  {
  }

  lemma ProduceResponsible(s: State, t: nat)
    requires Enabled(s, Produce(t)) && MutexOk(s) && OwnOk(s, t)
    ensures Responsible(Next(s, Produce(t)).agents[t])
  {
  }
}
