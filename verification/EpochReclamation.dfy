/**
  Epoch-based memory reclamation (td/utils/EpochBasedMemoryReclamation.h) as a step system.

  Every event below is one atomic access to shared memory together with the thread-local work
  around it; any number of threads interleave freely. `session`, `pin`, `guards`, `retired` and
  `freed` are history: the code never reads them.
*/
module EpochReclamation {

  const MAX_BAGS: nat := 3

  /** Which public call a thread is inside of. */
  datatype Op = Lock | Retire | Sync

  /** Where a thread is. `viaCas` tells the set_epoch at the end of step_check from the first one. */
  datatype Pc =
    | Outside
    | Rotating(op: Op, target: int, viaCas: bool)
    | Announcing(op: Op, target: int, viaCas: bool)
    | Checking(op: Op)
    | Advancing(op: Op)
    | SyncIdling
    | SyncAgain

  /** A retired object; `guards` are the (thread, session) pairs announced when it was retired. */
  datatype Object = Object(id: int, guards: set<(nat, nat)>)

  /** `epoch` is twice the announced epoch, plus one while the thread is idle. */
  datatype ThreadData = ThreadData(
    epoch: int, toSkip: nat, checked: nat, bag: nat, bags: seq<seq<Object>>, pc: Pc,
    session: nat, pin: int)
  {
    function Local(): int { epoch / 2 }
    predicate Active() { epoch % 2 == 0 }

    /** The epoch the thread has or is just about to announce. */
    function Effective(): int { if pc.Announcing? then pc.target else Local() }

    function Undeleted(): nat
      requires |bags| == MAX_BAGS
    {
      |bags[0]| + |bags[1]| + |bags[2]|
    }
  }

  datatype State = State(
    global: int, threads: seq<ThreadData>, retired: multiset<Object>, freed: multiset<Object>)

  datatype Event =
    | Call(t: nat, op: Op)
    | RotateBags(t: nat)
    | Announce(t: nat)
    | CheckPeer(t: nat)
    | TryAdvance(t: nat)
    | Unlock(t: nat)
    | RetireObject(t: nat, id: int)
    | GoIdle(t: nat)

  function InitThread(): ThreadData { ThreadData(1, 0, 0, 0, [[], [], []], Outside, 0, 0) }

  function Init(n: nat): State {
    State(1, seq(n, i => InitThread()), multiset{}, multiset{})
  }

  predicate Shape(s: State) {
    forall i :: 0 <= i < |s.threads| ==>
                  |s.threads[i].bags| == MAX_BAGS && s.threads[i].bag < MAX_BAGS
  }

  predicate Enabled(s: State, ev: Event) {
    Shape(s) && ev.t < |s.threads| &&
    var pc := s.threads[ev.t].pc;
    match ev
    case Call(_, op) => pc.Outside? || (pc.SyncAgain? && op.Sync?)
    case RotateBags(_) => pc.Rotating?
    case Announce(_) => pc.Announcing?
    case CheckPeer(_) => pc.Checking? && s.threads[ev.t].checked < |s.threads|
    case TryAdvance(_) => pc.Advancing?
    case Unlock(_) => pc.Outside?
    case RetireObject(_, _) => pc.Outside?
    case GoIdle(_) => pc.SyncIdling?
  }

  /** Where a public call continues once step_check has returned `ok`. */
  function AfterCheck(d: ThreadData, op: Op, ok: bool): Pc
    requires |d.bags| == MAX_BAGS
  {
    match op
    case Lock => Outside
    case Retire => if ok && d.Undeleted() != 0 then Checking(op) else Outside
    case Sync => if ok && d.Undeleted() != 0 then Checking(op) else SyncIdling
  }

  function Put(s: State, t: nat, d: ThreadData): State
    requires t < |s.threads|
  {
    s.(threads := s.threads[t := d])
  }

  /** set_epoch, first half: rotate and clear the oldest bag if the epoch changed. */
  function StepRotate(s: State, t: nat): State
    requires Enabled(s, RotateBags(t))
  {
    var d := s.threads[t];
    var pc := Announcing(d.pc.op, d.pc.target, d.pc.viaCas);
    if d.Local() == d.pc.target then
      Put(s, t, d.(pc := pc))
    else
      var bag := (d.bag + 1) % MAX_BAGS;
      Put(s, t, d.(checked := 0, toSkip := 0, bag := bag, bags := d.bags[bag := []], pc := pc))
        .(freed := s.freed + multiset(d.bags[bag]))
  }

  /** set_epoch, second half: publish the epoch; then the caller's thread-local continuation. */
  function StepAnnounce(s: State, t: nat): State
    requires Enabled(s, Announce(t))
  {
    var d := s.threads[t];
    var op := d.pc.op;
    var e := d.(epoch := d.pc.target * 2, session := d.session + 1, pin := s.global);
    if d.pc.viaCas then Put(s, t, e.(pc := AfterCheck(d, op, true)))
    else if op.Lock? && d.toSkip != 0 then Put(s, t, e.(pc := Outside, toSkip := d.toSkip - 1))
    else Put(s, t, e.(pc := Checking(op), toSkip := if op.Lock? then 30 else d.toSkip))
  }

  function StepCheck(s: State, t: nat): State
    requires Enabled(s, CheckPeer(t))
  {
    var d := s.threads[t];
    var peer := s.threads[d.checked];
    if !peer.Active() || peer.Local() == d.Local() then
      if d.checked + 1 == |s.threads| then
        Put(s, t, d.(checked := d.checked + 1, pc := Advancing(d.pc.op)))
      else
        Put(s, t, d.(checked := d.checked + 1, pc := AfterCheck(d, d.pc.op, true)))
    else
      Put(s, t, d.(pc := AfterCheck(d, d.pc.op, false)))
  }

  function StepAdvance(s: State, t: nat): State
    requires Enabled(s, TryAdvance(t))
  {
    var d := s.threads[t];
    if s.global == d.Local() then
      Put(s, t, d.(pc := Rotating(d.pc.op, s.global + 1, true))).(global := s.global + 1)
    else
      Put(s, t, d.(pc := Rotating(d.pc.op, s.global, true)))
  }

  function Guards(s: State): set<(nat, nat)> {
    set r | 0 <= r < |s.threads| && s.threads[r].Active() :: (r, s.threads[r].session)
  }

  function StepRetire(s: State, t: nat, id: int): State
    requires Enabled(s, RetireObject(t, id))
  {
    var d := s.threads[t];
    var o := Object(id, Guards(s));
    Put(s, t, d.(bags := d.bags[d.bag := d.bags[d.bag] + [o]])).(retired := s.retired + multiset{o})
  }

  /** idle(); inside retire_sync the call then returns, or starts over while something is left in the bags. */
  function StepIdle(s: State, t: nat): State
    requires Shape(s) && t < |s.threads|
  {
    var d := s.threads[t];
    var again := d.pc.SyncIdling? && d.Undeleted() != 0;
    Put(s, t, d.(epoch := d.Local() * 2 + 1, pc := if again then SyncAgain else Outside))
  }

  function Next(s: State, ev: Event): State
    requires Enabled(s, ev)
  {
    match ev
    case Call(t, op) => Put(s, t, s.threads[t].(pc := Rotating(op, s.global, false)))
    case RotateBags(t) => StepRotate(s, t)
    case Announce(t) => StepAnnounce(s, t)
    case CheckPeer(t) => StepCheck(s, t)
    case TryAdvance(t) => StepAdvance(s, t)
    case Unlock(t) => StepIdle(s, t)
    case RetireObject(t, id) => StepRetire(s, t, id)
    case GoIdle(t) => StepIdle(s, t)
  }

  // ---------------------------------------------------------------------------------------
  // The invariant
  // ---------------------------------------------------------------------------------------

  predicate Current(s: State, g: (nat, nat)) {
    g.0 < |s.threads| && s.threads[g.0].Active() && s.threads[g.0].session == g.1
  }

  predicate ThreadOk(s: State, t: nat)
    requires t < |s.threads|
  {
    var d := s.threads[t];
    && 0 <= d.epoch && d.Local() <= s.global
    && |d.bags| == MAX_BAGS && d.bag < MAX_BAGS
    && (if d.pc.Advancing? || (d.pc.Rotating? && d.pc.viaCas) then d.checked == |s.threads|
        else d.checked < |s.threads|)
    && (d.pc.Rotating? || d.pc.Announcing? ==> d.Local() <= d.pc.target <= s.global)
    && (d.pc.Rotating? && d.pc.viaCas ==> d.Local() < d.pc.target)
    && (d.pc.Announcing? && d.Local() != d.pc.target ==> d.checked == 0)
  }

  predicate ThreadsOk(s: State) {
    |s.threads| > 0 && forall t :: 0 <= t < |s.threads| ==> ThreadOk(s, t)
  }

  /** An announced thread lets the global epoch rise at most one above what it was at the announcement. */
  predicate PinOk(s: State, r: nat)
    requires r < |s.threads|
  {
    var d := s.threads[r];
    d.Active() ==> d.Local() <= d.pin <= s.global <= d.pin + 1
  }

  /** A thread with a newer epoch than an announced thread's pin has not got past it in its scan. */
  predicate ScanOk(s: State, t: nat, r: nat)
    requires t < |s.threads| && r < |s.threads|
  {
    s.threads[r].Active() && s.threads[t].Local() > s.threads[r].pin ==> s.threads[t].checked <= r
  }

  predicate EpochsOk(s: State) {
    && (forall r :: 0 <= r < |s.threads| ==> PinOk(s, r))
    && (forall t, r :: 0 <= t < |s.threads| && 0 <= r < |s.threads| ==> ScanOk(s, t, r))
  }

  /** How many rotations ago bag `b` was the one objects were retired into. */
  function Age(d: ThreadData, b: nat): int
    requires b < MAX_BAGS && d.bag < MAX_BAGS
  {
    if b <= d.bag then d.bag - b else d.bag + MAX_BAGS - b
  }

  predicate GuardOk(s: State, d: ThreadData, age: int, g: (nat, nat)) {
    && g.0 < |s.threads| && g.1 <= s.threads[g.0].session
    && (Current(s, g) ==>
          && (age >= 1 ==> d.Effective() >= s.threads[g.0].pin + age - 1)
          && (d.pc.Rotating? ==> d.pc.target >= s.threads[g.0].pin))
  }

  predicate BagOk(s: State, d: ThreadData, b: nat)
    requires b < MAX_BAGS && d.bag < MAX_BAGS && |d.bags| == MAX_BAGS
  {
    forall i, g :: 0 <= i < |d.bags[b]| && g in d.bags[b][i].guards ==> GuardOk(s, d, Age(d, b), g)
  }

  predicate BagsOk(s: State)
    requires Shape(s)
  {
    forall t, b :: 0 <= t < |s.threads| && 0 <= b < MAX_BAGS ==> BagOk(s, s.threads[t], b)
  }

  predicate Over(s: State, g: (nat, nat)) {
    g.0 < |s.threads| && g.1 <= s.threads[g.0].session && !Current(s, g)
  }

  /** Nothing was destroyed while a critical section that could still see it was open. */
  predicate FreedOk(s: State) {
    forall o, g :: o in s.freed && g in o.guards ==> Over(s, g)
  }

  predicate Inv(s: State) {
    ThreadsOk(s) && Shape(s) && EpochsOk(s) && BagsOk(s) && FreedOk(s)
  }

  // ---------------------------------------------------------------------------------------
  // Every event keeps it
  // ---------------------------------------------------------------------------------------

  lemma OwnThreadStep(s: State, ev: Event)
    requires ThreadsOk(s) && Enabled(s, ev)
    ensures |Next(s, ev).threads| == |s.threads| && s.global <= Next(s, ev).global
    ensures forall i :: 0 <= i < |s.threads| && i != ev.t ==> Next(s, ev).threads[i] == s.threads[i]
    ensures ThreadOk(Next(s, ev), ev.t)
  {
    assert ThreadOk(s, ev.t);
    match ev
    case Call(_, _) =>
    case RotateBags(_) =>
    case Announce(_) =>
    case CheckPeer(_) =>
    case TryAdvance(_) =>
    case Unlock(_) =>
    case RetireObject(_, _) =>
    case GoIdle(_) =>
  }

  lemma ThreadsStep(s: State, ev: Event)
    requires ThreadsOk(s) && Enabled(s, ev)
    ensures ThreadsOk(Next(s, ev)) && Shape(Next(s, ev))
  {
    OwnThreadStep(s, ev);
    var s' := Next(s, ev);
    forall i | 0 <= i < |s'.threads| ensures ThreadOk(s', i) {
      assert ThreadOk(s, i);
    }
    forall i | 0 <= i < |s'.threads| ensures |s'.threads[i].bags| == MAX_BAGS && s'.threads[i].bag < MAX_BAGS {
      assert ThreadOk(s', i);
    }
  }

  lemma PinStep(s: State, ev: Event, r: nat)
    requires ThreadsOk(s) && Enabled(s, ev) && r < |s.threads| && PinOk(s, r) && ScanOk(s, ev.t, r)
    ensures r < |Next(s, ev).threads| && PinOk(Next(s, ev), r)
  {
    assert ThreadOk(s, r) && ThreadOk(s, ev.t);
  }

  /** A thread is announced after an event only if it was before, or has just pinned the global epoch. */
  lemma AnnounceStep(s: State, ev: Event)
    requires ThreadsOk(s) && Enabled(s, ev)
    ensures var d, d' := s.threads[ev.t], Next(s, ev).threads[ev.t];
            d'.Active() ==> d'.pin == s.global || (d.Active() && d'.pin == d.pin)
  {
    assert ThreadOk(s, ev.t);
  }

  lemma OwnScanStep(s: State, ev: Event, r: nat)
    requires ThreadsOk(s) && Enabled(s, ev) && r < |s.threads| && r != ev.t
    requires PinOk(s, r) && ScanOk(s, ev.t, r)
    ensures ScanOk(Next(s, ev), ev.t, r)
  {
    assert ThreadOk(s, ev.t);
  }

  lemma ScanStep(s: State, ev: Event, q: nat, r: nat)
    requires ThreadsOk(s) && Enabled(s, ev) && q < |s.threads| && r < |s.threads|
    requires PinOk(s, r) && ScanOk(s, q, r) && PinOk(Next(s, ev), r)
    requires |Next(s, ev).threads| == |s.threads|
    requires forall i :: 0 <= i < |s.threads| && i != ev.t ==> Next(s, ev).threads[i] == s.threads[i]
    ensures ScanOk(Next(s, ev), q, r)
  {
    assert ThreadOk(s, q);
    if q != ev.t {
      AnnounceStep(s, ev);
    } else if r != ev.t {
      OwnScanStep(s, ev, r);
    }
  }

  lemma EpochsStep(s: State, ev: Event)
    requires ThreadsOk(s) && EpochsOk(s) && Enabled(s, ev)
    ensures EpochsOk(Next(s, ev))
  {
    OwnThreadStep(s, ev);
    var s' := Next(s, ev);
    forall r | 0 <= r < |s'.threads| ensures PinOk(s', r) {
      PinStep(s, ev, r);
    }
    forall q, r | 0 <= q < |s'.threads| && 0 <= r < |s'.threads| ensures ScanOk(s', q, r) {
      ScanStep(s, ev, q, r);
    }
  }

  /** A session that is still open after the event was open, with the same pin, before it. */
  lemma SessionStep(s: State, ev: Event, g: (nat, nat))
    requires Enabled(s, ev) && g.0 < |s.threads| && g.1 <= s.threads[g.0].session
    ensures var s' := Next(s, ev);
            g.0 < |s'.threads| && g.1 <= s'.threads[g.0].session &&
            (Current(s', g) ==> Current(s, g) && s'.threads[g.0].pin == s.threads[g.0].pin)
  {
    hide AfterCheck, Guards;
  }

  /** How the acting thread's bags age: only a rotation ages them, by one, and it has reached its target epoch. */
  lemma AgeStep(s: State, ev: Event, b: nat)
    requires ThreadsOk(s) && Enabled(s, ev) && b < MAX_BAGS
    requires !(ev.RotateBags? && Next(s, ev).threads[ev.t].bags[b] == [])
    ensures ev.t < |Next(s, ev).threads|
    ensures var d, d' := s.threads[ev.t], Next(s, ev).threads[ev.t];
            && d'.bag < MAX_BAGS && d'.Effective() >= d.Effective() && Age(d', b) <= Age(d, b) + 1
            && (Age(d', b) > Age(d, b) ==> d.pc.Rotating? && d'.Effective() == d.pc.target > d.Effective())
            && (d'.pc.Rotating? ==> d'.pc.target >= s.global)
  {
    assert ThreadOk(s, ev.t);
  }

  /** An object that stays in bag `b` keeps its guards, however far the event ages the bag. */
  lemma GuardStep(s: State, ev: Event, q: nat, b: nat, g: (nat, nat))
    requires ThreadsOk(s) && Enabled(s, ev) && q < |s.threads| && b < MAX_BAGS
    requires GuardOk(s, s.threads[q], Age(s.threads[q], b), g) && PinOk(s, g.0)
    requires !(ev.RotateBags? && ev.t == q && Next(s, ev).threads[q].bags[b] == [])
    ensures q < |Next(s, ev).threads| && Next(s, ev).threads[q].bag < MAX_BAGS
    ensures GuardOk(Next(s, ev), Next(s, ev).threads[q], Age(Next(s, ev).threads[q], b), g)
  {
    SessionStep(s, ev, g);
    assert ThreadOk(s, q);
    OwnThreadStep(s, ev);
    if ev.t == q {
      AgeStep(s, ev, b);
    }
    hide Next, Age, ThreadOk;
  }

  /** What a bag holds after an event: what it held, or the object that was just retired into it. */
  lemma EntryStep(s: State, ev: Event, q: nat, b: nat, i: nat)
    requires ThreadsOk(s) && Shape(s) && Enabled(s, ev) && q < |s.threads| && b < MAX_BAGS
    requires Shape(Next(s, ev)) && q < |Next(s, ev).threads| && i < |Next(s, ev).threads[q].bags[b]|
    ensures var d, d' := s.threads[q], Next(s, ev).threads[q];
            || (i < |d.bags[b]| && d'.bags[b][i] == d.bags[b][i])
            || (ev.RetireObject? && ev.t == q && b == d.bag == d'.bag && d'.bags[b][i].guards == Guards(s)
                && !d'.pc.Rotating?)
  {
  }

  lemma BagStep(s: State, ev: Event, q: nat, b: nat)
    requires Inv(s) && Enabled(s, ev) && q < |s.threads| && b < MAX_BAGS
    ensures Shape(Next(s, ev)) && BagOk(Next(s, ev), Next(s, ev).threads[q], b)
  {
    var s' := Next(s, ev);
    ThreadsStep(s, ev);
    OwnThreadStep(s, ev);
    var d, d' := s.threads[q], s'.threads[q];
    hide Next, Enabled, ThreadsOk, FreedOk;
    forall i, g | 0 <= i < |d'.bags[b]| && g in d'.bags[b][i].guards
      ensures GuardOk(s', d', Age(d', b), g)
    {
      EntryStep(s, ev, q, b, i);
      if i < |d.bags[b]| && d'.bags[b][i] == d.bags[b][i] {
        assert BagOk(s, d, b);
        assert GuardOk(s, d, Age(d, b), g);
        assert PinOk(s, g.0);
        GuardStep(s, ev, q, b, g);
      } else {
        SessionStep(s, ev, g);
      }
    }
  }

  /** An object that the event clears was retired under no session that is still open. */
  lemma ClearedStep(s: State, ev: Event, o: Object, g: (nat, nat))
    requires Inv(s) && Enabled(s, ev) && o in Next(s, ev).freed && o !in s.freed && g in o.guards
    ensures Over(Next(s, ev), g)
  {
    var d := s.threads[ev.t];
    var b := (d.bag + 1) % MAX_BAGS;
    var i :| 0 <= i < |d.bags[b]| && d.bags[b][i] == o;
    assert ThreadOk(s, ev.t) && BagOk(s, d, b);
    assert GuardOk(s, d, Age(d, b), g) && PinOk(s, g.0);
  }

  lemma FreedStep(s: State, ev: Event)
    requires Inv(s) && Enabled(s, ev)
    ensures FreedOk(Next(s, ev))
  {
    var s' := Next(s, ev);
    forall o, g | o in s'.freed && g in o.guards ensures Over(s', g) {
      if o in s.freed {
        assert Over(s, g);
        SessionStep(s, ev, g);
      } else {
        ClearedStep(s, ev, o, g);
      }
    }
  }

  // ---------------------------------------------------------------------------------------
  // Nothing is lost or destroyed twice
  // ---------------------------------------------------------------------------------------

  function InBags(d: ThreadData): multiset<Object>
    requires |d.bags| == MAX_BAGS
  {
    multiset(d.bags[0]) + multiset(d.bags[1]) + multiset(d.bags[2])
  }

  function Held(threads: seq<ThreadData>): multiset<Object>
    requires forall d :: d in threads ==> |d.bags| == MAX_BAGS
  {
    if threads == [] then multiset{} else InBags(threads[0]) + Held(threads[1..])
  }

  lemma {:induction false} HeldUpdate(threads: seq<ThreadData>, t: nat, d: ThreadData)
    requires t < |threads| && |d.bags| == MAX_BAGS
    requires forall x :: x in threads ==> |x.bags| == MAX_BAGS
    ensures forall x :: x in threads[t := d] ==> |x.bags| == MAX_BAGS
    ensures Held(threads[t := d]) + InBags(threads[t]) == Held(threads) + InBags(d)
  {
    if t > 0 {
      HeldUpdate(threads[1..], t - 1, d);
      assert threads[t := d][1..] == threads[1..][t - 1 := d];
      var rest := threads[1..];
      calc {
        Held(threads[t := d]) + InBags(threads[t]);
        InBags(threads[0]) + (Held(rest[t - 1 := d]) + InBags(rest[t - 1]));
        Held(threads) + InBags(d);
      }
    } else {
      assert threads[t := d][1..] == threads[1..];
    }
  }

  predicate Conserved(s: State) {
    Shape(s) && (forall d :: d in s.threads ==> |d.bags| == MAX_BAGS) && s.retired == Held(s.threads) + s.freed
  }

  lemma BagUpdate(d: ThreadData, b: nat, bag: seq<Object>)
    requires |d.bags| == MAX_BAGS && b < MAX_BAGS
    ensures InBags(d.(bags := d.bags[b := bag])) + multiset(d.bags[b]) == InBags(d) + multiset(bag)
  {
  }

  lemma RotateConserves(s: State, t: nat)
    requires Enabled(s, RotateBags(t)) && |StepRotate(s, t).threads[t].bags| == MAX_BAGS
    ensures InBags(StepRotate(s, t).threads[t]) + StepRotate(s, t).freed == InBags(s.threads[t]) + s.freed
  {
    var d := s.threads[t];
    var b := (d.bag + 1) % MAX_BAGS;
    BagUpdate(d, b, []);
  }

  lemma RetireConserves(s: State, t: nat, id: int)
    requires Enabled(s, RetireObject(t, id))
    ensures InBags(StepRetire(s, t, id).threads[t]) + s.retired == InBags(s.threads[t]) + StepRetire(s, t, id).retired
  {
    var d := s.threads[t];
    BagUpdate(d, d.bag, d.bags[d.bag] + [Object(id, Guards(s))]);
  }

  lemma QuietBags(s: State, ev: Event)
    requires Enabled(s, ev) && !ev.RotateBags? && !ev.RetireObject?
    ensures ev.t < |s.threads| == |Next(s, ev).threads|
    ensures Next(s, ev).threads[ev.t].bags == s.threads[ev.t].bags
    ensures Next(s, ev).freed == s.freed && Next(s, ev).retired == s.retired
  {
  }

  lemma OwnBagsStep(s: State, ev: Event)
    requires Enabled(s, ev) && |Next(s, ev).threads[ev.t].bags| == MAX_BAGS
    ensures InBags(Next(s, ev).threads[ev.t]) + Next(s, ev).freed + s.retired
         == InBags(s.threads[ev.t]) + s.freed + Next(s, ev).retired
  {
    if ev.RotateBags? {
      RotateConserves(s, ev.t);
    } else if ev.RetireObject? {
      RetireConserves(s, ev.t, ev.id);
      assert Next(s, ev).freed == s.freed;
    } else {
      QuietBags(s, ev);
      hide Next, Enabled;
    }
  }

  lemma Cancel(h: multiset<Object>, h': multiset<Object>, a: multiset<Object>, a': multiset<Object>,
               f: multiset<Object>, f': multiset<Object>, r: multiset<Object>, r': multiset<Object>)
    requires h' + a == h + a' && a' + f' + r == a + f + r' && r == h + f
    ensures r' == h' + f'
  {
    forall o ensures r'[o] == (h' + f')[o] {
      assert (h' + a)[o] == (h + a')[o] && (a' + f' + r)[o] == (a + f + r')[o] && r[o] == (h + f)[o];
    }
  }
}
