/**
  What lock, retire and retire_sync achieve (td/utils/EpochBasedMemoryReclamation.h): how fast a thread that locks
  and unlocks moves the epoch on, what a retire clears and where it gives up, and what holds when retire_sync returns.
*/
module EpochReclamationAlone {
  import opened EpochReclamation
  import opened EpochReclamationRuns

  /** The next event of a thread that is inside a call. */
  function Go(t: nat, pc: Pc): Event
    requires !pc.Outside?
  {
    match pc
    case Rotating(_, _, _) => RotateBags(t)
    case Announcing(_, _, _) => Announce(t)
    case Checking(_) => CheckPeer(t)
    case Advancing(_) => TryAdvance(t)
    case SyncIdling => GoIdle(t)
    case SyncAgain => Call(t, Sync)
  }

  predicate Moves(s: State, t: nat) {
    t < |s.threads| && !s.threads[t].pc.Outside? && Enabled(s, Go(t, s.threads[t].pc))
  }

  function Moved(s: State, t: nat): State
    requires Moves(s, t)
  {
    Next(s, Go(t, s.threads[t].pc))
  }

  /** Up to n steps of one thread, until its call ends. */
  function Alone(s: State, t: nat, n: nat): State
    decreases n
  {
    if n == 0 || !Moves(s, t) then s else Alone(Moved(s, t), t, n - 1)
  }

  predicate Inside(s: State, t: nat) {
    ThreadsOk(s) && Shape(s) && t < |s.threads| && !s.threads[t].pc.Outside?
  }

  lemma GoEnabled(s: State, t: nat)
    requires Inside(s, t)
    ensures Moves(s, t)
  {
    assert ThreadOk(s, t);
  }

  lemma OneStep(s: State, t: nat, n: nat)
    requires n > 0 && Moves(s, t)
    ensures Alone(s, t, n) == Alone(Moved(s, t), t, n - 1)
  {
  }

  lemma Stays(s: State, t: nat, n: nat)
    requires t < |s.threads| && s.threads[t].pc.Outside?
    ensures Alone(s, t, n) == s
  {
  }

  lemma {:induction false} Steps(s: State, t: nat, j: nat, k: nat)
    ensures Alone(Alone(s, t, j), t, k) == Alone(s, t, j + k)
    decreases j
  {
    hide Moves, Moved;
    if j > 0 && Moves(s, t) {
      Steps(Moved(s, t), t, j - 1, k);
    }
  }

  /** A thread that is not announced, or announced with the current epoch, is no obstacle. */
  predicate Ready(s: State, r: nat)
    requires r < |s.threads|
  {
    !s.threads[r].Active() || s.threads[r].Local() == s.global
  }

  predicate PeersReady(s: State, t: nat) {
    forall r :: 0 <= r < |s.threads| && r != t ==> Ready(s, r)
  }

  predicate PeersIdle(s: State, t: nat) {
    forall r :: 0 <= r < |s.threads| && r != t ==> !s.threads[r].Active()
  }

  /** Only thread t, the epoch and the cleared objects may differ. */
  predicate OnlyOwn(s: State, s': State, t: nat) {
    && t < |s.threads| == |s'.threads| && s'.retired == s.retired && ThreadsOk(s') && Shape(s')
    && forall r :: 0 <= r < |s.threads| && r != t ==> s'.threads[r] == s.threads[r]
  }

  lemma OwnStep(s: State, ev: Event)
    requires ThreadsOk(s) && Enabled(s, ev) && !ev.RetireObject?
    ensures OnlyOwn(s, Next(s, ev), ev.t)
  {
    ThreadsStep(s, ev);
    OwnThreadStep(s, ev);
    assert Next(s, ev).retired == s.retired;
  }

  /** Epoch, bags and cleared objects are untouched. */
  predicate Quiet(s: State, s': State, t: nat) {
    && t < |s.threads| && t < |s'.threads| && s'.global == s.global && s'.freed == s.freed
    && s'.threads[t].bags == s.threads[t].bags && s'.threads[t].bag == s.threads[t].bag
  }

  /** The oldest bag is cleared and becomes the one that objects are retired into. */
  predicate Rotated(s: State, s': State, t: nat) {
    && t < |s.threads| && t < |s'.threads| && |s.threads[t].bags| == MAX_BAGS
    && var b := (s.threads[t].bag + 1) % MAX_BAGS;
       && s'.threads[t].bag == b && s'.threads[t].bags == s.threads[t].bags[b := []]
       && s'.freed == s.freed + multiset(s.threads[t].bags[b])
  }

  // ---------------------------------------------------------------------------------------
  // set_epoch and step_check, undisturbed
  // ---------------------------------------------------------------------------------------

  lemma RotateStep(s: State, t: nat) returns (s': State)
    requires Inside(s, t) && s.threads[t].pc.Rotating?
    ensures Moves(s, t) && s' == Moved(s, t) && OnlyOwn(s, s', t) && s'.global == s.global
    ensures var d, d' := s.threads[t], s'.threads[t];
            && d'.pc == Announcing(d.pc.op, d.pc.target, d.pc.viaCas) && d'.epoch == d.epoch
            && (if d.Local() == d.pc.target then Quiet(s, s', t) && d'.checked == d.checked && d'.toSkip == d.toSkip
                else Rotated(s, s', t) && d'.checked == 0 && d'.toSkip == 0)
  {
    GoEnabled(s, t);
    OwnStep(s, RotateBags(t));
    hide ThreadsOk, Alone;
    s' := Moved(s, t);
  }

  lemma AnnounceStep(s: State, t: nat) returns (s': State)
    requires Inside(s, t) && s.threads[t].pc.Announcing?
    ensures Moves(s, t) && s' == Moved(s, t) && OnlyOwn(s, s', t) && Quiet(s, s', t)
    ensures var d, d' := s.threads[t], s'.threads[t];
            && d'.Active() && d'.Local() == d.pc.target && d'.checked == d.checked
            && (if d.pc.viaCas then d'.pc == AfterCheck(d', d.pc.op, true) && d'.toSkip == d.toSkip
                else if d.pc.op.Lock? && d.toSkip != 0 then d'.pc.Outside? && d'.toSkip == d.toSkip - 1
                else d'.pc == Checking(d.pc.op) && d'.toSkip == if d.pc.op.Lock? then 30 else d.toSkip)
  {
    GoEnabled(s, t);
    OwnStep(s, Announce(t));
    hide ThreadsOk, Alone;
    s' := Moved(s, t);
  }

  /** set_epoch: the bags turn exactly if the epoch is a new one for the thread. */
  lemma SetEpoch(s: State, t: nat, k: nat) returns (s': State)
    requires Inside(s, t) && s.threads[t].pc.Rotating? && k >= 2 && s.threads[t].pc.target == s.global
    ensures Alone(s, t, k) == Alone(s', t, k - 2) && OnlyOwn(s, s', t) && s'.global == s.global
    ensures var d, d' := s.threads[t], s'.threads[t];
            && d'.Active() && d'.Local() == s.global
            && (d.Local() == s.global ==> Quiet(s, s', t) && d'.checked == d.checked)
            && (d.Local() != s.global ==> Rotated(s, s', t) && d'.checked == 0)
            && var skip := if d.Local() == s.global then d.toSkip else 0;
               (if d.pc.viaCas then d'.pc == AfterCheck(d', d.pc.op, true) && d'.toSkip == skip
                else if d.pc.op.Lock? && skip != 0 then d'.pc.Outside? && d'.toSkip == skip - 1
                else d'.pc == Checking(d.pc.op) && d'.toSkip == if d.pc.op.Lock? then 30 else skip)
  {
    hide ThreadData.Active, AfterCheck, Alone, Enabled, ThreadData.Local, Moved, Moves, Next, Shape, ThreadsOk;
    var s1 := RotateStep(s, t);
    OneStep(s, t, k);
    s' := AnnounceStep(s1, t);
    OneStep(s1, t, k - 1);
  }

  /** A thread that looks at its peers has announced the current epoch. */
  predicate Looking(s: State, t: nat) {
    && Inside(s, t) && s.threads[t].pc.Checking? && s.threads[t].checked < |s.threads|
    && s.threads[t].Active() && s.threads[t].Local() == s.global
  }

  /** step_check at a peer that is no obstacle, or at one that is. */
  lemma CheckStep(s: State, t: nat, k: nat) returns (s': State)
    requires Looking(s, t) && k >= 1 && (Ready(s, s.threads[t].checked) ==> s.threads[t].checked + 1 < |s.threads|)
    ensures Alone(s, t, k) == Alone(s', t, k - 1) && OnlyOwn(s, s', t) && Quiet(s, s', t)
    ensures var d, d' := s.threads[t], s'.threads[t];
            var ok := Ready(s, d.checked);
            && d'.epoch == d.epoch && d'.toSkip == d.toSkip && d'.checked == d.checked + (if ok then 1 else 0)
            && d'.pc == AfterCheck(d', d.pc.op, ok)
  {
    GoEnabled(s, t);
    CheckIs(s, t);
    hide ThreadData.Active, AfterCheck, Alone, Enabled, ThreadData.Local, Moves, Next, OnlyOwn, Quiet, Ready,
         Shape, ThreadsOk;
    OwnStep(s, CheckPeer(t));
    OneStep(s, t, k);
    s' := Moved(s, t);
  }

  lemma CheckIs(s: State, t: nat)
    requires Looking(s, t) && Enabled(s, CheckPeer(t))
    requires Ready(s, s.threads[t].checked) ==> s.threads[t].checked + 1 < |s.threads|
    ensures var s', d := Next(s, CheckPeer(t)), s.threads[t];
            var ok := Ready(s, d.checked);
            && Quiet(s, s', t) && s'.threads[t].epoch == d.epoch && s'.threads[t].toSkip == d.toSkip
            && s'.threads[t].checked == d.checked + (if ok then 1 else 0)
            && s'.threads[t].pc == AfterCheck(s'.threads[t], d.pc.op, ok)
  {
    hide ThreadsOk;
  }

  lemma LastPeer(s: State, t: nat) returns (s': State)
    requires Looking(s, t) && s.threads[t].checked + 1 == |s.threads| && Ready(s, s.threads[t].checked)
    ensures Moves(s, t) && s' == Moved(s, t) && OnlyOwn(s, s', t) && Quiet(s, s', t)
    ensures var d, d' := s.threads[t], s'.threads[t]; d'.epoch == d.epoch && d'.pc == Advancing(d.pc.op)
  {
    GoEnabled(s, t);
    OwnStep(s, CheckPeer(t));
    hide ThreadsOk, Alone;
    s' := Moved(s, t);
  }

  lemma Advance(s: State, t: nat) returns (s': State)
    requires Inside(s, t) && s.threads[t].pc.Advancing? && s.threads[t].Local() == s.global
    ensures Moves(s, t) && s' == Moved(s, t) && OnlyOwn(s, s', t) && Quiet(s.(global := s.global + 1), s', t)
    ensures var d, d' := s.threads[t], s'.threads[t];
            d'.epoch == d.epoch && d'.pc == Rotating(d.pc.op, s'.global, true)
  {
    GoEnabled(s, t);
    OwnStep(s, TryAdvance(t));
    hide ThreadsOk, Alone;
    s' := Moved(s, t);
  }

  /** The last peer is no obstacle either: the epoch rises and the oldest bag is cleared. */
  lemma Turn(s: State, t: nat, k: nat) returns (s': State)
    requires Looking(s, t) && s.threads[t].checked + 1 == |s.threads| && Ready(s, s.threads[t].checked) && k >= 4
    ensures Alone(s, t, k) == Alone(s', t, k - 4) && OnlyOwn(s, s', t) && s'.global == s.global + 1
    ensures Rotated(s, s', t)
    ensures var d, d' := s.threads[t], s'.threads[t];
            && d'.Active() && d'.Local() == s'.global && d'.checked == 0 && d'.toSkip == 0
            && d'.pc == AfterCheck(d', d.pc.op, true)
  {
    hide ThreadData.Active, AfterCheck, Alone, ThreadData.Local, Moved, Moves, Ready, Shape, ThreadsOk;
    var s1 := LastPeer(s, t);
    OneStep(s, t, k);
    SameEpoch(s, s1, t);
    var s2 := Advance(s1, t);
    OneStep(s1, t, k - 1);
    SameEpoch(s1, s2, t);
    s' := SetEpoch(s2, t, k - 2);
  }

  lemma SameEpoch(s: State, s': State, t: nat)
    requires t < |s.threads| && t < |s'.threads| && s'.threads[t].epoch == s.threads[t].epoch
    ensures s'.threads[t].Local() == s.threads[t].Local() && s'.threads[t].Active() == s.threads[t].Active()
  {
  }

  lemma StillReady(s: State, s': State, t: nat)
    requires OnlyOwn(s, s', t) && s'.global == s.global && PeersReady(s, t)
    ensures PeersReady(s', t)
  {
    hide ThreadsOk;
    forall r | 0 <= r < |s'.threads| && r != t ensures Ready(s', r) {
      assert Ready(s, r);
    }
  }

  lemma StillIdle(s: State, s': State, t: nat)
    requires OnlyOwn(s, s', t) && PeersIdle(s, t)
    ensures PeersIdle(s', t) && PeersReady(s', t)
  {
  }

  /** The thread itself is ready while it looks. */
  lemma PeersAreReady(s: State, t: nat)
    requires Looking(s, t) && PeersReady(s, t)
    ensures Ready(s, s.threads[t].checked)
  {
  }

  // ---------------------------------------------------------------------------------------
  // lock and unlock
  // ---------------------------------------------------------------------------------------

  /** lock, then unlock. */
  function Round(s: State, t: nat): State {
    if !Enabled(s, Call(t, Lock)) then s
    else
      var s' := Alone(Next(s, Call(t, Lock)), t, 7);
      if Enabled(s', Unlock(t)) then Next(s', Unlock(t)) else s'
  }

  function Rounds(s: State, t: nat, n: nat): State
    decreases n
  {
    if n == 0 then s else Rounds(Round(s, t), t, n - 1)
  }

  /** How many locks go by before the one that moves the epoch on. */
  function Due(s: State, t: nat): int
    requires t < |s.threads|
  {
    s.threads[t].toSkip + 31 * (|s.threads| - 1 - s.threads[t].checked)
  }

  /** Between two calls, with the current epoch. */
  predicate Rests(s: State, t: nat) {
    ThreadsOk(s) && Shape(s) && t < |s.threads| && s.threads[t].pc.Outside? && s.threads[t].Local() == s.global
  }

  lemma LockStarts(s: State, t: nat, op: Op) returns (s': State)
    requires ThreadsOk(s) && Shape(s) && t < |s.threads|
    requires s.threads[t].pc.Outside? || (s.threads[t].pc.SyncAgain? && op.Sync?)
    ensures Enabled(s, Call(t, op)) && s' == Next(s, Call(t, op)) && OnlyOwn(s, s', t) && Quiet(s, s', t)
    ensures s'.threads[t] == s.threads[t].(pc := Rotating(op, s.global, false))
  {
    OwnStep(s, Call(t, op));
    s' := Next(s, Call(t, op));
  }

  lemma Unlocks(s: State, t: nat) returns (s': State)
    requires ThreadsOk(s) && Shape(s) && t < |s.threads| && s.threads[t].pc.Outside?
    ensures Enabled(s, Unlock(t)) && s' == Next(s, Unlock(t)) && OnlyOwn(s, s', t) && Quiet(s, s', t)
    ensures var d, d' := s.threads[t], s'.threads[t];
            && !d'.Active() && d'.Local() == d.Local() && d'.toSkip == d.toSkip && d'.checked == d.checked
            && d'.pc.Outside?
  {
    OwnStep(s, Unlock(t));
    s' := Next(s, Unlock(t));
  }

  lemma DueIs(s: State, t: nat)
    requires Rests(s, t)
    ensures Due(s, t) >= 0 && |s.threads| > 0
  {
    assert ThreadOk(s, t);
  }

  /** Before the lock that is due: one lock less to go, and nothing else. */
  predicate Waited(s: State, s': State, t: nat) {
    OnlyOwn(s, s', t) && Quiet(s, s', t) && Due(s', t) == Due(s, t) - 1
  }

  /** The lock that is due. */
  predicate TurnedOn(s: State, s': State, t: nat) {
    OnlyOwn(s, s', t) && Rotated(s, s', t) && s'.global == s.global + 1 && Due(s', t) == 31 * (|s.threads| - 1)
  }

  /** lock, up to where it returns. */
  lemma LockAlone(s: State, t: nat) returns (s': State)
    requires Rests(s, t) && PeersReady(s, t)
    ensures Enabled(s, Call(t, Lock)) && s' == Alone(Next(s, Call(t, Lock)), t, 7)
    ensures t < |s'.threads| && s'.threads[t].pc.Outside? && s'.threads[t].Active()
    ensures Rests(s', t)
    ensures if Due(s, t) > 0 then Waited(s, s', t) else TurnedOn(s, s', t)
  {
    hide ThreadData.Active, Alone, Enabled, ThreadData.Local, Next, PeersReady, Ready, Shape,
         ThreadData.Undeleted;
    assert s.threads[t].checked < |s.threads| by {
      assert ThreadOk(s, t);
    }
    var s1 := LockStarts(s, t, Lock);
    SameEpoch(s, s1, t);
    s' := SetEpoch(s1, t, 7);
    if s.threads[t].toSkip != 0 {
      Stays(s', t, 5);
    } else {
      var s2 := s';
      assert Looking(s2, t);
      StillReady(s, s2, t);
      PeersAreReady(s2, t);
      if s2.threads[t].checked + 1 < |s.threads| {
        s' := CheckStep(s2, t, 5);
        SameEpoch(s2, s', t);
        Stays(s', t, 4);
      } else {
        s' := Turn(s2, t, 5);
        Stays(s', t, 1);
      }
    }
  }

  lemma RoundAlone(s: State, t: nat)
    requires Rests(s, t) && PeersReady(s, t)
    ensures var s' := Round(s, t);
            Rests(s', t) && if Due(s, t) > 0 then Waited(s, s', t) else TurnedOn(s, s', t)
  {
    hide ThreadData.Active, Alone, Enabled, ThreadData.Local, Next, PeersReady, Shape, ThreadsOk;
    var s1 := LockAlone(s, t);
    var s' := Unlocks(s1, t);
  }

  /** A thread with an old epoch clears its oldest bag with the next lock and starts a new scan. */
  lemma LockCatchesUp(s: State, t: nat)
    requires Inv(s) && Enabled(s, Call(t, Lock)) && s.threads[t].Local() < s.global
    requires PeersReady(s, t) && |s.threads| > 1
    ensures var s' := Alone(Next(s, Call(t, Lock)), t, 7);
            && Rests(s', t) && s'.threads[t].Active() && OnlyOwn(s, s', t) && Rotated(s, s', t)
            && s'.global == s.global && s'.threads[t].checked == 1 && s'.threads[t].toSkip == 30
  {
    hide ThreadData.Active, Alone, BagsOk, Due, EpochsOk, FreedOk, ThreadData.Local, Looking, Next, PeersReady,
         Ready, Shape, ThreadsOk, ThreadData.Undeleted;
    var s1 := LockStarts(s, t, Lock);
    SameEpoch(s, s1, t);
    var s2 := SetEpoch(s1, t, 7);
    LooksNow(s2, t);
    StillReady(s, s2, t);
    PeersAreReady(s2, t);
    var s' := CheckStep(s2, t, 5);
    SameEpoch(s2, s', t);
    Stays(s', t, 4);
  }

  /**
    A thread that locks and unlocks, while nobody else is announced with an old epoch, moves the epoch on with the
    one lock after the Due(s, t) that go by, not earlier and not later.
  */
  lemma {:induction false} LocksAdvance(s: State, t: nat, n: nat)
    requires Rests(s, t) && PeersReady(s, t) && n <= Due(s, t) + 1
    ensures var s' := Rounds(s, t, n);
            && Rests(s', t)
            && (n <= Due(s, t) ==> OnlyOwn(s, s', t) && Quiet(s, s', t) && Due(s', t) == Due(s, t) - n)
            && (n == Due(s, t) + 1 ==> TurnedOn(s, s', t))
    decreases n
  {
    hide Due, ThreadData.Local, PeersReady, Round, Shape, ThreadsOk;
    if n == 0 {
      DueIs(s, t);
    } else {
      var s1 := Round(s, t);
      RoundAlone(s, t);
      if Due(s, t) > 0 {
        assert Waited(s, s1, t);
        assert OnlyOwn(s, s1, t) && Quiet(s, s1, t) && Due(s1, t) == Due(s, t) - 1;
        StillReady(s, s1, t);
        LocksAdvance(s1, t, n - 1);
      }
    }
  }

  lemma {:induction false} RoundsAdd(s: State, t: nat, j: nat, k: nat)
    ensures Rounds(Rounds(s, t, j), t, k) == Rounds(s, t, j + k)
    decreases j
  {
    hide Round;
    if j > 0 {
      RoundsAdd(Round(s, t), t, j - 1, k);
    }
  }

  /** All bags are empty, and what they held is cleared. */
  predicate Emptied(s: State, s': State, t: nat) {
    && OnlyOwn(s, s', t) && |s.threads[t].bags| == |s'.threads[t].bags| == MAX_BAGS
    && s'.threads[t].Undeleted() == 0 && s'.freed == s.freed + InBags(s.threads[t])
  }

  /** What is in the bags or cleared stays that. */
  ghost predicate Balanced(s: State, s': State, t: nat) {
    && OnlyOwn(s, s', t) && |s.threads[t].bags| == |s'.threads[t].bags| == MAX_BAGS
    && InBags(s'.threads[t]) + s'.freed == InBags(s.threads[t]) + s.freed
  }

  lemma QuietBalance(s: State, s': State, t: nat)
    requires OnlyOwn(s, s', t) && Quiet(s, s', t) && Shape(s)
    ensures Balanced(s, s', t)
  {
    hide ThreadsOk;
  }

  lemma RotatedBalance(s: State, s': State, t: nat)
    requires OnlyOwn(s, s', t) && Rotated(s, s', t) && Shape(s)
    ensures Balanced(s, s', t)
  {
    hide ThreadsOk, InBags;
    var d := s.threads[t];
    var b := (d.bag + 1) % MAX_BAGS;
    BagUpdate(d, b, []);
    SameBags(d.(bags := d.bags[b := []]), s'.threads[t]);
    Moves1(InBags(s'.threads[t]), InBags(d), multiset(d.bags[b]), s.freed);
  }

  lemma Moves1(a': multiset<Object>, a: multiset<Object>, b: multiset<Object>, f: multiset<Object>)
    requires a' + b == a + multiset([])
    ensures a' + (f + b) == a + f
  {
    forall o ensures (a' + (f + b))[o] == (a + f)[o] {
      assert (a' + b)[o] == (a + multiset([]))[o];
    }
  }

  lemma SameBags(d: ThreadData, e: ThreadData)
    requires |d.bags| == MAX_BAGS && d.bags == e.bags
    ensures InBags(d) == InBags(e)
  {
  }

  lemma BalancedOn(a: State, b: State, c: State, t: nat)
    requires Balanced(a, b, t) && Balanced(b, c, t)
    ensures Balanced(a, c, t)
  {
    hide ThreadsOk, Shape, InBags;
  }

  lemma NoneLeft(s: State, s': State, t: nat)
    requires Balanced(s, s', t) && s'.threads[t].Undeleted() == 0
    ensures Emptied(s, s', t)
  {
    hide ThreadsOk, Shape;
    NoObjects(s'.threads[t]);
    assert InBags(s'.threads[t]) + s'.freed == s'.freed;
  }

  lemma NoObjects(d: ThreadData)
    requires |d.bags| == MAX_BAGS && d.Undeleted() == 0
    ensures InBags(d) == multiset{}
  {
    assert d.bags[0] == [] && d.bags[1] == [] && d.bags[2] == [];
  }

  /** After three turns nothing of before is in the bags. */
  lemma ThreeTurns(a: State, b: State, c: State, d: State, t: nat)
    requires Rotated(a, b, t) && Rotated(b, c, t) && Rotated(c, d, t)
    ensures |d.threads[t].bags| == MAX_BAGS && d.threads[t].Undeleted() == 0
  {
    var x, bags := b.threads[t].bag, d.threads[t].bags;
    if x == 0 {
      assert c.threads[t].bag == 1 && d.threads[t].bag == 2;
    } else if x == 1 {
      assert c.threads[t].bag == 2 && d.threads[t].bag == 0;
    } else {
      assert x == 2 && c.threads[t].bag == 0 && d.threads[t].bag == 1;
    }
    assert bags == [[], [], []];
    NoBags(d.threads[t]);
  }

  lemma NoBags(d: ThreadData)
    requires d.bags == [[], [], []]
    ensures d.Undeleted() == 0
  {
  }

  lemma Turns3(a: State, b: State, c: State, d: State, t: nat)
    requires OnlyOwn(a, b, t) && OnlyOwn(b, c, t) && OnlyOwn(c, d, t) && Shape(a)
    requires Rotated(a, b, t) && Rotated(b, c, t) && Rotated(c, d, t)
    ensures Emptied(a, d, t)
  {
    hide Balanced, Emptied, Rotated, Shape, ThreadsOk, ThreadData.Undeleted;
    assert Shape(b) && Shape(c);
    RotatedBalance(a, b, t);
    RotatedBalance(b, c, t);
    RotatedBalance(c, d, t);
    BalancedOn(a, b, c, t);
    BalancedOn(a, c, d, t);
    ThreeTurns(a, b, c, d, t);
    assert t < |d.threads|;
    NoneLeft(a, d, t);
  }

  lemma OneTurn(s: State, t: nat) returns (n: nat)
    requires Rests(s, t) && PeersIdle(s, t)
    ensures Due(s, t) >= 0 && n == Due(s, t) + 1 && |s.threads| > 0
    ensures var s' := Rounds(s, t, n);
            && Shape(s) && OnlyOwn(s, s', t) && Rotated(s, s', t) && s'.global == s.global + 1
            && Rests(s', t) && PeersIdle(s', t) && Due(s', t) == 31 * (|s.threads| - 1) && |s'.threads| == |s.threads|
  {
    DueIs(s, t);
    n := Due(s, t) + 1;
    hide Due, ThreadData.Local, PeersIdle, PeersReady, Quiet, Rotated, Rounds, Shape, ThreadsOk;
    StillIdle(s, s, t);
    LocksAdvance(s, t, n);
    StillIdle(s, Rounds(s, t, n), t);
  }

  /**
    While nobody else is announced, locking and unlocking clears all a thread has retired, within as many locks as it
    takes to move the epoch on three times.
  */
  lemma LocksReclaim(s: State, t: nat)
    requires Rests(s, t) && PeersIdle(s, t)
    ensures Due(s, t) >= 0 && |s.threads| > 0
    ensures var s' := Rounds(s, t, Due(s, t) + 1 + 2 * (31 * (|s.threads| - 1) + 1));
            Emptied(s, s', t) && s'.global == s.global + 3
  {
    hide *;
    var n := OneTurn(s, t);
    var m := 31 * (|s.threads| - 1) + 1;
    var b, c, d := Rounds(s, t, n), Rounds(s, t, n + m), Rounds(s, t, n + m + m);
    RoundsAdd(s, t, n, m);
    var _ := OneTurn(b, t);
    RoundsAdd(s, t, n + m, m);
    var _ := OneTurn(c, t);
    Turns3(s, b, c, d, t);
    assert n + m + m == n + 2 * m;
  }

  // ---------------------------------------------------------------------------------------
  // retire and retire_sync
  // ---------------------------------------------------------------------------------------

  /** Between a call of retire or retire_sync and its end, with something left to clear. */
  predicate Clearing(s: State, t: nat) {
    Looking(s, t) && !s.threads[t].pc.op.Lock? && s.threads[t].Undeleted() != 0
  }

  /** The scan passes all that are ready. */
  lemma {:induction false} Scan(s: State, t: nat, r: nat, k: nat) returns (s': State)
    requires Clearing(s, t) && s.threads[t].checked <= r < |s.threads| && k >= r - s.threads[t].checked
    requires forall q :: s.threads[t].checked <= q < r ==> Ready(s, q)
    ensures Alone(s, t, k) == Alone(s', t, k - (r - s.threads[t].checked)) && OnlyOwn(s, s', t) && Quiet(s, s', t)
    ensures Clearing(s', t) && s'.threads[t].pc == s.threads[t].pc && s'.threads[t].checked == r
    decreases r - s.threads[t].checked
  {
    hide ThreadData.Active, Alone, ThreadData.Local, Ready, ThreadsOk, ThreadData.Undeleted;
    if s.threads[t].checked == r {
      s' := s;
    } else {
      var s1 := CheckStep(s, t, k);
      SameEpoch(s, s1, t);
      SameUndeleted(s, s1, t);
      forall q | s1.threads[t].checked <= q < r ensures Ready(s1, q) {
        assert Ready(s, q);
        SameReady(s, s1, t, q);
      }
      s' := Scan(s1, t, r, k - 1);
    }
  }

  lemma SameUndeleted(s: State, s': State, t: nat)
    requires Quiet(s, s', t) && |s.threads[t].bags| == MAX_BAGS
    ensures s'.threads[t].Undeleted() == s.threads[t].Undeleted()
  {
  }

  lemma SameReady(s: State, s': State, t: nat, r: nat)
    requires OnlyOwn(s, s', t) && s'.global == s.global && r < |s.threads|
    requires s'.threads[t].epoch == s.threads[t].epoch
    ensures Ready(s, r) == Ready(s', r)
  {
    hide ThreadsOk;
  }

  /** One turn of the epoch, as long as nobody else is announced. */
  lemma TurnOnce(s: State, t: nat, k: nat) returns (s': State, left: nat)
    requires Clearing(s, t) && PeersIdle(s, t) && k >= |s.threads| + 3
    ensures Alone(s, t, k) == Alone(s', t, left) && left >= k - |s.threads| - 3
    ensures OnlyOwn(s, s', t) && Rotated(s, s', t) && s'.global == s.global + 1 && PeersIdle(s', t)
    ensures s'.threads[t].Active() && s'.threads[t].Local() == s'.global && Shape(s)
    ensures |s'.threads[t].bags| == MAX_BAGS && s'.threads[t].pc == AfterCheck(s'.threads[t], s.threads[t].pc.op, true)
    ensures s'.threads[t].Undeleted() != 0 ==> Clearing(s', t)
  {
    hide ThreadData.Active, Alone, ThreadData.Local, PeersIdle, PeersReady, Ready, ThreadsOk,
         ThreadData.Undeleted;
    var n := |s.threads|;
    forall q | s.threads[t].checked <= q < n - 1 ensures Ready(s, q) {
      AllReady(s, t, q);
    }
    var s1 := Scan(s, t, n - 1, k);
    AllReady(s, t, n - 1);
    StillIdle(s, s1, t);
    AllReady(s1, t, n - 1);
    left := k - (n - 1 - s.threads[t].checked);
    s' := Turn(s1, t, left);
    left := left - 4;
    StillIdle(s1, s', t);
    if s'.threads[t].Undeleted() != 0 {
      ClearingAgain(s', t);
    }
  }

  lemma ClearingAgain(s: State, t: nat)
    requires ThreadsOk(s) && Shape(s) && t < |s.threads| && s.threads[t].pc.Checking? && s.threads[t].Active()
    requires s.threads[t].Local() == s.global && !s.threads[t].pc.op.Lock? && s.threads[t].Undeleted() != 0
    ensures Clearing(s, t)
  {
    assert ThreadOk(s, t);
  }

  lemma AllReady(s: State, t: nat, q: nat)
    requires PeersIdle(s, t) && q < |s.threads| && (q == t ==> s.threads[t].Local() == s.global)
    ensures Ready(s, q)
  {
  }

  /** The call has come to its end with empty bags; `left` of `k` steps are unused. */
  ghost predicate Cleaned(s: State, s': State, t: nat, op: Op) {
    && Balanced(s, s', t) && s'.threads[t].Undeleted() == 0 && PeersIdle(s', t) && s.global <= s'.global
    && s'.threads[t].Active() && s'.threads[t].pc == if op.Retire? then Outside else SyncIdling
  }

  lemma Clean(s: State, s': State, t: nat, op: Op)
    requires Balanced(s, s', t) && s.global <= s'.global && PeersIdle(s', t) && s'.threads[t].Active() && !op.Lock?
    requires s'.threads[t].Undeleted() == 0 && s'.threads[t].pc == AfterCheck(s'.threads[t], op, true)
    ensures Cleaned(s, s', t, op)
  {
    hide Balanced;
  }

  lemma RotatedEmpty(s: State, s': State, t: nat)
    requires Rotated(s, s', t) && s.threads[t].Undeleted() == 0
    ensures |s'.threads[t].bags| == MAX_BAGS && s'.threads[t].Undeleted() == 0
  {
  }

  /** With empty bags there is one look at one peer. */
  lemma LookOnce(s: State, t: nat, op: Op, k: nat) returns (s': State, left: nat)
    requires Looking(s, t) && PeersIdle(s, t) && s.threads[t].pc == Checking(op) && !op.Lock? && k >= 4
    requires |s.threads[t].bags| == MAX_BAGS && s.threads[t].Undeleted() == 0
    ensures Alone(s, t, k) == Alone(s', t, left) && left >= k - 4 && Cleaned(s, s', t, op)
    ensures s'.global <= s.global + 1
  {
    hide ThreadData.Active, AfterCheck, Alone, Balanced, Cleaned, ThreadData.Local, PeersIdle, PeersReady,
         Ready, Shape, ThreadsOk, ThreadData.Undeleted;
    AllReady(s, t, s.threads[t].checked);
    if s.threads[t].checked + 1 < |s.threads| {
      s' := CheckStep(s, t, k);
      left := k - 1;
      SameEpoch(s, s', t);
      QuietBalance(s, s', t);
      SameUndeleted(s, s', t);
    } else {
      s' := Turn(s, t, k);
      left := k - 4;
      RotatedBalance(s, s', t);
      RotatedEmpty(s, s', t);
    }
    StillIdle(s, s', t);
    assert t < |s'.threads|;
    assert s'.threads[t].Undeleted() == 0;
    Clean(s, s', t, op);
  }

  /** Turn after turn, until the bags are empty. */
  lemma TurnsOut(s: State, t: nat, op: Op, k: nat) returns (s': State, left: nat)
    requires Clearing(s, t) && PeersIdle(s, t) && s.threads[t].pc == Checking(op) && k >= 3 * (|s.threads| + 3)
    ensures Alone(s, t, k) == Alone(s', t, left) && left >= k - 3 * (|s.threads| + 3) && Cleaned(s, s', t, op)
    ensures s'.global <= s.global + 3
  {
    hide ThreadData.Active, Alone, Balanced, Cleaned, ThreadData.Local, Looking, PeersIdle, Rotated, Shape,
         ThreadsOk, ThreadData.Undeleted;
    var a, l := TurnOnce(s, t, k);
    assert !op.Lock?;
    RotatedBalance(s, a, t);
    s', left := a, l;
    if a.threads[t].Undeleted() != 0 {
      var b, m := TurnOnce(a, t, l);
      RotatedBalance(a, b, t);
      BalancedOn(s, a, b, t);
      s', left := b, m;
      if b.threads[t].Undeleted() != 0 {
        var c, n := TurnOnce(b, t, m);
        RotatedBalance(b, c, t);
        BalancedOn(s, b, c, t);
        ThreeTurns(s, a, b, c, t);
        s', left := c, n;
      }
    }
    Clean(s, s', t, op);
  }

  /** A retire, or one round of retire_sync, of a thread that nobody is in the way of. */
  lemma Cleans(s: State, t: nat, op: Op, k: nat) returns (s': State, left: nat)
    requires Inside(s, t) && PeersIdle(s, t) && s.threads[t].pc == Rotating(op, s.global, false) && !op.Lock?
    requires k >= 3 * (|s.threads| + 5)
    ensures Alone(s, t, k) == Alone(s', t, left) && left >= k - 3 * (|s.threads| + 5) + 1 && Cleaned(s, s', t, op)
    ensures s'.global <= s.global + 3
  {
    hide ThreadData.Active, AfterCheck, Alone, Balanced, ThreadData.Local, Looking, PeersIdle, PeersReady,
         Quiet, Rotated, ThreadsOk, ThreadData.Undeleted;
    var a := SetEpoch(s, t, k);
    StillIdle(s, a, t);
    if s.threads[t].Local() == s.global {
      QuietBalance(s, a, t);
    } else {
      RotatedBalance(s, a, t);
    }
    LooksNow(a, t);
    assert |a.threads[t].bags| == MAX_BAGS;
    if a.threads[t].Undeleted() != 0 {
      assert Clearing(a, t);
      s', left := TurnsOut(a, t, op, k - 2);
    } else {
      s', left := LookOnce(a, t, op, k - 2);
    }
    BalancedOn(s, a, s', t);
  }

  lemma LooksNow(s: State, t: nat)
    requires ThreadsOk(s) && Shape(s) && t < |s.threads| && s.threads[t].pc.Checking? && s.threads[t].Active()
    requires s.threads[t].Local() == s.global
    ensures Looking(s, t)
  {
    assert ThreadOk(s, t);
  }

  /** While nobody else is announced, retire clears all its thread has retired, and moves the epoch by three at most. */
  lemma RetireAlone(s: State, t: nat, k: nat)
    requires Inv(s) && PeersIdle(s, t) && Enabled(s, Call(t, Retire)) && k >= 3 * (|s.threads| + 5)
    ensures var s' := Alone(Next(s, Call(t, Retire)), t, k);
            && Emptied(s, s', t) && s'.threads[t].pc.Outside? && s.global <= s'.global <= s.global + 3
  {
    hide ThreadData.Active, Alone, BagsOk, Emptied, EpochsOk, FreedOk, InBags, Next, PeersIdle, PeersReady,
         Shape, ThreadsOk, ThreadData.Undeleted;
    var s1 := LockStarts(s, t, Retire);
    StillIdle(s, s1, t);
    QuietBalance(s, s1, t);
    var s2, left := Cleans(s1, t, Retire, k);
    Stays(s2, t, left);
    BalancedOn(s, s1, s2, t);
    NoneLeft(s, s2, t);
  }

  lemma GoesIdle(s: State, t: nat) returns (s': State)
    requires Inside(s, t) && s.threads[t].pc.SyncIdling? && |s.threads[t].bags| == MAX_BAGS
    requires s.threads[t].Undeleted() == 0
    ensures Moves(s, t) && s' == Moved(s, t) && OnlyOwn(s, s', t) && Quiet(s, s', t)
    ensures s'.threads[t].pc.Outside? && !s'.threads[t].Active()
  {
    GoEnabled(s, t);
    OwnStep(s, GoIdle(t));
    hide ThreadsOk, Alone;
    s' := Moved(s, t);
  }

  /** So does retire_sync, which leaves the thread idle. */
  lemma SyncAlone(s: State, t: nat, k: nat)
    requires Inv(s) && PeersIdle(s, t) && Enabled(s, Call(t, Sync)) && k >= 3 * (|s.threads| + 5)
    ensures var s' := Alone(Next(s, Call(t, Sync)), t, k);
            && Emptied(s, s', t) && s'.threads[t].pc.Outside? && !s'.threads[t].Active()
            && s.global <= s'.global <= s.global + 3
  {
    hide ThreadData.Active, Alone, BagsOk, Emptied, EpochsOk, FreedOk, InBags, Moved, Moves, Next, PeersIdle,
         PeersReady, ThreadsOk, ThreadData.Undeleted;
    var s1 := LockStarts(s, t, Sync);
    StillIdle(s, s1, t);
    QuietBalance(s, s1, t);
    var s2, left := Cleans(s1, t, Sync, k);
    BalancedOn(s, s1, s2, t);
    assert |s2.threads[t].bags| == MAX_BAGS;
    var s3 := GoesIdle(s2, t);
    OneStep(s2, t, left);
    Stays(s3, t, left - 1);
    QuietBalance(s2, s3, t);
    BalancedOn(s, s2, s3, t);
    SameUndeleted(s2, s3, t);
    NoneLeft(s, s3, t);
  }

  /** The first peer in the way, counted from where the scan of t goes on, is r. */
  predicate StopsAt(s: State, t: nat, r: nat) {
    && t < |s.threads| && r < |s.threads| && r != t && !Ready(s, r)
    && var d := s.threads[t];
       var first := if d.Local() == s.global then d.checked else 0;
       first <= r && forall q :: first <= q < r && q != t ==> Ready(s, q)
  }

  /** What set_epoch leaves in the bags. */
  function Kept(s: State, t: nat): nat
    requires Shape(s) && t < |s.threads|
  {
    var d := s.threads[t];
    d.Undeleted() - if d.Local() == s.global then 0 else |d.bags[(d.bag + 1) % MAX_BAGS]|
  }

  lemma StopsLater(s: State, s': State, t: nat, r: nat)
    requires StopsAt(s, t, r) && OnlyOwn(s, s', t) && s'.global == s.global && s'.threads[t].Local() == s.global
    requires s'.threads[t].checked == if s.threads[t].Local() == s.global then s.threads[t].checked else 0
    ensures s'.threads[t].checked <= r < |s'.threads| && !Ready(s', r)
    ensures forall q :: s'.threads[t].checked <= q < r ==> Ready(s', q)
  {
    hide ThreadsOk;
    forall q | s'.threads[t].checked <= q < r ensures Ready(s', q) {
      assert q != t ==> Ready(s, q);
    }
  }

  lemma StaysInBags(s: State, s': State, t: nat)
    requires Shape(s) && Shape(s') && t < |s.threads| && t < |s'.threads|
    requires if s.threads[t].Local() == s.global then Quiet(s, s', t) else Rotated(s, s', t)
    ensures s'.threads[t].Undeleted() == Kept(s, t)
  {
  }

  /** The scan of a thread that has set its epoch stops at r. */
  lemma ScanStops(s: State, t: nat, r: nat, k: nat) returns (s': State)
    requires Clearing(s, t) && s.threads[t].pc == Checking(Retire) && r < |s.threads| && k > |s.threads|
    requires s.threads[t].checked <= r && !Ready(s, r) && forall q :: s.threads[t].checked <= q < r ==> Ready(s, q)
    ensures s' == Alone(s, t, k) && OnlyOwn(s, s', t) && Quiet(s, s', t)
    ensures s'.threads[t].pc.Outside? && s'.threads[t].checked == r
  {
    assert s.threads[t].checked >= 0;
    hide ThreadData.Active, Alone, Inside, ThreadData.Local, Ready, Shape, ThreadsOk, ThreadData.Undeleted;
    var b := Scan(s, t, r, k);
    assert Looking(b, t);
    assert b.threads[t].Local() == b.global && s.threads[t].Local() == s.global;
    assert !Ready(b, r) by { StillStale(s, b, t, r); }
    var left := k - (r - s.threads[t].checked);
    s' := CheckStep(b, t, left);
    Stays(s', t, left - 1);
  }

  lemma StillStale(s: State, s': State, t: nat, r: nat)
    requires OnlyOwn(s, s', t) && s'.global == s.global && r < |s.threads| && !Ready(s, r)
    requires s.threads[t].Local() == s'.threads[t].Local() == s.global
    ensures !Ready(s', r)
  {
    hide ThreadsOk;
  }

  /**
    A thread that is announced with an old epoch stops it: retire gives up at the first such thread from where the
    scan goes on, and has cleared nothing but what set_epoch clears.
  */
  lemma RetireStops(s: State, t: nat, r: nat, k: nat)
    requires Inv(s) && Enabled(s, Call(t, Retire)) && StopsAt(s, t, r) && Kept(s, t) != 0 && k >= |s.threads| + 3
    ensures var s', d := Alone(Next(s, Call(t, Retire)), t, k), s.threads[t];
            && OnlyOwn(s, s', t) && s'.threads[t].pc.Outside? && s'.threads[t].checked == r && s'.global == s.global
            && (if d.Local() == s.global then Quiet(s, s', t) else Rotated(s, s', t))
  {
    hide ThreadData.Active, AfterCheck, Alone, BagsOk, EpochsOk, FreedOk, Kept, ThreadData.Local, Looking, Next,
         Ready, Shape, StopsAt, ThreadsOk, ThreadData.Undeleted;
    var s1 := LockStarts(s, t, Retire);
    SameEpoch(s, s1, t);
    var a := SetEpoch(s1, t, k);
    StopsLater(s, a, t, r);
    StaysInBags(s, a, t);
    LooksNow(a, t);
    assert Clearing(a, t);
    var b := ScanStops(a, t, r, k - 2);
  }

  // ---------------------------------------------------------------------------------------
  // retire_sync waits for all readers
  // ---------------------------------------------------------------------------------------

  /** The object is still in a bag of t, or cleared. */
  predicate HeldOrFreed(s: State, t: nat, o: Object) {
    t < |s.threads| && |s.threads[t].bags| == MAX_BAGS && (o in InBags(s.threads[t]) || o in s.freed)
  }

  lemma OthersBags(s: State, ev: Event, t: nat, o: Object)
    requires ThreadsOk(s) && Enabled(s, ev) && ev.t != t && HeldOrFreed(s, t, o)
    ensures HeldOrFreed(Next(s, ev), t, o)
  {
    OwnThreadStep(s, ev);
    assert ev.RotateBags? || Next(s, ev).freed == s.freed;
    hide ThreadsOk, InBags;
  }

  lemma OwnBags(s: State, ev: Event, o: Object)
    requires ThreadsOk(s) && Enabled(s, ev) && HeldOrFreed(s, ev.t, o)
    ensures HeldOrFreed(Next(s, ev), ev.t, o)
  {
    OwnStepBags(s, ev);
    OwnBagsStep(s, ev);
    var s' := Next(s, ev);
    hide Next, Enabled, ThreadsOk, InBags;
    assert (InBags(s'.threads[ev.t]) + s'.freed + s.retired)[o]
           == (InBags(s.threads[ev.t]) + s.freed + s'.retired)[o];
  }

  lemma OwnStepBags(s: State, ev: Event)
    requires ThreadsOk(s) && Enabled(s, ev)
    ensures ev.t < |Next(s, ev).threads| && |Next(s, ev).threads[ev.t].bags| == MAX_BAGS
    ensures s.retired <= Next(s, ev).retired
  {
    OwnThreadStep(s, ev);
    ForwardStep(s, ev, ev.t);
  }

  lemma HeldStep(s: State, ev: Event, t: nat, o: Object)
    requires ThreadsOk(s) && Enabled(s, ev) && HeldOrFreed(s, t, o)
    ensures HeldOrFreed(Next(s, ev), t, o)
  {
    hide *;
    if ev.t == t {
      OwnBags(s, ev, o);
    } else {
      OthersBags(s, ev, t, o);
    }
  }

  lemma {:induction false} StaysHeld(n: nat, states: seq<State>, events: seq<Event>, i: nat, j: nat, t: nat, o: Object)
    requires IsRun(n, states, events) && i <= j < |states| && HeldOrFreed(states[i], t, o)
    ensures HeldOrFreed(states[j], t, o)
    decreases j
  {
    hide BagsOk, Conserved, Enabled, EpochsOk, FreedOk, HeldOrFreed, Init, Next, Shape, ThreadsOk;
    if i < j {
      StaysHeld(n, states, events, i, j - 1, t, o);
      RunInvariant(n, states, events, j - 1);
      HeldStep(states[j - 1], events[j - 1], t, o);
    }
  }

  lemma RetiredIsHeld(s: State, t: nat, id: int)
    requires ThreadsOk(s) && Enabled(s, RetireObject(t, id))
    ensures HeldOrFreed(Next(s, RetireObject(t, id)), t, Object(id, Guards(s)))
  {
    OwnThreadStep(s, RetireObject(t, id));
    hide Guards;
    var s', o := Next(s, RetireObject(t, id)), Object(id, Guards(s));
    var bags, b := s'.threads[t].bags, s.threads[t].bag;
    assert bags[b][|bags[b]| - 1] == o;
    assert o in multiset(bags[b]);
  }

  lemma SyncReturns(s: State, t: nat)
    requires ThreadsOk(s) && Enabled(s, GoIdle(t)) && !Next(s, GoIdle(t)).threads[t].pc.SyncAgain?
    ensures |s.threads[t].bags| == MAX_BAGS && InBags(s.threads[t]) == multiset{}
  {
    NoObjects(s.threads[t]);
  }

  /** When retire_sync returns, every critical section is over in which an object was retired before by its thread. */
  lemma SyncWaits(n: nat, states: seq<State>, events: seq<Event>, i: nat, j: nat, t: nat, r: nat)
    requires IsRun(n, states, events) && i < j < |events| && events[i].RetireObject? && events[i].t == t
    requires events[j] == GoIdle(t) && t < n && |states[j + 1].threads| == n && states[j + 1].threads[t].pc.Outside?
    requires r < n == |states[i].threads| && states[i].threads[r].Active()
    ensures !Current(states[j + 1], (r, states[i].threads[r].session))
    ensures Object(events[i].id, Guards(states[i])) in states[j + 1].freed
  {
    var o := Object(events[i].id, Guards(states[i]));
    var g := (r, states[i].threads[r].session);
    assert g in o.guards;
    RunInvariant(n, states, events, i);
    RetiredIsHeld(states[i], t, events[i].id);
    StaysHeld(n, states, events, i + 1, j, t, o);
    RunInvariant(n, states, events, j);
    SyncReturns(states[j], t);
    QuietBags(states[j], events[j]);
    NothingFreedUnderAGuard(n, states, events, j + 1, o, g);
  }
}
