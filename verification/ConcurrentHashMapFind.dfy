/** What ConcurrentHashMap::find returns (td/utils/ConcurrentHashTable.h). */
module ConcurrentHashMapFind {
  // The key's value or the caller's default, except that a key whose insert has claimed a slot and not yet set its
  // value can make find return the empty value or the migration marker.

  import opened ConcurrentHashMap
  import opened ConcurrentHashMapRuns

  // ---------------------------------------------------------------------------------------
  // A key is in a table only after a call to insert it
  // ---------------------------------------------------------------------------------------

  /** Some insert for the key has been called. */
  ghost predicate InsertAsked(events: seq<Event>, i: nat, k: int) { exists v :: Asked(events, i, Insert(k, v)) }

  lemma KeyOrigin(s: State, ev: Event, id: nat, p: nat)
    requires Enabled(s, ev) && id < |Next(s, ev).tables| && p < |Next(s, ev).tables[id].keys|
    requires Next(s, ev).tables[id].keys[p] != EMPTY
    requires id < |s.tables| && p < |s.tables[id].keys| ==> s.tables[id].keys[p] != Next(s, ev).tables[id].keys[p]
    ensures ev.Step?
    ensures var th, k := s.threads[ev.t], Next(s, ev).tables[id].keys[p];
            (th.pc.Claim? && k == th.op.key) || (th.pc.SeekClaim? && k == th.pc.k)
  {
    if ev.Step? {
      hide StepProtect, StepProbe, StepFinish;
      if s.threads[ev.t].pc.Load? || s.threads[ev.t].pc.Store? || s.threads[ev.t].pc.Probe?
        || FinishPc(s.threads[ev.t].pc) {
        KeysUntouched(s, ev.t);
      }
    }
  }

  predicate FinishPc(pc: Pc) { pc.Leave? || pc.Scan? || pc.Close? || pc.Wait? }

  lemma KeysUntouched(s: State, t: nat)
    requires Enabled(s, Step(t))
    requires var pc := s.threads[t].pc; pc.Load? || pc.Store? || pc.Probe? || FinishPc(pc)
    ensures |Next(s, Step(t)).tables| == |s.tables|
    ensures forall id :: 0 <= id < |s.tables| ==> Next(s, Step(t)).tables[id].keys == s.tables[id].keys
  {
  }

  lemma {:induction false} KeysAsked(n: nat, states: seq<State>, events: seq<Event>, i: nat, id: nat, p: nat)
    requires IsRun(n, states, events) && i < |states| && !states[i].failed
    requires id < |states[i].tables| && p < |states[i].tables[id].keys| && states[i].tables[id].keys[p] != EMPTY
    ensures InsertAsked(events, i, states[i].tables[id].keys[p])
  {
    hide Next, Inv, KeysCopied, Asked;
    if i == 0 {
      InitEmpty(n);
    } else {
      Alive(n, states, events, i - 1, i);
      RunInvariant(n, states, events, i - 1);
      var s, ev, k := states[i - 1], events[i - 1], states[i].tables[id].keys[p];
      assert Enabled(s, ev) && states[i] == Next(s, ev);
      if id < |s.tables| && p < |s.tables[id].keys| && s.tables[id].keys[p] == k {
        KeysAsked(n, states, events, i - 1, id, p);
      } else {
        KeyOrigin(s, ev, id, p);
        if s.threads[ev.t].pc.Claim? {
          ClaimInserts(s, ev.t);
          ThreadsKept(n, states, events, i - 1);
          OpsAsked(n, states, events, i - 1, ev.t);
        } else {
          var o := SeekOrigin(s, ev.t);
          KeysAsked(n, states, events, i - 1, s.from, o);
        }
      }
      var v :| Asked(events, i - 1, Insert(k, v));
      AskedLater(events, i, Insert(k, v));
    }
  }

  lemma InitEmpty(n: nat)
    ensures |Init(n).tables| == 1 && forall p ::
      0 <= p < |Init(n).tables[0].keys| ==> Init(n).tables[0].keys[p] == EMPTY
  {
  }

  lemma ClaimInserts(s: State, t: nat)
    requires Inv(s) && t < |s.threads| && s.threads[t].pc.Claim?
    ensures s.threads[t].op.Insert?
  {
    assert OpOk(s, s.threads[t]);
  }

  lemma SeekOrigin(s: State, t: nat) returns (o: nat)
    requires Inv(s) && t < |s.threads| && s.threads[t].pc.SeekClaim?
    ensures 0 <= s.from < |s.tables| && o < |s.tables[s.from].keys|
      && s.tables[s.from].keys[o] == s.threads[t].pc.k != EMPTY
  {
    MigratorRunning(s, t);
    assert CarryOk(s, t, s.threads[t]);
    o := s.threads[t].pc.p;
    assert s.tables[s.from].keys[o] in s.committed;
  }

  // ---------------------------------------------------------------------------------------
  // What a call of find can return
  // ---------------------------------------------------------------------------------------

  /** What the local variable of a find may hold besides the caller's default. */
  predicate Seen(s: State, k: int, v: int) { v == EMPTY || v == MIGRATE || (k in s.committed && s.committed[k] == v) }

  /** Reading the slot of a key puts into the variable what a slot may hold. */
  lemma FindTouch(s: State, t: nat)
    requires Inv(s) && Enabled(s, Step(t)) && s.threads[t].op.Find? && s.threads[t].pc.Touch?
    ensures t < |StepTouch(s, t).threads|
    ensures var th, th' := s.threads[t], StepTouch(s, t).threads[t];
            && th'.op.Find? && th'.op.key == th.op.key && (th'.pc.Done? ==> th'.pc.r == th'.op.value)
            && 0 <= th.held < |s.tables| && th.pc.p < |s.tables[th.held].keys|
            && s.tables[th.held].keys[th.pc.p] == th.op.key && Seen(s, th.op.key, th'.op.value)
  {
    var th := s.threads[t];
    assert OpOk(s, th) && SlotOk(s, s.tables[th.held], th.pc.p);
    hide OpOk, TablesOk, ValsOk, PhaseOk, HazardsOk, OpsOk, CarriesOk, MarksOk, LocatedOk;
  }

  lemma FindSearch(s: State, t: nat)
    requires Enabled(s, Step(t)) && s.threads[t].op.Find?
    requires var pc := s.threads[t].pc; pc.Load? || pc.Store? || pc.Probe? || pc.Claim? || pc.Enter? || pc.Done?
    ensures t < |Next(s, Step(t)).threads|
    ensures var th' := Next(s, Step(t)).threads[t];
            th'.op == s.threads[t].op && (th'.pc.Done? ==> s.threads[t].pc.Probe? && th'.pc.r == th'.op.value)
  {
    hide StepTouch, StepTask, StepSeek, StepFinish;
  }

  lemma FindMigrates(s: State, t: nat)
    requires Enabled(s, Step(t)) && s.threads[t].op.Find?
    requires var pc := s.threads[t].pc;
             !(pc.Load? || pc.Store? || pc.Probe? || pc.Claim? || pc.Enter? || pc.Touch? || pc.Done?)
    ensures t < |Next(s, Step(t)).threads|
    ensures Next(s, Step(t)).threads[t].op == s.threads[t].op && !Next(s, Step(t)).threads[t].pc.Done?
  {
    hide StepProtect, StepProbe, StepClaim, StepTouch, StepEnter;
  }

  /** A find returns what its variable holds, and a step leaves the variable or reads the key's slot into it. */
  lemma FindStep(s: State, t: nat)
    requires Inv(s) && Enabled(s, Step(t)) && s.threads[t].op.Find?
    requires s.threads[t].pc.Done? ==> s.threads[t].pc.r == s.threads[t].op.value
    ensures t < |Next(s, Step(t)).threads|
    ensures var th, th' := s.threads[t], Next(s, Step(t)).threads[t];
            && th'.op.Find? && th'.op.key == th.op.key
            && (th'.pc.Done? ==> th'.pc.r == th'.op.value)
            && (th'.op.value != th.op.value ==>
                  th.pc.Touch? && 0 <= th.held < |s.tables| && th.pc.p < |s.tables[th.held].keys|
                  && s.tables[th.held].keys[th.pc.p] == th.op.key && Seen(s, th.op.key, th'.op.value))
  {
    hide Inv, Seen, StepProtect, StepProbe, StepClaim, StepTouch, StepEnter, StepTask, StepSeek, StepFinish;
    var pc := s.threads[t].pc;
    if pc.Touch? {
      FindTouch(s, t);
    } else if pc.Load? || pc.Store? || pc.Probe? || pc.Claim? || pc.Enter? || pc.Done? {
      FindSearch(s, t);
    } else {
      FindMigrates(s, t);
    }
  }

  lemma {:induction false} FindValue(n: nat, states: seq<State>, events: seq<Event>, q: nat, j: nat, m: nat)
    requires IsRun(n, states, events) && IsCall(events, q, j, m) && events[j].op.Find? && !states[m].failed
    ensures q < |states[m].threads|
    ensures var th, k := states[m].threads[q], events[j].op.key;
            && th.op.Find? && th.op.key == k && (th.pc.Done? ==> th.pc.r == th.op.value)
            && (th.op.value != events[j].op.value ==> InsertAsked(events, m, k) && Seen(states[m], k, th.op.value))
    decreases m
  {
    hide StepThread, Inv, KeysCopied, Asked, Seen;
    Alive(n, states, events, m - 1, m);
    ThreadsKept(n, states, events, m - 1);
    ThreadsKept(n, states, events, m);
    RunInvariant(n, states, events, m - 1);
    var s, ev, k := states[m - 1], events[m - 1], events[j].op.key;
    assert Enabled(s, ev) && states[m] == Next(s, ev);
    if j + 1 < m {
      FindValue(n, states, events, q, j, m - 1);
      FrameStep(s, ev);
      FindKept(n, states, events, q, j, m);
    }
  }

  lemma FindKept(n: nat, states: seq<State>, events: seq<Event>, q: nat, j: nat, m: nat)
    requires IsRun(n, states, events) && IsCall(events, q, j, m) && j + 1 < m && !states[m].failed
      && !states[m - 1].failed
    requires Inv(states[m - 1]) && events[j].op.Find? && q < |states[m - 1].threads| == |states[m].threads|
    requires Enabled(states[m - 1], events[m - 1]) && states[m] == Next(states[m - 1], events[m - 1])
    requires Frame(states[m - 1], states[m], events[m - 1].t)
    requires var th, k := states[m - 1].threads[q], events[j].op.key;
             && th.op.Find? && th.op.key == k && (th.pc.Done? ==> th.pc.r == th.op.value)
             && (th.op.value != events[j].op.value ==>
                  InsertAsked(events, m - 1, k) && Seen(states[m - 1], k, th.op.value))
    ensures var th, k := states[m].threads[q], events[j].op.key;
            && th.op.Find? && th.op.key == k && (th.pc.Done? ==> th.pc.r == th.op.value)
            && (th.op.value != events[j].op.value ==> InsertAsked(events, m, k) && Seen(states[m], k, th.op.value))
  {
    hide Next, Inv, KeysCopied, Asked;
    var s, ev, k := states[m - 1], events[m - 1], events[j].op.key;
    if InsertAsked(events, m - 1, k) {
      var v :| Asked(events, m - 1, Insert(k, v));
      AskedLater(events, m, Insert(k, v));
    }
    if ev.t == q {
      assert ev.Step?;
      if Overflows(s, q) {
        OverflowFails(s, q);
      } else {
        FindStep(s, q);
        if states[m].threads[q].op.value != s.threads[q].op.value {
          KeysAsked(n, states, events, m - 1, s.threads[q].held, s.threads[q].pc.p);
          var v :| Asked(events, m - 1, Insert(k, v));
          AskedLater(events, m, Insert(k, v));
        }
      }
    }
  }

  /**
    What a find returns: the value the key had when find was called; otherwise the caller's default, a value the key
    has got meanwhile, the empty value or the migration marker.
  */
  lemma FindResult(n: nat, states: seq<State>, events: seq<Event>, q: nat, j: nat, m: nat)
    requires IsRun(n, states, events) && IsCall(events, q, j, m) && events[j].op.Find? && !states[m].failed
    requires q < |states[m].threads| && states[m].threads[q].pc.Done?
    ensures var k, d, r := events[j].op.key, events[j].op.value, states[m].threads[q].pc.r;
            if k in states[j].committed then r == states[j].committed[k]
            else r == d || (InsertAsked(events, m, k) && Seen(states[m], k, r))
  {
    hide Next, KeysCopied, Inv, Asked, Seen;
    Alive(n, states, events, j, m);
    RunInvariant(n, states, events, j);
    RunInvariant(n, states, events, m);
    CallKept(n, states, events, q, j, m);
    DoneOk(states[m], q);
    FindValue(n, states, events, q, j, m);
    if events[j].op.key in states[j].committed {
      CommittedValues(states[j], events[j].op.key);
    }
  }

  /** So without any call to insert the key, find returns the caller's default. */
  lemma FindWithoutInsert(n: nat, states: seq<State>, events: seq<Event>, q: nat, j: nat, m: nat)
    requires IsRun(n, states, events) && IsCall(events, q, j, m) && events[j].op.Find? && !states[m].failed
    requires q < |states[m].threads| && states[m].threads[q].pc.Done? && !InsertAsked(events, m, events[j].op.key)
    ensures states[m].threads[q].pc.r == events[j].op.value
  {
    hide Next, Inv, Asked;
    FindResult(n, states, events, q, j, m);
    Alive(n, states, events, j, m);
    if events[j].op.key in states[j].committed {
      ValuesAreAsked(n, states, events, j, events[j].op.key);
      AskedBy(events, j, m, Insert(events[j].op.key, states[j].committed[events[j].op.key]));
    }
  }

  lemma AskedBy(events: seq<Event>, i: nat, j: nat, op: Op)
    requires i <= j && Asked(events, i, op)
    ensures Asked(events, j, op)
  {
    var x, q :| 0 <= x < i && x < |events| && events[x] == Start(q, op);
    assert x < j;
  }

  /**
    find keeps the marker it has read in the variable that holds the caller's default, so only a key
    that had no value when find was called can make it return the marker instead of the default.
  */
  lemma MarkerMeansAbsent(n: nat, states: seq<State>, events: seq<Event>, q: nat, j: nat, m: nat)
    requires IsRun(n, states, events) && IsCall(events, q, j, m) && !states[m].failed
    requires q < |states[m].threads| && states[m].threads[q].pc == Done(MIGRATE)
    ensures events[j].op.key !in states[j].committed
    ensures events[j].op.Insert? ==> events[j].op.value == EMPTY
  {
    hide Next, KeysCopied, Inv;
    Alive(n, states, events, j, m);
    RunInvariant(n, states, events, j);
    RunInvariant(n, states, events, m);
    CallKept(n, states, events, q, j, m);
    DoneOk(states[m], q);
    if events[j].op.key in states[j].committed {
      CommittedValues(states[j], events[j].op.key);
    }
  }

  lemma CommittedValues(s: State, k: int)
    requires Inv(s) && k in s.committed
    ensures IsValue(s.committed[k])
  {
  }

  // ---------------------------------------------------------------------------------------
  // Both strange answers are given, for every key and every default
  // ---------------------------------------------------------------------------------------

  /** The state after a call has started and protected the current table. */
  function Started(s: State, t: nat, op: Op): State
    requires t < |s.threads|
  {
    PutThread(s, t, s.threads[t].(pc := Probe(0), held := s.current, hazard := s.current, op := op, base := EMPTY))
  }

  lemma Starts(n: nat, s: State, call: Option<Op>, t: nat, op: Op)
    requires Reachable(n, s, call) && Enabled(s, Start(t, op)) && op.key !in s.committed && s.current != NULL
    requires call.Some? ==> t != 1
    ensures Reachable(n, Started(s, t, op), call)
  {
    var s1 := Next(s, Start(t, op));
    Extend(n, s, call, Start(t, op));
    StartedIs(s, t, op);
    Protects(n, s1, call, t);
  }

  lemma FinderStarts(n: nat, s: State, op: Op)
    requires Reachable(n, s, None) && Enabled(s, Start(1, op)) && op.key !in s.committed && s.current != NULL
    ensures Reachable(n, Started(s, 1, op), Some(op))
  {
    var s1 := Next(s, Start(1, op));
    ExtendStart(n, s, op);
    StartedIs(s, 1, op);
    Protects(n, s1, Some(op), 1);
  }

  lemma StartedIs(s: State, t: nat, op: Op)
    requires Enabled(s, Start(t, op)) && op.key !in s.committed
    ensures var s1 := Next(s, Start(t, op));
            !s1.failed && t < |s1.threads| && s1.threads[t].pc == Load(NULL) && s1.current == s.current
            && PutThread(s1, t, s1.threads[t].(pc := Probe(0), held := s.current, hazard := s.current))
                 == Started(s, t, op)
  {
    var s1 := Next(s, Start(t, op));
    assert s1.threads[t := s1.threads[t].(pc := Probe(0), held := s.current, hazard := s.current)]
        == s.threads[t := s.threads[t].(pc := Probe(0), held := s.current, hazard := s.current, op := op,
                                        base := EMPTY)];
  }

  function Rest(): Thread { Thread(NULL, [], Find(1, 0), NULL, 0, 0, Idle) }

  /** Thread 0 inserts the value 7 for key k, thread 1 looks k up, and thread 2 inserts for the next key. */
  function Writer(k: int, pc: Pc): Thread { Thread(0, [], Insert(k, 7), 0, 0, 0, pc) }
  function Finder(k: int, v: int, pc: Pc): Thread { Thread(0, [], Find(k, v), 0, 0, 0, pc) }
  function Other(k: int, pc: Pc): Thread { Thread(0, [], Insert(k + 1, 9), 0, 0, 0, pc) }

  /** Only the first table exists so far; its one slot has the key `k` and no value. */
  function Scene(k: int, threads: seq<Thread>): State {
    State([Table([k], [EMPTY], false)], 0, NULL, NULL, [], 0, 0, NULL, threads, map[], false)
  }

  lemma OneProbe(k: int)
    ensures Pos(k, 0, 1) == 0 && Limit(1) == 1
  {
  }

  lemma WriterProbes(k: int)
    requires k > 0
    ensures Reachable(3, Scene(EMPTY, [Writer(k, Claim(0)), Rest(), Rest()]), None)
  {
    var s0, s4 := Scene(EMPTY, [Rest(), Rest(), Rest()]), Scene(EMPTY, [Writer(k, Probe(0)), Rest(), Rest()]);
    assert Init(3).threads == s0.threads && NewTable(1).keys == [EMPTY] && NewTable(1).vals == [EMPTY];
    assert RunEndsIn(3, [s0], [], s0, None);
    Starts(3, s0, None, 0, Insert(k, 7));
    assert s0.threads[0 := Writer(k, Probe(0))] == s4.threads;
    OneProbe(k);
    hide Pos, Limit;
    Extend(3, s4, None, Step(0));
    assert Next(s4, Step(0)) == Scene(EMPTY, [Writer(k, Claim(0)), Rest(), Rest()]);
  }

  lemma WriterStops(k: int)
    requires k > 0
    ensures Reachable(3, Scene(k, [Writer(k, Touch(0)), Rest(), Rest()]), None)
  {
    var s := Scene(EMPTY, [Writer(k, Claim(0)), Rest(), Rest()]);
    WriterProbes(k);
    OneProbe(k);
    hide Pos, Limit;
    Extend(3, s, None, Step(0));
    var s' := StepClaim(s, 0);
    assert [EMPTY][0 := k] == [k];
    assert s.tables[0 := Table([k], [EMPTY], false)] == [Table([k], [EMPTY], false)];
    assert s'.threads == [Writer(k, Touch(0)), Rest(), Rest()];
    assert s' == Scene(k, [Writer(k, Touch(0)), Rest(), Rest()]);
  }

  lemma FinderStops(k: int, d: int)
    requires k > 0
    ensures Reachable(3, Scene(k, [Writer(k, Touch(0)), Finder(k, d, Touch(0)), Rest()]), Some(Find(k, d)))
  {
    var s := Scene(k, [Writer(k, Touch(0)), Rest(), Rest()]);
    var s1 := Scene(k, [Writer(k, Touch(0)), Finder(k, d, Probe(0)), Rest()]);
    WriterStops(k);
    FinderStarts(3, s, Find(k, d));
    assert s.threads[1 := Finder(k, d, Probe(0))] == s1.threads;
    OneProbe(k);
    hide Pos, Limit;
    Extend(3, s1, Some(Find(k, d)), Step(1));
    assert StepProbe(s1, 1).threads == [Writer(k, Touch(0)), Finder(k, d, Touch(0)), Rest()];
  }

  /** find(k, d) can return the empty value although k has no value and d is another. */
  lemma FindReturnsEmpty(k: int, d: int)
    requires k > 0
    ensures exists s: State ::
              Reachable(3, s, Some(Find(k, d))) && |s.threads| == 3 && s.threads[1].pc == Done(EMPTY)
              && k !in s.committed && !s.failed
  {
    var s := Scene(k, [Writer(k, Touch(0)), Finder(k, d, Touch(0)), Rest()]);
    FinderStops(k, d);
    Extend(3, s, Some(Find(k, d)), Step(1));
    assert StepTouch(s, 1).threads[1].pc == Done(EMPTY);
  }

  lemma OtherGivesUp(k: int, d: int)
    requires k > 0
    ensures Reachable(3, Scene(k, [Writer(k, Touch(0)), Finder(k, d, Touch(0)), Other(k, Enter(0))]), Some(Find(k, d)))
  {
    var call := Some(Find(k, d));
    var s := Scene(k, [Writer(k, Touch(0)), Finder(k, d, Touch(0)), Rest()]);
    var s1 := Scene(k, [Writer(k, Touch(0)), Finder(k, d, Touch(0)), Other(k, Probe(0))]);
    var s2 := Scene(k, [Writer(k, Touch(0)), Finder(k, d, Touch(0)), Other(k, Probe(1))]);
    FinderStops(k, d);
    Starts(3, s, call, 2, Insert(k + 1, 9));
    assert s.threads[2 := Other(k, Probe(0))] == s1.threads;
    OneProbe(k + 1);
    hide Pos, Limit;
    Extend(3, s1, call, Step(2));
    assert StepProbe(s1, 2).threads == s2.threads;
    Extend(3, s2, call, Step(2));
    assert StepProbe(s2, 2).threads == [Writer(k, Touch(0)), Finder(k, d, Touch(0)), Other(k, Enter(0))];
  }

  /** Both tables exist; `v` is the value in the old one, and `other` has joined the migration. */
  function Moving(k: int, d: int, v: int, claims: seq<nat>, other: Pc): State {
    State([Table([k], [v], false), Table([EMPTY, EMPTY], [EMPTY, EMPTY], false)], NULL, 0, 1, claims, 1, 1, NULL,
          [Writer(k, Touch(0)), Finder(k, d, Touch(0)), Other(k, other).(gen := 1)], map[], false)
  }

  lemma MigrationEntered(k: int, d: int)
    requires k > 0
    ensures Reachable(3, Moving(k, d, EMPTY, [], Create), Some(Find(k, d)))
  {
    var s := Scene(k, [Writer(k, Touch(0)), Finder(k, d, Touch(0)), Other(k, Enter(0))]);
    OtherGivesUp(k, d);
    Extend(3, s, Some(Find(k, d)), Step(2));
    assert NewTable(2).keys == [EMPTY, EMPTY] && NewTable(2).vals == [EMPTY, EMPTY];
    var s1 := Moving(k, d, EMPTY, [], Create);
    assert StepEnter(s, 2).threads == s1.threads && StepEnter(s, 2).tables == s1.tables;
    assert StepEnter(s, 2) == s1;
  }

  lemma MigrationBegins(k: int, d: int)
    requires k > 0
    ensures Reachable(3, Moving(k, d, EMPTY, [2], Exchange(0, 1)), Some(Find(k, d)))
  {
    var s, s' := Moving(k, d, EMPTY, [], Create), Moving(k, d, EMPTY, [2], Exchange(0, 1));
    MigrationEntered(k, d);
    Extend(3, s, Some(Find(k, d)), Step(2));
    assert StepTask(s, 2).threads == s'.threads && [] + [2] == [2];
    assert StepTask(s, 2) == s';
  }

  lemma MigrationMarks(k: int, d: int)
    requires k > 0
    ensures Reachable(3, Moving(k, d, MIGRATE, [2], Create), Some(Find(k, d)))
  {
    var s, s' := Moving(k, d, EMPTY, [2], Exchange(0, 1)), Moving(k, d, MIGRATE, [2], Create);
    MigrationBegins(k, d);
    Extend(3, s, Some(Find(k, d)), Step(2));
    assert [EMPTY][0 := MIGRATE] == [MIGRATE];
    assert s.tables[0 := Table([k], [MIGRATE], false)] == s'.tables;
    assert StepTask(s, 2).threads == s'.threads;
    assert StepTask(s, 2) == s';
  }

  /** The new table is in use; the finder still looks at the old one, where it will see the marker. */
  function Moved(k: int, finder: Thread, other: Thread, mutex: int): State {
    State([Table([k], [MIGRATE], false), Table([EMPTY, EMPTY], [EMPTY, EMPTY], false)], 1,
          if mutex == NULL then NULL else 0, if mutex == NULL then NULL else 1, [2, 2], 0,
          if mutex == NULL then 2 else 1, mutex,
          [Writer(k, Touch(0)), finder, other], map[], false)
  }

  function Last(k: int, pc: Pc, trash: seq<int>): Thread { Other(k, pc).(gen := 1, trash := trash) }

  lemma MigrationDone(k: int, d: int)
    requires k > 0
    ensures Reachable(3, Moved(k, Finder(k, d, Touch(0)), Last(k, Scan(0, 0), [0]), 2), Some(Find(k, d)))
  {
    var s, s1 := Moving(k, d, MIGRATE, [2], Create), Moving(k, d, MIGRATE, [2, 2], Leave);
    MigrationMarks(k, d);
    Extend(3, s, Some(Find(k, d)), Step(2));
    assert StepTask(s, 2).threads == s1.threads && [2] + [2] == [2, 2];
    assert StepTask(s, 2) == s1;
    MigrationLeaves(k, d);
  }

  lemma MigrationLeaves(k: int, d: int)
    requires Reachable(3, Moving(k, d, MIGRATE, [2, 2], Leave), Some(Find(k, d)))
    ensures Reachable(3, Moved(k, Finder(k, d, Touch(0)), Last(k, Scan(0, 0), [0]), 2), Some(Find(k, d)))
  {
    var s, s' := Moving(k, d, MIGRATE, [2, 2], Leave), Moved(k, Finder(k, d, Touch(0)), Last(k, Scan(0, 0), [0]), 2);
    Extend(3, s, Some(Find(k, d)), Step(2));
    assert [] + [0] == [0];
    assert StepFinish(s, 2).threads == s'.threads;
    assert StepFinish(s, 2) == s';
  }

  /** The old table stays in the retire list: thread 0 still has its hazard pointer there. */
  lemma OldTableSpared(k: int, d: int)
    requires k > 0
    ensures Reachable(3, Moved(k, Finder(k, d, Touch(0)), Last(k, Scan(1, 0), [0]), 2), Some(Find(k, d)))
  {
    var s, s' := Moved(k, Finder(k, d, Touch(0)), Last(k, Scan(0, 0), [0]), 2),
      Moved(k, Finder(k, d, Touch(0)), Last(k, Scan(1, 0), [0]), 2);
    MigrationDone(k, d);
    assert s.threads[2].trash[0] == 0 && s.threads[0].hazard == 0;
    Extend(3, s, Some(Find(k, d)), Step(2));
    assert StepFinish(s, 2) == PutThread(s, 2, Last(k, Scan(1, 0), [0]));
    assert StepFinish(s, 2).threads == s'.threads;
  }

  lemma ScanOver(k: int, d: int)
    requires k > 0
    ensures Reachable(3, Moved(k, Finder(k, d, Touch(0)), Last(k, Close, [0]), 2), Some(Find(k, d)))
  {
    var s, s' := Moved(k, Finder(k, d, Touch(0)), Last(k, Scan(1, 0), [0]), 2),
      Moved(k, Finder(k, d, Touch(0)), Last(k, Close, [0]), 2);
    OldTableSpared(k, d);
    Extend(3, s, Some(Find(k, d)), Step(2));
    assert StepFinish(s, 2).threads == s'.threads;
  }

  lemma MutexFreed(k: int, d: int)
    requires k > 0
    ensures Reachable(3, Moved(k, Finder(k, d, Touch(0)), Last(k, Wait, [0]), NULL), Some(Find(k, d)))
  {
    var s, s' := Moved(k, Finder(k, d, Touch(0)), Last(k, Close, [0]), 2),
      Moved(k, Finder(k, d, Touch(0)), Last(k, Wait, [0]), NULL);
    ScanOver(k, d);
    Extend(3, s, Some(Find(k, d)), Step(2));
    assert StepFinish(s, 2).threads == s'.threads;
  }

  /** The finder has read the marker into its variable and tries the new table. */
  lemma FinderRetries(k: int, d: int)
    requires k > 0
    ensures Reachable(3, Moved(k, Finder(k, MIGRATE, Probe(0)).(held := 1, hazard := 1), Last(k, Wait, [0]), NULL),
      Some(Find(k, d)))
  {
    var other := Last(k, Wait, [0]);
    var s, s1 := Moved(k, Finder(k, d, Touch(0)), other, NULL), Moved(k, Finder(k, MIGRATE, Enter(0)), other, NULL);
    MutexFreed(k, d);
    Extend(3, s, Some(Find(k, d)), Step(1));
    assert StepTouch(s, 1).threads == s1.threads;
    FinderReturns(k, d);
  }

  lemma FinderReturns(k: int, d: int)
    requires k > 0 && Reachable(3, Moved(k, Finder(k, MIGRATE, Enter(0)), Last(k, Wait, [0]), NULL), Some(Find(k, d)))
    ensures Reachable(3, Moved(k, Finder(k, MIGRATE, Probe(0)).(held := 1, hazard := 1), Last(k, Wait, [0]), NULL),
      Some(Find(k, d)))
  {
    var other := Last(k, Wait, [0]);
    var s := Moved(k, Finder(k, MIGRATE, Enter(0)), other, NULL);
    var s1 := Moved(k, Finder(k, MIGRATE, Load(NULL)).(held := NULL), other, NULL);
    var s2 := Moved(k, Finder(k, MIGRATE, Probe(0)).(held := 1, hazard := 1), other, NULL);
    Extend(3, s, Some(Find(k, d)), Step(1));
    assert StepEnter(s, 1).threads == s1.threads;
    Protects(3, s1, Some(Find(k, d)), 1);
    assert s1.threads[1 := s2.threads[1]] == s2.threads;
  }

  /** find(k, d) can return the migration marker although k has no value and d is another. */
  lemma FindReturnsMarker(k: int, d: int)
    requires k > 0
    ensures exists s: State ::
              Reachable(3, s, Some(Find(k, d))) && |s.threads| == 3 && s.threads[1].pc == Done(MIGRATE)
              && k !in s.committed && !s.failed
  {
    var s := Moved(k, Finder(k, MIGRATE, Probe(0)).(held := 1, hazard := 1), Last(k, Wait, [0]), NULL);
    FinderRetries(k, d);
    assert s.tables[1].keys[Pos(k, 0, 2)] == EMPTY && Limit(2) == 2;
    hide Pos, Limit;
    Extend(3, s, Some(Find(k, d)), Step(1));
    assert StepProbe(s, 1).threads[1].pc == Done(MIGRATE);
  }
}
