/** Whole runs of ConcurrentHashMap (td/utils/ConcurrentHashTable.h). */
module ConcurrentHashMapRuns {
  // When a migration fits into the new table, that the first inserted value wins, that what a key is bound to was
  // asked for, and that no table is deleted under a holder.

  import opened ConcurrentHashMap
  import opened Modular

  // ---------------------------------------------------------------------------------------
  // The new table holds keys of the old one only
  // ---------------------------------------------------------------------------------------

  ghost predicate Has(tb: Table, k: int) { exists p :: 0 <= p < |tb.keys| && tb.keys[p] == k }

  ghost predicate KeysWithin(tb: Table, whole: Table) {
    forall q :: 0 <= q < |tb.keys| && tb.keys[q] != EMPTY ==> Has(whole, tb.keys[q])
  }

  ghost predicate KeysCopied(s: State) {
    s.current == NULL && ValidId(s, s.from) && ValidId(s, s.dest) ==> KeysWithin(s.tables[s.dest], s.tables[s.from])
  }

  ghost predicate FullInv(s: State) { Inv(s) && KeysCopied(s) }

  lemma HasEvolves(tb: Table, tb': Table, k: int)
    requires Evolves(tb, tb') && Has(tb, k) && k != EMPTY
    ensures Has(tb', k)
  {
    var p :| 0 <= p < |tb.keys| && tb.keys[p] == k;
    assert tb'.keys[p] == k;
  }

  lemma KeyArrives(s: State, ev: Event, q: nat)
    requires Enabled(s, ev) && ValidId(s, s.dest) && ValidId(Next(s, ev), s.dest) && q < s.tables[s.dest].Size()
    requires Next(s, ev).tables[s.dest].Size() == s.tables[s.dest].Size()
    requires s.tables[s.dest].keys[q] == EMPTY && Next(s, ev).tables[s.dest].keys[q] != EMPTY
    ensures ev.Step? && var th := s.threads[ev.t];
            if th.pc.Claim? then th.held == s.dest
            else th.pc.SeekClaim? && Next(s, ev).tables[s.dest].keys[q] == th.pc.k
  {
  }

  lemma KeyCopied(s: State, ev: Event, q: nat)
    requires FullInv(s) && Enabled(s, ev) && Frame(s, Next(s, ev), ev.t) && SameMigration(s, Next(s, ev))
    requires ValidId(s, s.from) && ValidId(s, s.dest) && q < s.tables[s.dest].Size()
    ensures var s' := Next(s, ev);
            ValidId(s', s.dest) && ValidId(s', s.from) && s'.tables[s.dest].Size() == s.tables[s.dest].Size()
            && (s'.tables[s.dest].keys[q] != EMPTY ==> Has(s'.tables[s.from], s'.tables[s.dest].keys[q]))
  {
    hide Next;
    var s', from, dest := Next(s, ev), s.tables[s.from], s.tables[s.dest];
    assert Evolves(from, s'.tables[s.from]) && Evolves(dest, s'.tables[s.dest]);
    if dest.keys[q] != EMPTY {
      HasEvolves(from, s'.tables[s.from], dest.keys[q]);
    } else if s'.tables[s.dest].keys[q] != EMPTY {
      KeyArrives(s, ev, q);
      ArrivalKnown(s, ev);
      HasEvolves(from, s'.tables[s.from], s'.tables[s.dest].keys[q]);
    }
  }

  lemma ArrivalKnown(s: State, ev: Event)
    requires Inv(s) && Enabled(s, ev) && s.current == NULL && ev.Step?
    requires s.threads[ev.t].pc.SeekClaim? || (s.threads[ev.t].pc.Claim? && s.threads[ev.t].held == s.dest)
    ensures s.threads[ev.t].pc.SeekClaim? && ValidId(s, s.from)
    ensures Has(s.tables[s.from], s.threads[ev.t].pc.k) && s.threads[ev.t].pc.k != EMPTY
  {
    var th := s.threads[ev.t];
    assert ThreadHazardOk(s, th) && CarryOk(s, ev.t, th);
    assert s.tables[s.from].keys[th.pc.p] > 0;
  }

  lemma FreshDest(s: State, ev: Event)
    requires Inv(s) && Enabled(s, ev) && s.current != NULL && Next(s, ev).current == NULL
    requires !(ev.Step? && Overflows(s, ev.t))
    ensures var s' := Next(s, ev);
            ValidId(s', s'.dest) ==> forall q ::
              0 <= q < s'.tables[s'.dest].Size() ==> s'.tables[s'.dest].keys[q] == EMPTY
  {
    hide StepProtect, StepProbe, StepClaim, StepTouch, StepTask, StepSeek;
    if ev.Start? || !(s.threads[ev.t].pc.Enter? || s.threads[ev.t].pc.Leave? || s.threads[ev.t].pc.Close?) {
      QuietPhase(s, ev);
    } else if s.threads[ev.t].pc.Leave? {
      MigratorRunning(s, ev.t);
    }
  }

  lemma KeysCopiedStep(s: State, ev: Event)
    requires FullInv(s) && Enabled(s, ev) && Frame(s, Next(s, ev), ev.t) && !(ev.Step? && Overflows(s, ev.t))
    ensures KeysCopied(Next(s, ev))
  {
    hide Next;
    var s' := Next(s, ev);
    if s'.current == NULL && ValidId(s', s'.from) && ValidId(s', s'.dest) {
      if s.current != NULL {
        FreshDest(s, ev);
      } else {
        MigrationStep(s, ev);
        assert PhaseOk(s);
        forall q | 0 <= q < |s'.tables[s'.dest].keys| && s'.tables[s'.dest].keys[q] != EMPTY
          ensures Has(s'.tables[s'.from], s'.tables[s'.dest].keys[q])
        {
          SameSize(s, s');
          KeyCopied(s, ev, q);
        }
      }
    }
  }

  lemma SameSize(s: State, s': State)
    requires TablesEvolve(s, s') && ValidId(s, s.dest) && s'.dest == s.dest
    ensures |s'.tables[s.dest].keys| == s.tables[s.dest].Size()
  {
  }

  // ---------------------------------------------------------------------------------------
  // A migration fits
  // ---------------------------------------------------------------------------------------

  /** The keys that the first `i` probes for `k` meet. */
  function Met(tb: Table, k: int, i: nat): (r: seq<int>)
    requires tb.Shape()
    ensures |r| == i && forall j :: 0 <= j < i ==> r[j] == tb.keys[Pos(k, j, tb.Size())]
  {
    if i == 0 then [] else Met(tb, k, i - 1) + [tb.keys[Pos(k, i - 1, tb.Size())]]
  }

  lemma PosDistinct(k: int, i: nat, j: nat, size: nat)
    requires i < j < size
    ensures Pos(k, i, size) != Pos(k, j, size)
  {
    var a := k % size + 1;
    if (a + i) % size == (a + j) % size {
      ModEqual(a + i, a + j, size);
    }
  }

  predicate Distinct(a: seq<int>) { forall i, j :: 0 <= i < j < |a| ==> a[i] != a[j] }

  /** Distinct values that all occur in `b` are no more than `b` is long. */
  lemma {:induction false} Pigeonhole(a: seq<int>, b: seq<int>)
    requires Distinct(a) && forall i :: 0 <= i < |a| ==> a[i] in b
    ensures |a| <= |b|
  {
    if a != [] {
      var n := |a| - 1;
      var p :| 0 <= p < |b| && b[p] == a[n];
      var b' := b[..p] + b[p + 1..];
      forall i | 0 <= i < n ensures a[..n][i] in b' {
        var q :| 0 <= q < |b| && b[q] == a[i];
        assert q != p;
        assert b'[if q < p then q else q - 1] == a[i];
      }
      Pigeonhole(a[..n], b');
    }
  }

  lemma MetDistinct(tb: Table, k: int, i: nat)
    requires Good(tb) && i <= tb.Size() && Passed(tb, k, i)
    ensures Distinct(Met(tb, k, i) + [k])
  {
    var a := Met(tb, k, i) + [k];
    forall x, y | 0 <= x < y < |a| ensures a[x] != a[y] {
      assert tb.keys[Pos(k, x, tb.Size())] != k;
      if y < i && a[x] == a[y] {
        PosDistinct(k, x, y, tb.Size());
        OneSlotPerKey(tb, Pos(k, x, tb.Size()), Pos(k, y, tb.Size()));
      }
    }
  }

  /** A search in the new table passes fewer keys than the old table has slots. */
  lemma PassedIsShort(from: Table, dest: Table, k: int, i: nat)
    requires Good(dest) && i <= dest.Size() && Passed(dest, k, i) && KeysWithin(dest, from) && Has(from, k)
    ensures i < |from.keys|
  {
    var a := Met(dest, k, i) + [k];
    MetDistinct(dest, k, i);
    forall x | 0 <= x < |a| ensures a[x] in from.keys {
      assert x < i ==> Has(from, dest.keys[Pos(k, x, dest.Size())]);
    }
    Pigeonhole(a, from.keys);
  }

  /** A migration is safe when the number of probes covers every key the old table can hold. */
  predicate Fits(oldSize: nat) { Limit(2 * oldSize) >= oldSize }

  lemma FitsExactly(oldSize: nat)
    ensures Fits(oldSize) <==> oldSize <= 300
  {
  }

  lemma MigrationFits(s: State, t: nat)
    requires FullInv(s) && Enabled(s, Step(t)) && ValidId(s, s.from) && Fits(s.tables[s.from].Size())
    ensures !Overflows(s, t)
  {
    var th := s.threads[t];
    if th.pc.Seek? {
      MigratorRunning(s, t);
      assert CarryOk(s, t, th);
      assert Has(s.tables[s.from], th.pc.k);
      if th.pc.i >= Limit(s.tables[s.dest].Size()) {
        PassedIsShort(s.tables[s.from], s.tables[s.dest], th.pc.k, Limit(s.tables[s.dest].Size()));
      }
    }
  }

  // ---------------------------------------------------------------------------------------
  // Runs
  // ---------------------------------------------------------------------------------------

  lemma InvStep(s: State, ev: Event)
    requires Inv(s) && Enabled(s, ev) && !(ev.Step? && Overflows(s, ev.t))
    ensures Inv(Next(s, ev))
  {
    hide Next, Enabled, TablesOk, ValsOk, PhaseOk, HazardsOk, OpsOk, CarriesOk, MarksOk, LocatedOk;
    FrameStep(s, ev);
    PhaseStep(s, ev);
    PointersKeptStep(s, ev);
    HazardsStep(s, ev);
    OpsStep(s, ev);
    CarriesStep(s, ev);
    MarksStep(s, ev);
    LocatedOkStep(s, ev);
    ValsStep(s, ev);
    FrameGood(s, ev);
  }

  ghost predicate IsRun(n: nat, states: seq<State>, events: seq<Event>) {
    && |states| == |events| + 1 && states[0] == Init(n)
    && forall i :: 0 <= i < |events| ==> Enabled(states[i], events[i]) && states[i + 1] == Next(states[i], events[i])
  }

  lemma FullInvStep(s: State, ev: Event)
    requires FullInv(s) && Enabled(s, ev) && !(ev.Step? && Overflows(s, ev.t))
    ensures FullInv(Next(s, ev))
  {
    hide Next, Inv, KeysCopied, Enabled;
    InvStep(s, ev);
    FrameStep(s, ev);
    KeysCopiedStep(s, ev);
  }

  lemma OverflowFails(s: State, t: nat)
    requires Enabled(s, Step(t)) && Overflows(s, t)
    ensures Next(s, Step(t)).failed
  {
  }

  /** The invariant holds until a migration overflows, and nothing else ends a run. */
  lemma {:induction false} RunInvariant(n: nat, states: seq<State>, events: seq<Event>, i: nat)
    requires IsRun(n, states, events) && i < |states|
    ensures !states[i].failed ==> FullInv(states[i])
    ensures states[i].failed ==>
              i > 0 && FullInv(states[i - 1]) && events[i - 1].Step? && Overflows(states[i - 1], events[i - 1].t)
  {
    hide Next, Inv, KeysCopied;
    if i == 0 {
      InitInv(n);
      InitFull(n);
    } else {
      RunInvariant(n, states, events, i - 1);
      var s, ev := states[i - 1], events[i - 1];
      assert Enabled(s, ev);
      if ev.Step? && Overflows(s, ev.t) {
        OverflowFails(s, ev.t);
      } else {
        FullInvStep(s, ev);
        Sound(Next(s, ev));
      }
    }
  }

  lemma InitFull(n: nat)
    ensures KeysCopied(Init(n)) && !Init(n).failed
  {
  }

  lemma Sound(s: State)
    requires FullInv(s)
    ensures !s.failed && PhaseOk(s)
  {
  }

  lemma OverflowTables(s: State, t: nat)
    requires FullInv(s) && Enabled(s, Step(t)) && Overflows(s, t)
    ensures ValidId(s, s.from) && ValidId(s, s.dest) && s.tables[s.dest].Size() == 2 * s.tables[s.from].Size()
  {
    MigratorRunning(s, t);
  }

  /** No CHECK fails, and no migration overflows, while every table has at most 600 slots. */
  lemma SmallTablesNeverFail(n: nat, states: seq<State>, events: seq<Event>, i: nat)
    requires IsRun(n, states, events) && i < |states|
    requires forall id :: 0 <= id < |states[i].tables| ==> states[i].tables[id].Size() <= 600
    ensures !states[i].failed
  {
    hide Inv, KeysCopied, Limit;
    if states[i].failed {
      RunInvariant(n, states, events, i);
      var s, ev := states[i - 1], events[i - 1];
      OverflowTables(s, ev.t);
      assert states[i].tables == s.tables by { OverflowStops(s, ev.t); }
      FitsExactly(s.tables[s.from].Size());
      MigrationFits(s, ev.t);
    }
  }

  lemma OverflowStops(s: State, t: nat)
    requires Enabled(s, Step(t)) && Overflows(s, t)
    ensures Next(s, Step(t)).tables == s.tables
  {
  }

  lemma Alive(n: nat, states: seq<State>, events: seq<Event>, i: nat, j: nat)
    requires IsRun(n, states, events) && i <= j < |states| && !states[j].failed
    ensures !states[i].failed
    decreases j
  {
    hide Next;
    if i < j {
      assert Enabled(states[j - 1], events[j - 1]);
      Alive(n, states, events, i, j - 1);
    }
  }

  lemma {:induction false} CommitmentsStay(n: nat, states: seq<State>, events: seq<Event>, i: nat, j: nat)
    requires IsRun(n, states, events) && i <= j < |states| && !states[j].failed
    ensures Remembers(states[i], states[j])
    decreases j
  {
    hide Next, Inv, KeysCopied;
    if i < j {
      Alive(n, states, events, j - 1, j);
      CommitmentsStay(n, states, events, i, j - 1);
      RunInvariant(n, states, events, j - 1);
      FrameStep(states[j - 1], events[j - 1]);
    }
  }

  lemma ThreadsKept(n: nat, states: seq<State>, events: seq<Event>, i: nat)
    requires IsRun(n, states, events) && i < |states| && !states[i].failed
    ensures |states[i].threads| == n
  {
    hide Next, Inv, KeysCopied;
    if i > 0 {
      Alive(n, states, events, i - 1, i);
      ThreadsKept(n, states, events, i - 1);
      RunInvariant(n, states, events, i - 1);
      FrameStep(states[i - 1], events[i - 1]);
    }
  }

  // One call

  /** The thread that acts keeps its call, unless it starts one. */
  predicate SameCall(th: Thread, th': Thread) {
    && th'.op.key == th.op.key && th'.base == th.base && th'.op.Insert? == th.op.Insert?
    && (th.op.Insert? ==> th'.op == th.op)
  }

  lemma CallStep(s: State, t: nat)
    requires Enabled(s, Step(t))
    ensures t < |Next(s, Step(t)).threads| && SameCall(s.threads[t], Next(s, Step(t)).threads[t])
  {
    hide StepProtect, StepProbe, StepClaim, StepTouch, StepEnter, StepTask, StepSeek, StepFinish, SameCall;
    if InRunMigrate(s.threads[t].pc) {
      CallInMigrate(s, t);
    } else {
      CallOutside(s, t);
    }
  }

  lemma CallInMigrate(s: State, t: nat)
    requires Enabled(s, Step(t)) && InRunMigrate(s.threads[t].pc)
    ensures t < |StepThread(s, t).threads| && SameCall(s.threads[t], StepThread(s, t).threads[t])
  {
    hide StepProtect, StepProbe, StepClaim, StepTouch, StepEnter, StepTask, StepSeek, StepFinish;
    var pc := s.threads[t].pc;
    if pc.Create? || pc.Exchange? || pc.ReadKey? {
      CallInTask(s, t);
    } else if MigratorPc(pc) && !pc.Leave? {
      CallInSeek(s, t);
    } else {
      CallInFinish(s, t);
    }
  }

  lemma CallInTask(s: State, t: nat)
    requires Enabled(s, Step(t)) && var pc := s.threads[t].pc; pc.Create? || pc.Exchange? || pc.ReadKey?
    ensures t < |StepTask(s, t).threads| && SameCall(s.threads[t], StepTask(s, t).threads[t])
  {
  }

  lemma CallInSeek(s: State, t: nat)
    requires Enabled(s, Step(t)) && var pc := s.threads[t].pc; pc.Seek? || pc.SeekClaim? || pc.Fill?
    ensures t < |StepSeek(s, t).threads| && SameCall(s.threads[t], StepSeek(s, t).threads[t])
  {
  }

  lemma CallInFinish(s: State, t: nat)
    requires Enabled(s, Step(t)) && var pc := s.threads[t].pc; pc.Leave? || pc.Scan? || pc.Close? || pc.Wait?
    ensures t < |StepFinish(s, t).threads| && SameCall(s.threads[t], StepFinish(s, t).threads[t])
  {
  }

  lemma CallOutside(s: State, t: nat)
    requires Enabled(s, Step(t)) && !InRunMigrate(s.threads[t].pc)
    ensures t < |StepThread(s, t).threads| && SameCall(s.threads[t], StepThread(s, t).threads[t])
  {
    hide StepTask, StepSeek, StepFinish;
  }

  /** Thread `q` starts a call at event `j` and no other before state `m`. */
  predicate IsCall(events: seq<Event>, q: nat, j: nat, m: nat) {
    j < m <= |events| && events[j].Start? && events[j].t == q
    && forall x :: j < x < m ==> !(events[x].Start? && events[x].t == q)
  }

  function BaseOf(s: State, k: int): int { if k in s.committed then s.committed[k] else EMPTY }

  lemma {:induction false} CallKept(n: nat, states: seq<State>, events: seq<Event>, q: nat, j: nat, m: nat)
    requires IsRun(n, states, events) && IsCall(events, q, j, m) && !states[m].failed
    ensures |states[m].threads| == n && q < n
    ensures var th := states[m].threads[q];
            th.op.key == events[j].op.key && th.op.Insert? == events[j].op.Insert?
              && (th.op.Insert? ==> th.op == events[j].op)
            && th.base == BaseOf(states[j], events[j].op.key)
    decreases m
  {
    hide StepThread, Inv, KeysCopied;
    Alive(n, states, events, m - 1, m);
    ThreadsKept(n, states, events, m - 1);
    ThreadsKept(n, states, events, m);
    assert Enabled(states[m - 1], events[m - 1]) && states[m] == Next(states[m - 1], events[m - 1]);
    if j + 1 < m {
      CallKept(n, states, events, q, j, m - 1);
      StepKeepsCall(n, states, events, q, m - 1);
    }
  }

  lemma StepKeepsCall(n: nat, states: seq<State>, events: seq<Event>, q: nat, m: nat)
    requires IsRun(n, states, events) && m < |events| && !states[m + 1].failed
    requires !(events[m].Start? && events[m].t == q) && q < n == |states[m].threads| == |states[m + 1].threads|
    ensures SameCall(states[m].threads[q], states[m + 1].threads[q])
  {
    hide Next, Inv, KeysCopied;
    var s, ev := states[m], events[m];
    assert Enabled(s, ev) && states[m + 1] == Next(s, ev);
    if ev.t == q {
      CallStep(s, q);
    } else {
      RunInvariant(n, states, events, m);
      FrameStep(s, ev);
    }
  }

  lemma DoneOk(s: State, t: nat)
    requires Inv(s) && t < |s.threads| && s.threads[t].pc.Done?
    ensures var th := s.threads[t];
            && (th.base != EMPTY ==> th.pc.r == th.base)
            && (th.op.Insert? && th.op.value != EMPTY ==>
                  BaseOf(s, th.op.key) == th.pc.r && th.op.key in s.committed && IsValue(th.pc.r))
  {
    assert OpOk(s, s.threads[t]);
  }

  /**
    The first insert wins: once an insert of a value for a key returns x, every insert and every find
    of that key that starts afterwards returns x, however many migrations happen in between.
  */
  lemma FirstInsertWins(n: nat, states: seq<State>, events: seq<Event>, i: nat, t: nat, j: nat, q: nat, m: nat)
    requires IsRun(n, states, events) && i <= j < m < |states| && !states[m].failed
    requires t < |states[i].threads| && states[i].threads[t].pc.Done?
    requires states[i].threads[t].op.Insert? && states[i].threads[t].op.value != EMPTY
    requires IsCall(events, q, j, m) && events[j].op.key == states[i].threads[t].op.key
    requires q < |states[m].threads| && states[m].threads[q].pc.Done?
    ensures states[m].threads[q].pc.r == states[i].threads[t].pc.r
  {
    hide Next, KeysCopied, IsRun, IsCall, Inv;
    Alive(n, states, events, i, m);
    Alive(n, states, events, j, m);
    RunInvariant(n, states, events, i);
    RunInvariant(n, states, events, m);
    DoneOk(states[i], t);
    CommitmentsStay(n, states, events, i, j);
    CallKept(n, states, events, q, j, m);
    DoneOk(states[m], q);
  }

  /** Inserts of one key that run at the same time agree. */
  lemma InsertsAgree(n: nat, states: seq<State>, events: seq<Event>, i: nat, t: nat, j: nat, q: nat)
    requires IsRun(n, states, events) && i <= j < |states| && !states[j].failed
    requires t < |states[i].threads| && states[i].threads[t].pc.Done?
    requires q < |states[j].threads| && states[j].threads[q].pc.Done?
    requires var a, b := states[i].threads[t].op, states[j].threads[q].op;
             a.Insert? && b.Insert? && a.key == b.key && a.value != EMPTY && b.value != EMPTY
    ensures states[j].threads[q].pc.r == states[i].threads[t].pc.r
  {
    hide Next, KeysCopied, IsRun, Inv;
    Alive(n, states, events, i, j);
    RunInvariant(n, states, events, i);
    RunInvariant(n, states, events, j);
    DoneOk(states[i], t);
    DoneOk(states[j], q);
    CommitmentsStay(n, states, events, i, j);
  }

  // Committed values come from calls

  ghost predicate Asked(events: seq<Event>, i: nat, op: Op) {
    exists x, q :: 0 <= x < i && x < |events| && events[x] == Start(q, op)
  }

  lemma CommitIsAsked(s: State, ev: Event, k: int)
    requires Enabled(s, ev) && k in Next(s, ev).committed
    requires !(k in s.committed && Next(s, ev).committed[k] == s.committed[k])
    ensures s.threads[ev.t].op == Insert(k, Next(s, ev).committed[k])
  {
  }

  lemma {:induction false} OpsAsked(n: nat, states: seq<State>, events: seq<Event>, i: nat, q: nat)
    requires IsRun(n, states, events) && i < |states| && !states[i].failed && q < n && q < |states[i].threads|
    requires states[i].threads[q].op.Insert?
    ensures Asked(events, i, states[i].threads[q].op)
  {
    hide StepThread, Inv, KeysCopied;
    if i > 0 {
      Alive(n, states, events, i - 1, i);
      ThreadsKept(n, states, events, i - 1);
      ThreadsKept(n, states, events, i);
      assert Enabled(states[i - 1], events[i - 1]) && states[i] == Next(states[i - 1], events[i - 1]);
      if !(events[i - 1].Start? && events[i - 1].t == q) {
        StepKeepsCall(n, states, events, q, i - 1);
        OpsAsked(n, states, events, i - 1, q);
        AskedLater(events, i, states[i].threads[q].op);
      } else {
        assert events[i - 1] == Start(q, states[i].threads[q].op);
      }
    }
  }

  lemma AskedLater(events: seq<Event>, i: nat, op: Op)
    requires i > 0 && Asked(events, i - 1, op)
    ensures Asked(events, i, op)
  {
    var x, q :| 0 <= x < i - 1 && x < |events| && events[x] == Start(q, op);
    assert x < i;
  }

  /** What a key is bound to was the value of some insert call for the key. */
  lemma {:induction false} ValuesAreAsked(n: nat, states: seq<State>, events: seq<Event>, i: nat, k: int)
    requires IsRun(n, states, events) && i < |states| && !states[i].failed && k in states[i].committed
    ensures Asked(events, i, Insert(k, states[i].committed[k]))
  {
    hide Next, Inv, KeysCopied;
    if i > 0 {
      Alive(n, states, events, i - 1, i);
      var s, ev := states[i - 1], events[i - 1];
      assert Enabled(s, ev) && states[i] == Next(s, ev);
      if k in s.committed && states[i].committed[k] == s.committed[k] {
        ValuesAreAsked(n, states, events, i - 1, k);
      } else {
        CommitIsAsked(s, ev, k);
        ThreadsKept(n, states, events, i - 1);
        OpsAsked(n, states, events, i - 1, ev.t);
      }
      AskedLater(events, i, Insert(k, states[i].committed[k]));
    }
  }

  // Tables

  /** In no table does a key own two slots. */
  lemma KeysOwnOneSlot(n: nat, states: seq<State>, events: seq<Event>, i: nat, id: nat, p: nat, q: nat)
    requires IsRun(n, states, events) && i < |states| && !states[i].failed && id < |states[i].tables|
    requires p < states[i].tables[id].Size() && q < states[i].tables[id].Size()
    requires states[i].tables[id].keys[p] == states[i].tables[id].keys[q] != EMPTY
    ensures p == q
  {
    hide Next;
    RunInvariant(n, states, events, i);
    OneSlotPerKey(states[i].tables[id], p, q);
  }

  /** No table is deleted between a protect that returned it and the holder's next protect or clear. */
  lemma HeldTablesLive(n: nat, states: seq<State>, events: seq<Event>, i: nat, t: nat)
    requires IsRun(n, states, events) && i < |states| && !states[i].failed && t < |states[i].threads|
    requires states[i].threads[t].held != NULL
    ensures ValidId(states[i], states[i].threads[t].held) && !states[i].tables[states[i].threads[t].held].deleted
    ensures states[i].threads[t].hazard == states[i].threads[t].held
  {
    hide Next;
    RunInvariant(n, states, events, i);
    assert ThreadHazardOk(states[i], states[i].threads[t]);
  }

  /** The table in use, and both tables of a running migration, are never deleted either. */
  lemma UsedTablesLive(n: nat, states: seq<State>, events: seq<Event>, i: nat)
    requires IsRun(n, states, events) && i < |states| && !states[i].failed
    ensures var s := states[i];
            if s.current != NULL then ValidId(s, s.current) && !s.tables[s.current].deleted
            else ValidId(s, s.from) && ValidId(s, s.dest) && !s.tables[s.from].deleted && !s.tables[s.dest].deleted
  {
    hide Next;
    RunInvariant(n, states, events, i);
  }

  // ---------------------------------------------------------------------------------------
  // Reachable states
  // ---------------------------------------------------------------------------------------

  datatype Option<T> = None | Some(value: T)

  /** A run of `n` threads that ends in `s`; with `call`, the last call that thread 1 has started is that one. */
  ghost predicate RunEndsIn(n: nat, states: seq<State>, events: seq<Event>, s: State, call: Option<Op>) {
    && IsRun(n, states, events) && states[|events|] == s
    && (call.Some? ==> exists j: nat :: IsCall(events, 1, j, |events|) && events[j].op == call.value)
  }

  ghost predicate Reachable(n: nat, s: State, call: Option<Op>) {
    exists states: seq<State>, events: seq<Event> :: RunEndsIn(n, states, events, s, call)
  }

  lemma Extend(n: nat, s: State, call: Option<Op>, ev: Event)
    requires Reachable(n, s, call) && Enabled(s, ev) && (call.Some? ==> !(ev.Start? && ev.t == 1))
    ensures Reachable(n, Next(s, ev), call)
  {
    hide Next, Enabled;
    var states: seq<State>, events: seq<Event> :| RunEndsIn(n, states, events, s, call);
    if call.Some? {
      var j: nat :| IsCall(events, 1, j, |events|) && events[j].op == call.value;
      assert IsCall(events + [ev], 1, j, |events + [ev]|);
    }
    assert RunEndsIn(n, states + [Next(s, ev)], events + [ev], Next(s, ev), call);
  }

  lemma ExtendStart(n: nat, s: State, op: Op)
    requires Reachable(n, s, None) && Enabled(s, Start(1, op))
    ensures Reachable(n, Next(s, Start(1, op)), Some(op))
  {
    hide Next, Enabled;
    var ev := Start(1, op);
    var states: seq<State>, events: seq<Event> :| RunEndsIn(n, states, events, s, None);
    assert IsCall(events + [ev], 1, |events|, |events + [ev]|);
    assert RunEndsIn(n, states + [Next(s, ev)], events + [ev], Next(s, ev), Some(op));
  }

  lemma ReachableInv(n: nat, s: State, call: Option<Op>)
    requires Reachable(n, s, call) && !s.failed
    ensures FullInv(s) && |s.threads| == n
  {
    hide Next, FullInv;
    var states: seq<State>, events: seq<Event> :| RunEndsIn(n, states, events, s, call);
    RunInvariant(n, states, events, |events|);
    ThreadsKept(n, states, events, |events|);
  }

  /** Three steps: protect loads the pointer, stores the hazard pointer and loads again. */
  lemma Protects(n: nat, s: State, call: Option<Op>, t: nat)
    requires Reachable(n, s, call) && !s.failed && t < |s.threads| && s.threads[t].pc == Load(NULL) && s.current != NULL
    ensures var c := s.current;
            Reachable(n, PutThread(s, t, s.threads[t].(pc := Probe(0), held := c, hazard := c)), call)
  {
    var th, c := s.threads[t], s.current;
    var s1, s2 := PutThread(s, t, th.(pc := Store(c))), PutThread(s, t, th.(pc := Load(c), hazard := c));
    Extend(n, s, call, Step(t));
    assert Next(s, Step(t)) == s1;
    Extend(n, s1, call, Step(t));
    assert Next(s1, Step(t)) == s2;
    Extend(n, s2, call, Step(t));
    assert Next(s2, Step(t)) == PutThread(s, t, th.(pc := Probe(0), held := c, hazard := c));
  }
}
