/**
  What the calls of ConcurrentHashMap (td/utils/ConcurrentHashTable.h) do while nobody interferes, in any state of a
  run: find and insert when no migration is on, and the end of a migration, which deletes what nobody guards.
*/
module ConcurrentHashMapCalls {
  import opened ConcurrentHashMap
  import opened ConcurrentHashMapRuns

  predicate Moves(s: State, t: nat) { t < |s.threads| && !s.threads[t].pc.Done? && Enabled(s, Step(t)) }

  /** Up to n steps of one thread. */
  function Alone(s: State, t: nat, n: nat): State
    decreases n
  {
    if n == 0 || !Moves(s, t) then s else Alone(Next(s, Step(t)), t, n - 1)
  }

  lemma OneStep(s: State, t: nat, n: nat)
    requires n > 0 && Moves(s, t)
    ensures Alone(s, t, n) == Alone(Next(s, Step(t)), t, n - 1)
  {
  }

  lemma Stays(s: State, t: nat, n: nat)
    requires !Moves(s, t)
    ensures Alone(s, t, n) == s
  {
  }

  lemma PutTwice(s: State, t: nat, a: Thread, b: Thread)
    requires t < |s.threads|
    ensures PutThread(PutThread(s, t, a), t, b) == PutThread(s, t, b) && PutThread(s, t, a).threads[t] == a
    ensures PutThread(s, t, s.threads[t]) == s
  {
  }

  // ---------------------------------------------------------------------------------------
  // One table
  // ---------------------------------------------------------------------------------------

  predicate Stops(tb: Table, k: int, i: nat)
    requires tb.Shape()
  {
    var q := Pos(k, i, tb.Size()); tb.keys[q] == EMPTY || tb.keys[q] == k
  }

  /** The first probe from number i on that does not meet another key. */
  function Search(tb: Table, k: int, i: nat): (j: nat)
    requires tb.Shape() && i <= Limit(tb.Size())
    ensures i <= j <= Limit(tb.Size()) && (j < Limit(tb.Size()) ==> Stops(tb, k, j))
    decreases Limit(tb.Size()) - i
  {
    if i == Limit(tb.Size()) || Stops(tb, k, i) then i else Search(tb, k, i + 1)
  }

  lemma SearchUnfold(tb: Table, k: int, i: nat)
    requires tb.Shape() && i <= Limit(tb.Size())
    ensures Search(tb, k, i) == if i == Limit(tb.Size()) || Stops(tb, k, i) then i else Search(tb, k, i + 1)
  {
  }

  lemma {:induction false} SearchPasses(tb: Table, k: int, i: nat)
    requires tb.Shape() && i <= Limit(tb.Size()) && Passed(tb, k, i)
    ensures Passed(tb, k, Search(tb, k, i))
    decreases Limit(tb.Size()) - i
  {
    hide Pos, Limit;
    if i < Limit(tb.Size()) && !Stops(tb, k, i) {
      SearchPasses(tb, k, i + 1);
    }
  }

  predicate Owns(tb: Table, k: int, p: int) { 0 <= p < |tb.keys| && tb.keys[p] == k }

  predicate HasKey(tb: Table, k: int) { k in tb.keys }

  /** A slot that with_value tries for the key is free. */
  predicate HasRoom(tb: Table, k: int)
    requires tb.Shape()
  {
    exists i :: 0 <= i < Limit(tb.Size()) && tb.keys[Pos(k, i, tb.Size())] == EMPTY
  }

  lemma NoStop(tb: Table, k: int, i: nat)
    requires tb.Shape() && Passed(tb, k, i)
    ensures forall j: nat :: j < i ==> !Stops(tb, k, j)
  {
  }

  /** A key that is there is where its search ends. */
  lemma FindsKey(tb: Table, k: int)
    requires Good(tb) && k != EMPTY
    ensures var j := Search(tb, k, 0);
            HasKey(tb, k) <==> j < Limit(tb.Size()) && tb.keys[Pos(k, j, tb.Size())] == k
    ensures var j := Search(tb, k, 0);
            !HasKey(tb, k) ==> (HasRoom(tb, k) <==> j < Limit(tb.Size()))
  {
    var j := Search(tb, k, 0);
    SearchPasses(tb, k, 0);
    if HasKey(tb, k) {
      var p :| 0 <= p < |tb.keys| && tb.keys[p] == k;
      var i: nat :| PlacedBy(tb, p, i);
      NotPassed(tb, p, i, j);
      NoStop(tb, k, i);
    } else if HasRoom(tb, k) {
      var i :| 0 <= i < Limit(tb.Size()) && tb.keys[Pos(k, i, tb.Size())] == EMPTY;
      assert j <= i;
    }
  }

  // ---------------------------------------------------------------------------------------
  // find and insert
  // ---------------------------------------------------------------------------------------

  /** Between protect and the end of with_value. */
  predicate Probing(s: State, t: nat, i: nat) {
    && !s.failed && t < |s.threads| && var th := s.threads[t];
       th.pc == Probe(i) && IsTable(s, th.held) && i <= Limit(s.tables[th.held].Size())
  }

  lemma ProbeOn(s: State, t: nat, i: nat)
    requires Probing(s, t, i) && i < Limit(s.tables[s.threads[t].held].Size())
    requires !Stops(s.tables[s.threads[t].held], s.threads[t].op.key, i)
    ensures Moves(s, t) && Next(s, Step(t)) == PutThread(s, t, s.threads[t].(pc := Probe(i + 1)))
    ensures Probing(Next(s, Step(t)), t, i + 1)
  {
    hide Pos, Limit;
  }

  lemma {:induction false} Probes(s: State, t: nat, i: nat, n: nat)
    requires Probing(s, t, i) && n >= Limit(s.tables[s.threads[t].held].Size()) - i
    ensures var th := s.threads[t];
            var j := Search(s.tables[th.held], th.op.key, i);
            Alone(s, t, n) == Alone(PutThread(s, t, th.(pc := Probe(j))), t, n - (j - i))
    decreases Limit(s.tables[s.threads[t].held].Size()) - i
  {
    hide Alone, Enabled, Limit, Next, Search, Table.Shape, Table.Size, Stops;
    var th := s.threads[t];
    var tb := s.tables[th.held];
    SearchUnfold(tb, th.op.key, i);
    if i == Limit(tb.Size()) || Stops(tb, th.op.key, i) {
      PutTwice(s, t, th, th);
    } else {
      ProbeOn(s, t, i);
      OneStep(s, t, n);
      var s1, a := Next(s, Step(t)), th.(pc := Probe(i + 1));
      PutTwice(s, t, a, a);
      assert s1.tables == s.tables;
      Probes(s1, t, i + 1, n - 1);
      var j := Search(tb, th.op.key, i + 1);
      PutTwice(s, t, a, th.(pc := Probe(j)));
    }
  }

  /** The thread has called and protected the current table. */
  function Called(s: State, t: nat, op: Op): Thread
    requires t < |s.threads|
  {
    s.threads[t].(hazard := s.current, op := op, held := s.current, pc := Probe(0),
                  base := if op.key in s.committed then s.committed[op.key] else EMPTY)
  }

  lemma CallStarts(s: State, t: nat, op: Op, n: nat)
    requires Enabled(s, Start(t, op)) && s.current != NULL && n >= 3
    ensures Alone(Next(s, Start(t, op)), t, n) == Alone(PutThread(s, t, Called(s, t, op)), t, n - 3)
  {
    hide Alone, Pos, Limit;
    var s1 := Next(s, Start(t, op));
    OneStep(s1, t, n);
    var s2 := Next(s1, Step(t));
    OneStep(s2, t, n - 1);
    var s3 := Next(s2, Step(t));
    OneStep(s3, t, n - 2);
    assert Next(s3, Step(t)).threads == PutThread(s, t, Called(s, t, op)).threads;
  }

  /** What the current table says about a key. */
  lemma CurrentFacts(s: State, k: int)
    requires Inv(s) && s.current != NULL && k > 0
    ensures IsTable(s, s.current) && Good(s.tables[s.current]) && NoMarks(s.tables[s.current])
    ensures k in s.committed ==> HasKey(s.tables[s.current], k)
    ensures forall p :: Owns(s.tables[s.current], k, p) ==>
              s.tables[s.current].vals[p] == if k in s.committed then s.committed[k] else EMPTY
    ensures forall p :: Owns(s.tables[s.current], EMPTY, p) ==> s.tables[s.current].vals[p] == EMPTY
  {
    hide HazardsOk, OpsOk, CarriesOk;
    var tb := s.tables[s.current];
    assert Good(tb);
    forall p | Owns(tb, k, p) ensures tb.vals[p] == if k in s.committed then s.committed[k] else EMPTY {
      assert SlotOk(s, tb, p);
      if k in s.committed {
        assert Located(s, k);
        var q :| 0 <= q < tb.Size() && tb.keys[q] == k && tb.vals[q] == s.committed[k];
        OneSlotPerKey(tb, p, q);
      }
    }
    if k in s.committed {
      assert Located(s, k);
    }
    forall p | Owns(tb, EMPTY, p) ensures tb.vals[p] == EMPTY {
      assert SlotOk(s, tb, p);
    }
  }

  /** The slot where the search for k ends. */
  lemma SlotFacts(s: State, k: int, j: nat, q: nat)
    requires Inv(s) && s.current != NULL && k > 0 && IsTable(s, s.current)
    requires j == Search(s.tables[s.current], k, 0) && q == Pos(k, j, s.tables[s.current].Size())
    ensures var tb := s.tables[s.current];
            && NoMarks(tb) && (HasKey(tb, k) <==> j < Limit(tb.Size()) && tb.keys[q] == k)
            && (!HasKey(tb, k) ==> (HasRoom(tb, k) <==> j < Limit(tb.Size())))
            && (k in s.committed ==> HasKey(tb, k) && s.committed[k] != EMPTY)
            && (tb.keys[q] == k ==> Owns(tb, k, q) && tb.vals[q] == if k in s.committed then s.committed[k] else EMPTY)
            && (j < Limit(tb.Size()) && tb.keys[q] != k ==> Owns(tb, EMPTY, q) && tb.keys[q] == tb.vals[q] == EMPTY)
  {
    assert k in s.committed ==> s.committed[k] != EMPTY;
    hide Good, HasKey, HasRoom, Inv, IsTable, Limit, NoMarks, Pos, Search, Table.Shape;
    var tb := s.tables[s.current];
    CurrentFacts(s, k);
    FindsKey(tb, k);
    assert Owns(tb, tb.keys[q], q);
  }

  lemma CalledProbes(s: State, t: nat, op: Op, n: nat)
    requires Inv(s) && Enabled(s, Start(t, op)) && s.current != NULL && IsTable(s, s.current)
    requires n >= Limit(s.tables[s.current].Size()) + 3
    ensures var j := Search(s.tables[s.current], op.key, 0);
            Alone(Next(s, Start(t, op)), t, n)
            == Alone(PutThread(s, t, Called(s, t, op).(pc := Probe(j))), t, n - 3 - j)
  {
    hide Alone, Inv, Limit, Next, Search, Table.Shape, Table.Size;
    assert t < |s.threads| && !s.failed;
    CallStarts(s, t, op, n);
    var a := Called(s, t, op);
    var s1 := PutThread(s, t, a);
    PutTwice(s, t, a, a);
    assert s1.tables == s.tables;
    assert a.held == s.current && a.op == op && a.pc == Probe(0);
    assert Probing(s1, t, 0);
    Probes(s1, t, 0, n - 3);
    PutTwice(s, t, a, a.(pc := Probe(Search(s.tables[s.current], op.key, 0))));
  }

  /** The thread at the end of its search. */
  predicate Searched(s: State, t: nat, j: nat) {
    Probing(s, t, j) && var th := s.threads[t];
    th.held != NULL && (j < Limit(s.tables[th.held].Size()) ==> Stops(s.tables[th.held], th.op.key, j))
  }

  /** with_value without a slot for the key. */
  lemma SearchFails(s: State, t: nat, j: nat)
    requires Searched(s, t, j)
    requires var th := s.threads[t]; var tb := s.tables[th.held];
             j == Limit(tb.Size()) || (th.op.Find? && tb.keys[Pos(th.op.key, j, tb.Size())] == EMPTY)
    ensures Moves(s, t) && Next(s, Step(t)) == PutThread(s, t, NotFound(s.threads[t]))
  {
    hide Pos, Limit;
  }

  lemma SearchHits(s: State, t: nat, j: nat)
    requires Searched(s, t, j)
    requires var th := s.threads[t]; var tb := s.tables[th.held];
             j < Limit(tb.Size()) && tb.keys[Pos(th.op.key, j, tb.Size())] == th.op.key != EMPTY
    ensures var th := s.threads[t];
            && Moves(s, t)
            && Next(s, Step(t)) == PutThread(s, t, th.(pc := Touch(Pos(th.op.key, j, s.tables[th.held].Size()))))
  {
    hide Pos, Limit;
  }

  /** The claim of a free slot. */
  lemma SearchClaims(s: State, t: nat, j: nat)
    requires Searched(s, t, j) && s.threads[t].op.Insert?
    requires var th := s.threads[t]; var tb := s.tables[th.held];
             j < Limit(tb.Size()) && tb.keys[Pos(th.op.key, j, tb.Size())] == EMPTY
    ensures var th := s.threads[t];
            var q := Pos(th.op.key, j, s.tables[th.held].Size());
            && Moves(s, t) && Moves(Next(s, Step(t)), t)
            && Next(Next(s, Step(t)), Step(t)) == PutThread(SetKey(s, th.held, q, th.op.key), t, th.(pc := Touch(q)))
  {
    hide Pos, Limit;
  }

  lemma Touches(s: State, t: nat, q: nat)
    requires !s.failed && t < |s.threads| && s.threads[t].pc == Touch(q) && IsTable(s, s.threads[t].held)
    requires q < |s.tables[s.threads[t].held].keys| && s.tables[s.threads[t].held].vals[q] != MIGRATE
    ensures Moves(s, t)
    ensures var th := s.threads[t];
            var c := s.tables[th.held].vals[q];
            Next(s, Step(t)) ==
            if th.op.Find? then PutThread(s, t, th.(op := Find(th.op.key, c), pc := Done(c)))
            else if c != EMPTY then PutThread(s, t, th.(pc := Done(c)))
            else PutThread(SetVal(s, th.held, q, th.op.value), t, th.(pc := Done(th.op.value)))
                   .(committed := if th.op.value == EMPTY then s.committed else s.committed[th.op.key := th.op.value])
  {
  }

  /** Only thread t is elsewhere. */
  predicate OnlyThread(s: State, s': State, t: nat) {
    t < |s.threads| == |s'.threads| && s' == PutThread(s, t, s'.threads[t])
  }

  lemma OneStepOf(s: State, t: nat, n: nat)
    ensures n > 0 && Moves(s, t) ==> Alone(s, t, n) == Alone(Next(s, Step(t)), t, n - 1)
  {
  }

  /** The end of a find. */
  lemma FindEnds(s: State, t: nat, j: nat, n: nat)
    requires Searched(s, t, j) && s.threads[t].op.Find? && n >= 2 && s.threads[t].op.key != EMPTY
    requires NoMarks(s.tables[s.threads[t].held])
    ensures var th, s' := s.threads[t], Alone(s, t, n);
            var tb := s.tables[th.held];
            && OnlyThread(s, s', t)
            && s'.threads[t].pc == Done(if j < Limit(tb.Size()) && tb.keys[Pos(th.op.key, j, tb.Size())] == th.op.key
                                        then tb.vals[Pos(th.op.key, j, tb.Size())] else th.op.value)
  {
    var th := s.threads[t];
    var tb := s.tables[th.held];
    var q := Pos(th.op.key, j, tb.Size());
    hide Pos, Limit, Alone, Next, Enabled, Stops;
    OneStepOf(s, t, n);
    if j < Limit(tb.Size()) && tb.keys[q] == th.op.key {
      SearchHits(s, t, j);
      var s1, a := Next(s, Step(t)), th.(pc := Touch(q));
      PutTwice(s, t, a, a);
      Touches(s1, t, q);
      OneStep(s1, t, n - 1);
      var c := tb.vals[q];
      var b := a.(op := Find(th.op.key, c), pc := Done(c));
      PutTwice(s, t, a, b);
      PutTwice(s, t, b, b);
      Stays(PutThread(s, t, b), t, n - 2);
    } else {
      assert j < Limit(tb.Size()) ==> tb.keys[q] == EMPTY;
      SearchFails(s, t, j);
      var b := NotFound(th);
      PutTwice(s, t, b, b);
      Stays(PutThread(s, t, b), t, n - 1);
    }
  }

  /** Where the search of a call ends. */
  lemma Ends(s: State, t: nat, op: Op) returns (j: nat, q: nat)
    requires Enabled(s, Start(t, op)) && IsTable(s, s.current)
    ensures var tb := s.tables[s.current];
            op.key > 0 && tb.Shape() && j == Search(tb, op.key, 0) && q == Pos(op.key, j, tb.Size()) && j <= |tb.keys|
            && q < |tb.keys| == |tb.vals| && Limit(tb.Size()) <= |tb.keys| && op.key != EMPTY
    ensures s.current >= 0 && t < |s.threads| && s.current < |s.tables|
  {
    hide Pos, Search;
    var tb := s.tables[s.current];
    j := Search(tb, op.key, 0);
    q := Pos(op.key, j, tb.Size());
  }

  lemma CalledIs(s: State, t: nat, op: Op, j: nat)
    requires Enabled(s, Start(t, op)) && s.current != NULL && IsTable(s, s.current)
    requires j == Search(s.tables[s.current], op.key, 0)
    ensures var s1 := PutThread(s, t, Called(s, t, op).(pc := Probe(j)));
            && Searched(s1, t, j) && s1.threads[t].op == op && s1.tables == s.tables && s1.threads[t].held == s.current
  {
    hide Pos, Search;
  }

  /** find returns the value of the key; a key that has a slot and no value is read as the empty value. */
  lemma FindAlone(s: State, t: nat, k: int, d: int, n: nat)
    requires Inv(s) && Enabled(s, Start(t, Find(k, d))) && s.current != NULL
    requires IsTable(s, s.current) && n >= |s.tables[s.current].keys| + 5
    ensures var s' := Alone(Next(s, Start(t, Find(k, d))), t, n);
            && OnlyThread(s, s', t)
            && s'.threads[t].pc == Done(if k in s.committed then s.committed[k]
                                        else if HasKey(s.tables[s.current], k) then EMPTY else d)
  {
    hide *;
    var op := Find(k, d);
    var j, q := Ends(s, t, op);
    var tb := s.tables[s.current];
    SlotFacts(s, k, j, q);
    CalledProbes(s, t, op, n);
    CalledIs(s, t, op, j);
    var a := Called(s, t, op).(pc := Probe(j));
    FindEnds(PutThread(s, t, a), t, j, n - 3 - j);
    OnlyThreads(s, t, a, Alone(Next(s, Start(t, op)), t, n));
  }

  lemma OnlyThreads(s: State, t: nat, a: Thread, s': State)
    requires t < |s.threads| && OnlyThread(PutThread(s, t, a), s', t)
    ensures OnlyThread(s, s', t)
  {
    PutTwice(s, t, a, s'.threads[t]);
  }

  /** Slot p of table id now holds k with value v, which is committed if it is one. */
  predicate Stored(s: State, s': State, t: nat, id: int, p: nat, k: int, v: int) {
    && t < |s.threads| == |s'.threads| && IsTable(s, id) && p < |s.tables[id].keys|
    && var tb := s.tables[id];
       s' == PutThread(s, t, s'.threads[t])
               .(tables := s.tables[id := tb.(keys := tb.keys[p := k], vals := tb.vals[p := v])],
                 committed := if v == EMPTY then s.committed else s.committed[k := v])
  }

  /** The slot of the key has no value yet, or is being claimed. */
  lemma InsertStores(s: State, t: nat, q: nat, n: nat)
    requires !s.failed && t < |s.threads| && s.threads[t].pc == Touch(q) && IsTable(s, s.threads[t].held) && n >= 1
    requires s.threads[t].op.Insert? && q < |s.tables[s.threads[t].held].keys|
    requires s.tables[s.threads[t].held].vals[q] == EMPTY && Owns(s.tables[s.threads[t].held], s.threads[t].op.key, q)
    ensures var th, s' := s.threads[t], Alone(s, t, n);
            && Stored(s, s', t, th.held, q, th.op.key, th.op.value) && s'.threads[t].pc == Done(th.op.value)
  {
    hide Alone, Next, Enabled;
    OneStepOf(s, t, n);
    Touches(s, t, q);
    var s1 := Next(s, Step(t));
    Stays(s1, t, n - 1);
    var th := s.threads[t];
    var tb := s.tables[th.held];
    assert tb.keys[q := th.op.key] == tb.keys;
  }

  lemma InsertHits(s: State, t: nat, j: nat, n: nat)
    requires Searched(s, t, j) && s.threads[t].op.Insert? && n >= 2 && s.threads[t].op.key != EMPTY
    requires NoMarks(s.tables[s.threads[t].held]) && j < Limit(s.tables[s.threads[t].held].Size())
    requires var th := s.threads[t]; var tb := s.tables[th.held]; tb.keys[Pos(th.op.key, j, tb.Size())] == th.op.key
    ensures var th, s' := s.threads[t], Alone(s, t, n);
            var q := Pos(th.op.key, j, s.tables[th.held].Size());
            var c := s.tables[th.held].vals[q];
            if c == EMPTY then
              Stored(s, s', t, th.held, q, th.op.key, th.op.value) && s'.threads[t].pc == Done(th.op.value)
            else OnlyThread(s, s', t) && s'.threads[t].pc == Done(c)
  {
    var th := s.threads[t];
    var q := Pos(th.op.key, j, s.tables[th.held].Size());
    assert Owns(s.tables[th.held], th.op.key, q);
    hide Alone, Enabled, Limit, Next, Owns, Pos, PutThread, SetVal, Table.Shape, Table.Size, Stops, Stored;
    OneStepOf(s, t, n);
    SearchHits(s, t, j);
    var s1, a := Next(s, Step(t)), th.(pc := Touch(q));
    PutTwice(s, t, a, a);
    var c := s.tables[th.held].vals[q];
    PutThreadIs(s, t, a);
    if c == EMPTY {
      InsertStores(s1, t, q, n - 1);
      StoredThread(s, t, a, Alone(s, t, n), th.held, q, th.op.key, th.op.value);
    } else {
      Touches(s1, t, q);
      OneStep(s1, t, n - 1);
      var b := a.(pc := Done(c));
      PutTwice(s, t, a, b);
      PutTwice(s, t, b, b);
      PutThreadIs(s, t, b);
      Stays(PutThread(s, t, b), t, n - 2);
    }
  }

  lemma PutThreadIs(s: State, t: nat, a: Thread)
    requires t < |s.threads|
    ensures var s' := PutThread(s, t, a);
            s'.tables == s.tables && s'.failed == s.failed && |s'.threads| == |s.threads| && s'.threads[t] == a
  {
  }

  lemma InsertClaims(s: State, t: nat, j: nat, n: nat)
    requires Searched(s, t, j) && s.threads[t].op.Insert? && n >= 3
    requires j < Limit(s.tables[s.threads[t].held].Size())
    requires var th := s.threads[t]; var tb := s.tables[th.held];
             var q := Pos(th.op.key, j, tb.Size());
             tb.keys[q] == EMPTY && tb.vals[q] == EMPTY
    ensures var th, s' := s.threads[t], Alone(s, t, n);
            var q := Pos(th.op.key, j, s.tables[th.held].Size());
            Stored(s, s', t, th.held, q, th.op.key, th.op.value) && s'.threads[t].pc == Done(th.op.value)
  {
    var th := s.threads[t];
    var q := Pos(th.op.key, j, s.tables[th.held].Size());
    hide Alone, Enabled, Limit, Next, Owns, Pos, PutThread, SetKey, Table.Shape, Table.Size, Stops, Stored;
    OneStepOf(s, t, n);
    SearchClaims(s, t, j);
    var s1 := Next(s, Step(t));
    OneStep(s1, t, n - 1);
    var s2 := Next(s1, Step(t));
    ClaimedIs(s, t, q);
    InsertStores(s2, t, q, n - 2);
    StoredOver(s, s2, Alone(s, t, n), t, q);
  }

  lemma ClaimedIs(s: State, t: nat, q: nat)
    requires t < |s.threads| && IsTable(s, s.threads[t].held) && q < |s.tables[s.threads[t].held].keys|
    ensures var th := s.threads[t];
            var s2 := PutThread(SetKey(s, th.held, q, th.op.key), t, th.(pc := Touch(q)));
            && s2.threads[t] == th.(pc := Touch(q)) && IsTable(s2, th.held) && s2.failed == s.failed
            && s2.tables[th.held].vals == s.tables[th.held].vals && Owns(s2.tables[th.held], th.op.key, q)
            && |s2.tables[th.held].keys| == |s.tables[th.held].keys|
  {
  }

  lemma StoredOver(s: State, s2: State, s': State, t: nat, q: nat)
    requires t < |s.threads| && IsTable(s, s.threads[t].held) && q < |s.tables[s.threads[t].held].keys|
    requires var th := s.threads[t]; s2 == PutThread(SetKey(s, th.held, q, th.op.key), t, th.(pc := Touch(q)))
    requires var th := s.threads[t]; Stored(s2, s', t, th.held, q, th.op.key, th.op.value)
    ensures var th := s.threads[t]; Stored(s, s', t, th.held, q, th.op.key, th.op.value)
  {
    var th := s.threads[t];
    var tb := s.tables[th.held];
    assert s.tables[th.held := tb.(keys := tb.keys[q := th.op.key])]
             [th.held := tb.(keys := tb.keys[q := th.op.key], vals := tb.vals[q := th.op.value])]
           == s.tables[th.held := tb.(keys := tb.keys[q := th.op.key], vals := tb.vals[q := th.op.value])];
    assert tb.keys[q := th.op.key][q := th.op.key] == tb.keys[q := th.op.key];
    PutTwice(s, t, th.(pc := Touch(q)), s'.threads[t]);
  }

  /**
    insert returns the value of a key that has one and changes nothing. Otherwise it stores its own value, in the
    slot of the key or in a free one.
  */
  lemma InsertAlone(s: State, t: nat, k: int, v: int, n: nat)
    requires Inv(s) && Enabled(s, Start(t, Insert(k, v))) && s.current != NULL
    requires IsTable(s, s.current) && n >= |s.tables[s.current].keys| + 6
    requires HasKey(s.tables[s.current], k) || HasRoom(s.tables[s.current], k)
    ensures var s' := Alone(Next(s, Start(t, Insert(k, v))), t, n);
            if k in s.committed then OnlyThread(s, s', t) && s'.threads[t].pc == Done(s.committed[k])
            else
              && t < |s'.threads| && s'.threads[t].pc == Done(v)
              && exists p: nat :: Stored(s, s', t, s.current, p, k, v)
                    && (Owns(s.tables[s.current], k, p)
                        || (!HasKey(s.tables[s.current], k) && Owns(s.tables[s.current], EMPTY, p)))
  {
    hide *;
    var op := Insert(k, v);
    var j, q := Ends(s, t, op);
    var tb := s.tables[s.current];
    SlotFacts(s, k, j, q);
    CalledProbes(s, t, op, n);
    CalledIs(s, t, op, j);
    var a := Called(s, t, op).(pc := Probe(j));
    var s1, s' := PutThread(s, t, a), Alone(Next(s, Start(t, op)), t, n);
    if tb.keys[q] == k {
      InsertHits(s1, t, j, n - 3 - j);
      if k in s.committed {
        OnlyThreads(s, t, a, s');
      } else {
        StoredThread(s, t, a, s', s.current, q, k, v);
      }
    } else {
      InsertClaims(s1, t, j, n - 3 - j);
      StoredThread(s, t, a, s', s.current, q, k, v);
    }
  }

  lemma StoredThread(s: State, t: nat, a: Thread, s': State, id: int, p: nat, k: int, v: int)
    requires t < |s.threads| && Stored(PutThread(s, t, a), s', t, id, p, k, v)
    ensures Stored(s, s', t, id, p, k, v)
  {
    PutTwice(s, t, a, s'.threads[t]);
  }

  /** An insert that finds no slot goes on to a migration of the table it has searched. */
  lemma InsertGivesUp(s: State, t: nat, k: int, v: int)
    requires Inv(s) && Enabled(s, Start(t, Insert(k, v))) && s.current != NULL
    requires IsTable(s, s.current) && !HasKey(s.tables[s.current], k) && !HasRoom(s.tables[s.current], k)
    ensures var s' := Alone(Next(s, Start(t, Insert(k, v))), t, Limit(s.tables[s.current].Size()) + 4);
            OnlyThread(s, s', t) && s'.threads[t].pc == Enter(s.current)
  {
    var tb, op := s.tables[s.current], Insert(k, v);
    var j := Limit(tb.Size());
    hide Alone, Called, Good, HasKey, HasRoom, Inv, IsTable, Limit, Moves, Next, NoMarks, Owns, Pos, PutThread,
         Search, Searched, Table.Size;
    CurrentFacts(s, k);
    FindsKey(tb, k);
    CalledProbes(s, t, op, j + 4);
    CalledIs(s, t, op, j);
    var a := Called(s, t, op).(pc := Probe(j));
    var s1 := PutThread(s, t, a);
    SearchFails(s1, t, j);
    OneStep(s1, t, 1);
    var b := NotFound(s1.threads[t]);
    PutTwice(s1, t, b, b);
    PutTwice(s, t, a, b);
    NoStep(PutThread(s, t, b), t);
  }

  lemma NoStep(s: State, t: nat)
    ensures Alone(s, t, 0) == s
  {
  }

  // ---------------------------------------------------------------------------------------
  // The end of a migration
  // ---------------------------------------------------------------------------------------

  lemma {:induction false} StepsAdd(s: State, t: nat, j: nat, k: nat)
    ensures Alone(Alone(s, t, j), t, k) == Alone(s, t, j + k)
    decreases j
  {
    hide Enabled, Next;
    if j > 0 && Moves(s, t) {
      StepsAdd(Next(s, Step(t)), t, j - 1, k);
    }
  }

  /** is_protected. */
  predicate Guarded(threads: seq<Thread>, id: int) {
    exists r :: 0 <= r < |threads| && threads[r].hazard == id
  }

  function Spared(threads: seq<Thread>, trash: seq<int>): seq<int> {
    if trash == [] then []
    else (if Guarded(threads, trash[0]) then [trash[0]] else []) + Spared(threads, trash[1..])
  }

  /** The tables of `trash` that nobody guards are deleted, and no other. */
  predicate Swept(tables: seq<Table>, tables': seq<Table>, threads: seq<Thread>, trash: seq<int>) {
    && |tables'| == |tables|
    && forall id :: 0 <= id < |tables| ==>
         tables'[id] == tables[id].(deleted := tables[id].deleted || (id in trash && !Guarded(threads, id)))
  }

  predicate Sweeping(s: State, t: nat, a: nat, h: nat) {
    && !s.failed && t < |s.threads| && s.threads[t].pc == Scan(a, h) && a <= |s.threads[t].trash|
    && h <= |s.threads|
    && forall x :: 0 <= x < |s.threads[t].trash| ==> IsTable(s, s.threads[t].trash[x])
  }

  /** One hazard pointer is looked at. */
  lemma LooksAt(s: State, t: nat, a: nat, h: nat)
    requires Sweeping(s, t, a, h) && a < |s.threads[t].trash| && h < |s.threads|
    ensures Moves(s, t)
    ensures var th := s.threads[t];
            Next(s, Step(t)) ==
            PutThread(s, t, th.(pc := if s.threads[h].hazard == th.trash[a] then Scan(a + 1, 0) else Scan(a, h + 1)))
    ensures if s.threads[h].hazard == s.threads[t].trash[a] then Sweeping(Next(s, Step(t)), t, a + 1, 0)
            else Sweeping(Next(s, Step(t)), t, a, h + 1)
  {
  }

  /** All hazard pointers are other ones. */
  lemma Deletes(s: State, t: nat, a: nat)
    requires Sweeping(s, t, a, |s.threads|) && a < |s.threads[t].trash|
    ensures Moves(s, t)
    ensures var th := s.threads[t];
            var id := th.trash[a];
            Next(s, Step(t)) ==
            PutThread(s, t, th.(pc := Scan(a, 0), trash := th.trash[..a] + th.trash[a + 1..]))
              .(tables := s.tables[id := s.tables[id].(deleted := true)])
    ensures Sweeping(Next(s, Step(t)), t, a, 0)
  {
  }

  /** An entry is spared or deleted. */
  lemma {:induction false} Entry(s: State, t: nat, a: nat, h: nat) returns (n: nat)
    requires Sweeping(s, t, a, h) && a < |s.threads[t].trash|
    requires forall r :: 0 <= r < h ==> s.threads[r].hazard != s.threads[t].trash[a]
    ensures var th := s.threads[t];
            var id := th.trash[a];
            if Guarded(s.threads, id) then
              Alone(s, t, n) == PutThread(s, t, th.(pc := Scan(a + 1, 0))) && Sweeping(Alone(s, t, n), t, a + 1, 0)
            else
              && Alone(s, t, n) == PutThread(s, t, th.(pc := Scan(a, 0), trash := th.trash[..a] + th.trash[a + 1..]))
                                     .(tables := s.tables[id := s.tables[id].(deleted := true)])
              && Sweeping(Alone(s, t, n), t, a, 0)
    decreases |s.threads| - h
  {
    hide Alone, Enabled, IsTable, Next, One, PutThread;
    assert t < |s.threads| && h <= |s.threads|;
    if h == |s.threads| {
      n := 1;
      Deletes(s, t, a);
      OneStep(s, t, 1);
      Ends0(Next(s, Step(t)), t);
      assert !Guarded(s.threads, s.threads[t].trash[a]);
    } else {
      LooksAt(s, t, a, h);
      var s1 := Next(s, Step(t));
      if s.threads[h].hazard == s.threads[t].trash[a] {
        n := 1;
        OneStep(s, t, 1);
        Ends0(s1, t);
        assert Guarded(s.threads, s.threads[t].trash[a]);
      } else {
        var b := s.threads[t].(pc := Scan(a, h + 1));
        PutThreadIs(s, t, b);
        SameHazards(s, t, b);
        var m := Entry(s1, t, a, h + 1);
        n := m + 1;
        OneStep(s, t, n);
        PutTwice(s, t, b, b.(pc := Scan(a + 1, 0)));
        PutTwice(s, t, b, b.(pc := Scan(a, 0), trash := b.trash[..a] + b.trash[a + 1..]));
      }
    }
  }

  lemma Ends0(s: State, t: nat)
    ensures Alone(s, t, 0) == s
  {
  }

  lemma SameHazards(s: State, t: nat, b: Thread)
    requires t < |s.threads| && b.hazard == s.threads[t].hazard
    ensures forall r :: 0 <= r < |s.threads| ==> PutThread(s, t, b).threads[r].hazard == s.threads[r].hazard
    ensures forall id :: Guarded(PutThread(s, t, b).threads, id) == Guarded(s.threads, id)
  {
    var s' := PutThread(s, t, b);
    assert forall r :: 0 <= r < |s.threads| ==> s'.threads[r].hazard == s.threads[r].hazard;
  }

  /** What the scan has made of the entries from a on. */
  predicate Cleaned(s: State, s': State, t: nat, a: nat) {
    && t < |s.threads| && var th := s.threads[t];
    && a <= |th.trash|
    && s' == PutThread(s, t, th.(pc := Close, trash := th.trash[..a] + Spared(s.threads, th.trash[a..])))
               .(tables := s'.tables)
    && Swept(s.tables, s'.tables, s.threads, th.trash[a..])
  }

  lemma CleanedSpared(s: State, s1: State, s': State, t: nat, a: nat)
    requires t < |s.threads| && a < |s.threads[t].trash| && Guarded(s.threads, s.threads[t].trash[a])
    requires s1 == PutThread(s, t, s.threads[t].(pc := Scan(a + 1, 0))) && Cleaned(s1, s', t, a + 1)
    ensures Cleaned(s, s', t, a)
  {
    var th := s.threads[t];
    var b := th.(pc := Scan(a + 1, 0));
    var x, rest := th.trash[a], th.trash[a + 1..];
    assert th.trash[a..] == [x] + rest && th.trash[..a + 1] == th.trash[..a] + [x];
    SameHazards(s, t, b);
    SameSpared(s.threads, s1.threads, rest);
    SparedFirst(s.threads, x, rest);
    PutTwice(s, t, b, s'.threads[t]);
    assert th.trash[..a] + ([x] + Spared(s.threads, rest)) == th.trash[..a + 1] + Spared(s.threads, rest);
  }

  lemma SparedFirst(threads: seq<Thread>, x: int, rest: seq<int>)
    ensures Spared(threads, [x] + rest) == (if Guarded(threads, x) then [x] else []) + Spared(threads, rest)
  {
    assert ([x] + rest)[1..] == rest;
  }

  lemma {:induction false} SameSpared(threads: seq<Thread>, threads': seq<Thread>, trash: seq<int>)
    requires forall id :: Guarded(threads', id) == Guarded(threads, id)
    ensures Spared(threads', trash) == Spared(threads, trash)
  {
    if trash != [] {
      SameSpared(threads, threads', trash[1..]);
    }
  }

  lemma CleanedDeleted(s: State, s1: State, s': State, t: nat, a: nat)
    requires t < |s.threads| && a < |s.threads[t].trash| && !Guarded(s.threads, s.threads[t].trash[a])
    requires IsTable(s, s.threads[t].trash[a])
    requires var th := s.threads[t];
             var id := th.trash[a];
             s1 == PutThread(s, t, th.(pc := Scan(a, 0), trash := th.trash[..a] + th.trash[a + 1..]))
                     .(tables := s.tables[id := s.tables[id].(deleted := true)])
    requires Cleaned(s1, s', t, a)
    ensures Cleaned(s, s', t, a)
  {
    var th := s.threads[t];
    var b := th.(pc := Scan(a, 0), trash := th.trash[..a] + th.trash[a + 1..]);
    var x, rest := th.trash[a], th.trash[a + 1..];
    assert th.trash[a..] == [x] + rest;
    assert b.trash[a..] == rest && b.trash[..a] == th.trash[..a];
    SameHazards(s, t, b);
    SameSpared(s.threads, s1.threads, rest);
    SparedFirst(s.threads, x, rest);
    PutTwice(s, t, b, s'.threads[t]);
    hide Spared, Guarded;
    assert [] + Spared(s.threads, rest) == Spared(s.threads, rest);
    assert Swept(s.tables, s'.tables, s.threads, th.trash[a..]);
  }

  /** The scan deletes exactly the tables that no hazard pointer guards, and keeps the others in their order. */
  lemma {:induction false} Sweep(s: State, t: nat, a: nat) returns (n: nat)
    requires Sweeping(s, t, a, 0)
    ensures Cleaned(s, Alone(s, t, n), t, a)
    decreases |s.threads[t].trash| - a
  {
    hide Alone, Cleaned, Guarded, IsTable, Moves, Next, One, PutThread;
    if a == |s.threads[t].trash| {
      n := 1;
      SweepEnds(s, t, a);
      OneStep(s, t, 1);
      Ends0(Next(s, Step(t)), t);
    } else {
      var m := Entry(s, t, a, 0);
      var s1 := Alone(s, t, m);
      var th := s.threads[t];
      if Guarded(s.threads, th.trash[a]) {
        PutThreadIs(s, t, th.(pc := Scan(a + 1, 0)));
        var k := Sweep(s1, t, a + 1);
        n := m + k;
        StepsAdd(s, t, m, k);
        CleanedSpared(s, s1, Alone(s, t, n), t, a);
      } else {
        PutThreadIs(s, t, th.(pc := Scan(a, 0), trash := th.trash[..a] + th.trash[a + 1..]));
        var k := Sweep(s1, t, a);
        n := m + k;
        StepsAdd(s, t, m, k);
        CleanedDeleted(s, s1, Alone(s, t, n), t, a);
      }
    }
  }

  lemma SweepEnds(s: State, t: nat, a: nat)
    requires Sweeping(s, t, a, 0) && a == |s.threads[t].trash|
    ensures Moves(s, t) && Cleaned(s, Next(s, Step(t)), t, a)
  {
    var th := s.threads[t];
    assert th.trash[a..] == [] && th.trash[..a] + [] == th.trash;
  }

  /** All that the last thread of a migration does, up to where it waits with the others. */
  predicate Finished(s: State, s': State, t: nat) {
    && t < |s.threads| && var th := s.threads[t];
    && s' == PutThread(s, t, th.(pc := Wait, trash := Spared(s.threads, th.trash + [s.from])))
               .(tables := s'.tables, current := s.dest, from := NULL, dest := NULL, cnt := 0, gen := s.gen + 1)
    && Swept(s.tables, s'.tables, s.threads, th.trash + [s.from])
  }

  lemma LeaveStarts(s: State, t: nat)
    requires Inv(s) && t < |s.threads| && s.threads[t].pc.Leave? && s.mutex == NULL && s.cnt == 1
    ensures Moves(s, t) && Sweeping(Next(s, Step(t)), t, 0, 0)
    ensures var th := s.threads[t];
            Next(s, Step(t)) == PutThread(s, t, th.(pc := Scan(0, 0), trash := th.trash + [s.from]))
                                  .(cnt := 0, current := s.dest, mutex := t)
  {
    hide ValsOk, OpsOk, CarriesOk, MarksOk, LocatedOk, TablesOk;
    MigratorRunning(s, t);
    var th := s.threads[t];
    assert ThreadHazardOk(s, th);
  }

  lemma ClosesMigration(s: State, t: nat)
    requires !s.failed && t < |s.threads| && s.threads[t].pc.Close?
    ensures Moves(s, t)
    ensures Next(s, Step(t)) == PutThread(s, t, s.threads[t].(pc := Wait))
                                  .(from := NULL, dest := NULL, gen := s.gen + 1, mutex := NULL)
  {
  }

  lemma CleanedIs(s: State, s': State, t: nat)
    requires Cleaned(s, s', t, 0)
    ensures s'.failed == s.failed && t < |s'.threads| && s'.threads[t].pc == Close
  {
  }

  lemma FinishedIs(s: State, s1: State, s2: State, s': State, t: nat)
    requires t < |s.threads| && Cleaned(s1, s2, t, 0) && t < |s2.threads|
    requires s1 == PutThread(s, t, s.threads[t].(pc := Scan(0, 0), trash := s.threads[t].trash + [s.from]))
                     .(cnt := 0, current := s.dest, mutex := t)
    requires s' == PutThread(s2, t, s2.threads[t].(pc := Wait))
                     .(from := NULL, dest := NULL, gen := s2.gen + 1, mutex := NULL)
    requires s.mutex == NULL
    ensures Finished(s, s', t)
  {
    var th := s.threads[t];
    var trash := th.trash + [s.from];
    var b := th.(pc := Scan(0, 0), trash := trash);
    assert trash[0..] == trash && trash[..0] == [];
    SameHazards(s, t, b);
    SameSpared(s.threads, s1.threads, trash);
    assert [] + Spared(s.threads, trash) == Spared(s.threads, trash);
    hide Spared, Guarded;
    var c := b.(pc := Close, trash := Spared(s.threads, trash));
    PutTwice(s, t, b, c);
    PutTwice(s, t, c, c.(pc := Wait));
    assert s2.threads[t] == c;
    assert s'.threads == s.threads[t := c.(pc := Wait)];
  }

  /**
    The last thread that leaves a migration puts the new table to use and deletes every retired table that nobody
    guards, the old one among them; what is guarded stays for the next time.
  */
  lemma FinishAlone(s: State, t: nat) returns (n: nat)
    requires Inv(s) && t < |s.threads| && s.threads[t].pc.Leave? && s.mutex == NULL && s.cnt == 1
    ensures Finished(s, Alone(s, t, n), t)
  {
    hide Alone, Cleaned, Finished, Inv, IsTable, Next, PutThread, Table.Size, Sweeping;
    LeaveStarts(s, t);
    assert !s.failed;
    var th := s.threads[t];
    var b := th.(pc := Scan(0, 0), trash := th.trash + [s.from]);
    var s1 := Next(s, Step(t));
    PutThreadIs(s, t, b);
    var k := Sweep(s1, t, 0);
    var s2 := Alone(s1, t, k);
    OneStep(s, t, k + 1);
    CleanedIs(s1, s2, t);
    ClosesMigration(s2, t);
    OneStep(s2, t, 1);
    Ends0(Next(s2, Step(t)), t);
    StepsAdd(s, t, k + 1, 1);
    n := k + 2;
    FinishedIs(s, s1, s2, Alone(s, t, n), t);
  }
}
