/**
  ConcurrentHashMap (td/utils/ConcurrentHashTable.h) with one thread that inserts the value 7 for one key after another:
  what an insert, a migration and a migration that overflows do to the keys of the current table.
*/
module ConcurrentHashMapAlone {
  import opened ConcurrentHashMap
  import opened ConcurrentHashMapRuns

  /** Each key that is there has the value 7. */
  function Sevens(keys: seq<int>): (r: seq<int>)
    ensures |r| == |keys| && forall p :: 0 <= p < |keys| ==> r[p] == if keys[p] == EMPTY then EMPTY else 7
  {
    seq(|keys|, p requires 0 <= p < |keys| => if keys[p] == EMPTY then EMPTY else 7)
  }

  predicate Filled(s: State, id: int, keys: seq<int>) {
    0 <= id < |s.tables| && s.tables[id].keys == keys && s.tables[id].vals == Sevens(keys) && |keys| > 0
  }

  /** No migration is on, and the current table has these keys. */
  predicate Steady(s: State, keys: seq<int>) {
    && !s.failed && |s.threads| == 1 && s.from == NULL && s.dest == NULL && s.mutex == NULL && s.cnt == 0
    && Filled(s, s.current, keys)
  }

  ghost predicate Calm(s: State, keys: seq<int>) {
    Reachable(1, s, None) && Steady(s, keys) && s.threads[0].pc.Idle?
  }

  /** An insert of `k` is about to make probe number `i` in the current table. */
  ghost predicate Asking(s: State, keys: seq<int>, k: int, i: nat) {
    && Reachable(1, s, None) && Steady(s, keys) && k > 0
    && var th := s.threads[0]; th.pc == Probe(i) && th.op == Insert(k, 7) && th.held == s.current
  }

  /** The first `i` probes for `k` would all meet other keys. */
  predicate Taken(keys: seq<int>, k: int, i: nat)
    requires |keys| > 0
  {
    forall j: nat :: j < i ==> keys[Pos(k, j, |keys|)] != EMPTY && keys[Pos(k, j, |keys|)] != k
  }

  // ---------------------------------------------------------------------------------------
  // Inserts
  // ---------------------------------------------------------------------------------------

  lemma Asks(s: State, keys: seq<int>, k: int) returns (s': State)
    requires Calm(s, keys) && k > 0
    ensures Asking(s', keys, k, 0)
  {
    var op := Insert(k, 7);
    var s1 := Next(s, Start(0, op));
    Extend(1, s, None, Start(0, op));
    Protects(1, s1, None, 0);
    s' := PutThread(s1, 0, s1.threads[0].(pc := Probe(0), held := s1.current, hazard := s1.current));
  }

  lemma {:induction false} ProbesPast(s: State, keys: seq<int>, k: int, i: nat) returns (s': State)
    requires Asking(s, keys, k, 0) && i <= Limit(|keys|) && Taken(keys, k, i)
    ensures Asking(s', keys, k, i)
  {
    s' := s;
    if i > 0 {
      s' := ProbesPast(s, keys, k, i - 1);
      s' := ProbesOn(s', keys, k, i - 1);
    }
  }

  lemma ProbesOn(s: State, keys: seq<int>, k: int, i: nat) returns (s': State)
    requires Asking(s, keys, k, i) && i < Limit(|keys|)
    requires keys[Pos(k, i, |keys|)] != EMPTY && keys[Pos(k, i, |keys|)] != k
    ensures Asking(s', keys, k, i + 1)
  {
    hide Pos, Limit, Reachable;
    assert Enabled(s, Step(0));
    Extend(1, s, None, Step(0));
    s' := Next(s, Step(0));
    assert s' == PutThread(s, 0, s.threads[0].(pc := Probe(i + 1)));
  }

  /** The probe finds a free slot: the key is put there. */
  lemma Lands(s: State, keys: seq<int>, k: int, i: nat) returns (s': State)
    requires Asking(s, keys, k, i) && i < Limit(|keys|) && keys[Pos(k, i, |keys|)] == EMPTY
    ensures Calm(s', keys[Pos(k, i, |keys|) := k])
  {
    hide Pos, Limit, Reachable;
    Extend(1, s, None, Step(0));
    var s1 := PutThread(s, 0, s.threads[0].(pc := Claim(i)));
    assert Next(s, Step(0)) == s1;
    Extend(1, s1, None, Step(0));
    s' := Fills(Next(s1, Step(0)), keys, k, Pos(k, i, |keys|));
  }

  lemma Fills(s: State, keys: seq<int>, k: int, q: nat) returns (s': State)
    requires Reachable(1, s, None) && q < |keys| && keys[q] == EMPTY && k > 0
    requires !s.failed && |s.threads| == 1 && s.from == NULL && s.dest == NULL && s.mutex == NULL && s.cnt == 0
    requires 0 <= s.current < |s.tables| && s.tables[s.current].keys == keys[q := k]
      && s.tables[s.current].vals == Sevens(keys)
    requires var th := s.threads[0]; th.pc == Touch(q) && th.op == Insert(k, 7) && th.held == s.current
    ensures Calm(s', keys[q := k])
  {
    hide Reachable;
    Extend(1, s, None, Step(0));
    var s1 := Next(s, Step(0));
    assert Sevens(keys)[q := 7] == Sevens(keys[q := k]);
    assert s1.threads[0].pc == Done(7);
    Extend(1, s1, None, Step(0));
    s' := Next(s1, Step(0));
  }

  lemma Inserts(s: State, keys: seq<int>, k: int, i: nat) returns (s': State)
    requires Calm(s, keys) && k > 0 && i < Limit(|keys|) && Taken(keys, k, i) && keys[Pos(k, i, |keys|)] == EMPTY
    ensures Calm(s', keys[Pos(k, i, |keys|) := k])
  {
    hide *;
    s' := Asks(s, keys, k);
    s' := ProbesPast(s', keys, k, i);
    s' := Lands(s', keys, k, i);
  }

  // ---------------------------------------------------------------------------------------
  // Migrations
  // ---------------------------------------------------------------------------------------

  /** A migration that an insert of `k` has started; the slots from `p` on still have their values. */
  predicate Midway(s: State, k: int, prev: seq<int>, keys: seq<int>, p: nat) {
    && !s.failed && |s.threads| == 1 && s.current == NULL && s.mutex == NULL && s.cnt == 1 && s.from != s.dest
    && s.gen == s.threads[0].gen && s.threads[0].op == Insert(k, 7) && k > 0
    && Filled(s, s.dest, keys) && |keys| == 2 * |prev| > 0
    && 0 <= s.from < |s.tables| && s.tables[s.from].keys == prev && |s.tables[s.from].vals| == |prev|
    && forall x :: p <= x < |prev| ==> s.tables[s.from].vals[x] == Sevens(prev)[x]
  }

  function End(s: State, prev: seq<int>): int { Min(|s.claims| * CHUNK, |prev|) }

  /** The thread is about to move slot `p`, if there is one. */
  ghost predicate Moving(s: State, k: int, prev: seq<int>, keys: seq<int>, p: nat) {
    && Reachable(1, s, None) && Midway(s, k, prev, keys, p) && p <= End(s, prev)
    && s.threads[0].pc == if p < End(s, prev) then Exchange(p, End(s, prev)) else Create
  }

  /** The thread has taken the value out of slot `p` and is about to make probe number `i` in the new table. */
  ghost predicate Seeking(s: State, k: int, prev: seq<int>, keys: seq<int>, p: nat, i: nat) {
    && Reachable(1, s, None) && Midway(s, k, prev, keys, p + 1) && p < End(s, prev)
    && s.threads[0].pc == Seek(p, End(s, prev), 7, prev[p], i)
  }

  function Blank(n: nat): (r: seq<int>)
    ensures |r| == n && forall q :: 0 <= q < n ==> r[q] == EMPTY
  {
    seq(n, i => EMPTY)
  }

  /** An insert that finds no free slot starts a migration. */
  lemma GivesUp(s: State, keys: seq<int>, k: int) returns (s': State)
    requires Asking(s, keys, k, Limit(|keys|))
    ensures Moving(s', k, keys, Blank(2 * |keys|), 0)
  {
    hide Pos, Limit, Reachable;
    Extend(1, s, None, Step(0));
    var s1 := PutThread(s, 0, s.threads[0].(pc := Enter(s.current)));
    assert Next(s, Step(0)) == s1;
    Extend(1, s1, None, Step(0));
    s' := Next(s1, Step(0));
    assert Sevens(Blank(2 * |keys|)) == NewTable(2 * |keys|).vals;
    assert Blank(2 * |keys|) == NewTable(2 * |keys|).keys;
  }

  /** A task is taken. */
  lemma TakesTask(s: State, k: int, prev: seq<int>, keys: seq<int>, p: nat) returns (s': State)
    requires Moving(s, k, prev, keys, p) && p < |prev|
    ensures Moving(s', k, prev, keys, p) && p < End(s', prev)
  {
    hide Reachable;
    s' := s;
    if p == End(s, prev) {
      assert p == |s.claims| * CHUNK;
      Extend(1, s, None, Step(0));
      s' := Next(s, Step(0));
      assert |s'.claims| == |s.claims| + 1;
    }
  }

  lemma SkipsEmpty(s: State, k: int, prev: seq<int>, keys: seq<int>, p: nat) returns (s': State)
    requires Moving(s, k, prev, keys, p) && p < End(s, prev) && prev[p] == EMPTY
    ensures Moving(s', k, prev, keys, p + 1)
  {
    hide Reachable;
    Extend(1, s, None, Step(0));
    s' := Next(s, Step(0));
  }

  lemma Takes(s: State, k: int, prev: seq<int>, keys: seq<int>, p: nat) returns (s': State)
    requires Moving(s, k, prev, keys, p) && p < End(s, prev) && prev[p] != EMPTY
    ensures Seeking(s', k, prev, keys, p, 0)
  {
    hide Reachable;
    Extend(1, s, None, Step(0));
    var s1 := Next(s, Step(0));
    assert s1.threads[0].pc == ReadKey(p, End(s, prev), 7);
    Extend(1, s1, None, Step(0));
    s' := Next(s1, Step(0));
  }

  lemma {:induction false} SeeksPast(s: State, k: int, prev: seq<int>, keys: seq<int>, p: nat, i: nat)
    returns (s': State)
    requires Seeking(s, k, prev, keys, p, 0) && i <= Limit(|keys|) && p < |prev| && Taken(keys, prev[p], i)
    ensures Seeking(s', k, prev, keys, p, i)
  {
    s' := s;
    if i > 0 {
      s' := SeeksPast(s, k, prev, keys, p, i - 1);
      s' := SeeksOn(s', k, prev, keys, p, i - 1);
    }
  }

  lemma SeeksOn(s: State, k: int, prev: seq<int>, keys: seq<int>, p: nat, i: nat) returns (s': State)
    requires Seeking(s, k, prev, keys, p, i) && i < Limit(|keys|) && p < |prev|
    requires keys[Pos(prev[p], i, |keys|)] != EMPTY && keys[Pos(prev[p], i, |keys|)] != prev[p]
    ensures Seeking(s', k, prev, keys, p, i + 1)
  {
    hide Pos, Limit, Reachable;
    assert Enabled(s, Step(0));
    Extend(1, s, None, Step(0));
    s' := Next(s, Step(0));
    assert s' == PutThread(s, 0, s.threads[0].(pc := Seek(p, End(s, prev), 7, prev[p], i + 1)));
  }

  /** The slot is free: the key and its value are put there. */
  lemma Settles(s: State, k: int, prev: seq<int>, keys: seq<int>, p: nat) returns (s': State)
    requires Seeking(s, k, prev, keys, p, 0) && 0 < Limit(|keys|) && p < |prev| && prev[p] != EMPTY
    requires keys[Pos(prev[p], 0, |keys|)] == EMPTY
    ensures Moving(s', k, prev, keys[Pos(prev[p], 0, |keys|) := prev[p]], p + 1)
  {
    hide Pos, Limit, Reachable;
    var q := Pos(prev[p], 0, |keys|);
    Extend(1, s, None, Step(0));
    var s1 := PutThread(s, 0, s.threads[0].(pc := SeekClaim(p, End(s, prev), 7, prev[p], 0)));
    assert Next(s, Step(0)) == s1;
    Extend(1, s1, None, Step(0));
    var s2 := Next(s1, Step(0));
    assert s2.threads[0].pc == ConcurrentHashMap.Fill(p, End(s, prev), 7, prev[p], q);
    s' := Stores(s2, k, prev, keys, p, q);
  }

  lemma Stores(s: State, k: int, prev: seq<int>, keys: seq<int>, p: nat, q: nat) returns (s': State)
    requires Reachable(1, s, None) && q < |keys| && p < End(s, prev) && prev[p] != EMPTY && keys[q] == EMPTY
    requires !s.failed && |s.threads| == 1 && s.current == NULL && s.mutex == NULL && s.cnt == 1 && s.from != s.dest
    requires s.gen == s.threads[0].gen && s.threads[0].op == Insert(k, 7) && k > 0
    requires 0 <= s.dest < |s.tables| && s.tables[s.dest].keys == keys[q := prev[p]]
      && s.tables[s.dest].vals == Sevens(keys)
    requires 0 <= s.from < |s.tables| && s.tables[s.from].keys == prev && |s.tables[s.from].vals| == |prev|
      && |keys| == 2 * |prev|
    requires forall x :: p + 1 <= x < |prev| ==> s.tables[s.from].vals[x] == Sevens(prev)[x]
    requires s.threads[0].pc == ConcurrentHashMap.Fill(p, End(s, prev), 7, prev[p], q)
    ensures Moving(s', k, prev, keys[q := prev[p]], p + 1)
  {
    hide Reachable;
    Extend(1, s, None, Step(0));
    s' := Next(s, Step(0));
    assert Sevens(keys)[q := 7] == Sevens(keys[q := prev[p]]);
  }

  // What a migration makes of a table whose keys do not get into each other's way

  /** The new table after the first `p` slots: each key in the first slot it asks for. */
  function Spread(prev: seq<int>, p: nat): (r: seq<int>)
    requires p <= |prev| && |prev| > 0
    ensures |r| == 2 * |prev|
  {
    if p == 0 then Blank(2 * |prev|)
    else if prev[p - 1] == EMPTY then Spread(prev, p - 1)
    else Spread(prev, p - 1)[Pos(prev[p - 1], 0, 2 * |prev|) := prev[p - 1]]
  }

  function Home(k: int, size: nat): (q: nat)
    requires size > 0
    ensures q < size
  {
    Pos(k, 0, size)
  }

  /** The keys in the first `n` slots have different first choices in the new table. */
  predicate Apart(prev: seq<int>, n: nat)
    requires n <= |prev| && |prev| > 0
  {
    forall x, y ::
      0 <= x < y < n && prev[x] != EMPTY && prev[y] != EMPTY ==> Home(prev[x], 2 * |prev|) != Home(prev[y], 2 * |prev|)
  }

  ghost predicate From(prev: seq<int>, p: nat, q: nat, k: int)
    requires p <= |prev| && |prev| > 0
  {
    exists x :: 0 <= x < p && prev[x] == k && Home(prev[x], 2 * |prev|) == q
  }

  lemma {:induction false} SpreadIs(prev: seq<int>, p: nat)
    requires p <= |prev| && |prev| > 0 && Apart(prev, p)
    ensures forall x :: 0 <= x < p && prev[x] != EMPTY ==> Spread(prev, p)[Home(prev[x], 2 * |prev|)] == prev[x]
    ensures forall q :: 0 <= q < 2 * |prev| && Spread(prev, p)[q] != EMPTY ==> From(prev, p, q, Spread(prev, p)[q])
  {
    if p > 0 {
      SpreadIs(prev, p - 1);
      var r := Spread(prev, p - 1);
      forall q | 0 <= q < 2 * |prev| && Spread(prev, p)[q] != EMPTY ensures From(prev, p, q, Spread(prev, p)[q]) {
        if prev[p - 1] != EMPTY && q == Home(prev[p - 1], 2 * |prev|) {
          assert prev[p - 1] == Spread(prev, p)[q];
        } else {
          assert From(prev, p - 1, q, r[q]);
        }
      }
    }
  }

  /** A slot that no key asks for stays empty. */
  lemma SpreadEmpty(prev: seq<int>, p: nat, q: nat)
    requires p <= |prev| && |prev| > 0 && Apart(prev, p) && q < 2 * |prev|
    requires forall x :: 0 <= x < p && prev[x] != EMPTY ==> Home(prev[x], 2 * |prev|) != q
    ensures Spread(prev, p)[q] == EMPTY
  {
    hide Home, Spread;
    SpreadIs(prev, p);
    assert Spread(prev, p)[q] != EMPTY ==> From(prev, p, q, Spread(prev, p)[q]);
  }

  lemma HomeFree(prev: seq<int>, p: nat)
    requires p < |prev| && Apart(prev, p + 1) && prev[p] != EMPTY
    ensures Spread(prev, p)[Home(prev[p], 2 * |prev|)] == EMPTY
  {
    SpreadEmpty(prev, p, Home(prev[p], 2 * |prev|));
  }

  /** The migration gets past the first `p` slots. */
  lemma {:induction false} Moves(s: State, k: int, prev: seq<int>, p: nat) returns (s': State)
    requires |prev| > 0 && Moving(s, k, prev, Blank(2 * |prev|), 0) && p <= |prev| && Apart(prev, p)
    ensures Moving(s', k, prev, Spread(prev, p), p)
  {
    hide Moving, Seeking, Pos, Limit;
    s' := s;
    if p > 0 {
      s' := Moves(s, k, prev, p - 1);
      s' := TakesTask(s', k, prev, Spread(prev, p - 1), p - 1);
      if prev[p - 1] == EMPTY {
        s' := SkipsEmpty(s', k, prev, Spread(prev, p - 1), p - 1);
      } else {
        HomeFree(prev, p - 1);
        s' := Takes(s', k, prev, Spread(prev, p - 1), p - 1);
        LimitPositive(2 * |prev|);
        s' := Settles(s', k, prev, Spread(prev, p - 1), p - 1);
      }
    }
  }

  lemma LimitPositive(size: nat)
    requires size > 0
    ensures Limit(size) > 0
  {
  }

  // The end of a migration

  /** The new table is in use, and the thread goes through its list of retired tables. */
  ghost predicate Retiring(s: State, k: int, keys: seq<int>) {
    && Reachable(1, s, None) && !s.failed && |s.threads| == 1 && s.mutex == 0 && s.cnt == 0
    && Filled(s, s.current, keys) && s.gen == s.threads[0].gen && s.threads[0].op == Insert(k, 7) && k > 0
  }

  lemma Leaves(s: State, k: int, prev: seq<int>, keys: seq<int>) returns (s': State)
    requires Moving(s, k, prev, keys, |prev|)
    ensures Retiring(s', k, keys) && s'.threads[0].pc == Scan(0, 0)
  {
    hide Reachable;
    Extend(1, s, None, Step(0));
    var s1 := Next(s, Step(0));
    assert s1.threads[0].pc == Leave;
    Extend(1, s1, None, Step(0));
    s' := Next(s1, Step(0));
  }

  function Unscanned(th: Thread): int {
    if th.pc.Scan? then 2 * (|th.trash| - th.pc.a) + (if th.pc.h == 0 then 1 else 0) else 0
  }

  lemma TrashValid(s: State)
    requires Reachable(1, s, None) && !s.failed
    ensures |s.threads| == 1 && forall a :: 0 <= a < |s.threads[0].trash| ==> IsTable(s, s.threads[0].trash[a])
  {
    hide Reachable, KeysCopied, TablesOk, ValsOk, PhaseOk, OpsOk, CarriesOk, MarksOk, LocatedOk;
    ReachableInv(1, s, None);
  }

  lemma Scans(s: State, k: int, keys: seq<int>) returns (s': State)
    requires Retiring(s, k, keys) && s.threads[0].pc.Scan? && s.threads[0].pc.a < |s.threads[0].trash|
    ensures Retiring(s', k, keys) && s'.threads[0].pc.Scan? && s'.threads[0].pc.a <= |s'.threads[0].trash|
    ensures 0 <= Unscanned(s'.threads[0]) < Unscanned(s.threads[0])
  {
    TrashValid(s);
    hide Reachable;
    Extend(1, s, None, Step(0));
    s' := Next(s, Step(0));
  }

  lemma Clears(s: State, k: int, keys: seq<int>) returns (s': State)
    requires Retiring(s, k, keys) && s.threads[0].pc.Scan? && s.threads[0].pc.a <= |s.threads[0].trash|
    ensures Retiring(s', k, keys) && s'.threads[0].pc == Close
    decreases Unscanned(s.threads[0])
  {
    if s.threads[0].pc.a < |s.threads[0].trash| {
      s' := Scans(s, k, keys);
      s' := Clears(s', k, keys);
    } else {
      hide Reachable;
      Extend(1, s, None, Step(0));
      s' := Next(s, Step(0));
    }
  }

  /** The migration is closed, and the insert starts anew. */
  lemma Returns(s: State, k: int, keys: seq<int>) returns (s': State)
    requires Retiring(s, k, keys) && s.threads[0].pc == Close
    ensures Asking(s', keys, k, 0)
  {
    hide Reachable;
    Extend(1, s, None, Step(0));
    var s1 := Next(s, Step(0));
    Extend(1, s1, None, Step(0));
    var s2 := Next(s1, Step(0));
    Protects(1, s2, None, 0);
    s' := PutThread(s2, 0, s2.threads[0].(pc := Probe(0), held := s2.current, hazard := s2.current));
  }

  /** An insert into a table that is full for its key, whose keys will not get into each other's way. */
  lemma Grows(s: State, keys: seq<int>, k: int) returns (s': State)
    requires Calm(s, keys) && k > 0 && |keys| > 0 && Taken(keys, k, Limit(|keys|)) && Apart(keys, |keys|)
    ensures Asking(s', Spread(keys, |keys|), k, 0)
  {
    hide *;
    s' := Asks(s, keys, k);
    s' := ProbesPast(s', keys, k, Limit(|keys|));
    s' := GivesUp(s', keys, k);
    s' := Moves(s', k, keys, |keys|);
    s' := Leaves(s', k, keys, Spread(keys, |keys|));
    s' := Clears(s', k, Spread(keys, |keys|));
    s' := Returns(s', k, Spread(keys, |keys|));
  }

  /** The same, when the key of the last slot finds no place: the CHECK in migrate_value fails. */
  lemma Bursts(s: State, keys: seq<int>, k: int) returns (s': State)
    requires Calm(s, keys) && k > 0 && |keys| > 0 && Taken(keys, k, Limit(|keys|)) && Apart(keys, |keys| - 1)
    requires keys[|keys| - 1] != EMPTY && Taken(Spread(keys, |keys| - 1), keys[|keys| - 1], Limit(2 * |keys|))
    ensures Reachable(1, s', None) && Enabled(s', Step(0)) && Overflows(s', 0)
    ensures 0 <= s'.from < |s'.tables| && s'.tables[s'.from].Size() == |keys|
  {
    hide *;
    s' := Asks(s, keys, k);
    s' := ProbesPast(s', keys, k, Limit(|keys|));
    s' := GivesUp(s', keys, k);
    s' := Moves(s', k, keys, |keys| - 1);
    s' := LastMove(s', k, keys, Spread(keys, |keys| - 1), |keys| - 1);
  }

  lemma LastMove(s: State, k: int, prev: seq<int>, keys: seq<int>, p: nat) returns (s': State)
    requires Moving(s, k, prev, keys, p) && p < |prev| && prev[p] != EMPTY && |keys| > 0
      && Taken(keys, prev[p], Limit(|keys|))
    ensures Reachable(1, s', None) && Enabled(s', Step(0)) && Overflows(s', 0)
    ensures 0 <= s'.from < |s'.tables| && s'.tables[s'.from].Size() == |prev|
  {
    hide *;
    s' := TakesTask(s, k, prev, keys, p);
    s' := Takes(s', k, prev, keys, p);
    s' := SeeksPast(s', k, prev, keys, p, Limit(|keys|));
    LastSeek(s', k, prev, keys, p);
  }

  lemma LastSeek(s: State, k: int, prev: seq<int>, keys: seq<int>, p: nat)
    requires Seeking(s, k, prev, keys, p, Limit(|keys|))
    ensures Reachable(1, s, None) && Enabled(s, Step(0)) && Overflows(s, 0) && 0 <= s.from < |s.tables|
      && s.tables[s.from].Size() == |prev|
  {
    hide Limit, Reachable;
  }
}
