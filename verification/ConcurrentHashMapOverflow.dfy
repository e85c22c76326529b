/** Which migrations of ConcurrentHashMap overflow (td/utils/ConcurrentHashTable.h). */
module ConcurrentHashMapOverflow {
  // Exactly those out of a table with more than 300 slots: for each such table size there is a run of a single thread
  // that ends in the failing CHECK of run_task.
  //
  // The run fills each table up to `h` slots with keys that sit where they first ask for, and goes on to `2 * h` slots.
  // There `Last` gets the last slot, which is moved last; `Twin`, which asks for the same slots as `Last`, comes right
  // behind the keys at the front and pushes the keys after it one slot back. In the table with `4 * h` slots these keys
  // go back to where they first ask for, and together with `Twin` take every slot in which `Last` is looked for.

  import opened ConcurrentHashMap
  import opened ConcurrentHashMapRuns
  import opened ConcurrentHashMapAlone
  import opened Modular

  // ---------------------------------------------------------------------------------------
  // Table sizes
  // ---------------------------------------------------------------------------------------

  ghost predicate IsPower(m: int) { exists p: nat :: m == Pow2(p) }

  /** Every table has a power of two slots. */
  ghost predicate PowerSizes(s: State) { forall id :: 0 <= id < |s.tables| ==> IsPower(s.tables[id].Size()) }

  lemma DoublePower(m: int)
    requires IsPower(m)
    ensures IsPower(2 * m)
  {
    var p: nat :| m == Pow2(p);
    assert 2 * m == Pow2(p + 1);
  }

  lemma NewSize(s: State, ev: Event, id: nat)
    requires Enabled(s, ev) && |s.tables| <= id < |Next(s, ev).tables|
    ensures exists o :: 0 <= o < |s.tables| && Next(s, ev).tables[id].Size() == 2 * s.tables[o].Size()
  {
    hide StepProtect, StepProbe, StepClaim, StepTouch, StepTask, StepSeek, StepFinish;
    if ev.Step? && s.threads[ev.t].pc.Enter? {
      var ptr := s.threads[ev.t].pc.ptr;
      assert Next(s, ev).tables[id].Size() == 2 * s.tables[ptr].Size();
    } else {
      NoNewTable(s, ev);
    }
  }

  lemma NoNewTable(s: State, ev: Event)
    requires Enabled(s, ev) && !(ev.Step? && s.threads[ev.t].pc.Enter?)
    ensures |Next(s, ev).tables| == |s.tables|
  {
  }

  lemma PowerStep(s: State, ev: Event)
    requires Enabled(s, ev) && PowerSizes(s) && TablesEvolve(s, Next(s, ev))
    ensures PowerSizes(Next(s, ev))
  {
    hide Next, Enabled, IsPower;
    var s' := Next(s, ev);
    forall id | 0 <= id < |s'.tables| ensures IsPower(s'.tables[id].Size()) {
      if id < |s.tables| {
        assert Evolves(s.tables[id], s'.tables[id]);
      } else {
        NewSize(s, ev, id);
        var o :| 0 <= o < |s.tables| && s'.tables[id].Size() == 2 * s.tables[o].Size();
        DoublePower(s.tables[o].Size());
      }
    }
  }

  lemma {:induction false} SizesArePowers(n: nat, states: seq<State>, events: seq<Event>, i: nat)
    requires IsRun(n, states, events) && i < |states| && !states[i].failed
    ensures PowerSizes(states[i])
  {
    hide Next, Inv, KeysCopied;
    if i == 0 {
      assert states[0].tables[0].Size() == Pow2(0);
    } else {
      Alive(n, states, events, i - 1, i);
      SizesArePowers(n, states, events, i - 1);
      RunInvariant(n, states, events, i - 1);
      FrameStep(states[i - 1], events[i - 1]);
      PowerStep(states[i - 1], events[i - 1]);
    }
  }

  /** Step `t` ends the run because the migration out of a table with `m` slots overflows. */
  ghost predicate OverflowAt(n: nat, s: State, t: nat, m: int) {
    && Reachable(n, s, None) && Enabled(s, Step(t)) && Overflows(s, t)
    && 0 <= s.from < |s.tables| && s.tables[s.from].Size() == m
  }

  lemma OverflowIsLarge(n: nat, s: State, t: nat, m: int)
    requires OverflowAt(n, s, t, m)
    ensures m > 300 && IsPower(m)
  {
    hide Next, Inv, KeysCopied, Limit;
    var states: seq<State>, events: seq<Event> :| RunEndsIn(n, states, events, s, None);
    RunInvariant(n, states, events, |events|);
    SizesArePowers(n, states, events, |events|);
    OverflowTables(s, t);
    FitsExactly(m);
    if m <= 300 {
      MigrationFits(s, t);
    }
  }

  // ---------------------------------------------------------------------------------------
  // Keys
  // ---------------------------------------------------------------------------------------

  lemma PosIs(k: int, i: nat, size: nat, q: int, r: nat)
    requires r < size && k + 1 + i == q * size + r
    ensures Pos(k, i, size) == r
  {
    AddMod(k, 1 + i, size);
    ModUnique(k + 1 + i, size, q, r);
  }

  /** The key that first asks for slot `j` in every table with more than `j` and at most 4h slots. */
  function Key(h: nat, j: nat): int { 4 * h - 1 + j }

  /** The number of keys at the front that have to ask for other slots in the table with 2h slots. */
  predicate Plan(h: nat, cut: nat) {
    (h == 256 && cut == 0) || (h >= 512 && cut == Limit(4 * h))
  }

  lemma PlanBounds(h: nat, cut: nat)
    requires Plan(h, cut)
    ensures h >= 256 && cut + h < 2 * h - 1 && 300 <= Limit(2 * h) <= Limit(4 * h) < 2 * h - 1
    ensures if cut == 0 then h == 256 else cut == Limit(4 * h) < h
  {
  }

  /** The key of slot `p` while the tables have at most `h` slots. */
  function Early(h: nat, cut: nat, p: nat): int { Key(h, if p < cut then p + h else p) }

  function Last(h: nat): int { 4 * h - 2 }
  function Twin(h: nat): int { 8 * h - 2 }
  function Extra(h: nat): int { 12 * h - 2 }

  predicate Divides(size: nat, h: nat, d: nat) { h == d * size }

  lemma EarlyHome(h: nat, cut: nat, p: nat, size: nat, d: nat)
    requires p < size && Divides(size, h, d)
    ensures Home(Early(h, cut, p), size) == p
  {
    if p < cut {
      assert 5 * h + p == (5 * d) * size + p;
      PosIs(Early(h, cut, p), 0, size, 5 * d, p);
    } else {
      assert 4 * h + p == (4 * d) * size + p;
      PosIs(Early(h, cut, p), 0, size, 4 * d, p);
    }
  }

  lemma KeyPos(h: nat, j: nat, i: nat)
    requires j + i < 2 * h
    ensures Pos(Key(h, j), i, 2 * h) == j + i && Pos(Key(h, j), i, 4 * h) == j + i
  {
    PosIs(Key(h, j), i, 2 * h, 2, j + i);
    PosIs(Key(h, j), i, 4 * h, 1, j + i);
  }

  /** A key that first asks for the last slot wraps around to the front. */
  lemma EndPos(k: int, i: nat, size: nat, q: int)
    requires size > 0 && k + 2 == q * size && i <= size
    ensures Pos(k, i, size) == if i == 0 then size - 1 else i - 1
  {
    assert q * size == (q - 1) * size + size;
    if i == 0 {
      PosIs(k, 0, size, q - 1, size - 1);
    } else {
      PosIs(k, i, size, q, i - 1);
    }
  }

  // ---------------------------------------------------------------------------------------
  // Up to h slots
  // ---------------------------------------------------------------------------------------

  /** The first `c` slots of the table have their keys. */
  function Part(h: nat, cut: nat, size: nat, c: nat): (r: seq<int>)
    ensures |r| == size && forall p :: 0 <= p < size ==> r[p] == if p < c then Early(h, cut, p) else EMPTY
  {
    seq(size, p requires 0 <= p < size => if p < c then Early(h, cut, p) else EMPTY)
  }

  lemma FillsUp(s: State, h: nat, cut: nat, size: nat, c: nat, d: nat) returns (s': State)
    requires Calm(s, Part(h, cut, size, c)) && c <= size && Divides(size, h, d) && h > 0 && size > 0
    ensures Calm(s', Part(h, cut, size, size))
    decreases size - c
  {
    hide Calm, Limit, Divides;
    s' := s;
    if c < size {
      EarlyHome(h, cut, c, size, d);
      LimitPositive(size);
      hide Pos, Early;
      s' := Inserts(s, Part(h, cut, size, c), Early(h, cut, c), 0);
      assert Part(h, cut, size, c)[c := Early(h, cut, c)] == Part(h, cut, size, c + 1);
      s' := FillsUp(s', h, cut, size, c + 1, d);
    }
  }

  lemma FullTaken(h: nat, cut: nat, size: nat, k: int, n: nat)
    requires size > 0 && h > 0 && forall p :: 0 <= p < size ==> Early(h, cut, p) != k
    ensures Taken(Part(h, cut, size, size), k, n)
  {
  }

  lemma PartApart(h: nat, cut: nat, size: nat, d: nat)
    requires size > 0 && Divides(2 * size, h, d) && h > 0
    ensures Apart(Part(h, cut, size, size), size)
    ensures Spread(Part(h, cut, size, size), size) == Part(h, cut, 2 * size, size)
  {
    hide Divides;
    var a := Part(h, cut, size, size);
    forall x | 0 <= x < size ensures Home(a[x], 2 * size) == x && a[x] != EMPTY {
      EarlyHome(h, cut, x, 2 * size, d);
      EarlyPositive(h, cut, x);
    }
    hide Home, Spread, Early;
    SpreadIs(a, size);
    forall q | 0 <= q < 2 * size ensures Spread(a, size)[q] == Part(h, cut, 2 * size, size)[q] {
      if q < size {
        assert Home(a[q], 2 * size) == q;
      } else {
        SpreadEmpty(a, size, q);
      }
    }
  }

  lemma EarlyPositive(h: nat, cut: nat, p: nat)
    requires h > 0
    ensures Early(h, cut, p) > 0
  {
  }

  lemma EarlyDiffers(h: nat, cut: nat, p: nat, q: nat)
    requires p < q < h
    ensures Early(h, cut, p) != Early(h, cut, q)
  {
  }

  lemma StartsCalm(h: nat, cut: nat)
    ensures Calm(Init(1), Part(h, cut, 1, 0))
  {
    var s := Init(1);
    assert RunEndsIn(1, [s], [], s, None);
    assert NewTable(1).keys == Part(h, cut, 1, 0) && NewTable(1).vals == Sevens(Part(h, cut, 1, 0));
  }

  /** All slots of a table with 2^e slots get their keys. */
  lemma {:induction false} Full(h: nat, cut: nat, e: nat, d: nat) returns (s: State)
    requires Divides(Pow2(e), h, d) && h > 0
    ensures Calm(s, Part(h, cut, Pow2(e), Pow2(e)))
    decreases e
  {
    hide Calm, Limit, Pos;
    if e == 0 {
      StartsCalm(h, cut);
      s := FillsUp(Init(1), h, cut, 1, 0, d);
    } else {
      assert h == (2 * d) * Pow2(e - 1) == d * (2 * Pow2(e - 1));
      s := Full(h, cut, e - 1, 2 * d);
      s := Doubles(s, h, cut, Pow2(e - 1), d);
    }
  }

  lemma Doubles(s: State, h: nat, cut: nat, size: nat, d: nat) returns (s': State)
    requires Calm(s, Part(h, cut, size, size)) && size > 0 && Divides(2 * size, h, d) && h > 0
    ensures Calm(s', Part(h, cut, 2 * size, 2 * size))
  {
    AtLeast(2 * size, h, d);
    hide Calm, Asking, Limit, Pos, Early, Home, Spread, Divides, Apart, Taken;
    PartApart(h, cut, size, d);
    EarlyPositive(h, cut, size);
    forall p | 0 <= p < size ensures Early(h, cut, p) != Early(h, cut, size) {
      EarlyDiffers(h, cut, p, size);
    }
    FullTaken(h, cut, size, Early(h, cut, size), Limit(size));
    s' := Grows(s, Part(h, cut, size, size), Early(h, cut, size));
    EarlyHome(h, cut, size, 2 * size, d);
    HomeIs(Early(h, cut, size), 2 * size);
    LimitPositive(2 * size);
    s' := Lands(s', Part(h, cut, 2 * size, size), Early(h, cut, size), 0);
    assert Part(h, cut, 2 * size, size)[size := Early(h, cut, size)] == Part(h, cut, 2 * size, size + 1);
    s' := FillsUp(s', h, cut, 2 * size, size + 1, d);
  }

  lemma AtLeast(size: nat, h: nat, d: nat)
    requires Divides(size, h, d) && h > 0
    ensures size <= h
  {
    if d > 0 {
      MulGrows(size, d);
    }
  }

  lemma HomeIs(k: int, size: nat)
    requires size > 0
    ensures Home(k, size) == Pos(k, 0, size)
  {
  }

  // ---------------------------------------------------------------------------------------
  // The table with 2h slots
  // ---------------------------------------------------------------------------------------

  function Front(h: nat, cut: nat): nat { if cut == 0 then h else 0 }

  /** Slot `p` of the table when the slots from the front up to `e` have their keys. */
  function CrowdKey(h: nat, cut: nat, e: nat, p: nat): int {
    if p == 2 * h - 1 then Last(h)
    else if Front(h, cut) <= p < e then (if p == Front(h, cut) then Twin(h) else Key(h, p - 1))
    else if cut <= p < cut + h then Key(h, p)
    else EMPTY
  }

  function Crowd(h: nat, cut: nat, e: nat): (r: seq<int>)
    ensures |r| == 2 * h && forall p :: 0 <= p < 2 * h ==> r[p] == CrowdKey(h, cut, e, p)
  {
    seq(2 * h, p requires 0 <= p < 2 * h => CrowdKey(h, cut, e, p))
  }

  /** The keys that come from the table with `h` slots. */
  function Second(h: nat, cut: nat): (r: seq<int>)
    ensures |r| == 2 * h && forall p :: 0 <= p < 2 * h ==> r[p] == if cut <= p < cut + h then Key(h, p) else EMPTY
  {
    seq(2 * h, p requires 0 <= p < 2 * h => if cut <= p < cut + h then Key(h, p) else EMPTY)
  }

  lemma EarlySecond(h: nat, cut: nat, x: nat)
    requires x < h
    ensures Home(Early(h, cut, x), 2 * h) == if x < cut then x + h else x
  {
    KeyPos(h, if x < cut then x + h else x, 0);
  }

  lemma SecondApart(h: nat, cut: nat)
    requires cut < h
    ensures Apart(Part(h, cut, h, h), h) && Spread(Part(h, cut, h, h), h) == Second(h, cut)
  {
    var a := Part(h, cut, h, h);
    forall x | 0 <= x < h ensures Home(a[x], 2 * h) == (if x < cut then x + h else x) && a[x] != EMPTY {
      EarlySecond(h, cut, x);
    }
    hide Home, Spread;
    SpreadIs(a, h);
    forall q | 0 <= q < 2 * h ensures Spread(a, h)[q] == Second(h, cut)[q] {
      if cut <= q < cut + h {
        var x := if q < h then q else q - h;
        assert Home(a[x], 2 * h) == q && a[x] == Key(h, q);
      } else {
        SpreadEmpty(a, h, q);
      }
    }
  }

  /** The last key goes to the last slot. */
  lemma LastComes(s: State, h: nat, cut: nat) returns (s': State)
    requires Calm(s, Part(h, cut, h, h)) && Plan(h, cut)
    ensures Calm(s', Crowd(h, cut, Front(h, cut)))
  {
    PlanBounds(h, cut);
    SecondApart(h, cut);
    FullTaken(h, cut, h, Last(h), Limit(h));
    hide Calm, Asking, Limit, Pos, Home, Spread, Apart, Taken, Plan, Crowd;
    s' := Grows(s, Part(h, cut, h, h), Last(h));
    EndPos(Last(h), 0, 2 * h, 2);
    LimitPositive(2 * h);
    s' := Lands(s', Second(h, cut), Last(h), 0);
    SecondLast(h, cut);
  }

  lemma SecondLast(h: nat, cut: nat)
    requires h > 0
    ensures Second(h, cut)[2 * h - 1 := Last(h)] == Crowd(h, cut, Front(h, cut))
  {
  }

  lemma TwinSearch(h: nat, cut: nat)
    requires Plan(h, cut)
    ensures var v, a := Front(h, cut), Crowd(h, cut, Front(h, cut));
            && Taken(a, Twin(h), v + 1) && Pos(Twin(h), v + 1, 2 * h) == v && a[v] == EMPTY && v + 1 < Limit(2 * h)
            && a[v := Twin(h)] == Crowd(h, cut, v + 1)
  {
    PlanBounds(h, cut);
    var v, a := Front(h, cut), Crowd(h, cut, Front(h, cut));
    EndPos(Twin(h), v + 1, 2 * h, 4);
    hide Pos, Limit;
    forall j: nat | j < v + 1
      ensures a[Pos(Twin(h), j, 2 * h)] != EMPTY && a[Pos(Twin(h), j, 2 * h)] != Twin(h)
    {
      EndPos(Twin(h), j, 2 * h, 4);
    }
  }

  lemma TwinComes(s: State, h: nat, cut: nat) returns (s': State)
    requires Calm(s, Crowd(h, cut, Front(h, cut))) && Plan(h, cut)
    ensures Calm(s', Crowd(h, cut, Front(h, cut) + 1))
  {
    PlanBounds(h, cut);
    TwinSearch(h, cut);
    hide Calm, Limit, Pos, Crowd, Taken;
    s' := Inserts(s, Crowd(h, cut, Front(h, cut)), Twin(h), Front(h, cut) + 1);
  }

  lemma KeySearch(h: nat, cut: nat, e: nat)
    requires Plan(h, cut) && Front(h, cut) < e < Limit(4 * h)
    ensures var a, k := Crowd(h, cut, e), Key(h, e - 1);
            Taken(a, k, 1) && Pos(k, 1, 2 * h) == e && a[e] == EMPTY && a[e := k] == Crowd(h, cut, e + 1)
  {
    PlanBounds(h, cut);
    KeyPos(h, e - 1, 0);
    KeyPos(h, e - 1, 1);
    hide Pos, Limit;
  }

  /** The keys behind the twin come one slot late. */
  lemma KeysCome(s: State, h: nat, cut: nat, e: nat) returns (s': State)
    requires Calm(s, Crowd(h, cut, e)) && Plan(h, cut) && Front(h, cut) < e <= Limit(4 * h)
    ensures Calm(s', Crowd(h, cut, Limit(4 * h)))
    decreases Limit(4 * h) - e
  {
    PlanBounds(h, cut);
    s' := s;
    if e < Limit(4 * h) {
      KeySearch(h, cut, e);
      hide Calm, Limit, Pos, Crowd, Taken;
      s' := Inserts(s, Crowd(h, cut, e), Key(h, e - 1), 1);
      s' := KeysCome(s', h, cut, e + 1);
    }
  }

  // ---------------------------------------------------------------------------------------
  // The migration to 4h slots
  // ---------------------------------------------------------------------------------------

  lemma ExtraTaken(h: nat, cut: nat)
    requires Plan(h, cut)
    ensures Taken(Crowd(h, cut, Limit(4 * h)), Extra(h), Limit(2 * h))
  {
    PlanBounds(h, cut);
    hide Pos, Limit;
    var a := Crowd(h, cut, Limit(4 * h));
    forall j: nat | j < Limit(2 * h)
      ensures a[Pos(Extra(h), j, 2 * h)] != EMPTY && a[Pos(Extra(h), j, 2 * h)] != Extra(h)
    {
      EndPos(Extra(h), j, 2 * h, 6);
    }
  }

  function CrowdHome(h: nat, cut: nat, p: nat): int {
    if p == Front(h, cut) then 4 * h - 1 else if Front(h, cut) < p < Limit(4 * h) then p - 1 else p
  }

  lemma CrowdHomeIs(h: nat, cut: nat, p: nat)
    requires Plan(h, cut) && p < 2 * h - 1 && CrowdKey(h, cut, Limit(4 * h), p) != EMPTY
    ensures Home(CrowdKey(h, cut, Limit(4 * h), p), 4 * h) == CrowdHome(h, cut, p)
  {
    PlanBounds(h, cut);
    hide Limit;
    if p == Front(h, cut) {
      EndPos(Twin(h), 0, 4 * h, 2);
    } else if Front(h, cut) < p < Limit(4 * h) {
      KeyPos(h, p - 1, 0);
    } else {
      KeyPos(h, p, 0);
    }
    hide Pos;
  }

  lemma CrowdApart(h: nat, cut: nat)
    requires Plan(h, cut)
    ensures Apart(Crowd(h, cut, Limit(4 * h)), 2 * h - 1)
  {
    PlanBounds(h, cut);
    var a := Crowd(h, cut, Limit(4 * h));
    forall x, y | 0 <= x < y < 2 * h - 1 && a[x] != EMPTY && a[y] != EMPTY
      ensures Home(a[x], 4 * h) != Home(a[y], 4 * h)
    {
      CrowdHomeIs(h, cut, x);
      CrowdHomeIs(h, cut, y);
      hide Home, Limit, CrowdKey;
    }
  }

  /** Where the key that probe number `j` for the last key meets comes from. */
  function Blocker(h: nat, cut: nat, j: nat): (x: nat) {
    if j == 0 then Front(h, cut) else if j - 1 < Front(h, cut) then j - 1 else j
  }

  lemma BlockerIs(h: nat, cut: nat, j: nat)
    requires Plan(h, cut) && j < Limit(4 * h)
    ensures var x := Blocker(h, cut, j);
            && x < 2 * h - 1 && CrowdKey(h, cut, Limit(4 * h), x) != EMPTY
                 && CrowdKey(h, cut, Limit(4 * h), x) != Last(h)
            && CrowdHome(h, cut, x) == Pos(Last(h), j, 4 * h)
  {
    PlanBounds(h, cut);
    EndPos(Last(h), j, 4 * h, 1);
    hide Pos, Limit;
  }

  /** Every slot in which the last key is looked for has another one. */
  lemma LastTaken(h: nat, cut: nat)
    requires Plan(h, cut)
    ensures Taken(Spread(Crowd(h, cut, Limit(4 * h)), 2 * h - 1), Last(h), Limit(4 * h))
  {
    PlanBounds(h, cut);
    CrowdApart(h, cut);
    var a := Crowd(h, cut, Limit(4 * h));
    var b := Spread(a, 2 * h - 1);
    SpreadIs(a, 2 * h - 1);
    hide Pos, Limit, Home, Spread, CrowdKey, CrowdHome, Blocker, Plan, Last, Apart;
    forall j: nat | j < Limit(4 * h)
      ensures b[Pos(Last(h), j, 4 * h)] != EMPTY && b[Pos(Last(h), j, 4 * h)] != Last(h)
    {
      var x := Blocker(h, cut, j);
      BlockerIs(h, cut, j);
      CrowdHomeIs(h, cut, x);
      assert b[Home(a[x], 4 * h)] == a[x];
    }
  }

  lemma Overflowing(s: State, h: nat, cut: nat) returns (s': State)
    requires Calm(s, Crowd(h, cut, Limit(4 * h))) && Plan(h, cut)
    ensures OverflowAt(1, s', 0, 2 * h)
  {
    PlanBounds(h, cut);
    ExtraTaken(h, cut);
    CrowdApart(h, cut);
    LastTaken(h, cut);
    hide Calm, Limit, Spread, Apart, Taken, Reachable, Enabled, Overflows;
    s' := Bursts(s, Crowd(h, cut, Limit(4 * h)), Extra(h));
  }

  lemma RunOverflows(h: nat, cut: nat, e: nat) returns (s: State)
    requires Plan(h, cut) && h == Pow2(e)
    ensures OverflowAt(1, s, 0, 2 * h)
  {
    PlanBounds(h, cut);
    hide Calm, OverflowAt;
    s := Full(h, cut, e, 1);
    s := LastComes(s, h, cut);
    s := TwinComes(s, h, cut);
    s := KeysCome(s, h, cut, Front(h, cut) + 1);
    s := Overflowing(s, h, cut);
  }

  /** The halves of the powers of two above 300. */
  lemma LargePower(m: int) returns (h: nat, e: nat)
    requires m > 300 && IsPower(m)
    ensures m == 2 * h && h == Pow2(e) && (h == 256 || h >= 512)
  {
    var p: nat :| m == Pow2(p);
    assert Pow2(4) == 16;
    Pow2Add(4, 4);
    if p <= 8 {
      Pow2Mono(p, 8);
    }
    e := p - 1;
    h := Pow2(e);
    if e > 8 {
      Pow2Mono(9, e);
    }
  }

  /**
    A migration out of a table with `m` slots overflows in some run if and only if `m` is a power of two above 300,
    that is, 512 or more: in no run before a table of this size migrates, and for every such size in some run.
  */
  lemma OverflowExactly(m: int)
    ensures m > 300 && IsPower(m) <==> exists n: nat, s: State, t: nat :: OverflowAt(n, s, t, m)
  {
    if m > 300 && IsPower(m) {
      var h, e := LargePower(m);
      var s := RunOverflows(h, if h == 256 then 0 else Limit(4 * h), e);
      assert OverflowAt(1, s, 0, m);
    }
    forall n: nat, s: State, t: nat | OverflowAt(n, s, t, m) ensures m > 300 && IsPower(m) {
      OverflowIsLarge(n, s, t, m);
    }
  }
}
