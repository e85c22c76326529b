/**
  ConcurrentHashMap (td/utils/ConcurrentHashTable.h) with its hazard pointers
  (td/utils/HazardPointers.h) as a step system.

  Each event is one load, store, exchange or CAS, or one block protected by migrate_mutex_; the scan
  of hazard pointers inside finish_migrate takes one step per hazard pointer. Tables are numbered
  in the order they are allocated. `task_creator.pos` is the length of `claims`, which also records who
  took each chunk. `committed`, `held` and `base` are history.
*/
module ConcurrentHashMap {

  const EMPTY: int := 0      // empty_key() and empty_value()
  const MIGRATE: int := 1    // migrate_value()
  const NULL: int := -1
  const PLACEHOLDER: int := -2  // the pointer 1 that a new Holder stores
  const CHUNK: nat := 100

  datatype Table = Table(keys: seq<int>, vals: seq<int>, deleted: bool)
  {
    predicate Shape() { |keys| == |vals| > 0 }
    function Size(): nat { |keys| }
  }

  /** For a find, `value` is the local variable that starts as the caller's default. */
  datatype Op = Insert(key: int, value: int) | Find(key: int, value: int)

  datatype Pc =
    | Idle
    | Load(saved: int) | Store(seen: int)                     // do_protect
    | Probe(i: nat) | Claim(i: nat) | Touch(p: nat)        // with_value and its callback
    | Enter(ptr: int)                                      // do_migrate up to the first unlock
    | Create | Exchange(p: nat, end: nat)                  // run_migrate, run_task
    | ReadKey(p: nat, end: nat, was: int)
    | Seek(p: nat, end: nat, was: int, k: int, i: nat)     // with_value on the new table
    | SeekClaim(p: nat, end: nat, was: int, k: int, i: nat)
    | Fill(p: nat, end: nat, was: int, k: int, q: nat)
    | Leave | Scan(a: nat, h: nat) | Close                 // do_migrate after run_migrate, finish_migrate
    | Wait
    | Done(r: int)

  /** `held` is the table the last completed protect returned; `base` the key's value at the call. */
  datatype Thread = Thread(hazard: int, trash: seq<int>, op: Op, held: int, base: int, gen: int, pc: Pc)

  datatype State = State(
    tables: seq<Table>, current: int, from: int, dest: int, claims: seq<nat>, cnt: int, gen: int, mutex: int,
    threads: seq<Thread>, committed: map<int, int>, failed: bool)

  datatype Event = Start(t: nat, op: Op) | Step(t: nat)

  function NewTable(n: nat): Table {
    Table(seq(n, i => EMPTY), seq(n, i => EMPTY), false)
  }

  function Init(threads: nat): State {
    State([NewTable(1)], 0, NULL, NULL, [], 0, 0, NULL,
          seq(threads, i => Thread(NULL, [], Find(1, 0), NULL, 0, 0, Idle)), map[], false)
  }

  /** The slot that probe number `i` for `key` looks at. */
  function Pos(key: int, i: nat, size: nat): (p: nat)
    requires size > 0
    ensures p < size
  {
    (key % size + 1 + i) % size
  }

  function Min(a: int, b: int): int { if a < b then a else b }
  function Max(a: int, b: int): int { if a < b then b else a }

  /** How many slots with_value tries. */
  function Limit(size: nat): (n: nat)
    ensures n <= size
  {
    Min(Max(300, size / 16 + 2), size)
  }

  predicate IsTable(s: State, id: int) { 0 <= id < |s.tables| && s.tables[id].Shape() }

  predicate MigratorPc(pc: Pc) {
    pc.Create? || pc.Exchange? || pc.ReadKey? || pc.Seek? || pc.SeekClaim? || pc.Fill? || pc.Leave?
  }

  predicate Enabled(s: State, ev: Event) {
    !s.failed && ev.t < |s.threads| &&
    var th := s.threads[ev.t];
    match ev
    case Start(_, op) => th.pc.Idle? && op.key > 0 && (op.Insert? ==> op.value != MIGRATE)
    case Step(_) =>
      match th.pc
      case Idle => false
      case Probe(_) => IsTable(s, th.held)
      case Claim(_) => IsTable(s, th.held)
      case Touch(p) => IsTable(s, th.held) && p < s.tables[th.held].Size()
      case Enter(_) => s.mutex == NULL
      case Create => IsTable(s, s.from)
      case Exchange(p, _) => IsTable(s, s.from) && p < s.tables[s.from].Size()
      case ReadKey(p, _, _) => IsTable(s, s.from) && p < s.tables[s.from].Size()
      case Seek(_, _, _, _, _) => IsTable(s, s.dest)
      case SeekClaim(_, _, _, _, _) => IsTable(s, s.dest)
      case Fill(_, _, _, _, q) => IsTable(s, s.dest) && q < s.tables[s.dest].Size()
      case Leave => s.mutex == NULL
      case Scan(a, _) => a < |th.trash| ==> IsTable(s, th.trash[a])
      case Wait => s.mutex == NULL && s.gen != th.gen
      case _ => true
  }

  function PutThread(s: State, t: nat, th: Thread): State
    requires t < |s.threads|
  {
    s.(threads := s.threads[t := th])
  }

  function SetKey(s: State, id: int, p: nat, k: int): State
    requires IsTable(s, id) && p < s.tables[id].Size()
  {
    s.(tables := s.tables[id := s.tables[id].(keys := s.tables[id].keys[p := k])])
  }

  function SetVal(s: State, id: int, p: nat, v: int): State
    requires IsTable(s, id) && p < s.tables[id].Size()
  {
    s.(tables := s.tables[id := s.tables[id].(vals := s.tables[id].vals[p := v])])
  }

  /** The start of another round: insert and find protect the table anew. */
  function Again(th: Thread): Thread { th.(pc := Load(NULL), held := NULL) }

  /** with_value returned false. */
  function NotFound(th: Thread): Thread {
    if th.op.Insert? then th.(pc := Enter(th.held)) else th.(pc := Done(th.op.value))
  }

  function StepProtect(s: State, t: nat): State
    requires Enabled(s, Step(t)) && (s.threads[t].pc.Load? || s.threads[t].pc.Store?)
  {
    var th := s.threads[t];
    match th.pc
    case Load(saved) =>
      if s.current != saved then PutThread(s, t, th.(pc := Store(s.current)))
      else if saved == NULL then PutThread(s, t, th.(pc := Enter(NULL)))
      else PutThread(s, t, th.(pc := Probe(0), held := saved))
    case Store(seen) => PutThread(s, t, th.(pc := Load(seen), hazard := seen))
  }

  function StepProbe(s: State, t: nat): State
    requires Enabled(s, Step(t)) && s.threads[t].pc.Probe?
  {
    var th := s.threads[t];
    var tb := s.tables[th.held];
    var i := th.pc.i;
    if i >= Limit(tb.Size()) then PutThread(s, t, NotFound(th))
    else
      var p := Pos(th.op.key, i, tb.Size());
      if tb.keys[p] == EMPTY then PutThread(s, t, if th.op.Insert? then th.(pc := Claim(i)) else NotFound(th))
      else if tb.keys[p] == th.op.key then PutThread(s, t, th.(pc := Touch(p)))
      else PutThread(s, t, th.(pc := Probe(i + 1)))
  }

  function StepClaim(s: State, t: nat): State
    requires Enabled(s, Step(t)) && s.threads[t].pc.Claim?
  {
    var th := s.threads[t];
    var p := Pos(th.op.key, th.pc.i, s.tables[th.held].Size());
    if s.tables[th.held].keys[p] == EMPTY then
      PutThread(SetKey(s, th.held, p, th.op.key), t, th.(pc := Touch(p)))
    else PutThread(s, t, th.(pc := Probe(th.pc.i)))
  }

  function StepTouch(s: State, t: nat): State
    requires Enabled(s, Step(t)) && s.threads[t].pc.Touch?
  {
    var th := s.threads[t];
    var p := th.pc.p;
    var c := s.tables[th.held].vals[p];
    match th.op
    case Insert(k, v) =>
      if c == EMPTY then
        PutThread(SetVal(s, th.held, p, v), t, th.(pc := Done(v)))
          .(committed := if v == EMPTY then s.committed else s.committed[k := v])
      else PutThread(s, t, th.(pc := if c == MIGRATE then Enter(th.held) else Done(c)))
    case Find(k, _) =>
      PutThread(s, t, th.(op := Find(k, c), pc := if c == MIGRATE then Enter(th.held) else Done(c)))
  }

  /** do_migrate up to the first unlock, with init_migrate. */
  function StepEnter(s: State, t: nat): State
    requires Enabled(s, Step(t)) && s.threads[t].pc.Enter?
  {
    var th := s.threads[t];
    var ptr := th.pc.ptr;
    if s.current != ptr then PutThread(s, t, Again(th))
    else if s.from != NULL then
      PutThread(s, t, th.(pc := Create, gen := s.gen)).(cnt := s.cnt + 1, failed := ptr != NULL && s.from != ptr)
    else if !IsTable(s, ptr) then s.(failed := true)
    else
      PutThread(s, t, th.(pc := Create, gen := s.gen + 1))
        .(tables := s.tables + [NewTable(2 * s.tables[ptr].Size())],
          current := NULL, from := ptr, dest := |s.tables|, claims := [], gen := s.gen + 1,
          cnt := s.cnt + 1, failed := s.cnt != 0)
  }

  function NextSlot(p: nat, end: nat): Pc { if p + 1 < end then Exchange(p + 1, end) else Create }

  function StepTask(s: State, t: nat): State
    requires Enabled(s, Step(t))
    requires var pc := s.threads[t].pc; pc.Create? || pc.Exchange? || pc.ReadKey?
  {
    var th := s.threads[t];
    var tb := s.tables[s.from];
    match th.pc
    case Create =>
      var begin := |s.claims| * CHUNK;
      var end := if begin + CHUNK > tb.Size() then tb.Size() else begin + CHUNK;
      PutThread(s, t, th.(pc := if begin >= end then Leave else Exchange(begin, end))).(claims := s.claims + [t])
    case Exchange(p, end) =>
      var was := tb.vals[p];
      PutThread(SetVal(s, s.from, p, MIGRATE), t,
                th.(pc := if was == EMPTY then NextSlot(p, end) else ReadKey(p, end, was)))
    case ReadKey(p, end, was) => PutThread(s, t, th.(pc := Seek(p, end, was, tb.keys[p], 0)))
  }

  function StepSeek(s: State, t: nat): State
    requires Enabled(s, Step(t))
    requires var pc := s.threads[t].pc; pc.Seek? || pc.SeekClaim? || pc.Fill?
  {
    var th := s.threads[t];
    var tb := s.tables[s.dest];
    match th.pc
    case Seek(p, end, was, k, i) =>
      if i >= Limit(tb.Size()) then s.(failed := true)   // Migration overflow
      else
        var q := Pos(k, i, tb.Size());
        PutThread(s, t, th.(pc := if tb.keys[q] == EMPTY then SeekClaim(p, end, was, k, i)
                                  else if tb.keys[q] == k then Fill(p, end, was, k, q)
                                  else Seek(p, end, was, k, i + 1)))
    case SeekClaim(p, end, was, k, i) =>
      var q := Pos(k, i, tb.Size());
      if tb.keys[q] == EMPTY then PutThread(SetKey(s, s.dest, q, k), t, th.(pc := Fill(p, end, was, k, q)))
      else PutThread(s, t, th.(pc := Seek(p, end, was, k, i)))
    case Fill(p, end, was, k, q) => PutThread(SetVal(s, s.dest, q, was), t, th.(pc := NextSlot(p, end)))
  }

  /** do_migrate after run_migrate, with finish_migrate and HazardPointers::retire. */
  function StepFinish(s: State, t: nat): State
    requires Enabled(s, Step(t))
    requires var pc := s.threads[t].pc; pc.Leave? || pc.Scan? || pc.Close? || pc.Wait?
  {
    var th := s.threads[t];
    match th.pc
    case Leave =>
      if s.cnt == 1 then
        PutThread(s, t, th.(pc := Scan(0, 0), trash := th.trash + [s.from])).(cnt := 0, current := s.dest, mutex := t)
      else PutThread(s, t, th.(pc := Wait)).(cnt := s.cnt - 1)
    case Scan(a, h) =>
      if a >= |th.trash| then PutThread(s, t, th.(pc := Close))
      else if h >= |s.threads| then
        var id := th.trash[a];
        PutThread(s, t, th.(pc := Scan(a, 0), trash := th.trash[..a] + th.trash[a + 1..]))
          .(tables := s.tables[id := s.tables[id].(deleted := true)])
      else
        PutThread(s, t, th.(pc := if s.threads[h].hazard == th.trash[a] then Scan(a + 1, 0) else Scan(a, h + 1)))
    case Close => PutThread(s, t, th.(pc := Wait)).(from := NULL, dest := NULL, gen := s.gen + 1, mutex := NULL)
    case Wait => PutThread(s, t, Again(th))
  }

  function StepThread(s: State, t: nat): State
    requires Enabled(s, Step(t))
  {
    match s.threads[t].pc
    case Load(_) | Store(_) => StepProtect(s, t)
    case Probe(_) => StepProbe(s, t)
    case Claim(_) => StepClaim(s, t)
    case Touch(_) => StepTouch(s, t)
    case Enter(_) => StepEnter(s, t)
    case Create | Exchange(_, _) | ReadKey(_, _, _) => StepTask(s, t)
    case Seek(_, _, _, _, _) | SeekClaim(_, _, _, _, _) | Fill(_, _, _, _, _) => StepSeek(s, t)
    case Leave | Scan(_, _) | Close | Wait => StepFinish(s, t)
    case Done(_) => PutThread(s, t, s.threads[t].(hazard := NULL, held := NULL, pc := Idle))
  }

  function Next(s: State, ev: Event): State
    requires Enabled(s, ev)
  {
    match ev
    case Start(t, op) =>
      var base := if op.key in s.committed then s.committed[op.key] else EMPTY;
      PutThread(s, t, s.threads[t].(hazard := PLACEHOLDER, op := op, base := base, pc := Load(NULL)))
    case Step(t) => StepThread(s, t)
  }

  // ---------------------------------------------------------------------------------------
  // One table
  // ---------------------------------------------------------------------------------------

  /** The first `i` probes for `k` would all meet other keys. */
  predicate Passed(tb: Table, k: int, i: nat)
    requires tb.Shape()
  {
    forall j: nat :: j < i ==> tb.keys[Pos(k, j, tb.Size())] != EMPTY && tb.keys[Pos(k, j, tb.Size())] != k
  }

  predicate PlacedBy(tb: Table, p: nat, i: nat)
    requires tb.Shape() && p < tb.Size()
  {
    i < Limit(tb.Size()) && Pos(tb.keys[p], i, tb.Size()) == p && Passed(tb, tb.keys[p], i)
  }

  /** Every key sits in the first slot of its probe sequence that was free when it came. */
  ghost predicate Good(tb: Table) {
    && tb.Shape()
    && forall p :: 0 <= p < tb.Size() && tb.keys[p] != EMPTY ==> tb.keys[p] > 0 && exists i: nat :: PlacedBy(tb, p, i)
  }

  lemma NotPassed(tb: Table, p: nat, i: nat, j: nat)
    requires tb.Shape() && p < tb.Size() && tb.keys[p] != EMPTY && PlacedBy(tb, p, i) && Passed(tb, tb.keys[p], j)
    ensures j <= i
  {
  }

  /** Each key owns at most one slot. */
  lemma OneSlotPerKey(tb: Table, p: nat, q: nat)
    requires Good(tb) && p < tb.Size() && q < tb.Size() && tb.keys[p] == tb.keys[q] != EMPTY
    ensures p == q
  {
    var i: nat :| PlacedBy(tb, p, i);
    var j: nat :| PlacedBy(tb, q, j);
    NotPassed(tb, p, i, j);
    NotPassed(tb, q, j, i);
  }

  /** What may happen to a table over time. */
  predicate Evolves(tb: Table, tb': Table) {
    && tb.Shape() && tb'.Shape() && tb'.Size() == tb.Size()
    && (forall p :: 0 <= p < tb.Size() && tb.keys[p] != EMPTY ==> tb'.keys[p] == tb.keys[p])
    && (forall p :: 0 <= p < tb.Size() && tb.vals[p] != EMPTY ==> tb'.vals[p] == tb.vals[p] || tb'.vals[p] == MIGRATE)
  }

  lemma PassedEvolves(tb: Table, tb': Table, k: int, i: nat)
    requires Evolves(tb, tb') && Passed(tb, k, i)
    ensures Passed(tb', k, i)
  {
    forall j: nat | j < i
      ensures tb'.keys[Pos(k, j, tb.Size())] != EMPTY && tb'.keys[Pos(k, j, tb.Size())] != k
    {
      assert tb.keys[Pos(k, j, tb.Size())] != EMPTY;
    }
  }

  /** A key claims the slot that its search has just found empty. */
  lemma GoodClaim(tb: Table, k: int, i: nat)
    requires Good(tb) && k > 0 && i < Limit(tb.Size()) && Passed(tb, k, i) && tb.keys[Pos(k, i, tb.Size())] == EMPTY
    ensures var tb' := tb.(keys := tb.keys[Pos(k, i, tb.Size()) := k]); Good(tb') && Evolves(tb, tb')
  {
    var q := Pos(k, i, tb.Size());
    var tb' := tb.(keys := tb.keys[q := k]);
    forall p | 0 <= p < tb.Size() && tb'.keys[p] != EMPTY
      ensures tb'.keys[p] > 0 && exists i: nat :: PlacedBy(tb', p, i)
    {
      if p == q {
        PassedEvolves(tb, tb', k, i);
        assert PlacedBy(tb', q, i);
      } else {
        var j: nat :| PlacedBy(tb, p, j);
        PassedEvolves(tb, tb', tb.keys[p], j);
        assert PlacedBy(tb', p, j);
      }
    }
  }

  /** Only the keys and the size matter to Good. */
  lemma GoodSameKeys(tb: Table, tb': Table)
    requires Good(tb) && tb'.Shape() && tb'.keys == tb.keys
    ensures Good(tb')
  {
    forall p | 0 <= p < tb'.Size() && tb'.keys[p] != EMPTY ensures exists i: nat :: PlacedBy(tb', p, i) {
      var i: nat :| PlacedBy(tb, p, i);
      assert Passed(tb', tb'.keys[p], i);
      assert PlacedBy(tb', p, i);
    }
  }

  // ---------------------------------------------------------------------------------------
  // The invariant
  // ---------------------------------------------------------------------------------------

  predicate IsValue(v: int) { v != EMPTY && v != MIGRATE }

  ghost predicate TablesOk(s: State) {
    forall id :: 0 <= id < |s.tables| ==> Good(s.tables[id])
  }

  /** A value in a slot is the committed value of the slot's key. */
  predicate SlotOk(s: State, tb: Table, p: nat)
    requires tb.Shape() && p < tb.Size()
  {
    IsValue(tb.vals[p]) ==> tb.keys[p] in s.committed && s.committed[tb.keys[p]] == tb.vals[p]
  }

  predicate ValsOk(s: State) {
    && (forall id, p ::
         0 <= id < |s.tables| && s.tables[id].Shape() && 0 <= p < s.tables[id].Size() ==> SlotOk(s, s.tables[id], p))
    && (forall k :: k in s.committed ==> k > 0 && IsValue(s.committed[k]))
  }

  function Migrators(threads: seq<Thread>): nat {
    if threads == [] then 0 else (if MigratorPc(threads[0].pc) then 1 else 0) + Migrators(threads[1..])
  }

  predicate ValidId(s: State, id: int) { 0 <= id < |s.tables| && s.tables[id].Shape() }

  /** How the table pointers, the migration counter and the mutex fit together. */
  predicate PhaseOk(s: State) {
    && (s.current == NULL || ValidId(s, s.current))
    && (s.from == NULL <==> s.dest == NULL)
    && (s.from != NULL ==> ValidId(s, s.from) && ValidId(s, s.dest) && s.from != s.dest)
    && (s.current == NULL ==>
          s.from != NULL && s.mutex == NULL && s.cnt > 0
          && s.tables[s.dest].Size() == 2 * s.tables[s.from].Size())
    && (s.current != NULL ==> s.cnt == 0)
    && (s.current != NULL && s.from != NULL ==> s.mutex != NULL && s.current == s.dest)
    && (s.from == NULL ==> s.mutex == NULL)
    && NULL <= s.mutex < |s.threads|
    && s.cnt == Migrators(s.threads)
    && forall t :: 0 <= t < |s.threads| ==> (s.mutex == t <==> s.threads[t].pc.Scan? || s.threads[t].pc.Close?)
  }

  /** Out of use for good: no thread can come to hold it any more. */
  predicate Retired(s: State, id: int) {
    id != s.current && !(s.current == NULL && (id == s.from || id == s.dest))
  }

  predicate ThreadHazardOk(s: State, th: Thread) {
    && (th.held != NULL ==>
          ValidId(s, th.held) && th.hazard == th.held && !s.tables[th.held].deleted
          && !(s.current == NULL && th.held == s.dest))
    && (th.pc.Idle? || th.pc.Load? || th.pc.Store? ==> th.held == NULL)
    && (th.pc.Probe? || th.pc.Claim? || th.pc.Touch? ==> th.held != NULL)
    && (th.pc.Enter? ==> th.pc.ptr == th.held)
    && (th.pc.Load? && th.pc.saved != NULL ==> th.hazard == th.pc.saved && ValidId(s, th.pc.saved))
    && (th.pc.Store? && th.pc.seen != NULL ==> ValidId(s, th.pc.seen))
    && (th.pc.Idle? ==> th.hazard == NULL)
    && (forall a :: 0 <= a < |th.trash| ==> ValidId(s, th.trash[a]) && Retired(s, th.trash[a]))
  }

  /** What a thread scanning hazard pointers has established about the entry it is at. */
  predicate ScanOk(s: State, th: Thread) {
    th.pc.Scan? && th.pc.a < |th.trash| ==>
      forall r :: 0 <= r < th.pc.h && r < |s.threads| ==> s.threads[r].held != th.trash[th.pc.a]
  }

  predicate HazardsOk(s: State) {
    && (forall t :: 0 <= t < |s.threads| ==> ThreadHazardOk(s, s.threads[t]) && ScanOk(s, s.threads[t]))
    && (forall id :: 0 <= id < |s.tables| && s.tables[id].deleted ==> Retired(s, id))
  }

  /** The slot of a committed key shows its value, or that it has moved on. */
  ghost predicate Known(tb: Table, k: int, x: int) {
    tb.Shape() && exists p :: 0 <= p < tb.Size() && tb.keys[p] == k && (tb.vals[p] == x || tb.vals[p] == MIGRATE)
  }

  /** insert and find, seen from inside. */
  ghost predicate OpOk(s: State, th: Thread) {
    && th.op.key > 0 && (th.op.Insert? ==> th.op.value != MIGRATE)
    && (!th.pc.Idle? && th.base != EMPTY ==> th.op.key in s.committed && s.committed[th.op.key] == th.base)
    && (!th.pc.Idle? && th.base != EMPTY && th.held != NULL ==>
         ValidId(s, th.held) && Known(s.tables[th.held], th.op.key, th.base))
    && match th.pc
       case Probe(i) =>
         ValidId(s, th.held) && Passed(s.tables[th.held], th.op.key, i)
       case Claim(i) =>
         th.op.Insert? && ValidId(s, th.held) && i < Limit(s.tables[th.held].Size())
         && Passed(s.tables[th.held], th.op.key, i)
       case Touch(p) => ValidId(s, th.held) && p < s.tables[th.held].Size() && s.tables[th.held].keys[p] == th.op.key
       case Done(r) =>
         && (th.base != EMPTY ==> r == th.base)
         && (th.op.Insert? && th.op.value != EMPTY ==> th.op.key in s.committed && s.committed[th.op.key] == r)
       case _ => true
  }

  /** The slots of `from` that a thread has claimed and not yet exchanged. */
  predicate Pending(th: Thread, p: int) {
    match th.pc
    case Exchange(a, end) => a <= p < end
    case ReadKey(a, end, _) => a < p < end
    case Seek(a, end, _, _, _) => a < p < end
    case SeekClaim(a, end, _, _, _) => a < p < end
    case Fill(a, end, _, _, _) => a < p < end
    case _ => false
  }

  /** A thread that has taken the value out of slot `p` of `from` and not yet stored it. */
  predicate Carrying(th: Thread, p: int) {
    (th.pc.ReadKey? || th.pc.Seek? || th.pc.SeekClaim? || th.pc.Fill?) && th.pc.p == p
  }

  /** Slots p..end-1 of `from` lie in one chunk, and that chunk belongs to thread `t`. */
  predicate OwnChunk(s: State, t: nat, p: int, end: int)
    requires ValidId(s, s.from)
  {
    0 <= p < end <= s.tables[s.from].Size() && p / CHUNK == (end - 1) / CHUNK
    && p / CHUNK < |s.claims| && s.claims[p / CHUNK] == t
  }

  predicate CarriedOk(s: State, p: int, was: int)
    requires ValidId(s, s.from)
  {
    0 <= p < s.tables[s.from].Size() && s.tables[s.from].vals[p] == MIGRATE && IsValue(was)
    && s.tables[s.from].keys[p] in s.committed && s.committed[s.tables[s.from].keys[p]] == was
  }

  /** A migrating thread, seen from inside. */
  predicate CarryOk(s: State, t: nat, th: Thread)
    requires ValidId(s, s.from) && ValidId(s, s.dest)
  {
    var from, dest := s.tables[s.from], s.tables[s.dest];
    match th.pc
    case Exchange(p, end) => OwnChunk(s, t, p, end)
    case ReadKey(p, end, was) => OwnChunk(s, t, p, end) && CarriedOk(s, p, was)
    case Seek(p, end, was, k, i) =>
      OwnChunk(s, t, p, end) && CarriedOk(s, p, was) && k == from.keys[p] && Passed(dest, k, i)
    case SeekClaim(p, end, was, k, i) =>
      OwnChunk(s, t, p, end) && CarriedOk(s, p, was) && k == from.keys[p] && Passed(dest, k, i)
        && i < Limit(dest.Size())
    case Fill(p, end, was, k, q) =>
      OwnChunk(s, t, p, end) && CarriedOk(s, p, was) && k == from.keys[p] && q < dest.Size() && dest.keys[q] == k
    case Leave => |s.claims| * CHUNK >= from.Size()
    case _ => true
  }

  predicate CarriesOk(s: State)
    requires PhaseOk(s)
  {
    s.current == NULL ==> forall t :: 0 <= t < |s.threads| ==> CarryOk(s, t, s.threads[t])
  }

  /** Slot `p` of `from` during a migration: marked exactly when its claimant is past it. */
  predicate ProgressOk(s: State, p: nat)
    requires ValidId(s, s.from) && p < s.tables[s.from].Size()
  {
    if p / CHUNK >= |s.claims| then s.tables[s.from].vals[p] != MIGRATE
    else
      s.claims[p / CHUNK] < |s.threads| &&
      (s.tables[s.from].vals[p] != MIGRATE <==> Pending(s.threads[s.claims[p / CHUNK]], p))
  }

  predicate NoMarks(tb: Table) { tb.Shape() && forall p :: 0 <= p < tb.Size() ==> tb.vals[p] != MIGRATE }
  predicate AllMarks(tb: Table) { tb.Shape() && forall p :: 0 <= p < tb.Size() ==> tb.vals[p] == MIGRATE }

  predicate MarksOk(s: State)
    requires PhaseOk(s)
  {
    && (s.current != NULL ==> NoMarks(s.tables[s.current]))
    && (s.current == NULL ==> NoMarks(s.tables[s.dest])
                              && forall p :: 0 <= p < s.tables[s.from].Size() ==> ProgressOk(s, p))
    && (forall id :: 0 <= id < |s.tables| && Retired(s, id) ==> AllMarks(s.tables[id]))
  }

  ghost predicate Holds(tb: Table, k: int, x: int) {
    tb.Shape() && exists p :: 0 <= p < tb.Size() && tb.keys[p] == k && tb.vals[p] == x
  }

  /** Where a committed value is while its key's slot in `from` is `p`. */
  ghost predicate MovedFrom(s: State, k: int, x: int, p: int)
    requires ValidId(s, s.from) && ValidId(s, s.dest)
  {
    0 <= p < s.tables[s.from].Size() && s.tables[s.from].keys[p] == k &&
    (s.tables[s.from].vals[p] == x ||
     (s.tables[s.from].vals[p] == MIGRATE &&
      (Holds(s.tables[s.dest], k, x)
       || (p / CHUNK < |s.claims| && s.claims[p / CHUNK] < |s.threads|
            && Carrying(s.threads[s.claims[p / CHUNK]], p)))))
  }

  /** No committed value is ever out of reach. */
  ghost predicate Located(s: State, k: int)
    requires PhaseOk(s) && k in s.committed
  {
    if s.current != NULL then Holds(s.tables[s.current], k, s.committed[k])
    else exists p :: MovedFrom(s, k, s.committed[k], p)
  }

  ghost predicate LocatedOk(s: State)
    requires PhaseOk(s)
  {
    forall k :: k in s.committed ==> Located(s, k)
  }

  ghost predicate OpsOk(s: State) {
    forall t :: 0 <= t < |s.threads| ==> OpOk(s, s.threads[t])
  }

  ghost predicate Inv(s: State) {
    !s.failed && TablesOk(s) && ValsOk(s) && PhaseOk(s) && HazardsOk(s) && OpsOk(s) && CarriesOk(s) && MarksOk(s)
      && LocatedOk(s)
  }

  // ---------------------------------------------------------------------------------------
  // What an event does to the tables
  // ---------------------------------------------------------------------------------------

  predicate TablesEvolve(s: State, s': State) {
    |s.tables| <= |s'.tables| && forall id :: 0 <= id < |s.tables| ==> Evolves(s.tables[id], s'.tables[id])
  }

  predicate Remembers(s: State, s': State) {
    forall k :: k in s.committed ==> k in s'.committed && s'.committed[k] == s.committed[k]
  }

  lemma SetKeyEvolves(s: State, id: int, p: nat, k: int)
    requires TablesOk(s) && IsTable(s, id) && p < s.tables[id].Size() && s.tables[id].keys[p] == EMPTY
    ensures TablesEvolve(s, SetKey(s, id, p, k))
  {
  }

  lemma SetValEvolves(s: State, id: int, p: nat, v: int)
    requires TablesOk(s) && IsTable(s, id) && p < s.tables[id].Size()
    requires s.tables[id].vals[p] == EMPTY || v == MIGRATE || s.tables[id].vals[p] == v
    ensures TablesEvolve(s, SetVal(s, id, p, v)) && TablesOk(SetVal(s, id, p, v))
  {
    var s' := SetVal(s, id, p, v);
    GoodSameKeys(s.tables[id], s'.tables[id]);
  }

  /** The acting thread is the only one that changes; tables only evolve; commitments stay. */
  ghost predicate Frame(s: State, s': State, t: nat) {
    && |s'.threads| == |s.threads| && t < |s.threads|
    && (forall q :: 0 <= q < |s.threads| && q != t ==> s'.threads[q] == s.threads[q])
    && TablesEvolve(s, s') && TablesOk(s') && Remembers(s, s')
  }

  lemma SameTables(s: State, s': State)
    requires TablesOk(s) && s'.tables == s.tables
    ensures TablesEvolve(s, s') && TablesOk(s')
  {
  }

  lemma FrameClaim(s: State, t: nat)
    requires TablesOk(s) && Enabled(s, Step(t)) && s.threads[t].pc.Claim? && OpOk(s, s.threads[t])
    ensures Frame(s, StepClaim(s, t), t)
  {
    var th := s.threads[t];
    var tb := s.tables[th.held];
    var q := Pos(th.op.key, th.pc.i, tb.Size());
    if tb.keys[q] == EMPTY {
      GoodClaim(tb, th.op.key, th.pc.i);
      SetKeyEvolves(s, th.held, q, th.op.key);
    } else {
      SameTables(s, StepClaim(s, t));
    }
  }

  lemma FrameSeek(s: State, t: nat)
    requires TablesOk(s) && ValsOk(s) && Enabled(s, Step(t))
    requires s.threads[t].pc.Seek? || s.threads[t].pc.SeekClaim?
    requires ValidId(s, s.from) && ValidId(s, s.dest) && CarryOk(s, t, s.threads[t])
    ensures Frame(s, StepSeek(s, t), t)
  {
    var th := s.threads[t];
    var tb := s.tables[s.dest];
    if th.pc.SeekClaim? && tb.keys[Pos(th.pc.k, th.pc.i, tb.Size())] == EMPTY {
      GoodClaim(tb, th.pc.k, th.pc.i);
      SetKeyEvolves(s, s.dest, Pos(th.pc.k, th.pc.i, tb.Size()), th.pc.k);
    } else {
      SameTables(s, StepSeek(s, t));
    }
  }

  lemma FrameFill(s: State, t: nat)
    requires TablesOk(s) && ValsOk(s) && Enabled(s, Step(t)) && s.threads[t].pc.Fill?
    requires ValidId(s, s.from) && ValidId(s, s.dest) && CarryOk(s, t, s.threads[t]) && NoMarks(s.tables[s.dest])
    ensures Frame(s, StepSeek(s, t), t)
  {
    var pc := s.threads[t].pc;
    assert SlotOk(s, s.tables[s.dest], pc.q);
    SetValEvolves(s, s.dest, pc.q, pc.was);
  }

  lemma FrameTask(s: State, t: nat)
    requires TablesOk(s) && Enabled(s, Step(t)) && ValidId(s, s.from)
    requires var pc := s.threads[t].pc; pc.Create? || pc.Exchange? || pc.ReadKey?
    ensures Frame(s, StepTask(s, t), t)
  {
    var pc := s.threads[t].pc;
    if pc.Exchange? {
      SetValEvolves(s, s.from, pc.p, MIGRATE);
    } else {
      SameTables(s, StepTask(s, t));
    }
  }

  /** The slot a committed key owns never looks empty to somebody who holds its table. */
  lemma TouchFresh(s: State, t: nat)
    requires Inv(s) && Enabled(s, Step(t)) && s.threads[t].pc.Touch?
    requires s.tables[s.threads[t].held].vals[s.threads[t].pc.p] == EMPTY
    ensures s.threads[t].op.key !in s.committed
  {
    var th := s.threads[t];
    var k, p, tb := th.op.key, th.pc.p, s.tables[th.held];
    assert OpOk(s, th) && ThreadHazardOk(s, th);
    if k in s.committed {
      assert Located(s, k);
      HeldSlotFull(s, th, p);
    }
  }

  lemma HeldSlotFull(s: State, th: Thread, p: nat)
    requires TablesOk(s) && ValsOk(s) && PhaseOk(s) && MarksOk(s) && ThreadHazardOk(s, th) && th.held != NULL
    requires p < s.tables[th.held].Size() && s.tables[th.held].keys[p] in s.committed
    requires Located(s, s.tables[th.held].keys[p])
    ensures var v := s.tables[th.held].vals[p]; v == MIGRATE || v == s.committed[s.tables[th.held].keys[p]]
  {
    var k, tb := s.tables[th.held].keys[p], s.tables[th.held];
    assert k > 0;
    if th.held == s.current {
      var q :| 0 <= q < tb.Size() && tb.keys[q] == k && tb.vals[q] == s.committed[k];
      OneSlotPerKey(tb, p, q);
    } else if s.current == NULL && th.held == s.from {
      var q :| MovedFrom(s, k, s.committed[k], q);
      OneSlotPerKey(tb, p, q);
    } else {
      assert Retired(s, th.held);
    }
  }

  lemma FrameTouch(s: State, t: nat)
    requires Inv(s) && Enabled(s, Step(t)) && s.threads[t].pc.Touch?
    ensures Frame(s, StepTouch(s, t), t)
  {
    var th := s.threads[t];
    if s.tables[th.held].vals[th.pc.p] == EMPTY && th.op.Insert? {
      TouchFresh(s, t);
      SetValEvolves(s, th.held, th.pc.p, th.op.value);
      hide Inv, TablesOk, TablesEvolve;
      FrameSet(s, t);
    } else {
      SameTables(s, StepTouch(s, t));
      hide Inv, TablesOk, TablesEvolve;
    }
  }

  lemma FrameSet(s: State, t: nat)
    requires Enabled(s, Step(t)) && s.threads[t].pc.Touch? && s.threads[t].op.Insert?
    requires s.tables[s.threads[t].held].vals[s.threads[t].pc.p] == EMPTY && s.threads[t].op.key !in s.committed
    requires var s' := SetVal(s, s.threads[t].held, s.threads[t].pc.p, s.threads[t].op.value);
             TablesEvolve(s, s') && TablesOk(s')
    ensures Frame(s, StepTouch(s, t), t)
  {
    var s' := SetVal(s, s.threads[t].held, s.threads[t].pc.p, s.threads[t].op.value);
    assert StepTouch(s, t).tables == s'.tables;
    assert TablesEvolve(s, StepTouch(s, t)) && TablesOk(StepTouch(s, t));
    hide TablesEvolve, TablesOk;
  }

  lemma NewTableGood(n: nat)
    requires n > 0
    ensures Good(NewTable(n)) && NoMarks(NewTable(n))
  {
  }

  lemma FrameEnter(s: State, t: nat)
    requires TablesOk(s) && Enabled(s, Step(t)) && s.threads[t].pc.Enter?
    ensures Frame(s, StepEnter(s, t), t)
  {
    var s', ptr := StepEnter(s, t), s.threads[t].pc.ptr;
    if s.current == ptr && s.from == NULL && IsTable(s, ptr) {
      NewTableGood(2 * s.tables[ptr].Size());
    } else {
      SameTables(s, s');
    }
  }

  lemma FrameFinish(s: State, t: nat)
    requires TablesOk(s) && Enabled(s, Step(t))
    requires var pc := s.threads[t].pc; pc.Leave? || pc.Scan? || pc.Close? || pc.Wait?
    ensures Frame(s, StepFinish(s, t), t)
  {
    var th, s' := s.threads[t], StepFinish(s, t);
    if th.pc.Scan? && th.pc.a < |th.trash| && th.pc.h >= |s.threads| {
      GoodSameKeys(s.tables[th.trash[th.pc.a]], s'.tables[th.trash[th.pc.a]]);
    } else {
      SameTables(s, s');
    }
  }

  /** A thread inside run_migrate runs while the table pointer is null. */
  lemma MigratorRunning(s: State, t: nat)
    requires PhaseOk(s) && t < |s.threads| && MigratorPc(s.threads[t].pc)
    ensures s.current == NULL && ValidId(s, s.from) && ValidId(s, s.dest)
  {
    MigratorCounted(s.threads, t);
  }

  lemma {:induction false} MigratorCounted(threads: seq<Thread>, t: nat)
    requires t < |threads| && MigratorPc(threads[t].pc)
    ensures Migrators(threads) > 0
  {
    if t > 0 {
      MigratorCounted(threads[1..], t - 1);
    }
  }

  lemma FrameStep(s: State, ev: Event)
    requires Inv(s) && Enabled(s, ev)
    ensures Frame(s, Next(s, ev), ev.t)
  {
    hide StepProtect, StepProbe, StepClaim, StepTouch, StepEnter, StepTask, StepSeek, StepFinish;
    hide ValsOk, HazardsOk, LocatedOk;
    var t := ev.t;
    var th := s.threads[t];
    assert OpOk(s, th);
    if ev.Start? {
      SameTables(s, Next(s, ev));
    } else {
      if MigratorPc(th.pc) {
        MigratorRunning(s, t);
        assert CarryOk(s, t, th);
      }
      match th.pc
      case Claim(_) => FrameClaim(s, t);
      case Touch(_) => FrameTouch(s, t);
      case Enter(_) => FrameEnter(s, t);
      case Create | Exchange(_, _) | ReadKey(_, _, _) => FrameTask(s, t);
      case Seek(_, _, _, _, _) | SeekClaim(_, _, _, _, _) => FrameSeek(s, t);
      case Fill(_, _, _, _, _) => FrameFill(s, t);
      case Leave | Scan(_, _) | Close | Wait => FrameFinish(s, t);
      case Load(_) | Store(_) => FrameRead(s, t);
      case Probe(_) => FrameRead(s, t);
      case Done(_) => SameTables(s, Next(s, ev));
    }
  }

  lemma FrameRead(s: State, t: nat)
    requires TablesOk(s) && Enabled(s, Step(t))
    requires var pc := s.threads[t].pc; pc.Load? || pc.Store? || pc.Probe?
    ensures Frame(s, StepThread(s, t), t)
  {
    SameTables(s, StepThread(s, t));
  }

  // ---------------------------------------------------------------------------------------
  // Phases
  // ---------------------------------------------------------------------------------------

  function One(b: bool): int { if b then 1 else 0 }

  lemma {:induction false} MigratorsUpdate(threads: seq<Thread>, t: nat, th: Thread)
    requires t < |threads|
    ensures Migrators(threads[t := th]) == Migrators(threads) - One(MigratorPc(threads[t].pc)) + One(MigratorPc(th.pc))
  {
    if t == 0 {
      assert threads[t := th][1..] == threads[1..];
    } else {
      assert threads[t := th][1..] == threads[1..][t - 1 := th];
      MigratorsUpdate(threads[1..], t - 1, th);
    }
  }

  /** Everything PhaseOk talks about, except the per-thread mutex and the count. */
  predicate SamePhase(s: State, s': State) {
    s'.current == s.current && s'.from == s.from && s'.dest == s.dest && s'.mutex == s.mutex
  }

  predicate FinisherPc(pc: Pc) { pc.Scan? || pc.Close? }

  lemma PhaseSame(s: State, s': State, t: nat)
    requires PhaseOk(s) && Frame(s, s', t) && SamePhase(s, s') && |s'.tables| == |s.tables|
    requires s'.cnt == s.cnt
    requires MigratorPc(s'.threads[t].pc) == MigratorPc(s.threads[t].pc)
    requires FinisherPc(s'.threads[t].pc) == FinisherPc(s.threads[t].pc)
    ensures PhaseOk(s')
  {
    MigratorsUpdate(s.threads, t, s'.threads[t]);
    assert s'.threads == s.threads[t := s'.threads[t]];
  }

  lemma PhaseEnter(s: State, t: nat)
    requires PhaseOk(s) && Enabled(s, Step(t)) && s.threads[t].pc.Enter? && ThreadHazardOk(s, s.threads[t])
    requires Frame(s, StepEnter(s, t), t)
    ensures PhaseOk(StepEnter(s, t)) && !StepEnter(s, t).failed
  {
    var s' := StepEnter(s, t);
    MigratorsUpdate(s.threads, t, s'.threads[t]);
    assert s'.threads == s.threads[t := s'.threads[t]];
  }

  lemma PhaseFinish(s: State, t: nat)
    requires PhaseOk(s) && Enabled(s, Step(t)) && (s.threads[t].pc.Leave? || s.threads[t].pc.Close?)
    requires Frame(s, StepFinish(s, t), t)
    ensures PhaseOk(StepFinish(s, t))
  {
    var s' := StepFinish(s, t);
    if s.threads[t].pc.Leave? {
      MigratorRunning(s, t);
    }
    MigratorsUpdate(s.threads, t, s'.threads[t]);
    assert s'.threads == s.threads[t := s'.threads[t]];
  }

  lemma PhaseStep(s: State, ev: Event)
    requires Inv(s) && Enabled(s, ev) && Frame(s, Next(s, ev), ev.t) && !(ev.Step? && Overflows(s, ev.t))
    ensures PhaseOk(Next(s, ev)) && !Next(s, ev).failed
  {
    hide StepProtect, StepProbe, StepClaim, StepTouch, StepTask, StepSeek, StepEnter;
    hide TablesOk, ValsOk, OpsOk, CarriesOk, MarksOk, LocatedOk;
    var th := s.threads[ev.t];
    assert ThreadHazardOk(s, th);
    hide HazardsOk;
    if ev.Step? && th.pc.Enter? {
      PhaseEnter(s, ev.t);
    } else if ev.Step? && (th.pc.Leave? || th.pc.Close?) {
      PhaseFinish(s, ev.t);
    } else {
      QuietPhase(s, ev);
      PhaseSame(s, Next(s, ev), ev.t);
    }
  }

  /** The only CHECK that can fail: a probe for a place in the new table that finds none. */
  predicate Overflows(s: State, t: nat)
    requires Enabled(s, Step(t))
  {
    var pc := s.threads[t].pc;
    pc.Seek? && pc.i >= Limit(s.tables[s.dest].Size())
  }

  predicate Quiet(s: State, s': State, t: nat) {
    && SamePhase(s, s') && |s'.tables| == |s.tables| && s'.cnt == s.cnt && !s'.failed && t < |s.threads| == |s'.threads|
    && MigratorPc(s'.threads[t].pc) == MigratorPc(s.threads[t].pc)
    && FinisherPc(s'.threads[t].pc) == FinisherPc(s.threads[t].pc)
  }

  lemma QuietTask(s: State, t: nat)
    requires Enabled(s, Step(t)) && !Overflows(s, t)
    requires MigratorPc(s.threads[t].pc) && !s.threads[t].pc.Leave?
    ensures Quiet(s, StepThread(s, t), t)
  {
  }

  lemma QuietPhase(s: State, ev: Event)
    requires Enabled(s, ev) && !(ev.Step? && Overflows(s, ev.t))
    requires ev.Step? ==> !s.threads[ev.t].pc.Enter? && !s.threads[ev.t].pc.Leave? && !s.threads[ev.t].pc.Close?
    ensures Quiet(s, Next(s, ev), ev.t)
  {
    if ev.Step? && MigratorPc(s.threads[ev.t].pc) {
      QuietTask(s, ev.t);
    }
  }

  // ---------------------------------------------------------------------------------------
  // Hazard pointers
  // ---------------------------------------------------------------------------------------

  /** What other threads' events may do to the facts about one thread's pointers. */
  ghost predicate PointersKept(s: State, s': State) {
    && |s.tables| <= |s'.tables|
    && (forall id :: 0 <= id < |s.tables| && s.tables[id].Shape() ==> s'.tables[id].Shape())
    && (forall id :: 0 <= id < |s.tables| && Retired(s, id) ==> Retired(s', id))
    && (s'.current == NULL ==> s'.dest == (if s.current == NULL then s.dest else |s.tables|))
  }

  lemma PointersKeptStep(s: State, ev: Event)
    requires PhaseOk(s) && Enabled(s, ev) && Frame(s, Next(s, ev), ev.t) && !(ev.Step? && Overflows(s, ev.t))
    requires !Next(s, ev).failed
    ensures PointersKept(s, Next(s, ev))
  {
    hide StepProtect, StepProbe, StepClaim, StepTouch, StepTask, StepSeek;
    if ev.Start? || !(s.threads[ev.t].pc.Enter? || s.threads[ev.t].pc.Leave? || s.threads[ev.t].pc.Close?) {
      QuietPhase(s, ev);
    }
  }

  /** A table is deleted only after the scan has seen that nobody holds it. */
  lemma DeletionStep(s: State, ev: Event, id: nat)
    requires HazardsOk(s) && PhaseOk(s) && Enabled(s, ev) && id < |s.tables| <= |Next(s, ev).tables|
    requires Next(s, ev).tables[id].deleted && !s.tables[id].deleted
    ensures Retired(s, id) && forall q :: 0 <= q < |s.threads| ==> s.threads[q].held != id
  {
    var th := s.threads[ev.t];
    assert ThreadHazardOk(s, th) && ScanOk(s, th);
    ScanDeletes(s, ev, id);
  }

  lemma ScanDeletes(s: State, ev: Event, id: nat)
    requires Enabled(s, ev) && id < |s.tables| <= |Next(s, ev).tables|
    requires Next(s, ev).tables[id].deleted && !s.tables[id].deleted
    ensures ev.Step? && var th := s.threads[ev.t];
            th.pc.Scan? && th.pc.a < |th.trash| && th.pc.h >= |s.threads| && th.trash[th.pc.a] == id
  {
  }

  lemma OtherHazard(s: State, s': State, th: Thread)
    requires ThreadHazardOk(s, th) && PointersKept(s, s')
    requires th.held != NULL ==> !s'.tables[th.held].deleted
    ensures ThreadHazardOk(s', th)
  {
  }

  lemma HazardProtect(s: State, t: nat)
    requires PhaseOk(s) && HazardsOk(s) && Enabled(s, Step(t)) && (s.threads[t].pc.Load? || s.threads[t].pc.Store?)
    ensures t < |StepProtect(s, t).threads| && ThreadHazardOk(StepProtect(s, t), StepProtect(s, t).threads[t])
  {
    assert ThreadHazardOk(s, s.threads[t]);
  }

  /** Steps of with_value and run_migrate leave the hazard pointer and the trash alone. */
  predicate SamePointers(th: Thread, th': Thread) {
    && th'.hazard == th.hazard && th'.held == th.held && th'.trash == th.trash
    && !(th'.pc.Idle? || th'.pc.Load? || th'.pc.Store?)
    && (th'.pc.Probe? || th'.pc.Claim? || th'.pc.Touch? ==> th.held != NULL)
    && (th'.pc.Enter? ==> th'.pc.ptr == th.held)
  }

  lemma PointersUnmovedTask(s: State, t: nat)
    requires Enabled(s, Step(t)) && ThreadHazardOk(s, s.threads[t]) && MigratorPc(s.threads[t].pc)
      && !s.threads[t].pc.Leave?
    ensures t < |StepThread(s, t).threads|
      && (!Overflows(s, t) ==> SamePointers(s.threads[t], StepThread(s, t).threads[t]))
  {
  }

  lemma PointersUnmoved(s: State, t: nat)
    requires Enabled(s, Step(t)) && ThreadHazardOk(s, s.threads[t])
    requires var pc := s.threads[t].pc; pc.Probe? || pc.Claim? || pc.Touch? || (MigratorPc(pc) && !pc.Leave?)
    ensures t < |StepThread(s, t).threads|
      && (!Overflows(s, t) ==> SamePointers(s.threads[t], StepThread(s, t).threads[t]))
  {
    hide StepTask, StepSeek, StepFinish, StepEnter;
    if MigratorPc(s.threads[t].pc) {
      PointersUnmovedTask(s, t);
    }
  }

  lemma HazardFinish(s: State, t: nat)
    requires Enabled(s, Step(t)) && var pc := s.threads[t].pc; pc.Leave? || FinisherPc(pc) || pc.Wait?
    requires ThreadHazardOk(StepFinish(s, t), s.threads[t])
    requires s.threads[t].pc.Leave? ==>
               ValidId(StepFinish(s, t), s.from) && (s.cnt == 1 ==> Retired(StepFinish(s, t), s.from))
    ensures t < |StepFinish(s, t).threads| && ThreadHazardOk(StepFinish(s, t), StepFinish(s, t).threads[t])
  {
  }

  lemma HazardRest(s: State, ev: Event)
    requires Enabled(s, ev) && ThreadHazardOk(s, s.threads[ev.t]) && ThreadHazardOk(Next(s, ev), s.threads[ev.t])
    requires ev.Step? ==> s.threads[ev.t].pc.Enter? || s.threads[ev.t].pc.Done?
    ensures ev.t < |Next(s, ev).threads| && ThreadHazardOk(Next(s, ev), Next(s, ev).threads[ev.t])
  {
  }

  lemma OwnHazard(s: State, ev: Event)
    requires PhaseOk(s) && HazardsOk(s) && Enabled(s, ev) && PhaseOk(Next(s, ev)) && PointersKept(s, Next(s, ev))
    requires ev.t < |Next(s, ev).threads| && !(ev.Step? && Overflows(s, ev.t))
    requires ev.Step? && s.threads[ev.t].pc.Leave? ==> s.current == NULL
    requires var h := s.threads[ev.t].held; h != NULL ==> !Next(s, ev).tables[h].deleted
    ensures ThreadHazardOk(Next(s, ev), Next(s, ev).threads[ev.t])
  {
    hide StepProtect, StepProbe, StepClaim, StepTouch, StepTask, StepSeek, StepEnter;
    var th := s.threads[ev.t];
    assert ThreadHazardOk(s, th);
    OtherHazard(s, Next(s, ev), th);
    if ev.Step? && (th.pc.Load? || th.pc.Store?) {
      HazardProtect(s, ev.t);
    } else if ev.Step? && (th.pc.Probe? || th.pc.Claim? || th.pc.Touch? || (MigratorPc(th.pc) && !th.pc.Leave?)) {
      PointersUnmoved(s, ev.t);
    } else if ev.Step? && (th.pc.Leave? || FinisherPc(th.pc) || th.pc.Wait?) {
      HazardFinish(s, ev.t);
    } else {
      HazardRest(s, ev);
    }
  }

  lemma ScanStarts(s: State, ev: Event)
    requires Enabled(s, ev) && !(ev.Step? && s.threads[ev.t].pc.Scan?)
    ensures ev.t < |Next(s, ev).threads| && var pc := Next(s, ev).threads[ev.t].pc; pc.Scan? ==> pc.h == 0
  {
    hide StepProtect, StepProbe, StepClaim, StepTouch, StepEnter, StepTask, StepSeek, StepFinish;
    if ev.Step? {
      if InRunMigrate(s.threads[ev.t].pc) {
        ScanAfterLeave(s, ev.t);
      } else if !s.threads[ev.t].pc.Done? {
        NoScanOutside(s, ev.t);
      }
    }
  }

  lemma ScanAfterLeave(s: State, t: nat)
    requires Enabled(s, Step(t)) && InRunMigrate(s.threads[t].pc) && !s.threads[t].pc.Scan?
    ensures t < |StepThread(s, t).threads| && var pc := StepThread(s, t).threads[t].pc; pc.Scan? ==> pc.h == 0
  {
    hide StepProtect, StepProbe, StepClaim, StepTouch, StepEnter;
  }

  lemma NoScanOutside(s: State, t: nat)
    requires Enabled(s, Step(t)) && !InRunMigrate(s.threads[t].pc) && !s.threads[t].pc.Done?
    ensures t < |StepThread(s, t).threads| && !StepThread(s, t).threads[t].pc.Scan?
  {
    hide StepTask, StepSeek, StepFinish;
  }

  lemma OwnScan(s: State, ev: Event)
    requires HazardsOk(s) && Enabled(s, ev)
    requires |Next(s, ev).threads| == |s.threads|
    requires forall q :: 0 <= q < |s.threads| && q != ev.t ==> Next(s, ev).threads[q] == s.threads[q]
    ensures ScanOk(Next(s, ev), Next(s, ev).threads[ev.t])
  {
    hide StepProtect, StepProbe, StepClaim, StepTouch, StepTask, StepSeek, StepEnter;
    var th := s.threads[ev.t];
    assert ScanOk(s, th) && ThreadHazardOk(s, th);
    if ev.Step? && th.pc.Scan? {
      if th.pc.a < |th.trash| && th.pc.h < |s.threads| {
        assert ThreadHazardOk(s, s.threads[th.pc.h]);
      }
    } else {
      ScanStarts(s, ev);
    }
  }

  /** A thread comes to hold only the current table. */
  lemma HeldStep(s: State, ev: Event)
    requires Enabled(s, ev)
    ensures ev.t < |Next(s, ev).threads|
    ensures var h := Next(s, ev).threads[ev.t].held; h == NULL || h == s.threads[ev.t].held || h == s.current
  {
    if !(ev.Step? && s.threads[ev.t].pc.Load?) {
      HeldKept(s, ev);
    }
  }

  lemma HeldKept(s: State, ev: Event)
    requires Enabled(s, ev) && !(ev.Step? && s.threads[ev.t].pc.Load?)
    ensures ev.t < |Next(s, ev).threads|
    ensures var h := Next(s, ev).threads[ev.t].held; h == NULL || h == s.threads[ev.t].held
  {
    hide StepProtect, StepProbe, StepClaim, StepTouch, StepEnter, StepTask, StepSeek, StepFinish;
    if ev.Step? {
      if InRunMigrate(s.threads[ev.t].pc) {
        HeldInMigrate(s, ev.t);
      } else if !s.threads[ev.t].pc.Done? {
        HeldOutside(s, ev.t);
      }
    }
  }

  predicate InRunMigrate(pc: Pc) { MigratorPc(pc) || FinisherPc(pc) || pc.Wait? }

  lemma HeldInMigrate(s: State, t: nat)
    requires Enabled(s, Step(t)) && InRunMigrate(s.threads[t].pc)
    ensures t < |StepThread(s, t).threads|
    ensures var h := StepThread(s, t).threads[t].held; h == NULL || h == s.threads[t].held
  {
    hide StepProtect, StepProbe, StepClaim, StepTouch, StepEnter;
  }

  lemma HeldOutside(s: State, t: nat)
    requires Enabled(s, Step(t)) && var pc := s.threads[t].pc; !InRunMigrate(pc) && !pc.Load? && !pc.Done?
    ensures t < |StepThread(s, t).threads|
    ensures var h := StepThread(s, t).threads[t].held; h == NULL || h == s.threads[t].held
  {
    hide StepTask, StepSeek, StepFinish;
  }

  lemma OtherScan(s: State, ev: Event, q: nat)
    requires PhaseOk(s) && HazardsOk(s) && Enabled(s, ev) && q < |s.threads| && q != ev.t
    requires |Next(s, ev).threads| == |s.threads|
    requires forall r :: 0 <= r < |s.threads| && r != ev.t ==> Next(s, ev).threads[r] == s.threads[r]
    ensures ScanOk(Next(s, ev), s.threads[q])
  {
    hide Next;
    HeldStep(s, ev);
    assert ScanOk(s, s.threads[q]) && ThreadHazardOk(s, s.threads[q]);
  }

  lemma HazardsStep(s: State, ev: Event)
    requires PhaseOk(s) && HazardsOk(s) && Enabled(s, ev) && Frame(s, Next(s, ev), ev.t) && PhaseOk(Next(s, ev))
    requires !(ev.Step? && Overflows(s, ev.t)) && PointersKept(s, Next(s, ev))
    ensures HazardsOk(Next(s, ev))
  {
    hide Next;
    var s' := Next(s, ev);
    assert ThreadHazardOk(s, s.threads[ev.t]);
    if ev.Step? && s.threads[ev.t].pc.Leave? {
      MigratorRunning(s, ev.t);
    }
    forall id | 0 <= id < |s'.tables| && s'.tables[id].deleted ensures Retired(s', id) {
      FreshAlive(s, ev);
      if !s.tables[id].deleted {
        DeletionStep(s, ev, id);
      }
    }
    forall q | 0 <= q < |s.threads| ensures ThreadHazardOk(s', s'.threads[q]) && ScanOk(s', s'.threads[q]) {
      var th := s.threads[q];
      assert ThreadHazardOk(s, th);
      if th.held != NULL && s'.tables[th.held].deleted {
        DeletionStep(s, ev, th.held);
      }
      if q == ev.t {
        OwnHazard(s, ev);
        OwnScan(s, ev);
      } else {
        OtherHazard(s, s', th);
        OtherScan(s, ev, q);
      }
    }
  }

  lemma FreshAlive(s: State, ev: Event)
    requires Enabled(s, ev)
    ensures forall id :: |s.tables| <= id < |Next(s, ev).tables| ==> !Next(s, ev).tables[id].deleted
  {
  }

  // ---------------------------------------------------------------------------------------
  // insert and find, from inside
  // ---------------------------------------------------------------------------------------

  lemma KnownEvolves(tb: Table, tb': Table, k: int, x: int)
    requires Evolves(tb, tb') && Known(tb, k, x) && k != EMPTY && x != EMPTY
    ensures Known(tb', k, x)
  {
    var p :| 0 <= p < tb.Size() && tb.keys[p] == k && (tb.vals[p] == x || tb.vals[p] == MIGRATE);
    assert tb'.keys[p] == k;
  }

  /** The facts about an operation survive other threads' events. */
  lemma OpKept(s: State, s': State, th: Thread)
    requires OpOk(s, th) && TablesEvolve(s, s') && Remembers(s, s')
    ensures OpOk(s', th)
  {
    if th.held != NULL && ValidId(s, th.held) {
      var tb, tb' := s.tables[th.held], s'.tables[th.held];
      if !th.pc.Idle? && th.base != EMPTY {
        KnownEvolves(tb, tb', th.op.key, th.base);
      }
      if th.pc.Probe? || th.pc.Claim? {
        PassedEvolves(tb, tb', th.op.key, th.pc.i);
      }
    }
  }

  /** A committed key's search cannot run out of table or meet an empty slot. */
  lemma KnownIsFound(tb: Table, k: int, x: int, i: nat)
    requires Good(tb) && Known(tb, k, x) && k != EMPTY && Passed(tb, k, i)
    ensures i < Limit(tb.Size()) && tb.keys[Pos(k, i, tb.Size())] != EMPTY
  {
    var p :| 0 <= p < tb.Size() && tb.keys[p] == k && (tb.vals[p] == x || tb.vals[p] == MIGRATE);
    var j: nat :| PlacedBy(tb, p, j);
    NotPassed(tb, p, j, i);
  }

  /** The table that protect returns knows every committed key. */
  lemma CurrentKnows(s: State, k: int)
    requires PhaseOk(s) && LocatedOk(s) && s.current != NULL && k in s.committed
    ensures Known(s.tables[s.current], k, s.committed[k])
  {
    assert Located(s, k);
  }

  lemma OpProtect(s: State, t: nat)
    requires Inv(s) && Enabled(s, Step(t)) && (s.threads[t].pc.Load? || s.threads[t].pc.Store?)
    ensures t < |StepProtect(s, t).threads| && OpOk(StepProtect(s, t), StepProtect(s, t).threads[t])
  {
    var th := s.threads[t];
    assert OpOk(s, th) && ThreadHazardOk(s, th);
    if th.pc.Load? && s.current == th.pc.saved && s.current != NULL && th.base != EMPTY {
      CurrentKnows(s, th.op.key);
    }
  }

  lemma OpProbe(s: State, t: nat)
    requires TablesOk(s) && Enabled(s, Step(t)) && s.threads[t].pc.Probe? && OpOk(s, s.threads[t])
    ensures t < |StepProbe(s, t).threads| && OpOk(StepProbe(s, t), StepProbe(s, t).threads[t])
  {
    var th := s.threads[t];
    if th.base != EMPTY && th.held != NULL {
      KnownIsFound(s.tables[th.held], th.op.key, th.base, th.pc.i);
    }
  }

  lemma OpClaim(s: State, t: nat)
    requires TablesOk(s) && Enabled(s, Step(t)) && s.threads[t].pc.Claim? && OpOk(s, s.threads[t])
    requires Frame(s, StepClaim(s, t), t) && OpOk(StepClaim(s, t), s.threads[t])
    ensures OpOk(StepClaim(s, t), StepClaim(s, t).threads[t])
  {
  }

  /** What the slot shows that a call has found for its key. */
  lemma TouchSlot(s: State, t: nat)
    requires Inv(s) && Enabled(s, Step(t)) && s.threads[t].pc.Touch?
    ensures var th, tb := s.threads[t], s.tables[s.threads[t].held];
            && OpOk(s, th) && SlotOk(s, tb, th.pc.p) && tb.keys[th.pc.p] == th.op.key
            && (th.op.key in s.committed ==>
                  tb.vals[th.pc.p] == MIGRATE || tb.vals[th.pc.p] == s.committed[th.op.key] != EMPTY)
  {
    var th := s.threads[t];
    assert OpOk(s, th) && ThreadHazardOk(s, th);
    var tb := s.tables[th.held];
    assert SlotOk(s, tb, th.pc.p);
    if th.op.key in s.committed {
      assert Located(s, th.op.key);
      HeldSlotFull(s, th, th.pc.p);
    }
  }

  /** The call has its answer, or goes on to migrate. */
  predicate Ends(s: State, th: Thread, th': Thread) {
    && th'.op.key == th.op.key && th'.op.Insert? == th.op.Insert? && (th.op.Insert? ==> th'.op == th.op)
    && th'.base == th.base && th'.held == th.held
    && (th'.pc.Enter? || th'.pc.Done?)
    && (th'.pc.Done? && th.base != EMPTY ==> th'.pc.r == th.base)
    && (th'.pc.Done? && th.op.Insert? && th.op.value != EMPTY ==>
         th.op.key in s.committed && s.committed[th.op.key] == th'.pc.r)
  }

  lemma OpEnds(s: State, th: Thread, th': Thread)
    requires OpOk(s, th) && !th.pc.Idle? && Ends(s, th, th')
    ensures OpOk(s, th')
  {
  }

  lemma TouchEnds(s: State, t: nat)
    requires Enabled(s, Step(t)) && s.threads[t].pc.Touch? && OpOk(s, s.threads[t])
    requires var th, tb := s.threads[t], s.tables[s.threads[t].held];
             && SlotOk(s, tb, th.pc.p) && tb.keys[th.pc.p] == th.op.key
             && (th.op.key in s.committed ==>
                   tb.vals[th.pc.p] == MIGRATE || tb.vals[th.pc.p] == s.committed[th.op.key] != EMPTY)
    ensures t < |StepTouch(s, t).threads| && Ends(StepTouch(s, t), s.threads[t], StepTouch(s, t).threads[t])
  {
    hide Known, Passed;
  }

  lemma OpTouch(s: State, t: nat)
    requires Inv(s) && Enabled(s, Step(t)) && s.threads[t].pc.Touch?
    requires Frame(s, StepTouch(s, t), t) && OpOk(StepTouch(s, t), s.threads[t])
    ensures OpOk(StepTouch(s, t), StepTouch(s, t).threads[t])
  {
    TouchSlot(s, t);
    TouchEnds(s, t);
    OpEnds(StepTouch(s, t), s.threads[t], StepTouch(s, t).threads[t]);
  }

  lemma OpRest(s: State, ev: Event)
    requires Enabled(s, ev) && OpOk(s, s.threads[ev.t]) && ValsOk(s) && OpOk(Next(s, ev), s.threads[ev.t])
    requires ev.Step? ==> var pc := s.threads[ev.t].pc; pc.Enter? || pc.Done? || pc.Wait?
    requires ev.Start? ==> s.threads[ev.t].held == NULL
    ensures ev.t < |Next(s, ev).threads| && OpOk(Next(s, ev), Next(s, ev).threads[ev.t])
  {
  }

  /** Migrating threads do nothing to their own operation. */
  predicate SameOp(th: Thread, th': Thread) {
    th'.op == th.op && th'.base == th.base && th'.held in {th.held, NULL}
    && !(th'.pc.Idle? || th'.pc.Probe? || th'.pc.Claim? || th'.pc.Touch? || th'.pc.Done?)
  }

  lemma OpTask(s: State, t: nat)
    requires Enabled(s, Step(t)) && !Overflows(s, t) && MigratorPc(s.threads[t].pc) && !s.threads[t].pc.Leave?
    ensures t < |StepThread(s, t).threads| && SameOp(s.threads[t], StepThread(s, t).threads[t])
  {
  }

  lemma OpMigrates(s: State, t: nat)
    requires Enabled(s, Step(t)) && OpOk(StepThread(s, t), s.threads[t]) && !Overflows(s, t)
    requires var pc := s.threads[t].pc; MigratorPc(pc) || FinisherPc(pc)
    ensures t < |StepThread(s, t).threads| && OpOk(StepThread(s, t), StepThread(s, t).threads[t])
  {
    hide StepTask, StepSeek;
    if MigratorPc(s.threads[t].pc) && !s.threads[t].pc.Leave? {
      OpTask(s, t);
    }
  }

  lemma OwnOp(s: State, ev: Event)
    requires Inv(s) && Enabled(s, ev) && Frame(s, Next(s, ev), ev.t) && !(ev.Step? && Overflows(s, ev.t))
    ensures OpOk(Next(s, ev), Next(s, ev).threads[ev.t])
  {
    hide StepProtect, StepProbe, StepClaim, StepTouch, StepTask, StepSeek, StepEnter, StepFinish;
    var th := s.threads[ev.t];
    assert OpOk(s, th) && ThreadHazardOk(s, th);
    OpKept(s, Next(s, ev), th);
    if ev.Start? {
      OpRest(s, ev);
    } else {
      match th.pc
      case Load(_) | Store(_) => OpProtect(s, ev.t);
      case Probe(_) => OpProbe(s, ev.t);
      case Claim(_) => OpClaim(s, ev.t);
      case Touch(_) => OpTouch(s, ev.t);
      case Enter(_) | Done(_) | Wait => OpRest(s, ev);
      case _ => OpMigrates(s, ev.t);
    }
  }

  lemma OpsStep(s: State, ev: Event)
    requires Inv(s) && Enabled(s, ev) && Frame(s, Next(s, ev), ev.t) && !(ev.Step? && Overflows(s, ev.t))
    ensures OpsOk(Next(s, ev))
  {
    hide Next;
    var s' := Next(s, ev);
    forall q | 0 <= q < |s.threads| ensures OpOk(s', s'.threads[q]) {
      assert OpOk(s, s.threads[q]);
      if q == ev.t {
        OwnOp(s, ev);
      } else {
        OpKept(s, s', s.threads[q]);
      }
    }
  }

  // ---------------------------------------------------------------------------------------
  // The migration
  // ---------------------------------------------------------------------------------------

  lemma {:induction false} NoMigrators(threads: seq<Thread>, t: nat)
    requires Migrators(threads) == 0 && t < |threads|
    ensures !MigratorPc(threads[t].pc)
  {
    if t > 0 {
      NoMigrators(threads[1..], t - 1);
    }
  }

  predicate Prefix(a: seq<nat>, b: seq<nat>) {
    |a| <= |b| && forall i :: 0 <= i < |a| ==> b[i] == a[i]
  }

  /** During a migration the two tables stay and the chunks handed out only grow in number. */
  predicate SameMigration(s: State, s': State) {
    s.current == NULL && s'.current == NULL && s'.from == s.from && s'.dest == s.dest && Prefix(s.claims, s'.claims)
  }

  lemma MigrationStep(s: State, ev: Event)
    requires PhaseOk(s) && Enabled(s, ev) && s.current == NULL && Next(s, ev).current == NULL
    requires !(ev.Step? && Overflows(s, ev.t))
    ensures SameMigration(s, Next(s, ev))
  {
    hide StepProtect, StepProbe, StepClaim, StepTouch, StepSeek;
    if ev.Start? || !(s.threads[ev.t].pc.Enter? || s.threads[ev.t].pc.Leave? || s.threads[ev.t].pc.Close?) {
      QuietPhase(s, ev);
    }
    if !(ev.Step? && s.threads[ev.t].pc.Create?) {
      ClaimsKept(s, ev);
    }
  }

  lemma ClaimsKept(s: State, ev: Event)
    requires Enabled(s, ev) && !(ev.Step? && s.threads[ev.t].pc.Create?)
    ensures Next(s, ev).claims == s.claims || (ev.Step? && s.threads[ev.t].pc.Enter? && s.from == NULL)
  {
  }

  lemma CarriedKept(s: State, s': State, p: int, was: int)
    requires ValidId(s, s.from) && s'.from == s.from && TablesEvolve(s, s') && Remembers(s, s') && ValsOk(s)
    requires CarriedOk(s, p, was)
    ensures ValidId(s', s'.from) && CarriedOk(s', p, was) && s'.tables[s.from].keys[p] == s.tables[s.from].keys[p]
  {
  }

  lemma CarryKept(s: State, s': State, t: nat, th: Thread)
    requires ValidId(s, s.from) && ValidId(s, s.dest) && SameMigration(s, s')
    requires TablesEvolve(s, s') && Remembers(s, s') && ValsOk(s) && CarryOk(s, t, th)
    ensures ValidId(s', s'.from) && ValidId(s', s'.dest) && CarryOk(s', t, th)
  {
    assert Evolves(s.tables[s.from], s'.tables[s.from]) && Evolves(s.tables[s.dest], s'.tables[s.dest]);
    if th.pc.ReadKey? || th.pc.Seek? || th.pc.SeekClaim? || th.pc.Fill? {
      CarriedKept(s, s', th.pc.p, th.pc.was);
      assert s.tables[s.from].keys[th.pc.p] > 0;
      if th.pc.Seek? || th.pc.SeekClaim? {
        PassedEvolves(s.tables[s.dest], s'.tables[s.dest], th.pc.k, th.pc.i);
      }
    }
  }

  lemma CarryCreate(s: State, t: nat)
    requires Enabled(s, Step(t)) && s.threads[t].pc.Create? && ValidId(s, s.from) && ValidId(s, s.dest)
    ensures t < |StepTask(s, t).threads| && CarryOk(StepTask(s, t), t, StepTask(s, t).threads[t])
  {
    var c := |s.claims|;
    assert c * CHUNK / CHUNK == c && (c * CHUNK + CHUNK - 1) / CHUNK == c;
  }

  lemma CarryExchange(s: State, t: nat)
    requires Enabled(s, Step(t)) && s.threads[t].pc.Exchange? && ValidId(s, s.from) && ValidId(s, s.dest)
      && s.from != s.dest
    requires CarryOk(s, t, s.threads[t]) && ValsOk(s)
    requires s.tables[s.from].vals[s.threads[t].pc.p] != MIGRATE
    ensures t < |StepTask(s, t).threads| && ValidId(StepTask(s, t), s.from) && ValidId(StepTask(s, t), s.dest)
    ensures CarryOk(StepTask(s, t), t, StepTask(s, t).threads[t])
  {
    assert SlotOk(s, s.tables[s.from], s.threads[t].pc.p);
  }

  lemma CarryReadKey(s: State, t: nat)
    requires Enabled(s, Step(t)) && s.threads[t].pc.ReadKey? && ValidId(s, s.from) && ValidId(s, s.dest)
    requires CarryOk(s, t, s.threads[t])
    ensures t < |StepTask(s, t).threads| && CarryOk(StepTask(s, t), t, StepTask(s, t).threads[t])
  {
  }

  lemma CarrySeek(s: State, t: nat)
    requires Enabled(s, Step(t)) && (s.threads[t].pc.Seek? || s.threads[t].pc.SeekClaim?) && !Overflows(s, t)
    requires ValidId(s, s.from) && ValidId(s, s.dest) && s.from != s.dest && CarryOk(s, t, s.threads[t])
    ensures var s' := StepSeek(s, t);
            t < |s'.threads| && ValidId(s', s.from) && ValidId(s', s.dest) && CarryOk(s', t, s'.threads[t])
  {
  }

  lemma CarryFill(s: State, t: nat)
    requires Enabled(s, Step(t)) && s.threads[t].pc.Fill?
    requires ValidId(s, s.from) && ValidId(s, s.dest) && s.from != s.dest && CarryOk(s, t, s.threads[t])
    ensures var s' := StepSeek(s, t);
            t < |s'.threads| && ValidId(s', s.from) && ValidId(s', s.dest) && CarryOk(s', t, s'.threads[t])
  {
  }

  /** A thread that is not migrating after an event, or has just joined, has nothing to answer for. */
  lemma CarryIdle(s: State, ev: Event)
    requires Enabled(s, ev) && !(ev.Step? && MigratorPc(s.threads[ev.t].pc))
    ensures ev.t < |Next(s, ev).threads|
      && (MigratorPc(Next(s, ev).threads[ev.t].pc) ==> Next(s, ev).threads[ev.t].pc.Create?)
  {
    hide StepProtect, StepProbe, StepClaim, StepTouch, StepEnter, StepTask, StepSeek, StepFinish;
    if ev.Step? {
      var pc := s.threads[ev.t].pc;
      if FinisherPc(pc) || pc.Wait? {
        FinishesOutside(s, ev.t);
      } else if !pc.Done? {
        ComesToCreate(s, ev.t);
      }
    }
  }

  lemma FinishesOutside(s: State, t: nat)
    requires Enabled(s, Step(t)) && var pc := s.threads[t].pc; FinisherPc(pc) || pc.Wait?
    ensures t < |StepFinish(s, t).threads| && !MigratorPc(StepFinish(s, t).threads[t].pc)
  {
  }

  lemma ComesToCreate(s: State, t: nat)
    requires Enabled(s, Step(t)) && var pc := s.threads[t].pc; !InRunMigrate(pc) && !pc.Done?
    ensures t < |StepThread(s, t).threads|
    ensures var pc := StepThread(s, t).threads[t].pc; MigratorPc(pc) ==> pc.Create?
  {
    hide StepTask, StepSeek, StepFinish, StepEnter;
    if s.threads[t].pc.Enter? {
      EntersCreate(s, t);
    }
  }

  lemma EntersCreate(s: State, t: nat)
    requires Enabled(s, Step(t)) && s.threads[t].pc.Enter?
    ensures t < |StepEnter(s, t).threads|
    ensures var pc := StepEnter(s, t).threads[t].pc; MigratorPc(pc) ==> pc.Create?
  {
  }

  lemma OwnCarry(s: State, ev: Event)
    requires Inv(s) && Enabled(s, ev) && Frame(s, Next(s, ev), ev.t) && !(ev.Step? && Overflows(s, ev.t))
    requires PhaseOk(Next(s, ev)) && Next(s, ev).current == NULL
    ensures CarryOk(Next(s, ev), ev.t, Next(s, ev).threads[ev.t])
  {
    hide StepProtect, StepProbe, StepClaim, StepTouch, StepTask, StepSeek, StepEnter;
    hide TablesOk, HazardsOk, OpsOk, LocatedOk, Frame;
    var t := ev.t;
    var th := s.threads[t];
    if ev.Step? && MigratorPc(th.pc) {
      MigratorRunning(s, t);
      assert CarryOk(s, t, th);
      match th.pc
      case Create => CarryCreate(s, t);
      case Exchange(p, end) =>
        assert ProgressOk(s, p);
        CarryExchange(s, t);
      case ReadKey(_, _, _) => CarryReadKey(s, t);
      case Seek(_, _, _, _, _) | SeekClaim(_, _, _, _, _) => CarrySeek(s, t);
      case Fill(_, _, _, _, _) => CarryFill(s, t);
      case Leave =>
    } else {
      CarryIdle(s, ev);
    }
  }

  lemma CarriesStep(s: State, ev: Event)
    requires Inv(s) && Enabled(s, ev) && Frame(s, Next(s, ev), ev.t) && !(ev.Step? && Overflows(s, ev.t))
    requires PhaseOk(Next(s, ev))
    ensures CarriesOk(Next(s, ev))
  {
    hide Next;
    var s' := Next(s, ev);
    if s'.current == NULL {
      OwnCarry(s, ev);
      if s.current == NULL {
        MigrationStep(s, ev);
      }
      forall q | 0 <= q < |s'.threads| ensures CarryOk(s', q, s'.threads[q]) {
        if q != ev.t {
          if s.current == NULL {
            assert CarryOk(s, q, s.threads[q]);
            CarryKept(s, s', q, s.threads[q]);
          } else {
            NoMigrators(s.threads, q);
          }
        }
      }
    }
  }

  // Marks

  /** Only the exchange in run_task leaves a migrate_value behind. */
  lemma MarkStep(s: State, ev: Event, id: nat, p: nat)
    requires Inv(s) && Enabled(s, ev) && Frame(s, Next(s, ev), ev.t)
    requires id < |s.tables| && p < s.tables[id].Size() && s.tables[id].vals[p] != MIGRATE
    requires Evolves(s.tables[id], Next(s, ev).tables[id]) && Next(s, ev).tables[id].vals[p] == MIGRATE
    ensures ev.Step? && s.threads[ev.t].pc.Exchange? && s.threads[ev.t].pc.p == p && s.from == id && s.current == NULL
  {
    hide StepProtect, StepProbe, StepClaim, StepEnter, StepFinish, StepTouch, StepTask, StepSeek;
    var th := s.threads[ev.t];
    assert OpOk(s, th);
    if ev.Step? {
      if MigratorPc(th.pc) {
        MigratorRunning(s, ev.t);
        assert CarryOk(s, ev.t, th);
        MarkByTask(s, ev.t, id, p);
      } else {
        MarkByOp(s, ev.t, id, p);
      }
    }
  }

  lemma MarkByTask(s: State, t: nat, id: nat, p: nat)
    requires Enabled(s, Step(t)) && MigratorPc(s.threads[t].pc) && ValidId(s, s.from) && ValidId(s, s.dest)
    requires CarryOk(s, t, s.threads[t]) && id < |s.tables| <= |StepThread(s, t).tables| && s.tables[id].Shape()
    requires p < s.tables[id].Size() && s.tables[id].vals[p] != MIGRATE
      && |StepThread(s, t).tables[id].vals| == s.tables[id].Size()
    requires StepThread(s, t).tables[id].vals[p] == MIGRATE
    ensures s.threads[t].pc.Exchange? && s.threads[t].pc.p == p && s.from == id
  {
  }

  lemma MarkByOp(s: State, t: nat, id: nat, p: nat)
    requires Enabled(s, Step(t)) && !MigratorPc(s.threads[t].pc) && s.threads[t].op.Insert? ==>
      s.threads[t].op.value != MIGRATE
    requires Enabled(s, Step(t)) && !MigratorPc(s.threads[t].pc) && id < |s.tables| <= |StepThread(s, t).tables|
    requires s.tables[id].Shape() && p < s.tables[id].Size()
      && |StepThread(s, t).tables[id].vals| == s.tables[id].Size()
    ensures s.tables[id].vals[p] != MIGRATE ==> StepThread(s, t).tables[id].vals[p] != MIGRATE
  {
  }

  lemma NoMarksKept(s: State, ev: Event, id: nat)
    requires Inv(s) && Enabled(s, ev) && Frame(s, Next(s, ev), ev.t)
    requires id < |s.tables| && NoMarks(s.tables[id]) && !(s.current == NULL && id == s.from)
    ensures NoMarks(Next(s, ev).tables[id])
  {
    hide Next;
    var tb' := Next(s, ev).tables[id];
    assert Evolves(s.tables[id], tb');
    forall p | 0 <= p < tb'.Size() ensures tb'.vals[p] != MIGRATE {
      if tb'.vals[p] == MIGRATE {
        MarkStep(s, ev, id, p);
      }
    }
  }

  lemma TaskPending(s: State, t: nat, p: nat)
    requires Enabled(s, Step(t)) && !Overflows(s, t) && MigratorPc(s.threads[t].pc) && !s.threads[t].pc.Create?
    ensures t < |StepThread(s, t).threads| &&
            (Pending(StepThread(s, t).threads[t], p) <==>
              Pending(s.threads[t], p) && !(s.threads[t].pc.Exchange? && s.threads[t].pc.p == p))
  {
  }

  /** How the acting thread's claimed slots change. */
  lemma OwnPending(s: State, ev: Event, p: nat)
    requires Enabled(s, ev) && !(ev.Step? && Overflows(s, ev.t)) && ev.t < |Next(s, ev).threads|
    requires !(ev.Step? && s.threads[ev.t].pc.Create?)
    ensures Pending(Next(s, ev).threads[ev.t], p) <==>
              Pending(s.threads[ev.t], p) && !(ev.Step? && s.threads[ev.t].pc.Exchange? && s.threads[ev.t].pc.p == p)
  {
    if ev.Step? && MigratorPc(s.threads[ev.t].pc) {
      TaskPending(s, ev.t, p);
    } else {
      CarryIdle(s, ev);
    }
  }

  lemma CreatePending(s: State, t: nat, p: nat)
    requires Enabled(s, Step(t)) && s.threads[t].pc.Create? && t < |StepTask(s, t).threads|
      && p < s.tables[s.from].Size()
    ensures Pending(StepTask(s, t).threads[t], p) <==> p / CHUNK == |s.claims|
  {
    var c := |s.claims|;
    assert p / CHUNK == c <==> c * CHUNK <= p < c * CHUNK + CHUNK;
  }

  lemma ProgressCreate(s: State, t: nat, p: nat)
    requires Enabled(s, Step(t)) && s.threads[t].pc.Create? && ValidId(s, s.from) && p < s.tables[s.from].Size()
    requires ProgressOk(s, p)
    ensures var s' := StepTask(s, t); ValidId(s', s.from) && s'.from == s.from && ProgressOk(s', p)
  {
    CreatePending(s, t, p);
  }

  lemma ProgressStep(s: State, ev: Event, p: nat)
    requires Inv(s) && Enabled(s, ev) && Frame(s, Next(s, ev), ev.t) && !(ev.Step? && Overflows(s, ev.t))
    requires SameMigration(s, Next(s, ev)) && p < s.tables[s.from].Size()
    ensures ValidId(Next(s, ev), s.from) && ProgressOk(Next(s, ev), p)
  {
    hide StepProtect, StepProbe, StepClaim, StepTouch, StepTask, StepSeek, StepEnter, StepFinish;
    var s', th := Next(s, ev), s.threads[ev.t];
    assert ProgressOk(s, p) && Evolves(s.tables[s.from], s'.tables[s.from]);
    if ev.Step? && th.pc.Create? {
      ProgressCreate(s, ev.t, p);
    } else {
      ClaimsKept(s, ev);
      OwnPending(s, ev, p);
      if ev.Step? && MigratorPc(th.pc) {
        assert CarryOk(s, ev.t, th);
      }
      if s.tables[s.from].vals[p] != MIGRATE && s'.tables[s.from].vals[p] == MIGRATE {
        MarkStep(s, ev, s.from, p);
      } else if s.tables[s.from].vals[p] != MIGRATE && ev.Step? && th.pc.Exchange? && th.pc.p == p {
        ExchangeMarks(s, ev.t);
      }
    }
  }

  lemma ExchangeMarks(s: State, t: nat)
    requires Enabled(s, Step(t)) && s.threads[t].pc.Exchange?
    ensures ValidId(StepThread(s, t), s.from) && s.threads[t].pc.p < StepThread(s, t).tables[s.from].Size()
    ensures StepThread(s, t).tables[s.from].vals[s.threads[t].pc.p] == MIGRATE
  {
  }

  lemma {:induction false} OnlyMigrator(threads: seq<Thread>, t: nat, q: nat)
    requires t < |threads| && q < |threads| && q != t && MigratorPc(threads[t].pc) && Migrators(threads) == 1
    ensures !MigratorPc(threads[q].pc)
  {
    if t == 0 {
      NoMigrators(threads[1..], q - 1);
    } else {
      MigratorCounted(threads[1..], t - 1);
      if q > 0 {
        OnlyMigrator(threads[1..], t - 1, q - 1);
      }
    }
  }

  /** When the last thread leaves run_migrate, every slot has been dealt with. */
  lemma MigrationComplete(s: State, t: nat, p: nat)
    requires Inv(s) && t < |s.threads| && s.threads[t].pc.Leave? && s.cnt == 1
    requires ValidId(s, s.from) && p < s.tables[s.from].Size()
    ensures s.tables[s.from].vals[p] == MIGRATE && p / CHUNK < |s.claims| && s.claims[p / CHUNK] < |s.threads|
    ensures !Carrying(s.threads[s.claims[p / CHUNK]], p)
  {
    MigratorRunning(s, t);
    assert CarryOk(s, t, s.threads[t]) && ProgressOk(s, p);
    assert p / CHUNK < |s.claims|;
    var q := s.claims[p / CHUNK];
    if q != t {
      OnlyMigrator(s.threads, t, q);
    }
  }

  lemma RetiredStep(s: State, ev: Event, id: nat)
    requires Inv(s) && Enabled(s, ev) && Frame(s, Next(s, ev), ev.t) && PhaseOk(Next(s, ev))
    requires !(ev.Step? && Overflows(s, ev.t))
    requires id < |Next(s, ev).tables| && Retired(Next(s, ev), id)
    ensures AllMarks(Next(s, ev).tables[id])
  {
    if id < |s.tables| && Retired(s, id) {
      StaysMarked(s, Next(s, ev), id);
    } else {
      RetiresByLeaving(s, ev, id);
      MigratorRunning(s, ev.t);
      hide Next, TablesOk, ValsOk, PhaseOk, HazardsOk, OpsOk, CarriesOk, MarksOk, LocatedOk;
      forall p | 0 <= p < Next(s, ev).tables[id].Size() ensures Next(s, ev).tables[id].vals[p] == MIGRATE {
        MigrationComplete(s, ev.t, p);
      }
    }
  }

  lemma StaysMarked(s: State, s': State, id: nat)
    requires TablesEvolve(s, s') && id < |s.tables| && AllMarks(s.tables[id])
    ensures AllMarks(s'.tables[id])
  {
    assert Evolves(s.tables[id], s'.tables[id]);
  }

  /** A table goes out of use when the last thread leaves the migration out of it. */
  lemma RetiresByLeaving(s: State, ev: Event, id: nat)
    requires PhaseOk(s) && Enabled(s, ev) && PhaseOk(Next(s, ev)) && !(ev.Step? && Overflows(s, ev.t))
    requires id < |Next(s, ev).tables| && Retired(Next(s, ev), id) && !(id < |s.tables| && Retired(s, id))
    ensures ev.Step? && s.threads[ev.t].pc.Leave? && s.cnt == 1 && id == s.from && Next(s, ev).tables == s.tables
  {
    hide StepProtect, StepProbe, StepClaim, StepTouch, StepTask, StepSeek;
    var th := s.threads[ev.t];
    if ev.Step? && (th.pc.Enter? || th.pc.Leave? || th.pc.Close?) {
      if th.pc.Leave? {
        MigratorRunning(s, ev.t);
      }
    } else {
      QuietPhase(s, ev);
    }
  }

  lemma DestNoMarks(s: State, ev: Event)
    requires Inv(s) && Enabled(s, ev) && Frame(s, Next(s, ev), ev.t) && PhaseOk(Next(s, ev))
    requires !(ev.Step? && Overflows(s, ev.t))
    ensures var s' := Next(s, ev); NoMarks(s'.tables[if s'.current == NULL then s'.dest else s'.current])
  {
    hide StepProtect, StepProbe, StepClaim, StepTouch, StepTask, StepSeek;
    var s', th := Next(s, ev), s.threads[ev.t];
    if s.current == NULL {
      NoMarksKept(s, ev, s.dest);
    } else {
      NoMarksKept(s, ev, s.current);
    }
    if ev.Start? || !(th.pc.Enter? || th.pc.Leave? || th.pc.Close?) {
      QuietPhase(s, ev);
    } else if th.pc.Leave? {
      MigratorRunning(s, ev.t);
    }
  }

  lemma MarksStep(s: State, ev: Event)
    requires Inv(s) && Enabled(s, ev) && Frame(s, Next(s, ev), ev.t) && PhaseOk(Next(s, ev))
    requires !(ev.Step? && Overflows(s, ev.t))
    ensures MarksOk(Next(s, ev))
  {
    hide Next;
    var s' := Next(s, ev);
    DestNoMarks(s, ev);
    forall id | 0 <= id < |s'.tables| && Retired(s', id) ensures AllMarks(s'.tables[id]) {
      RetiredStep(s, ev, id);
    }
    if s'.current == NULL {
      if s.current == NULL {
        MigrationStep(s, ev);
        forall p | 0 <= p < s'.tables[s'.from].Size() ensures ProgressOk(s', p) {
          ProgressStep(s, ev, p);
        }
      } else {
        MigrationStarts(s, ev);
      }
    }
  }

  lemma MigrationStarts(s: State, ev: Event)
    requires Inv(s) && Enabled(s, ev) && PhaseOk(Next(s, ev)) && s.current != NULL && Next(s, ev).current == NULL
    requires !(ev.Step? && Overflows(s, ev.t))
    ensures var s' := Next(s, ev);
            s'.from == s.current && s'.tables[s'.from] == s.tables[s.current] &&
            forall p :: 0 <= p < s'.tables[s'.from].Size() ==> ProgressOk(s', p)
  {
    hide StepProtect, StepProbe, StepClaim, StepTouch, StepTask, StepSeek;
    if ev.Start? || !(s.threads[ev.t].pc.Enter? || s.threads[ev.t].pc.Leave? || s.threads[ev.t].pc.Close?) {
      QuietPhase(s, ev);
    } else if s.threads[ev.t].pc.Leave? {
      MigratorRunning(s, ev.t);
    }
  }

  // ---------------------------------------------------------------------------------------
  // No committed value is out of reach
  // ---------------------------------------------------------------------------------------

  lemma HoldsKept(tb: Table, tb': Table, k: int, x: int)
    requires Evolves(tb, tb') && NoMarks(tb') && Holds(tb, k, x) && k != EMPTY && x != EMPTY
    ensures Holds(tb', k, x)
  {
    var p :| 0 <= p < tb.Size() && tb.keys[p] == k && tb.vals[p] == x;
    assert tb'.keys[p] == k && tb'.vals[p] == x;
  }

  /** A commitment is made in the current table, or in the old one while it is being migrated. */
  lemma LocatedNew(s: State, t: nat, k: int)
    requires Inv(s) && Enabled(s, Step(t)) && s.threads[t].pc.Touch? && Frame(s, StepTouch(s, t), t)
    requires PhaseOk(StepTouch(s, t)) && k in StepTouch(s, t).committed && k !in s.committed
    ensures Located(StepTouch(s, t), k)
  {
    var th, s' := s.threads[t], StepTouch(s, t);
    NewValueHere(s, t, k);
    hide Inv, Frame, StepTouch, Retired;
    if s.current == NULL {
      assert MovedFrom(s', k, s'.committed[k], th.pc.p);
    }
  }

  /** A key gets its value in a table that is in use. */
  lemma NewValueHere(s: State, t: nat, k: int)
    requires Inv(s) && Enabled(s, Step(t)) && s.threads[t].pc.Touch?
    requires k in StepTouch(s, t).committed && k !in s.committed
    ensures var th, s' := s.threads[t], StepTouch(s, t);
            && s'.current == s.current && s'.from == s.from && s'.dest == s.dest && s'.claims == s.claims
            && ValidId(s', th.held) && th.held == (if s.current == NULL then s.from else s.current)
            && th.pc.p < s'.tables[th.held].Size()
            && s'.tables[th.held].keys[th.pc.p] == k && s'.tables[th.held].vals[th.pc.p] == s'.committed[k]
  {
    var th := s.threads[t];
    assert OpOk(s, th) && ThreadHazardOk(s, th);
    assert Retired(s, th.held) ==> AllMarks(s.tables[th.held]);
    hide TablesOk, ValsOk, HazardsOk, OpsOk, CarriesOk, LocatedOk, OpOk;
  }

  /** One step of a slot's way from the old table to the new one. */
  lemma MovedStep(s: State, ev: Event, k: int, x: int, p: nat)
    requires Inv(s) && Enabled(s, ev) && Frame(s, Next(s, ev), ev.t) && !(ev.Step? && Overflows(s, ev.t))
    requires SameMigration(s, Next(s, ev)) && NoMarks(Next(s, ev).tables[s.dest])
    requires ValidId(Next(s, ev), s.from) && ValidId(Next(s, ev), s.dest)
    requires k in s.committed && s.committed[k] == x && MovedFrom(s, k, x, p)
    ensures MovedFrom(Next(s, ev), k, x, p)
  {
    hide Next;
    var s', from, dest := Next(s, ev), s.tables[s.from], s.tables[s.dest];
    assert Evolves(from, s'.tables[s.from]) && Evolves(dest, s'.tables[s.dest]);
    assert ProgressOk(s, p);
    if Holds(dest, k, x) {
      HoldsKept(dest, s'.tables[s.dest], k, x);
    } else if from.vals[p] == x {
      if s'.tables[s.from].vals[p] == MIGRATE {
        MarkStep(s, ev, s.from, p);
        ExchangeCarries(s, ev.t);
        assert CarryOk(s, ev.t, s.threads[ev.t]);
      }
    } else {
      var q := s.claims[p / CHUNK];
      if q == ev.t {
        CarrierStep(s, ev, k, x, p);
      }
    }
  }

  lemma ExchangeCarries(s: State, t: nat)
    requires Enabled(s, Step(t)) && s.threads[t].pc.Exchange?
    requires s.tables[s.from].vals[s.threads[t].pc.p] != EMPTY
    ensures t < |Next(s, Step(t)).threads| && Carrying(Next(s, Step(t)).threads[t], s.threads[t].pc.p)
  {
  }

  lemma CarrierStep(s: State, ev: Event, k: int, x: int, p: nat)
    requires Inv(s) && Enabled(s, ev) && Frame(s, Next(s, ev), ev.t) && !(ev.Step? && Overflows(s, ev.t))
    requires s.current == NULL && Carrying(s.threads[ev.t], p)
    requires ValidId(s, s.from) && p < s.tables[s.from].Size() && s.tables[s.from].keys[p] == k
    requires k in s.committed && s.committed[k] == x
    requires ValidId(Next(s, ev), s.dest) && NoMarks(Next(s, ev).tables[s.dest])
    ensures Carrying(Next(s, ev).threads[ev.t], p) || Holds(Next(s, ev).tables[s.dest], k, x)
  {
    var s', th := Next(s, ev), s.threads[ev.t];
    assert CarryOk(s, ev.t, th) && CarriedOk(s, p, th.pc.was);
    if th.pc.Fill? {
      assert s'.tables[s.dest].keys[th.pc.q] == k && s'.tables[s.dest].vals[th.pc.q] == x;
    }
  }

  lemma LocatedStep(s: State, ev: Event, k: int)
    requires Inv(s) && Enabled(s, ev) && Frame(s, Next(s, ev), ev.t) && !(ev.Step? && Overflows(s, ev.t))
    requires PhaseOk(Next(s, ev)) && MarksOk(Next(s, ev)) && k in s.committed
    ensures k in Next(s, ev).committed && Located(Next(s, ev), k)
  {
    hide Next;
    var s', x := Next(s, ev), s.committed[k];
    assert Located(s, k) && k > 0 && IsValue(x);
    if s.current != NULL {
      HoldsStays(s, ev, k, x);
    } else {
      var p :| MovedFrom(s, k, x, p);
      if s'.current == NULL {
        MigrationStep(s, ev);
        MovedStep(s, ev, k, x, p);
      } else {
        MigrationEnds(s, ev);
        MigrationComplete(s, ev.t, p);
        HoldsKept(s.tables[s.dest], s'.tables[s'.current], k, x);
      }
    }
  }

  lemma MigrationEnds(s: State, ev: Event)
    requires PhaseOk(s) && Enabled(s, ev) && s.current == NULL && Next(s, ev).current != NULL
    requires !(ev.Step? && Overflows(s, ev.t))
    ensures ev.Step? && s.threads[ev.t].pc.Leave? && s.cnt == 1 && Next(s, ev).current == s.dest
  {
    hide StepProtect, StepProbe, StepClaim, StepTouch, StepTask, StepSeek;
    if ev.Start? || !(s.threads[ev.t].pc.Enter? || s.threads[ev.t].pc.Leave? || s.threads[ev.t].pc.Close?) {
      QuietPhase(s, ev);
    }
  }

  lemma HoldsStays(s: State, ev: Event, k: int, x: int)
    requires Inv(s) && Enabled(s, ev) && Frame(s, Next(s, ev), ev.t) && !(ev.Step? && Overflows(s, ev.t))
    requires PhaseOk(Next(s, ev)) && MarksOk(Next(s, ev)) && s.current != NULL && k in s.committed
      && s.committed[k] == x
    requires Holds(s.tables[s.current], k, x) && k != EMPTY && IsValue(x)
    ensures Located(Next(s, ev), k)
  {
    hide Next;
    var s' := Next(s, ev);
    CurrentStays(s, ev);
    NoMarksKept(s, ev, s.current);
    HoldsKept(s.tables[s.current], s'.tables[s.current], k, x);
    if s'.current == NULL {
      var p :| 0 <= p < s'.tables[s.current].Size() && s'.tables[s.current].keys[p] == k
        && s'.tables[s.current].vals[p] == x;
      assert MovedFrom(s', k, x, p);
    }
  }

  lemma CurrentStays(s: State, ev: Event)
    requires PhaseOk(s) && Enabled(s, ev) && s.current != NULL && !(ev.Step? && Overflows(s, ev.t))
    ensures var s' := Next(s, ev); if s'.current == NULL then s'.from == s.current else s'.current == s.current
  {
    hide StepProtect, StepProbe, StepClaim, StepTouch, StepTask, StepSeek;
    if ev.Start? || !(s.threads[ev.t].pc.Enter? || s.threads[ev.t].pc.Leave? || s.threads[ev.t].pc.Close?) {
      QuietPhase(s, ev);
    } else if s.threads[ev.t].pc.Leave? {
      MigratorRunning(s, ev.t);
    }
  }

  /** Commitments are made by insert's compare-and-swap alone. */
  lemma CommitStep(s: State, ev: Event, k: int)
    requires Enabled(s, ev) && k in Next(s, ev).committed && k !in s.committed
    ensures ev.Step? && s.threads[ev.t].pc.Touch?
  {
  }

  lemma LocatedOkStep(s: State, ev: Event)
    requires Inv(s) && Enabled(s, ev) && Frame(s, Next(s, ev), ev.t) && !(ev.Step? && Overflows(s, ev.t))
    requires PhaseOk(Next(s, ev)) && MarksOk(Next(s, ev))
    ensures LocatedOk(Next(s, ev))
  {
    hide StepTouch, StepProtect, StepProbe, StepClaim, StepTask, StepSeek, StepEnter, StepFinish;
    forall k | k in Next(s, ev).committed ensures Located(Next(s, ev), k) {
      if k in s.committed {
        LocatedStep(s, ev, k);
      } else {
        CommitStep(s, ev, k);
        LocatedNew(s, ev.t, k);
      }
    }
  }

  // Values

  lemma SlotStep(s: State, ev: Event, id: nat, p: nat)
    requires Inv(s) && Enabled(s, ev) && Frame(s, Next(s, ev), ev.t) && !(ev.Step? && Overflows(s, ev.t))
    requires id < |s.tables| && p < s.tables[id].Size()
    ensures Evolves(s.tables[id], Next(s, ev).tables[id]) && SlotOk(Next(s, ev), Next(s, ev).tables[id], p)
  {
    hide StepProtect, StepProbe, StepClaim, StepTouch, StepTask, StepSeek, StepEnter, StepFinish;
    var s', th := Next(s, ev), s.threads[ev.t];
    assert SlotOk(s, s.tables[id], p) && OpOk(s, th);
    assert Evolves(s.tables[id], s'.tables[id]);
    if ev.Step? && MigratorPc(th.pc) {
      MigratorRunning(s, ev.t);
      assert CarryOk(s, ev.t, th);
    }
    if s.tables[id].vals[p] == EMPTY && IsValue(s'.tables[id].vals[p]) {
      FilledBy(s, ev, id, p);
    } else if IsValue(s'.tables[id].vals[p]) {
      assert s.tables[id].keys[p] > 0;
    }
  }

  /** An empty value is filled by insert, with the value it commits, or by the carrier of that value. */
  lemma FilledBy(s: State, ev: Event, id: nat, p: nat)
    requires Enabled(s, ev) && id < |s.tables| <= |Next(s, ev).tables| && s.tables[id].Shape()
      && p < s.tables[id].Size()
    requires OpOk(s, s.threads[ev.t])
    requires ev.Step? && MigratorPc(s.threads[ev.t].pc) ==>
               ValidId(s, s.from) && ValidId(s, s.dest) && CarryOk(s, ev.t, s.threads[ev.t])
    requires Next(s, ev).tables[id].Shape() && Next(s, ev).tables[id].Size() == s.tables[id].Size()
    requires s.tables[id].vals[p] == EMPTY && IsValue(Next(s, ev).tables[id].vals[p])
    ensures SlotOk(Next(s, ev), Next(s, ev).tables[id], p)
  {
  }

  lemma ValsStep(s: State, ev: Event)
    requires Inv(s) && Enabled(s, ev) && Frame(s, Next(s, ev), ev.t) && !(ev.Step? && Overflows(s, ev.t))
    ensures ValsOk(Next(s, ev))
  {
    hide Next;
    var s' := Next(s, ev);
    FreshEmpty(s, ev);
    CommittedSane(s, ev);
    forall id, p | 0 <= id < |s'.tables| && s'.tables[id].Shape() && 0 <= p < s'.tables[id].Size()
      ensures SlotOk(s', s'.tables[id], p)
    {
      if id < |s.tables| {
        assert Evolves(s.tables[id], s'.tables[id]);
        SlotStep(s, ev, id, p);
      }
    }
  }

  lemma FreshEmpty(s: State, ev: Event)
    requires Enabled(s, ev)
    ensures forall id :: |s.tables| <= id < |Next(s, ev).tables| ==>
              forall p :: 0 <= p < |Next(s, ev).tables[id].vals| ==> Next(s, ev).tables[id].vals[p] == EMPTY
  {
  }

  lemma CommittedSane(s: State, ev: Event)
    requires OpsOk(s) && ValsOk(s) && Enabled(s, ev)
    ensures forall k :: k in Next(s, ev).committed ==> k > 0 && IsValue(Next(s, ev).committed[k])
  {
    assert OpOk(s, s.threads[ev.t]);
    if !(ev.Step? && s.threads[ev.t].pc.Touch?) {
      SameCommitted(s, ev);
    }
    hide StepProtect, StepProbe, StepClaim, StepEnter, StepTask, StepSeek, StepFinish;
  }

  lemma SameCommitted(s: State, ev: Event)
    requires Enabled(s, ev) && !(ev.Step? && s.threads[ev.t].pc.Touch?)
    ensures Next(s, ev).committed == s.committed
  {
    hide StepTouch;
  }

  // ---------------------------------------------------------------------------------------
  // All of it
  // ---------------------------------------------------------------------------------------

  lemma {:induction false} IdleThreads(threads: seq<Thread>)
    requires forall t :: 0 <= t < |threads| ==> threads[t].pc.Idle?
    ensures Migrators(threads) == 0
  {
    if threads != [] {
      IdleThreads(threads[1..]);
    }
  }

  lemma InitInv(n: nat)
    ensures Inv(Init(n))
  {
    IdleThreads(Init(n).threads);
    NewTableGood(1);
  }

  lemma FrameGood(s: State, ev: Event)
    requires Enabled(s, ev) && Frame(s, Next(s, ev), ev.t)
    ensures TablesOk(Next(s, ev))
  {
  }
}
