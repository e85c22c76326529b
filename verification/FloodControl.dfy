/**
  FloodControlStrict (td/utils/FloodControlStrict.h): at most `count` events in each `duration`, for several
  limits at once, with skipped updates and with old events erased. Times are unbounded integers here.
*/
module FloodControl {

  datatype Limit = Limit(duration: int, count: nat, pos: nat)

  /**
    What a limit answers for: the events from number `from` on are counted, and those from number `since` on obey it.
  */
  datatype Span = Span(from: nat, since: nat)

  /** What size_t can hold at most: no limit asks for an update. */
  const NEVER: nat := 0xffff_ffff_ffff_ffff

  /** Any count + 1 consecutive events that are counted, the last of which has to obey, span at least the duration. */
  predicate Spaced(all: seq<int>, l: Limit, sp: Span) {
    forall x :: sp.from <= x && sp.since <= x + l.count < |all| ==> all[x + l.count] - all[x] >= l.duration
  }

  predicate AllSpaced(all: seq<int>, limits: seq<Limit>, spans: seq<Span>) {
    |spans| == |limits| && forall i :: 0 <= i < |limits| ==> Spaced(all, limits[i], spans[i])
  }

  /** Events before place g that still have to keep a later one away are already far enough in the past. */
  predicate PastOk(l: Limit, sp: Span, all: seq<int>, g: nat, last: int) {
    forall x :: sp.from <= x < g && x < |all| && x + l.count >= |all| ==> all[x] + l.duration <= last
  }

  /** A limit between updates: its window holds the events from place g on. */
  predicate LimitOk(l: Limit, sp: Span, all: seq<int>, erased: nat, last: int, wakeupAt: int, without: nat) {
    var n, g := |all|, erased + l.pos;
    && LimitDue(l, sp, all, erased, last) && n <= g + l.count
    && (n == g + l.count ==> without == 0 && wakeupAt >= all[g] + l.duration)
    && (n < g + l.count ==> n - g + without <= l.count - 1)
  }

  /** A limit before its update, after one more event or when it is new. */
  predicate LimitDue(l: Limit, sp: Span, all: seq<int>, erased: nat, last: int) {
    l.count > 0 && WindowDue(l, sp, all, erased, last) && Spaced(all, l, sp)
  }

  predicate WindowDue(l: Limit, sp: Span, all: seq<int>, erased: nat, last: int) {
    var n, g := |all|, erased + l.pos;
    sp.from <= g <= n && sp.since <= n && PastOk(l, sp, all, g, last)
  }

  /** A limit that no update has seen yet: it counts the events that are still there, and none had to obey it. */
  predicate New(l: Limit, sp: Span, all: seq<int>, erased: nat, without: nat) {
    l.pos == 0 && sp == Span(erased, |all|) && erased <= |all| && without == 0
  }

  /** The wakeup time has passed, or some limit needs exactly that time. */
  predicate Tight(all: seq<int>, limits: seq<Limit>, spans: seq<Span>, last: int, wakeupAt: int) {
    |spans| == |limits| &&
    (wakeupAt <= last || exists i :: 0 <= i < |limits| && Needs(all, limits[i], spans[i], wakeupAt))
  }

  /** The next event is within the limit at that time, and at no earlier one. */
  predicate Needs(all: seq<int>, l: Limit, sp: Span, wakeupAt: int) {
    0 < l.count && sp.from + l.count <= |all| && sp.since <= |all| && wakeupAt == all[|all| - l.count] + l.duration
  }

  predicate SameLimits(a: seq<Limit>, b: seq<Limit>) {
    |a| == |b| && forall i :: 0 <= i < |a| ==> a[i].duration == b[i].duration && a[i].count == b[i].count
  }

  class FloodControlStrict {
    var wakeupAt: int
    var withoutUpdate: nat
    var events: seq<int>
    var limits: seq<Limit>
    ghost var all: seq<int>      // every event there was
    ghost var erased: nat        // how many of them are gone from `events`
    ghost var last: int          // the latest time the object was told
    ghost var spans: seq<Span>   // what each limit answers for
    ghost var settled: nat       // how many of the limits the last update has seen

    ghost predicate Valid()
      reads this
    {
      && erased <= |all| && events == all[erased..] && last >= 1 && settled <= |limits| == |spans|
      && (forall i :: 0 <= i < settled ==> LimitOk(limits[i], spans[i], all, erased, last, wakeupAt, withoutUpdate))
      && (forall i :: settled <= i < |limits| ==> New(limits[i], spans[i], all, erased, withoutUpdate))
      && Tight(all, limits, spans, last, wakeupAt)
    }

    /** An update has seen all limits. */
    ghost predicate Settled()
      reads this
    {
      settled == |limits|
    }

    constructor ()
      ensures Valid() && Settled() && all == [] && limits == [] && last == 1 && wakeupAt == 1
    {
      wakeupAt, withoutUpdate, events, limits, all, erased, last := 1, 0, [], [], [], 0, 1;
      spans, settled := [], 0;
    }

    /** Every limit allows an event. */
    ghost predicate Positive()
      reads this
    {
      forall i :: 0 <= i < |limits| ==> limits[i].count > 0
    }

    /** The new limit counts the events that have not been erased; the next event need not obey it yet. */
    method AddLimit(duration: int, count: nat)
      requires Valid()
      modifies this
      ensures Valid() && all == old(all) && last == old(last) && wakeupAt == old(wakeupAt) && events == old(events)
      ensures limits == old(limits) + [Limit(duration, count, 0)]
      ensures spans == old(spans) + [Span(|all| - |events|, |all|)] && settled == old(settled)
    {
      forall i | 0 <= i < settled ensures LimitOk(limits[i], spans[i], all, erased, last, wakeupAt, 0) {
        LessOften(limits[i], spans[i], all, erased, last, wakeupAt, withoutUpdate, wakeupAt, 0);
      }
      ghost var before, its := limits, spans;
      limits := limits + [Limit(duration, count, 0)];
      spans := spans + [Span(erased, |all|)];
      withoutUpdate := 0;
      TightLonger(all, before, its, limits, spans, last, wakeupAt);
    }

    /** The events are forgotten; the limits stay, and hold from now on. */
    method ClearEvents()
      requires Valid()
      modifies this
      ensures Valid() && all == [] && wakeupAt == 1 && last == old(last) && SameLimits(limits, old(limits))
      ensures Positive() ==> Settled()
      ensures forall i :: 0 <= i < |limits| ==> spans[i] == Span(0, 0)
    {
      events := [];
      for i := 0 to |limits|
        invariant |limits| == |old(limits)| && last == old(last) && events == []
        invariant forall j ::
          0 <= j < |limits| ==> limits[j] == (if j < i then old(limits)[j].(pos := 0) else old(limits)[j])
      {
        limits := limits[i := limits[i].(pos := 0)];
      }
      withoutUpdate, wakeupAt := 0, 1;
      all, erased, spans := [], 0, seq(|limits|, i => Span(0, 0));
      settled := if Positive() then |limits| else 0;
    }

    /**
      An event at a time that does not go back and is not before the reported wakeup. It is within every limit that an
      update has seen; a limit that none had seen holds from the next event on.
    */
    method AddEvent(now: int)
      requires Valid() && Positive() && now >= last && now >= wakeupAt
      modifies this
      ensures Valid() && Settled() && all == old(all) + [now] && last == now && SameLimits(limits, old(limits))
      ensures forall i :: 0 <= i < |limits| ==>
                spans[i] == if i < old(settled) then old(spans[i]) else Span(old(spans[i].from), |all|)
      ensures AllSpaced(all, limits, spans)
    {
      forall i | 0 <= i < settled ensures LimitDue(limits[i], spans[i], all + [now], erased, now) {
        EventAdded(limits[i], spans[i], all, erased, last, wakeupAt, withoutUpdate, now);
      }
      events := events + [now];
      assert settled < |limits| ==> New(limits[settled], spans[settled], all, erased, withoutUpdate);
      if withoutUpdate > 0 {
        forall i | 0 <= i < |limits|
          ensures LimitOk(limits[i], spans[i], all + [now], erased, now, wakeupAt, withoutUpdate - 1)
        {
          EventSkipped(limits[i], spans[i], all, erased, last, wakeupAt, withoutUpdate, now);
        }
        withoutUpdate := withoutUpdate - 1;
        all, last := all + [now], now;
      } else {
        Settle(now);
        all, last := all + [now], now;
        DoUpdate(now);
      }
      SpacedFromOk();
    }

    /** After the event the new limits are as due as the others. */
    ghost method Settle(now: int)
      requires |limits| == |spans| && settled <= |limits|
      requires forall i :: 0 <= i < settled ==> LimitDue(limits[i], spans[i], all + [now], erased, now)
      requires forall i :: settled <= i < |limits| ==> New(limits[i], spans[i], all, erased, withoutUpdate)
      requires Positive()
      modifies this`spans, this`settled
      ensures Settled() && |spans| == |limits|
      ensures forall i :: 0 <= i < |limits| ==>
                spans[i] == if i < old(settled) then old(spans[i]) else Span(old(spans[i].from), |all| + 1)
      ensures forall i :: 0 <= i < |limits| ==> LimitDue(limits[i], spans[i], all + [now], erased, now)
    {
      ghost var before, seen, n := spans, settled, |all| + 1;
      spans := seq(|limits|, i requires 0 <= i < |before| => if i < seen then before[i] else Span(before[i].from, n));
      settled := |limits|;
    }

    lemma SpacedFromOk()
      requires Valid() && Settled()
      ensures AllSpaced(all, limits, spans)
    {
    }

    /** update as callers may use it between events. */
    method Update(now: int) returns (wakeup: int)
      requires Valid() && Positive() && now >= last
      modifies this
      ensures Valid() && Settled() && all == old(all) && last == now && SameLimits(limits, old(limits))
        && wakeup == wakeupAt
      ensures spans == old(spans)
    {
      forall i | 0 <= i < |limits| ensures LimitDue(limits[i], spans[i], all, erased, now) {
        if i < settled {
          TimePassed(limits[i], spans[i], all, erased, last, wakeupAt, withoutUpdate, now);
        }
      }
      last, settled := now, |limits|;
      DoUpdate(now);
      wakeup := wakeupAt;
    }

    /** While limit i is being updated: those before it are done, the others wait. */
    ghost predicate Updating(i: nat)
      reads this
    {
      && erased <= |all| && events == all[erased..] && last >= 1 && i <= |limits| == |spans| && Settled()
      && (forall j :: 0 <= j < i ==> LimitOk(limits[j], spans[j], all, erased, last, wakeupAt, withoutUpdate))
      && (forall j :: i <= j < |limits| ==> LimitDue(limits[j], spans[j], all, erased, last))
      && Tight(all, limits, spans, last, wakeupAt)
    }

    /** The loop over the limits, and the compaction. */
    method DoUpdate(now: int)
      requires now == last && Updating(0)
      modifies this
      ensures Valid() && Settled() && all == old(all) && last == old(last) && SameLimits(limits, old(limits))
        && spans == old(spans)
    {
      var minPos: nat := |events|;
      withoutUpdate := NEVER;
      for i := 0 to |limits|
        invariant all == old(all) && last == now && Updating(i) && minPos <= |events| && spans == old(spans)
        invariant SameLimits(limits, old(limits)) && forall j :: 0 <= j < i ==> minPos <= limits[j].pos
      {
        OneLimit(i, now);
        minPos := Min(minPos, limits[i].pos);
      }
      if minPos * 2 > |events| {
        Compact(minPos);
      }
    }

    /** The body of the loop over the limits. */
    method OneLimit(i: nat, now: int)
      requires now == last && i < |limits| && Updating(i)
      modifies this`limits, this`wakeupAt, this`withoutUpdate
      ensures Updating(i + 1) && SameLimits(limits, old(limits)) && limits[i].pos <= |events|
      ensures forall j :: 0 <= j < |limits| && j != i ==> limits[j] == old(limits)[j]
    {
      ghost var before, wakeup, without := limits, wakeupAt, withoutUpdate;
      var pos := AdvanceWindow(limits[i], spans[i], now);
      limits := limits[i := limits[i].(pos := pos)];
      if limits[i].count + pos <= |events| {
        wakeupAt := Max(wakeupAt, events[pos] + limits[i].duration);
        withoutUpdate := 0;
      } else {
        withoutUpdate := Min(withoutUpdate, limits[i].count + pos - |events| - 1);
      }
      TightKept(all, before, limits, spans, last, wakeup, wakeupAt, i, erased);
      hide LimitDue, PastOk, Spaced, Tight;
      forall j | 0 <= j < i ensures LimitOk(limits[j], spans[j], all, erased, last, wakeupAt, withoutUpdate) {
        LessOften(before[j], spans[j], all, erased, last, wakeup, without, wakeupAt, withoutUpdate);
      }
      NowOk(limits[i], spans[i], all, erased, last, wakeupAt, withoutUpdate);
    }

    /**
      The window of one limit: at most `count` events, and none that is out of its duration. With count zero no event is
      left, although the update reads the first event of every full window.
    */
    method AdvanceWindow(l: Limit, ghost sp: Span, now: int) returns (pos: nat)
      requires erased <= |all| && events == all[erased..] && now == last && WindowDue(l, sp, all, erased, last)
      ensures pos <= |events| <= pos + l.count
      ensures WindowDue(l.(pos := pos), sp, all, erased, last)
    {
      pos := l.pos;
      if l.count < |events| - pos {
        pos := |events| - l.count;
      }
      while pos < |events| && events[pos] + l.duration < now
        invariant l.pos <= pos <= |events| <= pos + l.count && PastOk(l, sp, all, erased + pos, last)
      {
        assert all[erased + pos] == events[pos];
        pos := pos + 1;
      }
    }

    /** Events that no window reaches back to are erased. */
    method Compact(minPos: nat)
      requires Valid() && Settled() && minPos <= |events| && forall j :: 0 <= j < |limits| ==> minPos <= limits[j].pos
      modifies this
      ensures Valid() && Settled() && all == old(all) && last == old(last) && wakeupAt == old(wakeupAt)
      ensures SameLimits(limits, old(limits)) && spans == old(spans)
    {
      hide LimitOk, Tight, New, SameLimits;
      ghost var before := limits;
      for i := 0 to |limits|
        invariant |limits| == |before|
        invariant forall j :: 0 <= j < i ==> limits[j] == before[j].(pos := before[j].pos - minPos)
        invariant forall j :: i <= j < |limits| ==> limits[j] == before[j]
        invariant events == old(events) && all == old(all) && erased == old(erased) && last == old(last)
        invariant wakeupAt == old(wakeupAt) && withoutUpdate == old(withoutUpdate) && spans == old(spans)
          && settled == old(settled)
      {
        limits := limits[i := limits[i].(pos := limits[i].pos - minPos)];
      }
      ShiftedSame(before, limits, minPos);
      TightSame(all, before, limits, spans, last, wakeupAt);
      forall j | 0 <= j < |limits|
        ensures LimitOk(limits[j], spans[j], all, erased + minPos, last, wakeupAt, withoutUpdate)
      {
        Shifted(before[j], spans[j], all, erased, last, wakeupAt, withoutUpdate, minPos);
      }
      assert all[erased..][minPos..] == all[erased + minPos..];
      events := events[minPos..];
      erased := erased + minPos;
    }
  }

  lemma ShiftedSame(a: seq<Limit>, b: seq<Limit>, m: nat)
    requires |a| == |b| && forall j :: 0 <= j < |a| ==> m <= a[j].pos && b[j] == a[j].(pos := a[j].pos - m)
    ensures SameLimits(a, b) && SameLimits(b, a)
  {
  }

  lemma Shifted(l: Limit, sp: Span, all: seq<int>, erased: nat, last: int, wakeupAt: int, without: nat, m: nat)
    requires LimitOk(l, sp, all, erased, last, wakeupAt, without) && m <= l.pos
    ensures LimitOk(l.(pos := l.pos - m), sp, all, erased + m, last, wakeupAt, without)
  {
  }

  lemma TightSame(all: seq<int>, a: seq<Limit>, b: seq<Limit>, spans: seq<Span>, last: int, wakeupAt: int)
    requires SameLimits(a, b) && Tight(all, a, spans, last, wakeupAt)
    ensures Tight(all, b, spans, last, wakeupAt)
  {
    if wakeupAt > last {
      var j :| 0 <= j < |a| && Needs(all, a[j], spans[j], wakeupAt);
      assert Needs(all, b[j], spans[j], wakeupAt);
    }
  }

  lemma TightLonger(all: seq<int>, a: seq<Limit>, sa: seq<Span>, b: seq<Limit>, sb: seq<Span>, last: int, wakeupAt: int)
    requires Tight(all, a, sa, last, wakeupAt) && |b| == |sb| && a <= b && sa <= sb
    ensures Tight(all, b, sb, last, wakeupAt)
  {
    if wakeupAt > last {
      var j :| 0 <= j < |a| && Needs(all, a[j], sa[j], wakeupAt);
      assert b[j] == a[j] && sb[j] == sa[j];
    }
  }

  /** After its update a limit is in order, given what the update computed. */
  lemma NowOk(l: Limit, sp: Span, all: seq<int>, erased: nat, last: int, wakeupAt: int, without: nat)
    requires LimitDue(l, sp, all, erased, last) && |all| <= erased + l.pos + l.count
    requires if |all| == erased + l.pos + l.count then without == 0 && wakeupAt >= all[erased + l.pos] + l.duration
             else without <= l.count + l.pos + erased - |all| - 1
    ensures LimitOk(l, sp, all, erased, last, wakeupAt, without)
  {
  }

  function Min(a: nat, b: nat): nat { if a < b then a else b }
  function Max(a: int, b: int): int { if a < b then b else a }

  /** One more event, not before the wakeup time, keeps every limit that an update has seen. */
  lemma EventAdded(l: Limit, sp: Span, all: seq<int>, erased: nat, last: int, wakeupAt: int, without: nat, now: int)
    requires LimitOk(l, sp, all, erased, last, wakeupAt, without) && now >= last && now >= wakeupAt
    ensures LimitDue(l, sp, all + [now], erased, now)
  {
    var all', n, g := all + [now], |all|, erased + l.pos;
    forall x | sp.from <= x && sp.since <= x + l.count < |all'| ensures all'[x + l.count] - all'[x] >= l.duration {
      if x + l.count == n {
        assert x <= g;
      }
    }
  }

  lemma EventSkipped(l: Limit, sp: Span, all: seq<int>, erased: nat, last: int, wakeupAt: int, without: nat, now: int)
    requires LimitOk(l, sp, all, erased, last, wakeupAt, without) && without > 0 && now >= last && now >= wakeupAt
    ensures LimitOk(l, sp, all + [now], erased, now, wakeupAt, without - 1)
  {
    EventAdded(l, sp, all, erased, last, wakeupAt, without, now);
  }

  lemma TimePassed(l: Limit, sp: Span, all: seq<int>, erased: nat, last: int, wakeupAt: int, without: nat, now: int)
    requires LimitOk(l, sp, all, erased, last, wakeupAt, without) && now >= last
    ensures LimitDue(l, sp, all, erased, now)
  {
  }

  /** A later wakeup and an earlier next update are always right. */
  lemma LessOften(l: Limit, sp: Span, all: seq<int>, erased: nat, last: int, wakeup: int, without: nat, wakeup': int,
          without': nat)
    requires LimitOk(l, sp, all, erased, last, wakeup, without) && wakeup <= wakeup' && without' <= without
    ensures LimitOk(l, sp, all, erased, last, wakeup', without')
  {
  }

  lemma TightKept(all: seq<int>, a: seq<Limit>, b: seq<Limit>, spans: seq<Span>, last: int, wakeup: int, wakeup': int,
                  i: nat, erased: nat)
    requires SameLimits(a, b) && Tight(all, a, spans, last, wakeup) && i < |b| && erased + b[i].pos <= |all|
    requires wakeup' == wakeup ||
             (LimitDue(b[i], spans[i], all, erased, last) && |all| == erased + b[i].pos + b[i].count
              && wakeup' == all[erased + b[i].pos] + b[i].duration)
    ensures Tight(all, b, spans, last, wakeup')
  {
    if wakeup' == wakeup {
      TightSame(all, a, b, spans, last, wakeup);
    } else {
      assert Needs(all, b[i], spans[i], wakeup');
    }
  }

  /**
    Once an update has seen all limits the reported wakeup is exact: an event at time t is within all of them if and
    only if t is not before it.
  */
  lemma WakeupExactly(f: FloodControlStrict, t: int)
    requires f.Valid() && f.Settled() && t >= f.last
    ensures AllSpaced(f.all + [t], f.limits, f.spans) <==> t >= f.wakeupAt
  {
    var all, limits, spans := f.all, f.limits, f.spans;
    hide LimitOk, Spaced, Needs;
    if t >= f.wakeupAt {
      forall i | 0 <= i < |limits| ensures Spaced(all + [t], limits[i], spans[i]) {
        EventAdded(limits[i], spans[i], all, f.erased, f.last, f.wakeupAt, f.withoutUpdate, t);
        DueSpaced(limits[i], spans[i], all + [t], f.erased, t);
      }
    } else {
      var i :| 0 <= i < |limits| && Needs(all, limits[i], spans[i], f.wakeupAt);
      TooEarly(limits[i], spans[i], all, f.wakeupAt, t);
    }
  }

  lemma DueSpaced(l: Limit, sp: Span, all: seq<int>, erased: nat, last: int)
    requires LimitDue(l, sp, all, erased, last)
    ensures Spaced(all, l, sp)
  {
  }

  lemma TooEarly(l: Limit, sp: Span, all: seq<int>, wakeupAt: int, t: int)
    requires Needs(all, l, sp, wakeupAt) && t < wakeupAt
    ensures !Spaced(all + [t], l, sp)
  {
    var x, all' := |all| - l.count, all + [t];
    assert all'[x + l.count] == t && all'[x] == all[x];
  }

  /**
    A limit that no update has seen is not part of the reported wakeup. The next event is within it exactly when it
    leaves room for one more event, or its time is late enough.
  */
  lemma NewLimitExactly(f: FloodControlStrict, i: nat, t: int)
    requires f.Valid() && f.settled <= i < |f.limits|
    ensures Spaced(f.all + [t], f.limits[i], f.spans[i]) <==>
              var l, n := f.limits[i], |f.events|;
              n < l.count || if l.count == 0 then l.duration <= 0 else t >= f.events[n - l.count] + l.duration
  {
    var l, sp, all, n := f.limits[i], f.spans[i], f.all, |f.all|;
    assert New(l, sp, all, f.erased, f.withoutUpdate);
    if l.count == 0 {
      var all' := all + [t];
      assert all'[n + l.count] - all'[n] == 0;
    } else if |f.events| >= l.count {
      assert f.events[|f.events| - l.count] == all[n - l.count];
      assert (all + [t])[n] == t && (all + [t])[n - l.count] == all[n - l.count];
      assert n - l.count + l.count == n;
    }
  }

  /**
    An event that the reported wakeup allows and a new limit forbids: one event in ten seconds, set right after
    another.
  */
  method NewLimitUnseen() returns (f: FloodControlStrict)
    ensures fresh(f) && f.Valid() && f.all == [5] && f.last == 5 && f.wakeupAt <= 5
    ensures |f.limits| == 2 && f.settled == 1 && f.limits[1] == Limit(10, 1, 0)
    ensures !Spaced(f.all + [5], f.limits[1], f.spans[1])
  {
    f := new FloodControlStrict();
    f.AddLimit(1, 2);
    f.AddEvent(5);
    hide *;
    OneEventKept(f);
    f.AddLimit(10, 1);
    NewLimitExactly(f, 1, 5);
  }

  lemma OneEventKept(f: FloodControlStrict)
    requires f.Valid() && f.Settled() && f.all == [5] && f.last == 5 && |f.limits| == 1
    requires f.limits[0].duration == 1 && f.limits[0].count == 2 && f.spans[0] == Span(0, 1)
    ensures f.events == [5] && f.wakeupAt <= 5
  {
    assert LimitOk(f.limits[0], f.spans[0], f.all, f.erased, f.last, f.wakeupAt, f.withoutUpdate);
    assert f.all[0] == 5;
  }
}
