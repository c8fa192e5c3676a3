/** The refresh scheduler: a heap with one entry per scheduled dataset, exponential backoff,
    jitter. Durations are real seconds; the random draw of each tick is given. */
module Scheduler {
  import opened Wrappers
  import opened Text
  import opened Listings

  datatype Schedule = Schedule(name: string, interval: real, timeout: real, jitter: bool)

  datatype Entry = Entry(fireAt: real, schedule: Schedule, failures: nat)

  datatype Outcome = TimedOut | Failed | Coalesced | Published

  // ------------------------------------------------------------- backoff and jitter

  /** Doubling with each consecutive failure, capped at eight times the interval. */
  function Backoff(base: real, failures: nat): real {
    base * (Factor(failures) as real)
  }

  function Factor(failures: nat): nat {
    Shift(if failures < 3 then failures else 3)
  }

  function Shift(n: nat): nat {
    if n == 0 then 1 else 2 * Shift(n - 1)
  }

  /** Plus or minus ten percent by `draw` in [0, 1), never under a millisecond. */
  function Jittered(base: real, apply: bool, draw: real): real {
    if !apply || base == 0.0 then base else Floored(base + Delta(base, draw))
  }

  function Delta(base: real, draw: real): real {
    (draw - 0.5) * 0.2 * base
  }

  function Floored(secs: real): real {
    if secs < 0.001 then 0.001 else secs
  }

  lemma DeltaBounds(base: real, draw: real)
    requires base >= 0.0 && 0.0 <= draw < 1.0
    ensures -0.1 * base <= Delta(base, draw) <= 0.1 * base
  {
    var share := (draw - 0.5) * 0.2;
    Between(base, share);
  }

  lemma Between(base: real, share: real)
    requires base >= 0.0 && -0.1 <= share <= 0.1
    ensures -0.1 * base <= share * base <= 0.1 * base
  {
    assert (share + 0.1) * base >= 0.0;
    assert (0.1 - share) * base >= 0.0;
  }

  /** Within ten percent of the base, or the millisecond where that is more. */
  ghost predicate Near(base: real, r: real) {
    base * 0.9 <= r <= base * 1.1 || (r == 0.001 && base * 0.9 < 0.001)
  }

  lemma NearAfterFloor(base: real, delta: real)
    requires base >= 0.0 && -0.1 * base <= delta <= 0.1 * base
    ensures Near(base, Floored(base + delta))
  {
  }

  lemma JitterBounds(base: real, apply: bool, draw: real)
    requires base >= 0.0 && 0.0 <= draw < 1.0
    ensures Near(base, Jittered(base, apply, draw))
    ensures apply && base > 0.0 ==> Jittered(base, apply, draw) >= 0.001
  {
    DeltaBounds(base, draw);
    NearAfterFloor(base, Delta(base, draw));
  }

  /** The whole band is used, evenly: the least draw gives nine tenths, and a tenth more of the draw a
      fiftieth more of the base. */
  lemma JitterSpreads(base: real, draw: real, more: real)
    requires base >= 0.002 && 0.0 <= draw <= more < 1.0
    ensures Jittered(base, true, 0.0) == 0.9 * base
    ensures Jittered(base, true, more) - Jittered(base, true, draw) == 0.2 * base * (more - draw)
    ensures Jittered(base, false, draw) == base
  {
    DeltaBounds(base, draw);
    DeltaBounds(base, more);
    DeltaGrows(base, draw, more);
  }

  lemma DeltaGrows(base: real, draw: real, more: real)
    ensures Delta(base, more) - Delta(base, draw) == 0.2 * base * (more - draw)
  {
    assert (more - 0.5) * 0.2 - (draw - 0.5) * 0.2 == 0.2 * (more - draw);
    assert (more - 0.5) * 0.2 * base - (draw - 0.5) * 0.2 * base == 0.2 * (more - draw) * base;
  }

  /** The backoff factor is two to the number of failures, from one up to eight. */
  lemma BackoffRange(base: real, failures: nat)
    requires base >= 0.0
    ensures base <= Backoff(base, failures) <= 8.0 * base
    ensures failures >= 3 ==> Backoff(base, failures) == 8.0 * base
    ensures failures < 3 ==> Backoff(base, failures + 1) == 2.0 * Backoff(base, failures)
  {
    assert Shift(1) == 2 && Shift(2) == 4 && Shift(3) == 8;
  }

  // -------------------------------------------------------------------- one tick

  predicate IsFailure(o: Outcome) {
    o.TimedOut? || o.Failed?
  }

  function FailuresAfter(failures: nat, o: Outcome): nat {
    if IsFailure(o) then failures + 1 else 0
  }

  /** The entry pushed back after a tick that started at `start`. */
  function Rescheduled(e: Entry, start: real, o: Outcome, draw: real): Entry {
    var failures := FailuresAfter(e.failures, o);
    var wait := if IsFailure(o) then Backoff(e.schedule.interval, failures) else e.schedule.interval;
    Entry(start + Jittered(wait, e.schedule.jitter, draw), e.schedule, failures)
  }

  /** Two to the number of failures, up to eight. */
  ghost function Doubled(failures: nat): real {
    if failures == 0 then 1.0 else if failures == 1 then 2.0 else if failures == 2 then 4.0 else 8.0
  }

  lemma BackoffExactly(base: real, failures: nat)
    ensures Backoff(base, failures) == base * Doubled(failures)
  {
    assert Shift(1) == 2 && Shift(2) == 4 && Shift(3) == 8;
  }

  /** `at` is within ten percent of `due` after `start`, or at the one-millisecond floor. */
  ghost predicate InBand(start: real, due: real, at: real) {
    Near(due, at - start)
  }

  /** After a timeout or an error the counter is one more, and the next fire is banded around the interval
      doubled that often; after a publish or a coalesced tick the counter is zero, and the band is around
      the plain interval. */
  lemma NextFireBounds(e: Entry, start: real, o: Outcome, draw: real)
    requires e.schedule.interval >= 0.0 && 0.0 <= draw < 1.0
    ensures var n := Rescheduled(e, start, o, draw);
            && n.schedule == e.schedule
            && n.failures == (if o.TimedOut? || o.Failed? then e.failures + 1 else 0)
            && var due := e.schedule.interval * Doubled(n.failures);
               InBand(start, due, n.fireAt) && (!e.schedule.jitter ==> n.fireAt == start + due)
    ensures o.Published? || o.Coalesced? ==> InBand(start, e.schedule.interval, Rescheduled(e, start, o, draw).fireAt)
  {
    var n := Rescheduled(e, start, o, draw);
    BackoffExactly(e.schedule.interval, n.failures);
    WaitIsBanded(e, start, o, draw);
  }

  lemma WaitIsBanded(e: Entry, start: real, o: Outcome, draw: real)
    requires e.schedule.interval >= 0.0 && 0.0 <= draw < 1.0
    ensures var n := Rescheduled(e, start, o, draw);
            var due := Backoff(e.schedule.interval, n.failures);
            InBand(start, due, n.fireAt) && (!e.schedule.jitter ==> n.fireAt == start + due)
  {
    var n := Rescheduled(e, start, o, draw);
    assert Factor(0) == 1;
    BackoffRange(e.schedule.interval, n.failures);
    JitterBounds(Backoff(e.schedule.interval, n.failures), e.schedule.jitter, draw);
  }

  /** With a positive interval the next fire comes after the tick's start. */
  lemma NextFireIsLater(e: Entry, start: real, o: Outcome, draw: real)
    requires e.schedule.interval > 0.0 && 0.0 <= draw < 1.0
    ensures Rescheduled(e, start, o, draw).fireAt > start
  {
    var n := Rescheduled(e, start, o, draw);
    assert Factor(0) == 1;
    BackoffRange(e.schedule.interval, n.failures);
    JitterBounds(Backoff(e.schedule.interval, n.failures), e.schedule.jitter, draw);
  }

  // ------------------------------------------------------------------ the heap order

  /** `a` leaves the heap before `b`: earlier fire, and on a tie the greater name. */
  predicate Before(a: Entry, b: Entry) {
    a.fireAt < b.fireAt || (a.fireAt == b.fireAt && Less(b.schedule.name, a.schedule.name))
  }

  lemma BeforeTransitive(a: Entry, b: Entry, c: Entry)
    requires !Before(a, b) && !Before(b, c)
    ensures !Before(a, c)
  {
    if a.fireAt == b.fireAt == c.fireAt && Less(c.schedule.name, a.schedule.name) {
      LessTotal(a.schedule.name, b.schedule.name);
      if Less(a.schedule.name, b.schedule.name) {
        LessTransitive(c.schedule.name, a.schedule.name, b.schedule.name);
      }
    }
  }

  // ---------------------------------------------------------------------- history

  /** The length of the run of failures at the end of a dataset's outcomes. */
  function TrailingFailures(outcomes: seq<Outcome>): nat {
    if outcomes == [] || !IsFailure(outcomes[|outcomes| - 1]) then 0
    else 1 + TrailingFailures(outcomes[..|outcomes| - 1])
  }

  /** The last `n` outcomes are timeouts and errors, and the one before them, if any, is neither. */
  ghost predicate EndsInFailures(outcomes: seq<Outcome>, n: nat) {
    && n <= |outcomes|
    && (forall k :: |outcomes| - n <= k < |outcomes| ==> outcomes[k].TimedOut? || outcomes[k].Failed?)
    && (n < |outcomes| ==> outcomes[|outcomes| - 1 - n].Published? || outcomes[|outcomes| - 1 - n].Coalesced?)
  }

  lemma {:induction false} TrailingExactly(outcomes: seq<Outcome>, n: nat)
    ensures TrailingFailures(outcomes) == n <==> EndsInFailures(outcomes, n)
    decreases |outcomes|
  {
    if outcomes != [] {
      var front := outcomes[..|outcomes| - 1];
      if n > 0 { TrailingExactly(front, n - 1); }
    }
  }

  lemma TrailingAfter(outcomes: seq<Outcome>, o: Outcome)
    ensures TrailingFailures(outcomes + [o]) == FailuresAfter(TrailingFailures(outcomes), o)
  {
    assert (outcomes + [o])[..|outcomes|] == outcomes;
  }

  /** A tick of schedule `i`: when it started, how it ended, and the random draw for the next. */
  datatype Ticked = Ticked(i: nat, start: real, outcome: Outcome, draw: real)

  function AfterTick(slots: seq<Entry>, t: Ticked): seq<Entry> {
    if t.i < |slots| then slots[t.i := Rescheduled(slots[t.i], t.start, t.outcome, t.draw)] else slots
  }

  /** The entry of every schedule after some ticks. */
  ghost function SlotsAfter(first: seq<Entry>, ticks: seq<Ticked>): (slots: seq<Entry>)
    ensures |slots| == |first|
    decreases ticks
  {
    if ticks == [] then first else AfterTick(SlotsAfter(first, ticks[..|ticks| - 1]), ticks[|ticks| - 1])
  }

  lemma SlotsAppend(first: seq<Entry>, ticks: seq<Ticked>, t: Ticked)
    ensures SlotsAfter(first, ticks + [t]) == AfterTick(SlotsAfter(first, ticks), t)
  {
    assert (ticks + [t])[..|ticks|] == ticks;
  }

  ghost function OutcomesOf(ticks: seq<Ticked>, i: nat): seq<Outcome> {
    if ticks == [] then []
    else
      var t := ticks[|ticks| - 1];
      var before := OutcomesOf(ticks[..|ticks| - 1], i);
      if t.i == i then before + [t.outcome] else before
  }

  /** Slot `i` is the entry of schedule `i`, whose counter is the number of timeouts and errors since its last
      other outcome. */
  ghost predicate SlotFits(schedules: seq<Schedule>, slots: seq<Entry>, ticks: seq<Ticked>, i: nat) {
    && |slots| == |schedules| && i < |schedules| && slots[i].schedule == schedules[i]
    && EndsInFailures(OutcomesOf(ticks, i), slots[i].failures)
  }

  lemma TickKeepsSlot(schedules: seq<Schedule>, slots: seq<Entry>, ticks: seq<Ticked>, t: Ticked, i: nat)
    requires SlotFits(schedules, slots, ticks, i)
    ensures SlotFits(schedules, AfterTick(slots, t), ticks + [t], i)
  {
    assert (ticks + [t])[..|ticks|] == ticks;
    var outcomes := OutcomesOf(ticks, i);
    TrailingExactly(outcomes, slots[i].failures);
    TrailingAfter(outcomes, t.outcome);
    TrailingExactly(outcomes + [t.outcome], FailuresAfter(slots[i].failures, t.outcome));
  }

  ghost predicate Fresh(schedules: seq<Schedule>, slots: seq<Entry>) {
    && |slots| == |schedules|
    && forall i :: 0 <= i < |slots| ==> slots[i].schedule == schedules[i] && slots[i].failures == 0
  }

  /** Over any sequence of ticks each slot keeps its schedule, and its counter counts the
      dataset's timeouts and errors since its last publish or coalesced tick. */
  lemma {:induction false} ScheduleConserved(schedules: seq<Schedule>, first: seq<Entry>, ticks: seq<Ticked>, i: nat)
    requires Fresh(schedules, first) && i < |schedules|
    ensures SlotFits(schedules, SlotsAfter(first, ticks), ticks, i)
    decreases ticks
  {
    if ticks != [] {
      var front, t := ticks[..|ticks| - 1], ticks[|ticks| - 1];
      ScheduleConserved(schedules, first, front, i);
      TickKeepsSlot(schedules, SlotsAfter(first, front), front, t, i);
      assert front + [t] == ticks;
    }
  }

  /** When dataset `i` was last served. */
  ghost function LastStart(ticks: seq<Ticked>, i: nat): Option<real> {
    if ticks == [] then None
    else
      var t := ticks[|ticks| - 1];
      if t.i == i then Some(t.start) else LastStart(ticks[..|ticks| - 1], i)
  }

  /** The interval dataset `i` waits after `n` failures in a row. */
  ghost function Due(schedules: seq<Schedule>, i: nat, n: nat): real
    requires i < |schedules|
  {
    schedules[i].interval * Doubled(n)
  }

  ghost predicate FairDraws(ticks: seq<Ticked>) {
    forall k :: 0 <= k < |ticks| ==> 0.0 <= ticks[k].draw < 1.0
  }

  /** Over any sequence of ticks, a dataset that has been served fires next within ten percent of its
      interval after the start of its last tick, the interval doubled for each of the failures its outcomes
      end in, up to eight times. */
  lemma {:induction false} NextFireInBand(schedules: seq<Schedule>, first: seq<Entry>, ticks: seq<Ticked>, i: nat,
          n: nat)
    requires Fresh(schedules, first) && i < |schedules| && schedules[i].interval >= 0.0 && FairDraws(ticks)
    requires EndsInFailures(OutcomesOf(ticks, i), n)
    ensures LastStart(ticks, i).Some? ==>
      InBand(LastStart(ticks, i).value, Due(schedules, i, n), SlotsAfter(first, ticks)[i].fireAt)
    decreases ticks
  {
    if ticks != [] {
      var front, t := ticks[..|ticks| - 1], ticks[|ticks| - 1];
      if t.i == i {
        LastTickInBand(schedules, first, front, t, n);
      } else {
        NextFireInBand(schedules, first, front, i, n);
      }
    }
  }

  lemma LastTickInBand(schedules: seq<Schedule>, first: seq<Entry>, front: seq<Ticked>, t: Ticked, n: nat)
    requires Fresh(schedules, first) && t.i < |schedules| && schedules[t.i].interval >= 0.0 && 0.0 <= t.draw < 1.0
    requires EndsInFailures(OutcomesOf(front, t.i) + [t.outcome], n)
    ensures InBand(t.start, Due(schedules, t.i, n), AfterTick(SlotsAfter(first, front), t)[t.i].fireAt)
  {
    var slot := SlotsAfter(first, front)[t.i];
    ScheduleConserved(schedules, first, front, t.i);
    CounterAfter(OutcomesOf(front, t.i), slot.failures, t.outcome, n);
    RescheduledInBand(slot, t, n);
  }

  lemma CounterAfter(outcomes: seq<Outcome>, failures: nat, o: Outcome, n: nat)
    requires EndsInFailures(outcomes, failures) && EndsInFailures(outcomes + [o], n)
    ensures FailuresAfter(failures, o) == n
  {
    TrailingExactly(outcomes, failures);
    TrailingAfter(outcomes, o);
    TrailingExactly(outcomes + [o], n);
  }

  lemma RescheduledInBand(slot: Entry, t: Ticked, n: nat)
    requires slot.schedule.interval >= 0.0 && 0.0 <= t.draw < 1.0 && FailuresAfter(slot.failures, t.outcome) == n
    ensures InBand(t.start, slot.schedule.interval * Doubled(n), Rescheduled(slot, t.start, t.outcome, t.draw).fireAt)
  {
    BackoffExactly(slot.schedule.interval, n);
    WaitIsBanded(slot, t.start, t.outcome, t.draw);
  }

  /** The plain interval after a publish or a coalesced tick. */
  lemma PlainAfterSuccess(schedules: seq<Schedule>, first: seq<Entry>, ticks: seq<Ticked>, i: nat)
    requires Fresh(schedules, first) && i < |schedules| && schedules[i].interval >= 0.0 && FairDraws(ticks)
    requires var o := OutcomesOf(ticks, i); o != [] && (o[|o| - 1].Published? || o[|o| - 1].Coalesced?)
    ensures LastStart(ticks, i).Some? ==>
      InBand(LastStart(ticks, i).value, schedules[i].interval, SlotsAfter(first, ticks)[i].fireAt)
  {
    NextFireInBand(schedules, first, ticks, i, 0);
  }

  // ----------------------------------------------------------------- runs of the loop

  /** The loop sleeps until an earliest entry is due and serves that one. */
  ghost predicate ServesNext(slots: seq<Entry>, t: Ticked) {
    && t.i < |slots| && slots[t.i].fireAt <= t.start
    && forall k :: 0 <= k < |slots| ==> slots[t.i].fireAt <= slots[k].fireAt
  }

  ghost predicate ServedAt(first: seq<Entry>, ticks: seq<Ticked>, k: nat) {
    k < |ticks| && ServesNext(SlotsAfter(first, ticks[..k]), ticks[k])
  }

  /** Every tick served an earliest entry, when it was due, by a clock that never goes back. */
  ghost predicate IsRun(first: seq<Entry>, ticks: seq<Ticked>) {
    && (forall k: nat {:trigger ServedAt(first, ticks, k)} :: k < |ticks| ==> ServedAt(first, ticks, k))
    && (forall j, k :: 0 <= j < k < |ticks| ==> ticks[j].start <= ticks[k].start)
  }

  lemma RunGrows(first: seq<Entry>, ticks: seq<Ticked>, t: Ticked)
    requires IsRun(first, ticks) && ServesNext(SlotsAfter(first, ticks), t)
    requires ticks != [] ==> ticks[|ticks| - 1].start <= t.start
    ensures IsRun(first, ticks + [t])
  {
    var longer := ticks + [t];
    forall k: nat | k < |longer| ensures ServedAt(first, longer, k) {
      if k < |ticks| {
        assert ServedAt(first, ticks, k);
        ServedStays(first, ticks, t, k);
      } else {
        ServedLast(first, ticks, t);
      }
    }
  }

  lemma ServedLast(first: seq<Entry>, ticks: seq<Ticked>, t: Ticked)
    requires ServesNext(SlotsAfter(first, ticks), t)
    ensures ServedAt(first, ticks + [t], |ticks|)
  {
    assert (ticks + [t])[..|ticks|] == ticks;
  }

  lemma ServedStays(first: seq<Entry>, ticks: seq<Ticked>, t: Ticked, k: nat)
    requires ServedAt(first, ticks, k)
    ensures ServedAt(first, ticks + [t], k)
  {
    assert (ticks + [t])[..k] == ticks[..k];
  }

  /** Two successive ticks of a dataset are at least nine tenths of its interval apart, doubled for each of
      the failures its outcomes end in, up to eight times. */
  lemma {:induction false} TicksAreSpaced(schedules: seq<Schedule>, first: seq<Entry>, ticks: seq<Ticked>, k: nat,
          n: nat)
    requires Fresh(schedules, first) && FairDraws(ticks) && IsRun(first, ticks) && k < |ticks|
    requires forall i :: 0 <= i < |schedules| ==> schedules[i].interval >= 0.0
    requires EndsInFailures(OutcomesOf(ticks[..k], ticks[k].i), n)
    ensures ticks[k].i < |schedules|
    ensures LastStart(ticks[..k], ticks[k].i).Some? ==>
      LastStart(ticks[..k], ticks[k].i).value + 0.9 * Due(schedules, ticks[k].i, n) <= ticks[k].start
  {
    assert ServedAt(first, ticks, k);
    NextFireInBand(schedules, first, ticks[..k], ticks[k].i, n);
  }

  lemma {:induction false} SlotUntouched(first: seq<Entry>, ticks: seq<Ticked>, i: nat, k: nat, m: nat)
    requires i < |first| && k <= m <= |ticks| && forall z :: k <= z < m ==> ticks[z].i != i
    ensures SlotsAfter(first, ticks[..m])[i] == SlotsAfter(first, ticks[..k])[i]
    decreases m
  {
    if k < m {
      SlotUntouched(first, ticks, i, k, m - 1);
      assert ticks[..m] == ticks[..m - 1] + [ticks[m - 1]];
      SlotsAppend(first, ticks[..m - 1], ticks[m - 1]);
    }
  }

  ghost predicate PositiveIntervals(schedules: seq<Schedule>) {
    forall i :: 0 <= i < |schedules| ==> schedules[i].interval > 0.0
  }

  /** From the tick at `x` on, the entry it served fires after that tick's start. */
  lemma {:induction false} FiresLater(schedules: seq<Schedule>, first: seq<Entry>, ticks: seq<Ticked>, x: nat, m: nat)
    requires Fresh(schedules, first) && FairDraws(ticks) && IsRun(first, ticks) && PositiveIntervals(schedules)
    requires x < m <= |ticks|
    ensures ticks[x].i < |first| && SlotsAfter(first, ticks[..m])[ticks[x].i].fireAt > ticks[x].start
    decreases m
  {
    assert ServedAt(first, ticks, x) && ServedAt(first, ticks, m - 1);
    var t, before := ticks[m - 1], ticks[..m - 1];
    assert ticks[..m] == before + [t];
    SlotsAppend(first, before, t);
    if t.i == ticks[x].i {
      ScheduleConserved(schedules, first, before, t.i);
      NextFireIsLater(SlotsAfter(first, before)[t.i], t.start, t.outcome, t.draw);
    } else {
      FiresLater(schedules, first, ticks, x, m - 1);
    }
  }

  /** Dataset `i` is due when tick `k` starts, and not served from then through tick `y`. */
  ghost predicate Overdue(first: seq<Entry>, ticks: seq<Ticked>, i: nat, k: nat, y: nat) {
    && i < |first| && k <= y < |ticks|
    && SlotsAfter(first, ticks[..k])[i].fireAt <= ticks[k].start
    && forall z :: k <= z <= y ==> ticks[z].i != i
  }

  /** While a dataset is overdue no other is served twice before it. */
  lemma {:induction false} NoOvertaking(schedules: seq<Schedule>, first: seq<Entry>, ticks: seq<Ticked>, i: nat, k: nat,
          x: nat, y: nat)
    requires Fresh(schedules, first) && FairDraws(ticks) && IsRun(first, ticks) && PositiveIntervals(schedules)
    requires k <= x < y && Overdue(first, ticks, i, k, y)
    ensures ticks[x].i != ticks[y].i
  {
    SlotUntouched(first, ticks, i, k, y);
    assert ServedAt(first, ticks, y);
    FiresLater(schedules, first, ticks, x, y);
    assert k < x ==> ticks[k].start <= ticks[x].start;
  }

  /** The datasets served by `n` ticks from `k` on. */
  ghost function ServedFrom(ticks: seq<Ticked>, k: nat, n: nat): (served: seq<nat>)
    requires k + n <= |ticks|
    ensures |served| == n && forall z :: 0 <= z < n ==> served[z] == ticks[k + z].i
  {
    if n == 0 then [] else ServedFrom(ticks, k, n - 1) + [ticks[k + n - 1].i]
  }

  /** No dataset starves: one that is due is served within as many ticks as there are schedules. */
  lemma {:induction false} ServedWithinARound(schedules: seq<Schedule>, first: seq<Entry>, ticks: seq<Ticked>, i: nat,
          k: nat)
    requires Fresh(schedules, first) && FairDraws(ticks) && IsRun(first, ticks) && PositiveIntervals(schedules)
    requires i < |first| && k + |schedules| <= |ticks| && SlotsAfter(first, ticks[..k])[i].fireAt <= ticks[k].start
    ensures i in ServedFrom(ticks, k, |schedules|)
  {
    var n := |schedules|;
    var served := ServedFrom(ticks, k, n);
    if i !in served {
      assert forall z :: k <= z < k + n ==> ticks[z].i == served[z - k];
      assert Overdue(first, ticks, i, k, k + n - 1);
      forall a, b | 0 <= a < b < n ensures served[a] != served[b] {
        assert Overdue(first, ticks, i, k, k + b);
        NoOvertaking(schedules, first, ticks, i, k, k + a, k + b);
      }
      forall x | x in served ensures x < n {
        var z :| 0 <= z < n && served[z] == x;
        assert ServedAt(first, ticks, k + z);
      }
      DistinctFit(served, n);
    }
  }

  lemma MultisetReplace<T>(s: seq<T>, i: nat, e: T)
    requires i < |s|
    ensures multiset(s[i := e]) == multiset(s) - multiset{s[i]} + multiset{e}
  {
    assert s == s[..i] + [s[i]] + s[i + 1..];
    assert s[i := e] == s[..i] + [e] + s[i + 1..];
  }

  // --------------------------------------------------------------------- the loop

  /** The schedules of the entries in a heap. */
  ghost function SchedulesOf(heap: seq<Entry>): (schedules: seq<Schedule>)
    ensures |schedules| == |heap|
  {
    seq(|heap|, k requires 0 <= k < |heap| => heap[k].schedule)
  }

  lemma PutBack(rest: seq<Entry>, next: Entry, all: multiset<Schedule>)
    requires next.schedule in all && multiset(SchedulesOf(rest)) == all - multiset{next.schedule}
    ensures multiset(SchedulesOf(rest + [next])) == all
  {
    assert SchedulesOf(rest + [next]) == SchedulesOf(rest) + [next.schedule];
  }

  /** The heap holds exactly the entries that the recorded run leaves, one per schedule. */
  ghost predicate Holds(heap: seq<Entry>, schedules: seq<Schedule>, first: seq<Entry>, ticks: seq<Ticked>) {
    && Fresh(schedules, first) && IsRun(first, ticks)
    && multiset(heap) == multiset(SlotsAfter(first, ticks))
    && multiset(SchedulesOf(heap)) == multiset(schedules)
  }

  /** Serving an earliest due entry and putting it back keeps this, with the run longer by the tick. */
  lemma TickHolds(heap: seq<Entry>, schedules: seq<Schedule>, first: seq<Entry>, ticks: seq<Ticked>, e: Entry,
          rest: seq<Entry>, start: real, o: Outcome, draw: real)
    returns (t: Ticked)
    requires Holds(heap, schedules, first, ticks)
    requires e in heap && e.fireAt <= start && forall x :: x in heap ==> e.fireAt <= x.fireAt
    requires multiset(rest) == multiset(heap) - multiset{e} && e.schedule in multiset(SchedulesOf(heap))
    requires multiset(SchedulesOf(rest)) == multiset(SchedulesOf(heap)) - multiset{e.schedule}
    requires ticks != [] ==> ticks[|ticks| - 1].start <= start
    ensures Holds(rest + [Rescheduled(e, start, o, draw)], schedules, first, ticks + [t])
    ensures t == Ticked(t.i, start, o, draw) && t.i < |first| && SlotsAfter(first, ticks)[t.i] == e
  {
    t := TickExtends(heap, first, ticks, e, start, o, draw);
    PutBack(rest, Rescheduled(e, start, o, draw), multiset(schedules));
  }

  /** The scheduler's heap at its loop head. `first` holds the initial entry of every schedule and
      `ticks` the ticks served so far. */
  class RefreshLoop {
    var heap: seq<Entry>
    ghost const schedules: seq<Schedule>
    ghost const first: seq<Entry>
    ghost var ticks: seq<Ticked>

    ghost predicate Valid()
      reads this
    {
      Holds(heap, schedules, first, ticks)
    }

    constructor (schedules: seq<Schedule>, now: real, draws: seq<real>)
      requires |draws| == |schedules|
      ensures Valid() && this.schedules == schedules && ticks == []
      ensures forall i :: 0 <= i < |schedules| ==>
        first[i].fireAt == now + Jittered(schedules[i].interval, schedules[i].jitter, draws[i])
    {
      var entries := InitialEntries(schedules, now, draws);
      this.schedules := schedules;
      heap := entries;
      first := entries;
      ticks := [];
      assert SchedulesOf(entries) == schedules;
    }

    /** Remove and return the entry that leaves the heap first. */
    method Pop() returns (e: Entry)
      requires heap != []
      modifies this`heap
      ensures e in old(heap) && multiset(heap) == multiset(old(heap)) - multiset{e}
      ensures e.schedule in multiset(SchedulesOf(old(heap)))
      ensures multiset(SchedulesOf(heap)) == multiset(SchedulesOf(old(heap))) - multiset{e.schedule}
      ensures forall x :: x in old(heap) ==> !Before(x, e)
      ensures forall x :: x in old(heap) ==>
        e.fireAt <= x.fireAt && (x.fireAt == e.fireAt ==> !Less(e.schedule.name, x.schedule.name))
    {
      var at := 0;
      IsFirst(heap[0]);
      for k := 1 to |heap|
        invariant heap == old(heap) && at < |heap|
        invariant forall m :: 0 <= m < k ==> !Before(heap[m], heap[at])
      {
        if Before(heap[k], heap[at]) {
          Supersedes(heap[..k], heap[at], heap[k]);
          assert forall m :: 0 <= m < k ==> heap[..k][m] == heap[m];
          IsFirst(heap[k]);
          at := k;
        }
      }
      e := heap[at];
      assert forall x :: x in heap ==> !Before(x, e);
      WithoutAt(heap, at);
      heap := heap[..at] + heap[at + 1..];
    }

    /** One scheduled tick, once an entry is due: pop the earliest entry, serve it, and push it
        back rescheduled. The recorded run grows by this tick. */
    method Tick(start: real, o: Outcome, draw: real) returns (e: Entry)
      requires Valid() && exists x :: x in heap && x.fireAt <= start
      requires ticks != [] ==> ticks[|ticks| - 1].start <= start
      modifies this`heap, this`ticks
      ensures Valid()
      ensures e in old(heap) && e.fireAt <= start && forall x :: x in old(heap) ==> e.fireAt <= x.fireAt
      ensures multiset(heap) == multiset(old(heap)) - multiset{e} + multiset{Rescheduled(e, start, o, draw)}
      ensures |ticks| == |old(ticks)| + 1
      ensures var t := ticks[|old(ticks)|];
              && ticks == old(ticks) + [t] && t == Ticked(t.i, start, o, draw)
              && t.i < |first| && SlotsAfter(first, old(ticks))[t.i] == e
    {
      ghost var before := heap;
      e := Pop();
      ghost var t := TickHolds(before, schedules, first, ticks, e, heap, start, o, draw);
      heap := heap + [Rescheduled(e, start, o, draw)];
      ticks := ticks + [t];
    }
  }

  /** Serving an earliest due entry of the heap extends the run by the tick of its schedule. */
  lemma {:induction false} TickExtends(heap: seq<Entry>, first: seq<Entry>, ticks: seq<Ticked>, e: Entry, start: real,
          o: Outcome, draw: real)
    returns (t: Ticked)
    requires IsRun(first, ticks) && multiset(heap) == multiset(SlotsAfter(first, ticks))
    requires e in heap && e.fireAt <= start && forall x :: x in heap ==> e.fireAt <= x.fireAt
    requires ticks != [] ==> ticks[|ticks| - 1].start <= start
    ensures t == Ticked(t.i, start, o, draw) && t.i < |first| && SlotsAfter(first, ticks)[t.i] == e
    ensures IsRun(first, ticks + [t])
    ensures multiset(SlotsAfter(first, ticks + [t]))
         == multiset(heap) - multiset{e} + multiset{Rescheduled(e, start, o, draw)}
  {
    var slots := SlotsAfter(first, ticks);
    SameMembers(heap, slots);
    var i :| 0 <= i < |slots| && slots[i] == e;
    t := Ticked(i, start, o, draw);
    forall k | 0 <= k < |slots| ensures e.fireAt <= slots[k].fireAt { assert slots[k] in heap; }
    MultisetReplace(slots, i, Rescheduled(e, start, o, draw));
    SlotsAppend(first, ticks, t);
    RunGrows(first, ticks, t);
  }

  method InitialEntries(schedules: seq<Schedule>, now: real, draws: seq<real>) returns (entries: seq<Entry>)
    requires |draws| == |schedules|
    ensures Fresh(schedules, entries)
    ensures forall i :: 0 <= i < |schedules| ==>
      entries[i].fireAt == now + Jittered(schedules[i].interval, schedules[i].jitter, draws[i])
  {
    entries := [];
    for i := 0 to |schedules|
      invariant |entries| == i
      invariant forall k :: 0 <= k < i ==>
        entries[k] == Entry(now + Jittered(schedules[k].interval, schedules[k].jitter, draws[k]), schedules[k], 0)
    {
      var s := schedules[i];
      entries := entries + [Entry(now + Jittered(s.interval, s.jitter, draws[i]), s, 0)];
    }
  }

  lemma SameMembers<T>(a: seq<T>, b: seq<T>)
    requires multiset(a) == multiset(b)
    ensures forall x :: x in a <==> x in b
  {
    forall x ensures x in a <==> x in b {
      assert x in a <==> x in multiset(a);
      assert x in b <==> x in multiset(b);
    }
  }

  lemma WithoutAt(heap: seq<Entry>, at: nat)
    requires at < |heap|
    ensures var rest := heap[..at] + heap[at + 1..];
            && multiset(rest) == multiset(heap) - multiset{heap[at]}
            && heap[at].schedule in multiset(SchedulesOf(heap))
            && multiset(SchedulesOf(rest)) == multiset(SchedulesOf(heap)) - multiset{heap[at].schedule}
  {
    var rest := heap[..at] + heap[at + 1..];
    var schedules := SchedulesOf(heap);
    assert heap == heap[..at] + [heap[at]] + heap[at + 1..];
    assert schedules == schedules[..at] + [schedules[at]] + schedules[at + 1..];
    assert SchedulesOf(rest) == schedules[..at] + schedules[at + 1..];
  }

  lemma IsFirst(e: Entry)
    ensures !Before(e, e)
  {
    LessIrreflexive(e.schedule.name);
  }

  /** What nothing seen so far precedes, the new minimum is not preceded by either. */
  lemma Supersedes(seen: seq<Entry>, best: Entry, e: Entry)
    requires (forall m :: 0 <= m < |seen| ==> !Before(seen[m], best)) && Before(e, best)
    ensures forall m :: 0 <= m < |seen| ==> !Before(seen[m], e)
  {
    forall m | 0 <= m < |seen| ensures !Before(seen[m], e) {
      NotBoth(e, best);
      BeforeTransitive(seen[m], best, e);
    }
  }

  lemma NotBoth(a: Entry, b: Entry)
    requires Before(a, b)
    ensures !Before(b, a)
  {
    if a.fireAt == b.fireAt && Less(a.schedule.name, b.schedule.name) {
      LessTransitive(a.schedule.name, b.schedule.name, a.schedule.name);
      LessIrreflexive(a.schedule.name);
    }
  }
}
