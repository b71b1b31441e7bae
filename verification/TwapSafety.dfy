/** What holds of a TWAP in every run of ticks: it never fills more than its size, never sends more than three
    base slices at once, never runs ahead of the linear schedule by more than one base slice, and, ticked on
    time with slices that fill, never falls behind it by more than what one interval adds. */
module TwapSafety {
  import opened Prelude
  import opened Twap

  // ---- One slice ----

  /** A slice that is sent is a whole number of steps, one at least, no more than is left or than three times the
      base (but for the guard), no more than the base or what the schedule is behind, and it rounds off less than
      one step of the smallest of these bounds. */
  lemma SliceIsBounded(o: Order, now: int)
    requires now >= o.start && Decide(o, now).Submit?
    ensures
      var s, base := Decide(o, now).slice as real, BaseSlice(o);
      && now < o.End()
      && 1.0 <= s <= o.Remaining() + 0.000001
      && s <= 3.0 * base + 0.000001
      && s <= Max(Target(o, now) - o.filled, base) + 0.000001
      && (s > o.Remaining() + 0.000001 - 1.0 || s > 3.0 * base + 0.000001 - 1.0
          || s > Max(Target(o, now) - o.filled, base) + 0.000001 - 1.0)
  {
    var x := WantedSlice(o, now) + GUARD;
    assert x.Floor as real <= x < x.Floor as real + 1.0;
    BaseNotNegative(o);
    hide BaseSlice, Target;
  }

  lemma BaseNotNegative(o: Order)
    requires o.total > o.filled
    ensures o.total > 0.0 ==> BaseSlice(o) > 0.0
  {
    if o.total > 0.0 {
      BaseIsPositive(o);
    }
  }

  // ---- Never more than the size ----

  ghost predicate IsPlaced(o: Order) {
    o.total > 0.0 && o.filled == 0.0 && o.lastAt.None? && o.nextAt.None? && o.status == Running
  }

  ghost predicate WithinSize(o: Order) {
    0.0 <= o.filled <= o.total + GUARD
  }

  lemma TickStaysWithinSize(o: Order, k: Tick)
    requires k.Valid() && k.now >= o.start && WithinSize(o)
    ensures WithinSize(TickOrder(o, k)) && o.filled <= TickOrder(o, k).filled
  {
    if o.status == Running && Decide(o, k.now).Submit? {
      SliceIsBounded(o, k.now);
      hide Decide, Target, BaseSlice;
    }
  }

  /** Whatever fills and whenever it is ticked, an order never fills more than its size, but for the guard. */
  lemma {:induction false} NeverOverfills(o: Order, ks: seq<Tick>)
    requires IsPlaced(o) && IsRun(o, ks)
    ensures WithinSize(After(o, ks))
    decreases |ks|
  {
    if |ks| > 0 {
      NeverOverfills(o, ks[..|ks| - 1]);
      TickStaysWithinSize(After(o, ks[..|ks| - 1]), ks[|ks| - 1]);
      hide TickOrder;
    }
  }

  /** A size that is a whole number of steps. */
  predicate IsWhole(x: real) {
    x == x.Floor as real
  }

  lemma WholeAndGuard(x: real, y: real)
    requires IsWhole(x) && IsWhole(y) && x <= y + GUARD
    ensures x <= y
  {
    var m, n := x.Floor, y.Floor;
    assert m >= n + 1 ==> m as real >= (n + 1) as real;
  }

  lemma {:induction false} WholeSum(x: real, n: int)
    requires IsWhole(x)
    ensures IsWhole(x + n as real)
  {
    assert x + n as real == (x.Floor + n) as real;
  }

  /** With a whole size, not even by the guard. */
  lemma {:induction false} WholeNeverOverfills(o: Order, ks: seq<Tick>)
    requires IsPlaced(o) && IsRun(o, ks) && IsWhole(o.total)
    ensures IsWhole(After(o, ks).filled) && 0.0 <= After(o, ks).filled <= o.total
    decreases |ks|
  {
    if |ks| > 0 {
      var front, k := ks[..|ks| - 1], ks[|ks| - 1];
      var before := After(o, front);
      assert After(o, ks) == TickOrder(before, k);
      hide TickOrder, Decide, IsWhole, After;
      WholeNeverOverfills(o, front);
      NeverOverfills(o, ks);
      TickFillsSlice(before, k);
      if before.status == Running && Decide(before, k.now).Submit? {
        WholeSum(before.filled, Decide(before, k.now).slice);
      }
      WholeAndGuard(After(o, ks).filled, o.total);
    } else {
      WholeZero();
    }
  }

  lemma WholeZero()
    ensures IsWhole(0.0)
  {
  }

  lemma TickFillsSlice(o: Order, k: Tick)
    requires k.now >= o.start
    ensures
      || TickOrder(o, k).filled == o.filled
      || (o.status == Running && Decide(o, k.now).Submit? && TickOrder(o, k).filled == o.filled + Decide(o, k.now).slice as real)
  {
    hide Decide;
  }

  // ---- Never ahead by more than a base slice ----

  /** The shortest time between two slices: jitter may halve the interval. */
  function ShortestInterval(o: Order): int {
    if o.randomize then 15000 else SLICE_INTERVAL
  }

  /** The schedule slices as frequent as that would keep: the linear one, or twice it. */
  function FastestTarget(o: Order, now: int): real
    requires o.minutes > 0
  {
    if o.randomize then 2.0 * Target(o, now) else Target(o, now)
  }

  /** What the guard may add up to by a time: once for every shortest interval begun. */
  function GuardUpTo(o: Order, now: int): real {
    GUARD * ((now - o.start) as real / ShortestInterval(o) as real + 1.0)
  }

  ghost predicate NotAhead(o: Order) {
    && o.start <= o.LastSlice()
    && (o.lastAt.None? ==> o.filled == 0.0 && o.nextAt.None?)
    && (o.lastAt.Some? ==>
          && o.nextAt.Some? && o.nextAt.value >= o.lastAt.value + ShortestInterval(o)
          && o.minutes > 0
          && o.filled <= FastestTarget(o, o.lastAt.value) + BaseSlice(o) + GuardUpTo(o, o.lastAt.value))
  }

  lemma TickStaysNotAhead(o: Order, k: Tick)
    requires o.total > 0.0 && o.status == Running && NotAhead(o)
    requires k.Valid() && k.now >= o.start
    ensures TickOrder(o, k).status == Running ==> NotAhead(TickOrder(o, k))
  {
    if Decide(o, k.now).Submit? {
      var s := Decide(o, k.now).slice as real;
      SliceIsBounded(o, k.now);
      GuardGrows(o, o.LastSlice(), k.now);
      TargetGrows(o, o.LastSlice(), k.now);
      BaseIsPositive(o);
      TargetAtStart(o);
      TargetGrows(o, o.start, k.now);
      assert o.lastAt.Some? ==> k.now >= o.lastAt.value + ShortestInterval(o);
      hide Times, Target, BaseSlice, GuardUpTo, Decide;
      assert o.filled + s <= FastestTarget(o, k.now) + BaseSlice(o) + GuardUpTo(o, k.now);
      SameSchedule(o, TickOrder(o, k), k.now);
    }
  }

  /** The schedule depends on the order's terms alone. */
  lemma SameSchedule(o: Order, o': Order, now: int)
    requires o.minutes > 0
    requires (o.total, o.minutes, o.start, o.randomize) == (o'.total, o'.minutes, o'.start, o'.randomize)
    ensures Target(o', now) == Target(o, now) && FastestTarget(o', now) == FastestTarget(o, now)
    ensures BaseSlice(o') == BaseSlice(o) && GuardUpTo(o', now) == GuardUpTo(o, now)
  {
  }

  lemma GuardGrows(o: Order, a: int, b: int)
    requires o.start <= a <= b
    ensures GUARD <= GuardUpTo(o, a) <= GuardUpTo(o, b)
    ensures b >= a + ShortestInterval(o) ==> GuardUpTo(o, b) >= GuardUpTo(o, a) + GUARD
  {
  }

  lemma TargetGrows(o: Order, a: int, b: int)
    requires o.minutes > 0 && o.total > 0.0 && a <= b
    ensures Target(o, a) <= Target(o, b)
    ensures b >= a + ShortestInterval(o) ==> FastestTarget(o, b) >= FastestTarget(o, a) + BaseSlice(o)
  {
    TargetAdvances(o, a);
    TargetAdvances(o, b);
    AdvanceAdds(o, a - o.start, b - a);
    AdvanceGrows(o, 0, b - a);
    AdvanceGrows(o, ShortestInterval(o), if b - a >= ShortestInterval(o) then b - a else ShortestInterval(o));
    hide Target, Advance, BaseSlice;
  }

  lemma TargetAtStart(o: Order)
    requires o.minutes > 0 && o.total > 0.0
    ensures Target(o, o.start) == 0.0
  {
    TargetAdvances(o, o.start);
    AdvanceGrows(o, 0, 0);
  }

  /** Whatever fills and whenever it is ticked, an order is never ahead of the linear schedule by more than one base
      slice, and with jitter never ahead of twice the schedule by more than that (but for the guards of the slices
      sent so far). */
  lemma {:induction false} NeverRunsAhead(o: Order, ks: seq<Tick>)
    requires IsPlaced(o) && IsRun(o, ks)
    ensures After(o, ks).status == Running ==> NotAhead(After(o, ks))
    decreases |ks|
  {
    if |ks| > 0 {
      var front, k := ks[..|ks| - 1], ks[|ks| - 1];
      NeverRunsAhead(o, front);
      if After(o, front).status == Running {
        TickStaysNotAhead(After(o, front), k);
      } else {
        assert After(o, ks) == After(o, front);
      }
      hide TickOrder, NotAhead;
    }
  }

  /** Twenty steps over five minutes, two at a time. */
  const JITTERED: Order := NewOrder(7, 20.0, 5, 0, true)

  lemma TwoStepsAreDue(o: Order, now: int)
    requires (o.total, o.minutes, o.start) == (20.0, 5, 0) && 0 <= now <= 15000 && 0.0 <= o.filled <= 2.0
    requires if o.nextAt.Some? then now >= o.nextAt.value else o.lastAt.None?
    ensures BaseSlice(o) == 2.0 && Target(o, now) == now as real / 15000.0
    ensures Decide(o, now) == Submit(2)
  {
    assert NumSlices(o) == 10 && o.Duration() == 300000;
    assert Target(o, now) == 20.0 * (now as real / 300000.0);
    hide Target, BaseSlice;
    assert WantedSlice(o, now) == 2.0;
    hide WantedSlice;
  }

  /** Jitter does run ahead of the linear schedule by more than a base slice: two slices fifteen seconds apart, and
      four steps are filled when one is due. */
  lemma JitterRunsAhead()
    ensures
      var ks := [Tick(0, true, true, 15000), Tick(15000, true, true, 15000)];
      var r := After(JITTERED, ks);
      && IsPlaced(JITTERED) && IsRun(JITTERED, ks)
      && r.filled == 4.0 && Target(r, 15000) == 1.0 && BaseSlice(r) == 2.0
  {
    hide Decide, Target, BaseSlice;
    var k1, k2 := Tick(0, true, true, 15000), Tick(15000, true, true, 15000);
    var ks := [k1, k2];
    assert ks[..1] == [k1] && [k1][..0] == [];
    TwoStepsAreDue(JITTERED, 0);
    var after := JITTERED.(filled := 2.0, lastAt := Some(0), nextAt := Some(15000));
    assert After(JITTERED, [k1]) == after;
    TwoStepsAreDue(after, 15000);
    SameSchedule(after, TickOrder(after, k2), 15000);
  }

  // ---- Never behind by more than an interval's share ----

  function Earlier(a: int, b: int): int {
    if a <= b then a else b
  }

  /** How far behind the linear schedule an order is; after its end the whole size is due. */
  function Shortfall(o: Order, now: int): real
    requires o.minutes > 0
  {
    Target(o, Earlier(now, o.End())) - o.filled
  }

  /** The tick comes at most a minute after the last slice, the coin has a mid, and what is sent fills. */
  ghost predicate OnTime(o: Order, k: Tick) {
    o.LastSlice() <= k.now <= o.LastSlice() + 2 * SLICE_INTERVAL && k.hasMid && k.accepted
  }

  ghost predicate Punctual(o: Order, ks: seq<Tick>)
    requires forall i :: 0 <= i < |ks| ==> ks[i].now >= o.start
    decreases |ks|
  {
    |ks| == 0 ||
    (Punctual(o, ks[..|ks| - 1]) &&
     (After(o, ks[..|ks| - 1]).status == Running ==> OnTime(After(o, ks[..|ks| - 1]), ks[|ks| - 1])))
  }

  ghost predicate CaughtUp(o: Order) {
    o.minutes > 0 && o.LastSlice() <= o.End() && Shortfall(o, o.LastSlice()) < 1.0
  }

  /** Between slices the schedule gains at most the base per thirty seconds. */
  lemma ShortfallBefore(o: Order, now: int)
    requires o.total > 0.0 && CaughtUp(o) && now >= o.LastSlice()
    ensures Shortfall(o, now) < Advance(o, now - o.LastSlice()) + 1.0
  {
    var last, due := o.LastSlice(), Earlier(now, o.End());
    TargetAdvances(o, last);
    TargetAdvances(o, due);
    AdvanceAdds(o, last - o.start, due - last);
    AdvanceGrows(o, due - last, now - last);
    hide Target, Advance;
  }

  /** A slice sent within a minute of the last one, and filled, leaves less than a step to catch up. */
  lemma {:induction false} SliceCatchesUp(o: Order, k: Tick)
    requires o.total > 0.0 && BaseSlice(o) >= 1.0 && o.status == Running && CaughtUp(o)
    requires k.now >= o.start && OnTime(o, k)
    ensures TickOrder(o, k).status == Running ==> CaughtUp(TickOrder(o, k))
  {
    if Decide(o, k.now).Submit? {
      var s := Decide(o, k.now).slice as real;
      SliceIsBounded(o, k.now);
      ShortfallBefore(o, k.now);
      AdvanceGrows(o, k.now - o.LastSlice(), 2 * SLICE_INTERVAL);
      TargetBelowTotal(o, k.now);
      SameSchedule(o, TickOrder(o, k), k.now);
      hide Decide, Target, BaseSlice, Advance, Times;
      assert Target(o, k.now) - (o.filled + s) < 1.0;
    }
  }

  lemma TargetBelowTotal(o: Order, now: int)
    requires o.minutes > 0 && o.total > 0.0 && now <= o.End()
    ensures Target(o, now) <= o.total
  {
    TargetGrows(o, now, o.End());
    TimesUnit(o.total);
    assert o.Duration() as real / o.Duration() as real == 1.0;
    TimesCommute(o.total, 1.0);
  }

  lemma TimesCommute(x: real, y: real)
    ensures Times(x, y) == Times(y, x)
  {
  }

  lemma {:induction false} StaysCaughtUp(o: Order, ks: seq<Tick>)
    requires IsPlaced(o) && o.minutes > 0 && BaseSlice(o) >= 1.0 && IsRun(o, ks) && Punctual(o, ks)
    ensures After(o, ks).status == Running ==> CaughtUp(After(o, ks))
    decreases |ks|
  {
    if |ks| == 0 {
      TargetAtStart(o);
    } else {
      var front, k := ks[..|ks| - 1], ks[|ks| - 1];
      StaysCaughtUp(o, front);
      var before := After(o, front);
      if before.status == Running {
        SameSchedule(o, before, o.start);
        SliceCatchesUp(before, k);
      } else {
        assert After(o, ks) == before;
      }
      hide TickOrder, CaughtUp, BaseSlice;
    }
  }

  lemma BehindAt(o: Order, now: int)
    requires o.total > 0.0 && CaughtUp(o) && now >= o.LastSlice()
    ensures Shortfall(o, now) < Advance(o, now - o.LastSlice()) + 1.0
    ensures now - o.LastSlice() <= SLICE_INTERVAL ==> Shortfall(o, now) < BaseSlice(o) + 1.0
    ensures now >= o.End() ==> Shortfall(o, now) == o.total - o.filled
  {
    ShortfallBefore(o, now);
    AdvanceGrows(o, Earlier(now - o.LastSlice(), SLICE_INTERVAL), SLICE_INTERVAL);
    TargetAtEnd(o);
    hide Target, Advance, BaseSlice;
  }

  lemma FinishFillsNothing(o: Order, k: Tick)
    requires k.now >= o.start
    ensures o.status == Running && TickOrder(o, k).status == Finished ==> TickOrder(o, k).filled == o.filled
  {
    hide Decide;
  }

  /** With a base slice of at least one step, ticks no more than a minute after the last slice and slices that
      fill, an order is never behind the linear schedule by as much as the base for every thirty seconds since
      the last slice, and one step: before every slice, and when it finishes. */
  lemma {:induction false} NeverFallsBehind(o: Order, ks: seq<Tick>)
    requires IsPlaced(o) && o.minutes > 0 && BaseSlice(o) >= 1.0 && IsRun(o, ks) && Punctual(o, ks)
    requires |ks| > 0 && After(o, ks[..|ks| - 1]).status == Running
    ensures
      var before, now := After(o, ks[..|ks| - 1]), ks[|ks| - 1].now;
      && Shortfall(before, now) < Advance(before, now - before.LastSlice()) + 1.0
      && (now - before.LastSlice() <= SLICE_INTERVAL ==> Shortfall(before, now) < BaseSlice(o) + 1.0)
      && (After(o, ks).status == Finished && now >= o.End() ==>
            o.total - After(o, ks).filled < Advance(before, now - before.LastSlice()) + 1.0)
  {
    var front, k := ks[..|ks| - 1], ks[|ks| - 1];
    var before := After(o, front);
    LastTick(o, ks);
    hide *;
    StaysCaughtUp(o, front);
    FinishFillsNothing(before, k);
    SameBase(o, before);
    BehindAt(before, k.now);
  }

  /** A punctual run without its last tick is one too, and that tick is on time. */
  lemma LastTick(o: Order, ks: seq<Tick>)
    requires IsPlaced(o) && IsRun(o, ks) && Punctual(o, ks) && |ks| > 0
    ensures
      var front, k := ks[..|ks| - 1], ks[|ks| - 1];
      && IsRun(o, front) && Punctual(o, front)
      && After(o, ks) == TickOrder(After(o, front), k)
      && After(o, front).total > 0.0
      && k.now >= o.start
      && (After(o, front).status == Running ==> k.now >= After(o, front).LastSlice())
  {
    hide TickOrder;
  }

  lemma TargetAtEnd(o: Order)
    requires o.minutes > 0
    ensures Target(o, o.End()) == o.total
  {
    assert o.Duration() as real / o.Duration() as real == 1.0;
    TimesUnit(o.total);
    TimesCommute(o.total, 1.0);
  }

  // ---- Orders too thin to send anything ----

  /** Three base slices do not make one step. */
  predicate IsTooThin(o: Order) {
    MAX_CATCHUP * BaseSlice(o) + GUARD < 1.0
  }

  /** Three base slices short of one step: nothing is ever sent, and the order ends unfilled. Otherwise a slice
      goes out once the schedule is a step behind. */
  lemma TooThinNeverFills(o: Order, now: int)
    requires now >= o.start && o.total > 0.0
    ensures IsTooThin(o) ==> !Decide(o, now).Submit?
    ensures
      && !IsTooThin(o)
      && now < o.End() && o.Remaining() >= 1.0 && Target(o, now) - o.filled >= 1.0
      && (o.nextAt.None? || now >= o.nextAt.value) && (o.lastAt.Some? ==> now - o.lastAt.value >= SLICE_INTERVAL)
      ==> Decide(o, now).Submit?
  {
    if now < o.End() {
      FloorAtLeastOne(WantedSlice(o, now) + GUARD);
    }
    hide BaseSlice, Target;
  }

  lemma FloorAtLeastOne(x: real)
    ensures x.Floor >= 1 <==> x >= 1.0
  {
  }

  lemma {:induction false} TooThinEndsUnfilled(o: Order, ks: seq<Tick>)
    requires IsPlaced(o) && IsRun(o, ks) && IsTooThin(o)
    ensures After(o, ks).filled == 0.0
  {
    NeverFillsUnless(o, ks);
  }

  // ---- When an order is due, and when it ends ----

  /** The time of the next slice has come; for a record without one, thirty seconds have passed since the last. */
  predicate IsDue(o: Order, now: int) {
    if o.nextAt.Some? then now >= o.nextAt.value else o.lastAt.Some? ==> now - o.lastAt.value >= 30000
  }

  /** A slice is only sent when due; and a tick ends a running order exactly if its time is over, or everything is
      filled, or the next slice is due and less than a step is left. */
  lemma EndsExactly(o: Order, k: Tick)
    requires o.status == Running && k.now >= o.start
    ensures Decide(o, k.now).Submit? ==> IsDue(o, k.now)
    ensures TickOrder(o, k).status == Finished
       <==> k.now >= o.start + o.minutes * 60000 || o.filled >= o.total || (IsDue(o, k.now) && o.total - o.filled < 1.0)
  {
    hide WantedSlice;
  }

  /** A placed order finishes by itself only when its time is over or less than a step of it is left. */
  lemma {:induction false} FinishedIsDone(o: Order, ks: seq<Tick>)
    requires IsPlaced(o) && IsRun(o, ks) && After(o, ks).status == Finished
    ensures |ks| > 0 && (ks[|ks| - 1].now >= o.start + o.minutes * 60000 || o.total - After(o, ks).filled < 1.0)
    decreases |ks|
  {
    var n := |ks| - 1;
    var before := After(o, ks[..n]);
    hide Decide;
    if before.status == Finished {
      FinishedIsDone(o, ks[..n]);
    } else {
      NeverCancelled(o, ks[..n]);
      EndsExactly(before, ks[n]);
      FinishKeepsFilled(before, ks[n]);
      hide TickOrder;
    }
  }

  lemma FinishKeepsFilled(o: Order, k: Tick)
    requires o.status == Running && k.now >= o.start && TickOrder(o, k).status == Finished
    ensures TickOrder(o, k).filled == o.filled
  {
    hide Decide;
  }

  /** Ticks do not cancel. */
  lemma {:induction false} NeverCancelled(o: Order, ks: seq<Tick>)
    requires IsPlaced(o) && IsRun(o, ks)
    ensures After(o, ks).status != Cancelled
    decreases |ks|
  {
    hide Decide;
    if |ks| > 0 {
      NeverCancelled(o, ks[..|ks| - 1]);
    }
  }

  /** The i-th tick sends a slice. */
  predicate Sends(o: Order, ks: seq<Tick>, i: nat)
    requires i < |ks| && forall j :: 0 <= j < |ks| ==> ks[j].now >= o.start
  {
    var before := After(o, ks[..i]);
    before.status == Running && Decide(before, ks[i].now).Submit? && ks[i].hasMid
  }

  /** After a slice the next one is not due for the shortest interval. */
  lemma {:induction false} NextIsLater(o: Order, ks: seq<Tick>, i: nat)
    requires IsRun(o, ks) && i < |ks| && Sends(o, ks, i)
    ensures After(o, ks).nextAt.Some? && After(o, ks).nextAt.value >= ks[i].now + ShortestInterval(o)
    decreases |ks|
  {
    var n := |ks| - 1;
    if i < n {
      assert ks[..n][..i] == ks[..i];
      NextIsLater(o, ks[..n], i);
    }
    hide Decide;
  }

  /** In every run any two slices are at least thirty seconds apart, or fifteen of a randomized order. */
  lemma {:induction false} SlicesAreSpaced(o: Order, ks: seq<Tick>, i: nat, j: nat)
    requires IsRun(o, ks) && i < j < |ks| && Sends(o, ks, i) && Sends(o, ks, j)
    ensures ks[j].now - ks[i].now >= if o.randomize then 15000 else 30000
  {
    assert ks[..j][..i] == ks[..i];
    NextIsLater(o, ks[..j], i);
    EndsExactly(After(o, ks[..j]), ks[j]);
    hide Decide, TickOrder, After;
  }

  // ---- Which orders ever fill ----

  /** What a placed order needs to fill anything: a whole step to fill, three base slices that make one, and a
      schedule that comes to one step before its last moment. */
  predicate CanFill(o: Order) {
    && o.minutes > 0
    && o.total >= 1.0
    && !IsTooThin(o)
    && Target(o, o.End() - 1) + GUARD >= 1.0
  }

  /** At its last moment the schedule has passed the base slice and every earlier target; it lacks what a
      millisecond adds. */
  lemma LastTarget(o: Order, now: int)
    requires o.minutes > 0 && o.total > 0.0 && now < o.End()
    ensures Target(o, now) <= Target(o, o.End() - 1) == o.total - BaseSlice(o) / 30000.0
    ensures 0.0 < BaseSlice(o) <= Target(o, o.End() - 1)
  {
    TargetGrows(o, now, o.End() - 1);
    TargetAdvances(o, o.End() - 1);
    TargetAdvances(o, o.End());
    TargetAtEnd(o);
    AdvanceAdds(o, o.Duration() - 1, 1);
    AdvanceGrows(o, SLICE_INTERVAL, o.Duration() - 1);
    assert Advance(o, 1) == BaseSlice(o) / 30000.0;
    BaseIsPositive(o);
    hide Target, Advance, BaseSlice;
  }

  /** The first slice of an order: it is sent only if the order can fill, and then at the last moment at the latest. */
  lemma FirstSlice(o: Order, now: int)
    requires o.total > 0.0 && o.filled == 0.0 && now >= o.start
    ensures Decide(o, now).Submit? ==> CanFill(o)
    ensures CanFill(o) && o.lastAt.None? && o.nextAt.None? ==> Decide(o, o.End() - 1).Submit?
  {
    if o.minutes > 0 {
      LastTarget(o, if now < o.End() then now else o.End() - 1);
      if now < o.End() {
        FloorAtLeastOne(WantedSlice(o, now) + GUARD);
      }
      FloorAtLeastOne(WantedSlice(o, o.End() - 1) + GUARD);
      hide Target, BaseSlice;
    }
  }

  lemma SameCanFill(o: Order, o': Order)
    requires (o.total, o.minutes, o.start) == (o'.total, o'.minutes, o'.start)
    ensures CanFill(o') == CanFill(o)
  {
  }

  lemma {:induction false} NeverFillsUnless(o: Order, ks: seq<Tick>)
    requires IsPlaced(o) && IsRun(o, ks) && !CanFill(o)
    ensures After(o, ks).filled == 0.0
    decreases |ks|
  {
    if |ks| > 0 {
      var front, k := ks[..|ks| - 1], ks[|ks| - 1];
      NeverFillsUnless(o, front);
      var before := After(o, front);
      SameCanFill(o, before);
      FirstSlice(before, k.now);
      hide Decide, CanFill;
    }
  }

  /** An order fills something in some run if and only if it can fill: nothing otherwise, whatever the ticks, and else
      at the latest with one tick at its last moment. */
  lemma {:induction false} FillsExactlyIfItCan(o: Order)
    requires IsPlaced(o)
    ensures (exists ks :: IsRun(o, ks) && After(o, ks).filled > 0.0) <==> CanFill(o)
  {
    if CanFill(o) {
      FirstSlice(o, o.start);
      var k := Tick(o.End() - 1, true, true, 15000);
      assert [k][..0] == [];
      assert After(o, [k]) == TickOrder(o, k);
      assert IsRun(o, [k]);
      hide CanFill;
      assert After(o, [k]).filled > 0.0;
    } else if ks :| IsRun(o, ks) && After(o, ks).filled > 0.0 {
      NeverFillsUnless(o, ks);
    }
  }

  /** Over two minutes or more those are all but the too-thin orders; over one minute it takes a little more than one
      step; over none nothing fills. */
  lemma CanFillByMinutes(o: Order)
    requires o.total > 0.0
    ensures o.minutes >= 2 ==> (CanFill(o) <==> !IsTooThin(o))
    ensures o.minutes == 1 ==> (CanFill(o) <==> o.total * 59999.0 / 60000.0 + GUARD >= 1.0)
    ensures o.minutes == 0 ==> !CanFill(o)
  {
    if o.minutes > 0 {
      LastTarget(o, o.start);
      TwoSlicesAMinute(o);
      OverCancels(o.total, NumSlices(o) as real);
      var base := BaseSlice(o);
      assert Times(NumSlices(o) as real, base) == o.total;
      AtLeastFour(NumSlices(o), base);
      hide Target, BaseSlice;
    }
  }

  lemma AtLeastFour(n: int, base: real)
    requires base > 0.0
    ensures n >= 4 ==> Times(n as real, base) >= 4.0 * base
    ensures n == 2 ==> Times(n as real, base) == 2.0 * base
  {
    if n >= 4 {
      ProductSign(n as real - 4.0, base);
    }
  }

  /** An order for nine tenths of a step over one minute is not too thin, and can be placed, and fills nothing. */
  lemma LessThanAStepFillsNothing(ks: seq<Tick>)
    requires IsRun(NewOrder(7, 0.9, 1, 0, false), ks)
    ensures
      var o := NewOrder(7, 0.9, 1, 0, false);
      !IsTooThin(o) && IsPlaceable(o, Some(50.0)) && After(o, ks).filled == 0.0
  {
    var o := NewOrder(7, 0.9, 1, 0, false);
    assert BaseSlice(o) == 0.45;
    NeverFillsUnless(o, ks);
  }

  /** Such an order can be placed exactly when the coin has no mid yet, or one size step is worth (just) more than
      three times the least suborder: for any smaller value the minimum refuses it. */
  lemma TooThinIsPlaceable(minutes: nat, stepValue: Option<real>)
    requires stepValue.Some? ==> stepValue.value > 0.0
    ensures (exists total :: IsThinOrder(total, minutes, stepValue))
       <==> stepValue.None? || stepValue.value * 0.999999 > 30.0
  {
    assert 1.0 - GUARD == 0.999999 && MAX_CATCHUP * MIN_NOTIONAL == 30.0;
    if total :| IsThinOrder(total, minutes, stepValue) && stepValue.Some? {
      var base := BaseSlice(NewOrder(0, total, minutes, 0, false));
      TwoSlicesAMinute(NewOrder(0, total, minutes, 0, false));
      ThinBase(base, stepValue.value);
      hide BaseSlice, Times;
    }
    if stepValue.None? || stepValue.value * (1.0 - GUARD) > MAX_CATCHUP * MIN_NOTIONAL {
      var base := if stepValue.None? then 0.1 else Over(MIN_NOTIONAL, stepValue.value);
      var total := Times(PlannedSlices(minutes) as real, base);
      var o := NewOrder(0, total, minutes, 0, false);
      TwoSlicesAMinute(o);
      OverIsUnique(total, PlannedSlices(minutes) as real, base);
      if stepValue.Some? {
        LeastBase(stepValue.value);
      }
      assert BaseSlice(o) == base;
      TimesSign(PlannedSlices(minutes) as real, base);
      hide BaseSlice, Times, Over;
      assert IsThinOrder(total, minutes, stepValue);
    }
  }

  predicate IsThinOrder(total: real, minutes: nat, stepValue: Option<real>) {
    var o := NewOrder(0, total, minutes, 0, false);
    IsTooThin(o) && IsPlaceable(o, stepValue)
  }

  lemma ThinBase(base: real, v: real)
    requires v > 0.0 && MAX_CATCHUP * base + GUARD < 1.0 && Times(base, v) >= MIN_NOTIONAL
    ensures v * (1.0 - GUARD) > MAX_CATCHUP * MIN_NOTIONAL
  {
    ProductSign(v, 1.0 - GUARD - MAX_CATCHUP * base);
  }

  lemma LeastBase(v: real)
    requires v > 0.0 && v * (1.0 - GUARD) > MAX_CATCHUP * MIN_NOTIONAL
    ensures
      var base := Over(MIN_NOTIONAL, v);
      base > 0.0 && Times(base, v) == MIN_NOTIONAL && MAX_CATCHUP * base + GUARD < 1.0
  {
    var base := Over(MIN_NOTIONAL, v);
    OverCancels(MIN_NOTIONAL, v);
    hide Over;
    assert v * base == MIN_NOTIONAL;
    assert v * (1.0 - GUARD - MAX_CATCHUP * base) > 0.0;
  }

  /** Three steps worth fifty each, over five minutes: placeable, and whatever the ticks it fills nothing. */
  lemma ThreeStepsFillNothing(ks: seq<Tick>)
    requires IsRun(NewOrder(7, 3.0, 5, 0, false), ks)
    ensures
      var o := NewOrder(7, 3.0, 5, 0, false);
      IsPlaceable(o, Some(50.0)) && After(o, ks).filled == 0.0
  {
    var o := NewOrder(7, 3.0, 5, 0, false);
    assert BaseSlice(o) == 0.3;
    TooThinEndsUnfilled(o, ks);
  }

  lemma SameBase(o: Order, o': Order)
    requires (o.total, o.minutes) == (o'.total, o'.minutes)
    ensures BaseSlice(o') == BaseSlice(o)
  {
  }
}
