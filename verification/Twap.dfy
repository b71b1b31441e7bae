/** The TWAP scheduler: how much of a time-weighted order is sent when (matchTwaps in
    src/worker/order-matcher.ts, createTwapOrder and cancelTwapOrder in src/engine/order.ts).

    Sizes are in the asset's size steps, times in milliseconds. */
module Twap {
  import opened Prelude

  const SLICE_INTERVAL: int := 30000
  const MAX_CATCHUP: real := 3.0

  /** Added before a slice is floored, so that a whole number of steps survives. */
  const GUARD: real := 0.000001

  datatype Status = Running | Finished | Cancelled

  datatype Order = Order(
    user: int, total: real, minutes: nat, start: int, randomize: bool,
    filled: real, lastAt: Option<int>, nextAt: Option<int>, status: Status)
  {
    function Duration(): int { minutes * 60000 }

    function End(): int { start + Duration() }

    function Remaining(): real { Max(0.0, total - filled) }

    /** The last time a slice was sent, or the start. */
    function LastSlice(): int { lastAt.GetOr(start) }
  }

  /** What a placement writes. */
  function NewOrder(user: int, total: real, minutes: nat, start: int, randomize: bool): Order {
    Order(user, total, minutes, start, randomize, 0.0, None, None, Running)
  }

  function RoundedQuotient(a: int, b: int): int
    requires b > 0
  {
    (2 * a + b) / (2 * b)
  }

  function NumSlices(o: Order): (n: int)
    ensures n >= 1
  {
    var n := RoundedQuotient(o.Duration(), SLICE_INTERVAL);
    if n < 1 then 1 else n
  }

  /** The slices a placement plans for. */
  function PlannedSlices(minutes: nat): (n: int)
    ensures n >= 1
  {
    if minutes * 2 < 1 then 1 else minutes * 2
  }

  /** The least a suborder may be worth. */
  const MIN_NOTIONAL: real := 10.0

  /** A placement needs a positive size and, when the coin has a mid, suborders worth the minimum; stepValue is what
      one size step is worth at that mid. */
  predicate IsPlaceable(o: Order, stepValue: Option<real>) {
    && o.total > 0.0
    && (stepValue.Some? ==> Times(Over(o.total, PlannedSlices(o.minutes) as real), stepValue.value) >= MIN_NOTIONAL)
  }

  function BaseSlice(o: Order): real {
    Over(o.total, NumSlices(o) as real)
  }

  /** What a linear schedule would have filled by now. */
  function Target(o: Order, now: int): real
    requires o.minutes > 0
  {
    Times(o.total, (now - o.start) as real / o.Duration() as real)
  }

  /** The slice before it is floored to whole steps: at least the base size, as much as the schedule is behind,
      at most three times the base, and no more than is left. */
  function WantedSlice(o: Order, now: int): real
    requires o.minutes > 0
  {
    var gap := Max(0.0, Target(o, now) - o.filled);
    Min(Min(Max(gap, BaseSlice(o)), MAX_CATCHUP * BaseSlice(o)), o.Remaining())
  }

  function SliceSize(o: Order, now: int): int
    requires o.minutes > 0
  {
    (WantedSlice(o, now) + GUARD).Floor
  }

  datatype Decision = Finish | Wait | Submit(slice: int)

  function Decide(o: Order, now: int): Decision
    requires now >= o.start
  {
    if now >= o.End() || o.filled >= o.total then Finish
    else if o.nextAt.Some? && now < o.nextAt.value then Wait
    else if o.nextAt.None? && o.lastAt.Some? && now - o.lastAt.value < SLICE_INTERVAL then Wait
    else if o.Remaining() < 1.0 then Finish
    else if SliceSize(o, now) <= 0 then Wait
    else Submit(SliceSize(o, now))
  }

  /** One tick: the time, whether the coin has a mid, whether a suborder would be accepted, and the jitter drawn. An
      accepted suborder is answered as filled at its whole size. */
  datatype Tick = Tick(now: int, hasMid: bool, accepted: bool, jitter: int)
  {
    predicate Valid() { 15000 <= jitter <= 45000 }
  }

  function TickOrder(o: Order, k: Tick): Order
    requires k.now >= o.start
  {
    if o.status != Running then o
    else
      match Decide(o, k.now)
      case Finish => o.(status := Finished, lastAt := Some(k.now))
      case Wait => o
      case Submit(slice) =>
        if !k.hasMid then o
        else
          o.(filled := if k.accepted then o.filled + slice as real else o.filled,
             lastAt := Some(k.now),
             nextAt := Some(k.now + if o.randomize then k.jitter else SLICE_INTERVAL))
  }

  /** Ticks of one order: valid, none before its start, in the order of time. */
  ghost predicate IsRun(o: Order, ks: seq<Tick>) {
    && (forall i :: 0 <= i < |ks| ==> ks[i].Valid() && ks[i].now >= o.start)
    && (forall i, j :: 0 <= i < j < |ks| ==> ks[i].now <= ks[j].now)
  }

  function After(o: Order, ks: seq<Tick>): (r: Order)
    requires forall i :: 0 <= i < |ks| ==> ks[i].now >= o.start
    ensures (r.user, r.total, r.minutes, r.start, r.randomize) == (o.user, o.total, o.minutes, o.start, o.randomize)
  {
    if |ks| == 0 then o else TickOrder(After(o, ks[..|ks| - 1]), ks[|ks| - 1])
  }

  // ---- Schedule arithmetic ----

  /** A whole number of minutes is two slices a minute, as planned. */
  lemma TwoSlicesAMinute(o: Order)
    ensures NumSlices(o) == PlannedSlices(o.minutes)
    ensures o.minutes > 0 ==> NumSlices(o) == 2 * o.minutes && o.Duration() == NumSlices(o) * SLICE_INTERVAL
  {
  }

  /** The linear schedule moves by one base slice every thirty seconds. */
  function Advance(o: Order, ms: int): real {
    Times(BaseSlice(o), ms as real / 30000.0)
  }

  lemma TargetAdvances(o: Order, now: int)
    requires o.minutes > 0
    ensures Target(o, now) == Advance(o, now - o.start)
  {
    TwoSlicesAMinute(o);
    var n := NumSlices(o) as real;
    var e := (now - o.start) as real;
    assert o.Duration() as real == n * 30000.0;
    Rescale(o.total, n, e);
  }

  lemma Rescale(total: real, n: real, e: real)
    requires n > 0.0
    ensures Times(total, e / (n * 30000.0)) == Times(Over(total, n), e / 30000.0)
  {
    var q := e / (n * 30000.0);
    var b := total / n;
    assert q * (n * 30000.0) == e;
    assert b * n == total;
    assert e / 30000.0 == q * n;
    ThreeFactors(b, n, q);
  }

  lemma ThreeFactors(b: real, n: real, q: real)
    ensures (b * n) * q == b * (q * n)
  {
  }

  lemma AdvanceAdds(o: Order, a: int, b: int)
    ensures Advance(o, a + b) == Advance(o, a) + Advance(o, b)
  {
    SplitFactor(BaseSlice(o), a as real / 30000.0, b as real / 30000.0);
  }

  lemma SplitFactor(x: real, y: real, z: real)
    ensures Times(x, y + z) == Times(x, y) + Times(x, z)
  {
  }

  lemma AdvanceGrows(o: Order, ms: int, ms': int)
    requires o.total > 0.0 && ms <= ms'
    ensures Advance(o, ms) <= Advance(o, ms')
    ensures Advance(o, SLICE_INTERVAL) == BaseSlice(o) && Advance(o, 0) == 0.0
    ensures Advance(o, 2 * SLICE_INTERVAL) == 2.0 * BaseSlice(o) && 2.0 * Advance(o, 15000) == BaseSlice(o)
  {
    BaseIsPositive(o);
    hide BaseSlice;
    TimesOrders(BaseSlice(o), ms as real / 30000.0, ms' as real / 30000.0);
  }

  lemma BaseIsPositive(o: Order)
    requires o.total > 0.0
    ensures BaseSlice(o) > 0.0
  {
    var n := NumSlices(o) as real;
    OverCancels(o.total, n);
    hide Over;
    TimesOrders(n, 0.0, BaseSlice(o));
    TimesZero(n);
    TimesOrders(n, BaseSlice(o), 0.0);
  }
}
