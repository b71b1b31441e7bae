/** Volume-weighted execution price: walking one side of the order book (src/utils/slippage.ts). */
module Slippage {
  import opened Prelude

  datatype Level = Level(px: real, sz: real)

  datatype L2Book = L2Book(bids: seq<Level>, asks: seq<Level>)

  datatype Source = Vwap | Fallback

  datatype VwapResult = VwapResult(fillPx: real, source: Source)

  /** A price worse than the limit allows. */
  predicate Beyond(isBuy: bool, px: real, limitPx: Option<real>) {
    limitPx.Some? && if isBuy then px > limitPx.value else px < limitPx.value
  }

  function Clamp(isBuy: bool, px: real, limitPx: Option<real>): real {
    if Beyond(isBuy, px, limitPx) then limitPx.value else px
  }

  // ---- The walk ----

  /** Notional and size collected from the rest of the levels, given what is collected so far. */
  function Walk(levels: seq<Level>, sz: real, isBuy: bool, limitPx: Option<real>, notional: real, filled: real)
    : (r: (real, real))
    decreases |levels|
  {
    if |levels| == 0 || filled >= sz || Beyond(isBuy, levels[0].px, limitPx) then (notional, filled)
    else
      var take := Min(levels[0].sz, sz - filled);
      Walk(levels[1..], sz, isBuy, limitPx, notional + Times(take, levels[0].px), filled + take)
  }

  /** The remainder a thin book leaves is priced at the last level, or the limit if that is closer. */
  function WorstPx(levels: seq<Level>, isBuy: bool, limitPx: Option<real>): real
    requires |levels| > 0
  {
    Clamp(isBuy, levels[|levels| - 1].px, limitPx)
  }

  /** The average before the final safety clamp. */
  function AveragePx(levels: seq<Level>, sz: real, isBuy: bool, limitPx: Option<real>): real
    requires |levels| > 0 && Walk(levels, sz, isBuy, limitPx, 0.0, 0.0).1 != 0.0
  {
    assert sz > 0.0;
    var (notional, filled) := Walk(levels, sz, isBuy, limitPx, 0.0, 0.0);
    if filled < sz then
      Over(notional + Times(sz - filled, WorstPx(levels, isBuy, limitPx)), sz)
    else Over(notional, filled)
  }

  function ExecutionPx(levels: seq<Level>, sz: real, isBuy: bool, limitPx: Option<real>, fallbackPx: real): VwapResult {
    if |levels| == 0 || Walk(levels, sz, isBuy, limitPx, 0.0, 0.0).1 == 0.0 then VwapResult(fallbackPx, Fallback)
    else VwapResult(Clamp(isBuy, AveragePx(levels, sz, isBuy, limitPx), limitPx), Vwap)
  }

  method ComputeVwap(levels: seq<Level>, sz: real, isBuy: bool, limitPx: Option<real>, fallbackPx: real)
    returns (r: VwapResult)
    ensures r == ExecutionPx(levels, sz, isBuy, limitPx, fallbackPx)
  {
    hide Times, Over;
    if |levels| == 0 {
      return VwapResult(fallbackPx, Fallback);
    }
    var totalNotional, totalFilled := 0.0, 0.0;
    var i := 0;
    while i < |levels|
      invariant 0 <= i <= |levels|
      invariant Walk(levels[i..], sz, isBuy, limitPx, totalNotional, totalFilled)
             == Walk(levels, sz, isBuy, limitPx, 0.0, 0.0)
    {
      var level := levels[i];
      if totalFilled >= sz { break; }
      if limitPx.Some? {
        if isBuy && level.px > limitPx.value { break; }
        if !isBuy && level.px < limitPx.value { break; }
      }
      var remaining := sz - totalFilled;
      var filled := if level.sz <= remaining then level.sz else remaining;
      totalNotional := totalNotional + Times(filled, level.px);
      totalFilled := totalFilled + filled;
      assert levels[i..][1..] == levels[i + 1..];
      i := i + 1;
    }
    assert Walk(levels, sz, isBuy, limitPx, 0.0, 0.0) == (totalNotional, totalFilled);
    if totalFilled == 0.0 {
      return VwapResult(fallbackPx, Fallback);
    }
    if totalFilled < sz {
      var worstPx := levels[|levels| - 1].px;
      var fillAtPx := worstPx;
      if limitPx.Some? {
        if isBuy && worstPx > limitPx.value { fillAtPx := limitPx.value; }
        if !isBuy && worstPx < limitPx.value { fillAtPx := limitPx.value; }
      }
      var remaining := sz - totalFilled;
      totalNotional := totalNotional + Times(remaining, fillAtPx);
      totalFilled := sz;
    }
    var vwap := Over(totalNotional, totalFilled);
    assert vwap == AveragePx(levels, sz, isBuy, limitPx);
    if limitPx.Some? {
      if isBuy && vwap > limitPx.value { vwap := limitPx.value; }
      if !isBuy && vwap < limitPx.value { vwap := limitPx.value; }
    }
    r := VwapResult(vwap, Vwap);
  }

  /** The price of an order: a buy walks the asks and a sell the bids; without a book it is the fallback. */
  function FillPrice(book: Option<L2Book>, sz: real, isBuy: bool, limitPx: Option<real>, fallbackPx: real): real {
    if book.None? then fallbackPx
    else ExecutionPx(if isBuy then book.value.asks else book.value.bids, sz, isBuy, limitPx, fallbackPx).fillPx
  }

  /** From a fallback within the limit, no price is beyond it. */
  lemma NeverBeyond(book: Option<L2Book>, sz: real, isBuy: bool, limitPx: real, fallbackPx: real)
    requires if isBuy then fallbackPx <= limitPx else fallbackPx >= limitPx
    ensures var px := FillPrice(book, sz, isBuy, Some(limitPx), fallbackPx);
      if isBuy then px <= limitPx else px >= limitPx
  {
    hide AveragePx, Walk;
  }

  // ---- What the walk prices ----

  /** A side of the book as the exchange sends it: best level first, positive sizes. */
  predicate IsSide(levels: seq<Level>, isBuy: bool) {
    && (forall i :: 0 <= i < |levels| ==> levels[i].sz > 0.0)
    && (forall i, j :: 0 <= i < j < |levels| ==>
          if isBuy then levels[i].px <= levels[j].px else levels[i].px >= levels[j].px)
  }

  /** The reference price of a trade: s units bought level by level, and whatever the eligible levels
      cannot supply at the price worst. */
  function Cost(levels: seq<Level>, s: real, isBuy: bool, limitPx: Option<real>, worst: real): real {
    if |levels| == 0 || Beyond(isBuy, levels[0].px, limitPx) then Times(s, worst)
    else if s <= levels[0].sz then Times(s, levels[0].px)
    else Times(levels[0].sz, levels[0].px) + Cost(levels[1..], s - levels[0].sz, isBuy, limitPx, worst)
  }

  lemma WalkWhenFull(levels: seq<Level>, sz: real, isBuy: bool, limitPx: Option<real>, notional: real, filled: real)
    requires filled >= sz
    ensures Walk(levels, sz, isBuy, limitPx, notional, filled) == (notional, filled)
  {
  }

  lemma {:induction false} WalkIsCost(levels: seq<Level>, sz: real, isBuy: bool, limitPx: Option<real>,
                                      notional: real, filled: real, worst: real)
    requires IsSide(levels, isBuy) && filled <= sz
    ensures var (n, f) := Walk(levels, sz, isBuy, limitPx, notional, filled);
      && filled <= f <= sz
      && n + Times(sz - f, worst) == notional + Cost(levels, sz - filled, isBuy, limitPx, worst)
      && (|levels| > 0 && filled < sz ==> (f == filled <==> Beyond(isBuy, levels[0].px, limitPx)))
    decreases |levels|
  {
    hide Times;
    TimesSplits(sz, 0.0, worst);
    if |levels| == 0 || Beyond(isBuy, levels[0].px, limitPx) {
    } else if filled >= sz {
      TimesSplits(sz, 0.0, levels[0].px);
    } else {
      var take := Min(levels[0].sz, sz - filled);
      if take == sz - filled {
        WalkWhenFull(levels[1..], sz, isBuy, limitPx, notional + Times(take, levels[0].px), filled + take);
      } else {
        WalkIsCost(levels[1..], sz, isBuy, limitPx, notional + Times(take, levels[0].px), filled + take, worst);
        assert sz - filled - levels[0].sz == sz - (filled + take);
      }
    }
  }

  /** The average prices exactly sz units: it is Cost / sz, and it exists exactly when the best level
      is within the limit. */
  lemma AverageIsCost(levels: seq<Level>, sz: real, isBuy: bool, limitPx: Option<real>)
    requires IsSide(levels, isBuy) && sz > 0.0 && |levels| > 0
    ensures Walk(levels, sz, isBuy, limitPx, 0.0, 0.0).1 == 0.0 <==> Beyond(isBuy, levels[0].px, limitPx)
    ensures !Beyond(isBuy, levels[0].px, limitPx) ==>
      Times(sz, AveragePx(levels, sz, isBuy, limitPx))
      == Cost(levels, sz, isBuy, limitPx, WorstPx(levels, isBuy, limitPx))
  {
    hide Times, Over, Cost, WorstPx, IsSide;
    var worst := WorstPx(levels, isBuy, limitPx);
    WalkIsCost(levels, sz, isBuy, limitPx, 0.0, 0.0, worst);
    hide Walk;
    var (notional, filled) := Walk(levels, sz, isBuy, limitPx, 0.0, 0.0);
    TimesSplits(sz, 0.0, worst);
    if filled != 0.0 {
      OverCancels(notional + Times(sz - filled, worst), sz);
      OverCancels(notional, filled);
    }
  }

  // ---- Buying ----

  lemma {:induction false} CostBounds(levels: seq<Level>, s: real, limitPx: Option<real>, lo: real, worst: real)
    requires s >= 0.0 && lo <= worst
    requires forall i :: 0 <= i < |levels| ==> levels[i].sz > 0.0 && lo <= levels[i].px
    requires forall i :: 0 <= i < |levels| && !Beyond(true, levels[i].px, limitPx) ==> levels[i].px <= worst
    ensures Times(s, lo) <= Cost(levels, s, true, limitPx, worst) <= Times(s, worst)
    decreases |levels|
  {
    hide Times;
    if |levels| == 0 || Beyond(true, levels[0].px, limitPx) {
      TimesOrders(s, lo, worst);
    } else if s <= levels[0].sz {
      TimesOrders(s, lo, levels[0].px);
      TimesOrders(s, levels[0].px, worst);
    } else {
      var d := levels[0].sz;
      CostBounds(levels[1..], s - d, limitPx, lo, worst);
      TimesOrders(d, lo, levels[0].px);
      TimesOrders(d, levels[0].px, worst);
      TimesSplits(s, d, lo);
      TimesSplits(s, d, worst);
    }
  }

  /** Taking the fraction t of a trade costs at most the fraction t of the whole. */
  lemma {:induction false} CostIsStarShaped(levels: seq<Level>, s: real, t: real, limitPx: Option<real>, worst: real)
    requires IsSide(levels, true) && s >= 0.0 && 0.0 <= t <= 1.0
    requires forall i :: 0 <= i < |levels| && !Beyond(true, levels[i].px, limitPx) ==> levels[i].px <= worst
    ensures Cost(levels, Times(t, s), true, limitPx, worst) <= Times(t, Cost(levels, s, true, limitPx, worst))
    decreases |levels|
  {
    hide Times;
    PartIsSmaller(t, s);
    if |levels| == 0 || Beyond(true, levels[0].px, limitPx) {
      TimesAssociates(t, s, worst);
    } else if s <= levels[0].sz {
      TimesAssociates(t, s, levels[0].px);
    } else {
      var d, p := levels[0].sz, levels[0].px;
      var rest := Cost(levels[1..], s - d, true, limitPx, worst);
      CostBounds(levels[1..], s - d, limitPx, p, worst);
      if Times(t, s) <= d {
        PartialLevel(t, s, d, p, rest);
      } else {
        var u := Subfraction(t, s, d);
        CostIsStarShaped(levels[1..], s - d, u, limitPx, worst);
        WholeLevel(t, u, s, d, p, rest);
      }
    }
  }

  lemma PartIsSmaller(t: real, s: real)
    requires 0.0 <= t <= 1.0 && s >= 0.0
    ensures 0.0 <= Times(t, s) <= s
  {
    ProductSign(t, s);
    ProductSign(1.0 - t, s);
  }

  lemma TimesAssociates(t: real, s: real, p: real)
    ensures Times(Times(t, s), p) == Times(t, Times(s, p))
  {
  }

  lemma PartialLevel(t: real, s: real, d: real, p: real, rest: real)
    requires 0.0 <= t <= 1.0 && Times(s - d, p) <= rest
    ensures Times(Times(t, s), p) <= Times(t, Times(d, p) + rest)
  {
    ProductSign(t, rest - (s - d) * p);
    assert (t * s) * p == t * (d * p) + t * ((s - d) * p);
  }

  lemma Subfraction(t: real, s: real, d: real) returns (u: real)
    requires 0.0 <= t <= 1.0 && 0.0 < d < s && Times(t, s) > d
    ensures 0.0 <= u <= t && Times(u, s - d) == Times(t, s) - d
  {
    u := (t * s - d) / (s - d);
    DivisionCancels(t * s - d, s - d);
    ProductSign(1.0 - t, d);
    assert u * (s - d) == t * s - d;
    assert t * (s - d) - u * (s - d) == d - t * d;
    ProductIsStrict(t, u, s - d);
    ProductIsStrict(u, 0.0, s - d);
  }

  lemma WholeLevel(t: real, u: real, s: real, d: real, p: real, rest: real)
    requires u <= t && Times(u, s - d) == Times(t, s) - d && Times(s - d, p) <= rest
    ensures Times(d, p) + Times(u, rest) <= Times(t, Times(d, p) + rest)
  {
    ProductSign(t - u, rest - (s - d) * p);
    assert (t - u) * (s - d) == d - t * d;
    assert (t - u) * ((s - d) * p) == (d - t * d) * p;
    assert t * (d * p + rest) - (d * p + u * rest) == (t - u) * rest - (d - t * d) * p;
  }

  lemma WorstCoversEligible(levels: seq<Level>, limitPx: Option<real>)
    requires IsSide(levels, true) && |levels| > 0 && !Beyond(true, levels[0].px, limitPx)
    ensures levels[0].px <= WorstPx(levels, true, limitPx)
    ensures forall i :: 0 <= i < |levels| && !Beyond(true, levels[i].px, limitPx) ==>
              levels[i].px <= WorstPx(levels, true, limitPx)
  {
  }

  lemma BuyIsBounded(levels: seq<Level>, sz: real, limitPx: Option<real>)
    requires IsSide(levels, true) && sz > 0.0 && |levels| > 0 && !Beyond(true, levels[0].px, limitPx)
    ensures Walk(levels, sz, true, limitPx, 0.0, 0.0).1 != 0.0
    ensures levels[0].px <= AveragePx(levels, sz, true, limitPx) <= WorstPx(levels, true, limitPx)
  {
    hide Times, Walk, AveragePx, Cost;
    var worst := WorstPx(levels, true, limitPx);
    WorstCoversEligible(levels, limitPx);
    AverageIsCost(levels, sz, true, limitPx);
    CostBounds(levels, sz, limitPx, levels[0].px, worst);
    var avg := AveragePx(levels, sz, true, limitPx);
    TimesOrders(sz, avg, levels[0].px);
    TimesOrders(sz, worst, avg);
  }

  lemma BuyIsMonotone(levels: seq<Level>, small: real, large: real, limitPx: Option<real>)
    requires IsSide(levels, true) && |levels| > 0 && !Beyond(true, levels[0].px, limitPx)
    requires 0.0 < small <= large
    ensures Walk(levels, small, true, limitPx, 0.0, 0.0).1 != 0.0
    ensures Walk(levels, large, true, limitPx, 0.0, 0.0).1 != 0.0
    ensures AveragePx(levels, small, true, limitPx) <= AveragePx(levels, large, true, limitPx)
  {
    hide Times, Walk, AveragePx, Cost;
    WorstCoversEligible(levels, limitPx);
    AverageIsCost(levels, small, true, limitPx);
    AverageIsCost(levels, large, true, limitPx);
    var t := Ratio(small, large);
    CostIsStarShaped(levels, large, t, limitPx, WorstPx(levels, true, limitPx));
    var a, b := AveragePx(levels, small, true, limitPx), AveragePx(levels, large, true, limitPx);
    TimesAssociates(t, large, b);
    TimesOrders(small, b, a);
  }

  lemma Ratio(small: real, large: real) returns (t: real)
    requires 0.0 < small <= large
    ensures 0.0 <= t <= 1.0 && Times(t, large) == small
  {
    t := small / large;
    DivisionCancels(small, large);
    ProductIsStrict(1.0, t, large);
    ProductIsStrict(t, 0.0, large);
  }

  // ---- Selling is buying with the prices negated ----

  function Mirror(levels: seq<Level>): (r: seq<Level>)
    ensures |r| == |levels|
    ensures forall i :: 0 <= i < |r| ==> r[i] == Level(-levels[i].px, levels[i].sz)
  {
    seq(|levels|, i requires 0 <= i < |levels| => Level(-levels[i].px, levels[i].sz))
  }

  function MirrorLimit(limitPx: Option<real>): Option<real> {
    if limitPx.Some? then Some(-limitPx.value) else None
  }

  lemma {:induction false} WalkMirrors(levels: seq<Level>, sz: real, limitPx: Option<real>, notional: real, filled: real)
    ensures var (n, f) := Walk(levels, sz, false, limitPx, notional, filled);
      Walk(Mirror(levels), sz, true, MirrorLimit(limitPx), -notional, filled) == (-n, f)
    decreases |levels|
  {
    hide Times;
    if |levels| == 0 || filled >= sz || Beyond(false, levels[0].px, limitPx) {
    } else {
      var take := Min(levels[0].sz, sz - filled);
      assert Mirror(levels)[1..] == Mirror(levels[1..]);
      WalkMirrors(levels[1..], sz, limitPx, notional + Times(take, levels[0].px), filled + take);
      TimesSplits(take, 0.0, levels[0].px);
    }
  }

  lemma SellMirrorsBuy(levels: seq<Level>, sz: real, limitPx: Option<real>)
    requires |levels| > 0 && sz > 0.0
    ensures var m, l := Mirror(levels), MirrorLimit(limitPx);
      && Walk(levels, sz, false, limitPx, 0.0, 0.0).1 == Walk(m, sz, true, l, 0.0, 0.0).1
      && WorstPx(levels, false, limitPx) == -WorstPx(m, true, l)
      && (Walk(m, sz, true, l, 0.0, 0.0).1 != 0.0 ==>
            AveragePx(levels, sz, false, limitPx) == -AveragePx(m, sz, true, l))
  {
    hide Times, Over;
    var m, l := Mirror(levels), MirrorLimit(limitPx);
    WalkMirrors(levels, sz, limitPx, 0.0, 0.0);
    var (n, f) := Walk(levels, sz, false, limitPx, 0.0, 0.0);
    assert Walk(m, sz, true, l, 0.0, 0.0) == (-n, f);
    var w := WorstPx(levels, false, limitPx);
    hide Walk;
    TimesSplits(sz - f, 0.0, w);
    NegatedQuotient(n + Times(sz - f, w), sz);
    if f != 0.0 {
      NegatedQuotient(n, f);
    }
  }

  lemma NegatedQuotient(a: real, b: real)
    requires b != 0.0
    ensures Over(-a, b) == -Over(a, b)
  {
    OverCancels(a, b);
    OverCancels(-a, b);
    OverIsUnique(-a, b, -Over(a, b));
  }

  // ---- Both sides ----

  /** On a sorted side, for any size: the result is the fallback exactly when there is nothing to trade or
      no level within the limit; otherwise it is the cost of exactly sz units divided by sz, it lies between the best
      level and the worst level or limit, and the final clamp changes nothing. */
  lemma ExecutionIsFair(levels: seq<Level>, sz: real, isBuy: bool, limitPx: Option<real>, fallbackPx: real)
    requires IsSide(levels, isBuy)
    ensures var r := ExecutionPx(levels, sz, isBuy, limitPx, fallbackPx);
      if |levels| == 0 || sz <= 0.0 || Beyond(isBuy, levels[0].px, limitPx) then r == VwapResult(fallbackPx, Fallback)
      else
        && r.source == Vwap
        && Walk(levels, sz, isBuy, limitPx, 0.0, 0.0).1 != 0.0
        && r.fillPx == AveragePx(levels, sz, isBuy, limitPx)
        && Times(sz, r.fillPx) == Cost(levels, sz, isBuy, limitPx, WorstPx(levels, isBuy, limitPx))
        && (if isBuy then levels[0].px <= r.fillPx <= WorstPx(levels, isBuy, limitPx)
            else WorstPx(levels, isBuy, limitPx) <= r.fillPx <= levels[0].px)
        && !Beyond(isBuy, r.fillPx, limitPx)
  {
    if |levels| > 0 && sz > 0.0 {
      AverageIsCost(levels, sz, isBuy, limitPx);
      if !Beyond(isBuy, levels[0].px, limitPx) {
        if isBuy {
          BuyIsBounded(levels, sz, limitPx);
        } else {
          BuyIsBounded(Mirror(levels), sz, MirrorLimit(limitPx));
          SellMirrorsBuy(levels, sz, limitPx);
        }
        hide Walk, AveragePx, Cost, Times;
      }
    }
  }

  /** A larger trade never gets a better price. */
  lemma LargerIsNeverBetter(levels: seq<Level>, small: real, large: real, isBuy: bool, limitPx: Option<real>, fallbackPx: real)
    requires IsSide(levels, isBuy) && 0.0 < small <= large
    ensures var a, b := ExecutionPx(levels, small, isBuy, limitPx, fallbackPx).fillPx,
                        ExecutionPx(levels, large, isBuy, limitPx, fallbackPx).fillPx;
      if isBuy then a <= b else a >= b
  {
    ExecutionIsFair(levels, small, isBuy, limitPx, fallbackPx);
    ExecutionIsFair(levels, large, isBuy, limitPx, fallbackPx);
    hide ExecutionPx, Cost;
    if |levels| > 0 && !Beyond(isBuy, levels[0].px, limitPx) {
      if isBuy {
        BuyIsMonotone(levels, small, large, limitPx);
      } else {
        BuyIsMonotone(Mirror(levels), small, large, MirrorLimit(limitPx));
        SellMirrorsBuy(levels, small, limitPx);
        SellMirrorsBuy(levels, large, limitPx);
      }
    }
  }
}
