/** The fill ledger: what one executed order does to the account
    (executeFillLocked and executeFillWithSize in src/worker/order-matcher.ts). */
module Fills {
  import opened Prelude
  import opened MarginTiers
  import opened Margin
  import opened Account

  /** The part of an order that a fill reads. Placement rejects sizes that are not positive. */
  datatype Order = Order(asset: int, isBuy: bool, sz: real, filledSz: real, reduceOnly: bool, builderRate: Option<real>)
  {
    predicate Valid() { 0.0 <= filledSz <= sz && sz > 0.0 }
  }

  datatype Fees = Fees(enabled: bool, taker: real, maker: real)

  /** Everything about one execution except the account: the price the book gave, which side pays,
      the user's setting for the asset, and the fresh mark if there is one. */
  datatype Execution = Execution(
    order: Order, fillPx: real, isTaker: bool, fees: Fees, setting: LeverageSetting, mark: Option<real>)

  // ---- The pieces of a fill ----

  function IsIncreasing(szi: real, isBuy: bool): bool {
    (szi > 0.0 && isBuy) || (szi < 0.0 && !isBuy) || szi == 0.0
  }

  /** An order against the position. */
  predicate IsReducing(szi: real, isBuy: bool) {
    szi != 0.0 && (szi > 0.0) != isBuy
  }

  /** Size-weighted average of two entries. */
  function WeightedEntry(size: real, e: real, f: real, p: real): real
    requires size + f > 0.0
  {
    (size * e + f * p) / (size + f)
  }

  function NewEntryPx(szi: real, entryPx: real, isBuy: bool, fillSz: real, fillPx: real): real
    requires fillSz > 0.0
  {
    if IsIncreasing(szi, isBuy) then
      if szi == 0.0 then fillPx
      else WeightedEntry(Abs(szi), entryPx, fillSz, fillPx)
    else if fillSz > Abs(szi) then fillPx
    else entryPx
  }

  function ClosedPnl(szi: real, entryPx: real, isBuy: bool, fillSz: real, fillPx: real): real {
    if IsIncreasing(szi, isBuy) then 0.0
    else if szi > 0.0 then (fillPx - entryPx) * Min(fillSz, Abs(szi))
    else (entryPx - fillPx) * Min(fillSz, Abs(szi))
  }

  function Fee(ex: Execution, fillSz: real): real {
    var notional := fillSz * ex.fillPx;
    if !ex.fees.enabled then 0.0
    else
      notional * (if ex.isTaker then ex.fees.taker else ex.fees.maker)
      + (if ex.isTaker then notional * ex.order.builderRate.GetOr(0.0) else 0.0)
  }

  /** The margin fields of an isolated position after a fill: allocation added at the mark when it
      grows, scaled with the position when it shrinks, started afresh when it flips. */
  function MarginFields(ex: Execution, pos: Option<Position>, fillSz: real, newSzi: real)
    : (Option<real>, Option<real>)
  {
    var alloc := if pos.Some? then pos.value.marginAlloc else None;
    var raw := if pos.Some? then pos.value.rawUsd else None;
    var szi := if pos.Some? then pos.value.szi else 0.0;
    var lev := ex.setting.leverage;
    var allocPx := ex.mark.GetOr(ex.fillPx);
    if ex.setting.isCross then (alloc, raw)
    else if IsIncreasing(szi, ex.order.isBuy) then
      var base := if szi == 0.0 then 0.0 else Allocation(pos.value, lev);
      (Some(base + InitialMargin(fillSz, allocPx, lev)), raw)
    else if fillSz > Abs(szi) then
      (Some(InitialMargin(Abs(newSzi), allocPx, lev)), Some(0.0))
    else
      ScaledMargin(pos.value, lev, Abs(newSzi) / Abs(szi))
  }

  function Lookup(acct: Account, asset: int): Option<Position> {
    if asset in acct.positions then Some(acct.positions[asset]) else None
  }

  function NewPosition(acct: Account, ex: Execution, fillSz: real): Option<Position>
    requires fillSz > 0.0
  {
    var o := ex.order;
    var szi := acct.Szi(o.asset);
    var newSzi := szi + (if o.isBuy then fillSz else -fillSz);
    if newSzi == 0.0 then None
    else
      var pos := Lookup(acct, o.asset);
      var (alloc, raw) := MarginFields(ex, pos, fillSz, newSzi);
      Some(Position(
        newSzi,
        NewEntryPx(szi, acct.EntryPx(o.asset), o.isBuy, fillSz, ex.fillPx),
        alloc,
        raw,
        if pos.Some? then pos.value.cumFunding else 0.0,
        if pos.Some? && szi != 0.0 then pos.value.cumFundingSinceOpen else 0.0,
        0.0))
  }

  function FillOf(acct: Account, ex: Execution, fillSz: real): Fill {
    var o := ex.order;
    Fill(o.asset, o.isBuy, fillSz, ex.fillPx, Fee(ex, fillSz),
         ClosedPnl(acct.Szi(o.asset), acct.EntryPx(o.asset), o.isBuy, fillSz, ex.fillPx), acct.Szi(o.asset))
  }

  /** The account after filling fillSz of the order. */
  function FillStep(acct: Account, ex: Execution, fillSz: real): Account
    requires fillSz > 0.0
  {
    var fill := FillOf(acct, ex, fillSz);
    AfterTrade(acct, fill, NewPosition(acct, ex, fillSz), fill.closedPnl - fill.fee)
  }

  /** How much of the order executes against this position; nothing when there is nothing left or a
      reduce-only order has nothing to reduce. */
  function ExecutableSz(szi: real, order: Order): real {
    var fillSz := order.sz - order.filledSz;
    if !order.reduceOnly then fillSz
    else if !IsReducing(szi, order.isBuy) then 0.0
    else Min(fillSz, Abs(szi))
  }

  function ExecuteFill(acct: Account, ex: Execution): Account
    requires ex.order.Valid()
  {
    var sz := ExecutableSz(acct.Szi(ex.order.asset), ex.order);
    if sz <= 0.0 then acct else FillStep(acct, ex, sz)
  }

  // ---- Conservation ----

  lemma BlendedWorth(size: real, e: real, f: real, p: real, px: real)
    requires size + f > 0.0
    ensures MarkedTo(size + f, WeightedEntry(size, e, f, p), px) == MarkedTo(size, e, px) + MarkedTo(f, p, px)
  {
    var entry := WeightedEntry(size, e, f, p);
    DivisionCancels(size * e + f * p, size + f);
    assert (size + f) * entry == size * e + f * p;
    hide WeightedEntry;
    assert (size + f) * (px - entry) == size * px + f * px - (size + f) * entry;
  }

  lemma MarkedToNegates(szi: real, e: real, px: real)
    ensures MarkedTo(-szi, e, px) == -MarkedTo(szi, e, px)
  {
  }

  lemma ReduceWorth(szi: real, e: real, f: real, p: real, px: real)
    ensures MarkedTo(szi - f, e, px) + (p - e) * f == MarkedTo(szi, e, px) + MarkedTo(-f, p, px)
    ensures MarkedTo(szi - f, p, px) + (p - e) * szi == MarkedTo(szi, e, px) + MarkedTo(-f, p, px)
  {
  }

  lemma CoverWorth(szi: real, e: real, f: real, p: real, px: real)
    ensures MarkedTo(f - szi, e, px) + (e - p) * f == MarkedTo(-szi, e, px) + MarkedTo(f, p, px)
    ensures MarkedTo(f - szi, p, px) + (e - p) * szi == MarkedTo(-szi, e, px) + MarkedTo(f, p, px)
  {
  }

  /** Opening, growing, reducing, closing and flipping alike: realized PnL and the re-marked
      position together move by exactly what the fill is worth. */
  lemma TradePreservesWorth(szi: real, e: real, isBuy: bool, f: real, p: real, px: real)
    requires f > 0.0
    ensures
      var signed := if isBuy then f else -f;
      MarkedTo(szi + signed, NewEntryPx(szi, e, isBuy, f, p), px) + ClosedPnl(szi, e, isBuy, f, p)
      == MarkedTo(szi, e, px) + MarkedTo(signed, p, px)
  {
    hide WeightedEntry, MarkedTo;
    var size := Abs(szi);
    if szi == 0.0 {
      MarkedToZero(e, px);
    } else if IsIncreasing(szi, isBuy) {
      var entry := WeightedEntry(size, e, f, p);
      BlendedWorth(size, e, f, p, px);
      MarkedToNegates(size + f, entry, px);
      MarkedToNegates(size, e, px);
      MarkedToNegates(f, p, px);
      assert szi < 0.0 ==> szi - f == -(size + f);
    } else if szi > 0.0 {
      ReduceWorth(szi, e, f, p, px);
    } else {
      CoverWorth(size, e, f, p, px);
    }
  }

  lemma MarkedToZero(e: real, px: real)
    ensures MarkedTo(0.0, e, px) == 0.0
  {
  }

  /** A fill keeps the books. */
  lemma FillReconciles(acct: Account, deposit: real, ex: Execution, fillSz: real)
    requires acct.Valid() && Reconciles(acct, deposit) && fillSz > 0.0
    ensures Reconciles(FillStep(acct, ex, fillSz), deposit)
    ensures FillStep(acct, ex, fillSz).Valid()
  {
    hide Reconciles;
    hide Fee, MarginFields;
    var o := ex.order;
    var fill := FillOf(acct, ex, fillSz);
    var pos := NewPosition(acct, ex, fillSz);
    var szi, e := acct.Szi(o.asset), acct.EntryPx(o.asset);
    assert PreservesWorth(acct, fill, pos, fill.closedPnl - fill.fee) by {
      forall px: real
        ensures (if pos.Some? then MarkedTo(pos.value.szi, pos.value.entryPx, px) else 0.0)
                + (fill.closedPnl - fill.fee) + fill.fee
             == MarkedTo(szi, e, px) + MarkedTo(fill.Signed(), fill.px, px)
      {
        TradePreservesWorth(szi, e, o.isBuy, fillSz, ex.fillPx, px);
        MarkedToZero(NewEntryPx(szi, e, o.isBuy, fillSz, ex.fillPx), px);
        hide MarkedTo, NewEntryPx, ClosedPnl;
      }
    }
    hide MarkedTo, NewEntryPx, ClosedPnl, PreservesWorth;
    TradeReconciles(acct, deposit, fill, pos, fill.closedPnl - fill.fee);
  }

  // ---- Reduce-only ----

  /** A reduce-only order never grows or flips a position: it leaves it alone, or moves it strictly
      towards zero on the same side, by the smaller of what is left of the order and the position. */
  lemma ReduceOnlyShrinks(acct: Account, ex: Execution)
    requires acct.Valid() && ex.order.Valid() && ex.order.reduceOnly
    ensures
      var before, after := acct.Szi(ex.order.asset), ExecuteFill(acct, ex).Szi(ex.order.asset);
      || (after == before && ExecuteFill(acct, ex) == acct)
      || (before > 0.0 && !ex.order.isBuy && after == Max(0.0, before - (ex.order.sz - ex.order.filledSz)) < before)
      || (before < 0.0 && ex.order.isBuy && after == Min(0.0, before + (ex.order.sz - ex.order.filledSz)) > before)
    ensures forall a :: a != ex.order.asset ==> ExecuteFill(acct, ex).Szi(a) == acct.Szi(a)
  {
    hide Fee, MarginFields, NewEntryPx, ClosedPnl;
  }

  /** An order with something left executes nothing, and leaves the account as it was, exactly when it is reduce-only
      and not against the position. */
  lemma NothingExecuted(acct: Account, ex: Execution)
    requires ex.order.Valid() && ex.order.filledSz < ex.order.sz
    ensures ExecuteFill(acct, ex) == acct
       <==> ex.order.reduceOnly && !IsReducing(acct.Szi(ex.order.asset), ex.order.isBuy)
  {
    var sz := ExecutableSz(acct.Szi(ex.order.asset), ex.order);
    if sz > 0.0 {
      assert |FillStep(acct, ex, sz).fills| == |acct.fills| + 1;
    }
    hide Fee, MarginFields, NewEntryPx, ClosedPnl;
  }

  // ---- The margin of an isolated position ----

  /** What a fill leaves dedicated to an isolated position: grown, the allocation gains the margin of the fill at the
      mark (at its own price without one); flipped, it is that of what was opened and nothing else; shrunk, allocation
      and added margin keep the same fraction as the size. */
  lemma DedicatedMargin(acct: Account, ex: Execution, fillSz: real)
    requires acct.Valid() && fillSz > 0.0 && !ex.setting.isCross && NewPosition(acct, ex, fillSz).Some?
    ensures
      var szi, pos := acct.Szi(ex.order.asset), NewPosition(acct, ex, fillSz).value;
      var px, lev := if ex.mark.Some? then ex.mark.value else ex.fillPx, ex.setting.leverage;
      var before := if szi == 0.0 then 0.0 else IsolatedMarginOf(acct.positions[ex.order.asset], lev);
      if IsIncreasing(szi, ex.order.isBuy) then
        IsolatedMarginOf(pos, lev) == before + InitialMargin(fillSz, px, lev)
      else if fillSz > Abs(szi) then
        IsolatedMarginOf(pos, lev) == InitialMargin(fillSz - Abs(szi), px, lev)
      else
        Times(Abs(szi), IsolatedMarginOf(pos, lev)) == Times(Abs(pos.szi), before)
  {
    var o := ex.order;
    var szi, pos := acct.Szi(o.asset), NewPosition(acct, ex, fillSz).value;
    var lev := ex.setting.leverage;
    if szi != 0.0 && !IsIncreasing(szi, o.isBuy) && fillSz <= Abs(szi) {
      ScaledMarginIs(acct.positions[o.asset], lev, Abs(pos.szi), Abs(szi));
    }
    hide NewEntryPx, Allocation, ScaledMargin, Times, InitialMargin;
  }

  /** A position without a recorded allocation counts as one opened at its entry price: opened by a fill at the mark, it
      has the same margin with its allocation as without. */
  lemma FallbackIsOpening(acct: Account, ex: Execution, fillSz: real)
    requires ex.order.asset !in acct.positions && fillSz > 0.0 && !ex.setting.isCross
    requires ex.mark.GetOr(ex.fillPx) == ex.fillPx
    ensures NewPosition(acct, ex, fillSz).Some?
    ensures
      var pos, lev := NewPosition(acct, ex, fillSz).value, ex.setting.leverage;
      && pos.marginAlloc.Some?
      && IsolatedMarginOf(pos, lev) == IsolatedMarginOf(pos.(marginAlloc := None), lev) == InitialMargin(fillSz, ex.fillPx, lev)
  {
    hide InitialMargin;
  }

  lemma ScaledMarginIs(pos: Position, leverage: Leverage, left: real, size: real)
    requires size > 0.0
    ensures
      var (alloc, raw) := ScaledMargin(pos, leverage, left / size);
      alloc.Some? && Times(size, alloc.value + raw.GetOr(0.0)) == Times(left, IsolatedMarginOf(pos, leverage))
  {
    var k := left / size;
    var a, r := Allocation(pos, leverage), pos.rawUsd.GetOr(0.0);
    DivisionCancels(left, size);
    assert a * k + r * k == (a + r) * k;
    assert size * ((a + r) * k) == (size * k) * (a + r);
    hide Allocation;
  }

  // ---- Proportional margin ----

  function IsolatedEquity(pos: Position, leverage: Leverage, mark: real): real {
    IsolatedMarginOf(pos, leverage) + UnrealizedPnl(pos.szi, pos.entryPx, mark)
  }

  /** after is before cut to the fraction k: size, allocation and added margin alike. */
  predicate IsCutOf(after: Position, before: Position, leverage: Leverage, k: real) {
    && after.szi == before.szi * k
    && after.entryPx == before.entryPx
    && (after.marginAlloc, after.rawUsd) == ScaledMargin(before, leverage, k)
  }

  /** Cutting an isolated position scales its equity at every mark by the fraction kept. */
  lemma CutScalesEquity(after: Position, before: Position, leverage: Leverage, k: real, mark: real)
    requires IsCutOf(after, before, leverage, k)
    ensures IsolatedEquity(after, leverage, mark) == k * IsolatedEquity(before, leverage, mark)
  {
    hide UnrealizedPnl, InitialMargin;
    var a, r, s, d := Allocation(before, leverage), before.rawUsd.GetOr(0.0), before.szi, mark - before.entryPx;
    assert IsolatedMarginOf(after, leverage) == a * k + r * k;
    hide *;
    ScaledEquity(a, r, s, d, k);
  }

  lemma ScaledEquity(a: real, r: real, s: real, d: real, k: real)
    ensures (a * k + r * k) + (s * k) * d == k * (a + r + s * d)
  {
    assert (s * k) * d == k * (s * d);
  }

  /** So a cut never makes a healthy isolated position liquidatable, and inside the first tier it
      leaves the ratio of equity to maintenance margin unchanged. */
  lemma {:induction false} CutKeepsHealth(after: Position, before: Position, leverage: Leverage, k: real, mark: real, tiers: seq<Tier>)
    requires IsCutOf(after, before, leverage, k) && 0.0 < k <= 1.0 && mark >= 0.0 && WellFormed(tiers)
    requires IsolatedEquity(before, leverage, mark) >= MaintenanceMargin(tiers, NotionalOf(before.szi, mark))
    ensures IsolatedEquity(after, leverage, mark) >= MaintenanceMargin(tiers, NotionalOf(after.szi, mark))
    ensures TierIndex(tiers, NotionalOf(before.szi, mark)) == 0 ==>
              && MaintenanceMargin(tiers, NotionalOf(after.szi, mark)) == k * MaintenanceMargin(tiers, NotionalOf(before.szi, mark))
              && IsolatedEquity(after, leverage, mark) == k * IsolatedEquity(before, leverage, mark)
  {
    hide MaintenanceMargin, IsolatedEquity, TierIndex, ScaledMargin;
    var n, cut := NotionalOf(before.szi, mark), NotionalOf(after.szi, mark);
    NotionalScales(before.szi, k, mark);
    CutScalesEquity(after, before, leverage, k, mark);
    hide NotionalOf, IsCutOf;
    MarginShrinks(tiers, n, k, cut);
    ProductIsMonotone(MaintenanceMargin(tiers, n), IsolatedEquity(before, leverage, mark), k);
    if TierIndex(tiers, n) == 0 {
      MarginShrinksExactly(tiers, n, k, cut);
    }
  }

  lemma NotionalScales(szi: real, k: real, mark: real)
    requires k >= 0.0 && mark >= 0.0
    ensures NotionalOf(szi, mark) >= 0.0
    ensures NotionalOf(szi * k, mark) == k * NotionalOf(szi, mark)
  {
    ProductSign(Abs(szi), k);
    ProductSign(Abs(szi), mark);
    assert Abs(szi * k) == Abs(szi) * k;
  }

  /** A reducing fill of an isolated position is a cut to the fraction it leaves. */
  lemma ReduceIsCut(acct: Account, ex: Execution, fillSz: real) returns (k: real)
    requires acct.Valid() && ex.order.asset in acct.positions && !ex.setting.isCross
    requires 0.0 < fillSz < Abs(acct.Szi(ex.order.asset)) && !IsIncreasing(acct.Szi(ex.order.asset), ex.order.isBuy)
    ensures 0.0 < k < 1.0
    ensures ex.order.asset in FillStep(acct, ex, fillSz).positions
    ensures IsCutOf(FillStep(acct, ex, fillSz).positions[ex.order.asset], acct.positions[ex.order.asset],
                    ex.setting.leverage, k)
  {
    hide Fee, InitialMargin, ClosedPnl, ScaledMargin, Allocation;
    var szi := acct.Szi(ex.order.asset);
    var newSzi := szi + (if ex.order.isBuy then fillSz else -fillSz);
    k := Abs(newSzi) / Abs(szi);
    FractionKept(Abs(newSzi), Abs(szi));
    assert newSzi == szi * k;
  }

  lemma FractionKept(a: real, b: real)
    requires 0.0 < a < b
    ensures 0.0 < a / b < 1.0 && b * (a / b) == a
  {
    DivisionCancels(a, b);
    var q := a / b;
    ProductIsStrict(0.0, q, b);
    ProductIsStrict(q, 1.0, b);
  }
}
