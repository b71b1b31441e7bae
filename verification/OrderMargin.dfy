/** Free margin and the checks made against it (checkMarginForOrder and maxAffordableOrderSize in
    src/engine/margin.ts): which orders an account can afford, and what filling one does to its margin. */
module OrderMargin {
  import opened Prelude
  import opened MarginTiers
  import opened Margin
  import opened Account
  import opened Fills

  /** The mids the totals are taken at, and the user's setting for every asset. */
  datatype Quotes = Quotes(mids: map<int, real>, settings: int -> LeverageSetting)

  /** A position whose coin has no mid counts for nothing, in either total. */
  function PnlAt(q: Quotes): (int, Position) -> real {
    (a: int, p: Position) => if a in q.mids then UnrealizedPnl(p.szi, p.entryPx, q.mids[a]) else 0.0
  }

  function PositionMarginUsed(p: Position, s: LeverageSetting, px: real): real {
    if p.szi == 0.0 then 0.0
    else if s.isCross then InitialMargin(Abs(p.szi), px, s.leverage)
    else IsolatedMarginOf(p, s.leverage)
  }

  function UsedAt(q: Quotes): (int, Position) -> real {
    (a: int, p: Position) => if a in q.mids then PositionMarginUsed(p, q.settings(a), q.mids[a]) else 0.0
  }

  ghost function AccountValue(acct: Account, q: Quotes): real {
    acct.balance + SumOf(acct.positions, PnlAt(q))
  }

  ghost function FreeMargin(acct: Account, q: Quotes): real {
    AccountValue(acct, q) - SumOf(acct.positions, UsedAt(q))
  }

  // ---- The totals, as the loops compute them ----

  ghost function ValuesAmong(positions: map<int, Position>, keys: set<int>, f: (int, Position) -> real): map<int, real> {
    map a | a in keys && a in positions :: f(a, positions[a])
  }

  method CalculateTotal(positions: map<int, Position>, f: (int, Position) -> real) returns (total: real)
    ensures total == SumOf(positions, f)
  {
    total := 0.0;
    var rest := positions.Keys;
    hide Total;
    assert ValuesAmong(positions, rest, f) == ValuesOf(positions, f);
    while rest != {}
      invariant rest <= positions.Keys
      invariant total + Total(ValuesAmong(positions, rest, f)) == SumOf(positions, f)
    {
      assert (forall y :: y !in rest) ==> rest == {};
      var a :| a in rest;
      TotalPeel(ValuesAmong(positions, rest, f), a);
      assert ValuesAmong(positions, rest, f) - {a} == ValuesAmong(positions, rest - {a}, f);
      total := total + f(a, positions[a]);
      rest := rest - {a};
    }
    TotalZero(ValuesAmong(positions, rest, f));
  }

  // ---- The two checks ----

  function CheckMargin(available: real, leverage: Leverage, szi: real, isBuy: bool, sz: real, px: real): bool {
    IsReducing(szi, isBuy) || available >= InitialMargin(sz, px, leverage)
  }

  /** The largest affordable size; none when the order reduces and needs no margin. */
  function MaxAffordable(available: real, leverage: Leverage, szi: real, isBuy: bool, px: real): (cap: Option<real>)
    requires px > 0.0
    ensures cap.Some? ==> cap.value >= 0.0
  {
    if IsReducing(szi, isBuy) then None
    else if available <= 0.0 then Some(0.0)
    else
      AffordedSz(available, leverage, px);
      Some(Over(Times(leverage as real, available), px))
  }

  lemma AffordedSz(available: real, leverage: Leverage, px: real)
    requires px > 0.0
    ensures
      var cap := Over(Times(leverage as real, available), px);
      && (available >= 0.0 ==> cap >= 0.0)
      && forall sz: real :: sz <= cap <==> InitialMargin(sz, px, leverage) <= available
  {
    var lev := leverage as real;
    var cap := Over(Times(lev, available), px);
    OverCancels(Times(lev, available), px);
    TimesZero(lev);
    TimesZero(px);
    forall sz: real
      ensures sz <= cap <==> InitialMargin(sz, px, leverage) <= available
    {
      MarginTimesLeverage(sz, px, leverage);
      hide Times, Over, InitialMargin;
      TimesOrders(px, sz, cap);
      TimesOrders(px, cap, sz);
      TimesOrders(lev, InitialMargin(sz, px, leverage), available);
      TimesOrders(lev, available, InitialMargin(sz, px, leverage));
    }
    hide Times, Over;
    TimesOrders(lev, 0.0, available);
    TimesOrders(px, cap, 0.0);
  }

  lemma MarginTimesLeverage(sz: real, px: real, leverage: Leverage)
    ensures Times(leverage as real, InitialMargin(sz, px, leverage)) == Times(px, sz)
  {
    DivisionCancels(sz * px, leverage as real);
  }

  /** The size check and the size limit agree: an order passes the check exactly when its size is within
      the limit, and an order without a limit always passes. */
  lemma CheckAgreesWithLimit(available: real, leverage: Leverage, szi: real, isBuy: bool, sz: real, px: real)
    requires px > 0.0 && sz > 0.0
    ensures CheckMargin(available, leverage, szi, isBuy, sz, px)
       <==> var cap := MaxAffordable(available, leverage, szi, isBuy, px);
            cap.None? || sz <= cap.value
  {
    AffordedSz(available, leverage, px);
    MarginIsPositive(sz, px, leverage);
  }

  lemma MarginIsPositive(sz: real, px: real, leverage: Leverage)
    requires px > 0.0 && sz > 0.0
    ensures InitialMargin(sz, px, leverage) > 0.0
  {
    ProductSign(sz, px);
  }

  // ---- What an affordable order leaves ----

  /** One quote prices the order: it fills at the coin's mid, and a fresh mark, if any, is the same. */
  predicate PricedAtMid(q: Quotes, ex: Execution) {
    && ex.order.asset in q.mids
    && q.mids[ex.order.asset] == ex.fillPx
    && ex.mark.GetOr(ex.fillPx) == ex.fillPx
    && ex.setting == q.settings(ex.order.asset)
  }

  /** Marked at the mid it trades at, a trade moves the free margin by its fee and by the change of the
      position's own margin. */
  lemma TradeMovesMargin(acct: Account, q: Quotes, ex: Execution, fillSz: real)
    requires acct.Valid() && fillSz > 0.0 && PricedAtMid(q, ex)
    ensures
      var asset := ex.order.asset;
      FreeMargin(FillStep(acct, ex, fillSz), q)
      == FreeMargin(acct, q) - Fee(ex, fillSz)
         - (UsedOf(NewPosition(acct, ex, fillSz), ex.setting, ex.fillPx) - UsedOf(Lookup(acct, asset), ex.setting, ex.fillPx))
  {
    var asset := ex.order.asset;
    var pos := NewPosition(acct, ex, fillSz);
    var after := FillStep(acct, ex, fillSz);
    SumAfterWrite(acct, asset, pos, PnlAt(q));
    SumAfterWrite(acct, asset, pos, UsedAt(q));
    TradeRealizes(acct, ex, fillSz);
    StepOf(acct, ex, fillSz);
    PricedOf(q, ex);
    hide *;
    TermsOf(acct, q, asset, pos);
    FreeOf(acct, q);
    FreeOf(after, q);
  }

  lemma StepOf(acct: Account, ex: Execution, fillSz: real)
    requires fillSz > 0.0
    ensures
      var after, o := FillStep(acct, ex, fillSz), ex.order;
      && after.positions == WithPosition(acct, o.asset, NewPosition(acct, ex, fillSz)).positions
      && after.balance
         == acct.balance + ClosedPnl(acct.Szi(o.asset), acct.EntryPx(o.asset), o.isBuy, fillSz, ex.fillPx) - Fee(ex, fillSz)
  {
    hide Fee, MarginFields, NewEntryPx, ClosedPnl;
  }

  lemma PricedOf(q: Quotes, ex: Execution)
    requires PricedAtMid(q, ex)
    ensures ex.order.asset in q.mids && q.mids[ex.order.asset] == ex.fillPx
    ensures q.settings(ex.order.asset) == ex.setting
  {
  }

  lemma FreeOf(acct: Account, q: Quotes)
    ensures FreeMargin(acct, q)
         == acct.balance + SumOf(acct.positions, PnlAt(q)) - SumOf(acct.positions, UsedAt(q))
  {
  }

  /** The two totals' terms for one coin. */
  lemma TermsOf(acct: Account, q: Quotes, asset: int, pos: Option<Position>)
    requires acct.Valid() && asset in q.mids
    ensures ValueOf(acct, asset, PnlAt(q)) == PnlOf(Lookup(acct, asset), q.mids[asset])
    ensures ValueOf(acct, asset, UsedAt(q)) == UsedOf(Lookup(acct, asset), q.settings(asset), q.mids[asset])
    ensures pos.Some? ==> PnlAt(q)(asset, pos.value) == PnlOf(pos, q.mids[asset])
    ensures pos.Some? ==> UsedAt(q)(asset, pos.value) == UsedOf(pos, q.settings(asset), q.mids[asset])
    ensures PnlOf(None, q.mids[asset]) == 0.0 == UsedOf(None, q.settings(asset), q.mids[asset])
  {
  }

  function PnlOf(pos: Option<Position>, px: real): real {
    if pos.None? then 0.0 else UnrealizedPnl(pos.value.szi, pos.value.entryPx, px)
  }

  function UsedOf(pos: Option<Position>, s: LeverageSetting, px: real): real {
    if pos.None? then 0.0 else PositionMarginUsed(pos.value, s, px)
  }

  /** Filled at the price it is marked to, a trade turns unrealized PnL into realized PnL and makes none. */
  lemma TradeRealizes(acct: Account, ex: Execution, fillSz: real)
    requires acct.Valid() && fillSz > 0.0
    ensures
      var o := ex.order;
      PnlOf(NewPosition(acct, ex, fillSz), ex.fillPx)
      + ClosedPnl(acct.Szi(o.asset), acct.EntryPx(o.asset), o.isBuy, fillSz, ex.fillPx)
      == PnlOf(Lookup(acct, o.asset), ex.fillPx)
  {
    var o := ex.order;
    var szi, e := acct.Szi(o.asset), acct.EntryPx(o.asset);
    TradePreservesWorth(szi, e, o.isBuy, fillSz, ex.fillPx, ex.fillPx);
    AtItsOwnPrice(if o.isBuy then fillSz else -fillSz, ex.fillPx);
    PnlIsMarked(szi, e, ex.fillPx);
    var newSzi := szi + (if o.isBuy then fillSz else -fillSz);
    PnlIsMarked(newSzi, NewEntryPx(szi, e, o.isBuy, fillSz, ex.fillPx), ex.fillPx);
    hide MarginFields, NewEntryPx, MarkedTo, UnrealizedPnl, ClosedPnl;
  }

  lemma AtItsOwnPrice(szi: real, px: real)
    ensures MarkedTo(szi, px, px) == 0.0
    ensures MarkedTo(0.0, px, px) == 0.0
  {
  }

  lemma PnlIsMarked(szi: real, e: real, px: real)
    ensures UnrealizedPnl(szi, e, px) == MarkedTo(szi, e, px)
    ensures szi == 0.0 ==> MarkedTo(szi, e, px) == 0.0
  {
  }

  /** Opening or growing a position takes exactly the order's initial margin, and its fee, out of the free
      margin, on cross and on isolated margin alike. */
  lemma OpeningUsesMargin(acct: Account, q: Quotes, ex: Execution, fillSz: real)
    requires acct.Valid() && fillSz > 0.0 && PricedAtMid(q, ex)
    requires IsIncreasing(acct.Szi(ex.order.asset), ex.order.isBuy)
    ensures FreeMargin(FillStep(acct, ex, fillSz), q)
         == FreeMargin(acct, q) - InitialMargin(fillSz, ex.fillPx, ex.setting.leverage) - Fee(ex, fillSz)
  {
    TradeMovesMargin(acct, q, ex, fillSz);
    hide FreeMargin, FillStep, Fee;
    MarginAdds(Abs(acct.Szi(ex.order.asset)), fillSz, ex.fillPx, ex.setting.leverage);
    hide InitialMargin, NewEntryPx;
  }

  lemma MarginAdds(a: real, b: real, px: real, leverage: Leverage)
    ensures InitialMargin(a + b, px, leverage) == InitialMargin(a, px, leverage) + InitialMargin(b, px, leverage)
    ensures InitialMargin(0.0, px, leverage) == 0.0
  {
    var lev := leverage as real;
    assert (a + b) * px == a * px + b * px;
    QuotientAdds(a * px, b * px, lev);
  }

  lemma QuotientAdds(x: real, y: real, z: real)
    requires z > 0.0
    ensures (x + y) / z == x / z + y / z
  {
  }

  /** The margin check accepts exactly the opening orders that, filled at the mid, leave no less than zero
      free margin before fees. */
  lemma CheckMeansFreeMargin(acct: Account, q: Quotes, ex: Execution)
    requires acct.Valid() && ex.order.Valid() && ex.order.filledSz == 0.0 && PricedAtMid(q, ex)
    requires IsIncreasing(acct.Szi(ex.order.asset), ex.order.isBuy)
    ensures
      var o := ex.order;
      CheckMargin(FreeMargin(acct, q), ex.setting.leverage, acct.Szi(o.asset), o.isBuy, o.sz, ex.fillPx)
      <==> FreeMargin(FillStep(acct, ex, o.sz), q) + Fee(ex, o.sz) >= 0.0
  {
    OpeningUsesMargin(acct, q, ex, ex.order.sz);
    hide FreeMargin, FillStep, Fee, InitialMargin;
  }

  // ---- An order against the position ----

  /** The margin of what an order against the position leaves of it, or of what it opens on the other side. */
  function RemainderMargin(pos: Position, s: LeverageSetting, fillSz: real, px: real): real
    requires pos.szi != 0.0
  {
    var size := Abs(pos.szi);
    if fillSz > size then InitialMargin(fillSz - size, px, s.leverage)
    else if s.isCross then InitialMargin(size - fillSz, px, s.leverage)
    else Times(IsolatedMarginOf(pos, s.leverage), Over(size - fillSz, size))
  }

  /** Against a position the check looks at no size, on cross and on isolated margin alike. Filled at the mid, such
      an order leaves no less than zero free margin before fees if and only if what was free, with the old
      position's margin released, covers the margin of the remainder. */
  lemma {:induction false} ReducingLeavesMargin(acct: Account, q: Quotes, ex: Execution, fillSz: real)
    requires acct.Valid() && fillSz > 0.0 && PricedAtMid(q, ex)
    requires IsReducing(acct.Szi(ex.order.asset), ex.order.isBuy)
    ensures
      var asset := ex.order.asset;
      var pos := acct.positions[asset];
      var after := FreeMargin(FillStep(acct, ex, fillSz), q) + Fee(ex, fillSz);
      var released := PositionMarginUsed(pos, ex.setting, ex.fillPx);
      && after == FreeMargin(acct, q) + released - RemainderMargin(pos, ex.setting, fillSz, ex.fillPx)
      && (after >= 0.0 <==> FreeMargin(acct, q) + released >= RemainderMargin(pos, ex.setting, fillSz, ex.fillPx))
  {
    TradeMovesMargin(acct, q, ex, fillSz);
    hide FreeMargin, FillStep, Fee;
    RemainderUses(acct, ex, fillSz);
    hide NewPosition, RemainderMargin, PositionMarginUsed;
  }

  lemma RemainderUses(acct: Account, ex: Execution, fillSz: real)
    requires acct.Valid() && fillSz > 0.0 && ex.mark.GetOr(ex.fillPx) == ex.fillPx
    requires IsReducing(acct.Szi(ex.order.asset), ex.order.isBuy)
    ensures UsedOf(NewPosition(acct, ex, fillSz), ex.setting, ex.fillPx)
         == RemainderMargin(acct.positions[ex.order.asset], ex.setting, fillSz, ex.fillPx)
  {
    var pos := acct.positions[ex.order.asset];
    var size := Abs(pos.szi);
    MarginAdds(0.0, 0.0, ex.fillPx, ex.setting.leverage);
    CutMargin(pos, ex.setting.leverage, size - fillSz, size);
    hide InitialMargin, NewEntryPx, Times, Over;
  }

  lemma CutMargin(pos: Position, leverage: Leverage, left: real, size: real)
    requires size > 0.0
    ensures
      var (alloc, raw) := ScaledMargin(pos, leverage, left / size);
      alloc.value + raw.GetOr(0.0) == Times(IsolatedMarginOf(pos, leverage), Over(left, size))
    ensures left == 0.0 ==> Times(IsolatedMarginOf(pos, leverage), Over(left, size)) == 0.0
  {
    var k := left / size;
    var a, r := Allocation(pos, leverage), pos.rawUsd.GetOr(0.0);
    assert (a + r) * k == a * k + r * k;
    DivisionCancels(left, size);
    assert left == 0.0 ==> k == 0.0;
    hide Allocation;
  }

  /** So an order that only reduces never takes free margin before fees. */
  lemma {:induction false} ReducingFreesMargin(acct: Account, q: Quotes, ex: Execution, fillSz: real)
    requires acct.Valid() && fillSz > 0.0 && PricedAtMid(q, ex) && ex.fillPx >= 0.0
    requires IsReducing(acct.Szi(ex.order.asset), ex.order.isBuy) && fillSz <= Abs(acct.Szi(ex.order.asset))
    requires IsolatedMarginOf(acct.positions[ex.order.asset], ex.setting.leverage) >= 0.0
    ensures FreeMargin(FillStep(acct, ex, fillSz), q) + Fee(ex, fillSz) >= FreeMargin(acct, q)
  {
    ReducingLeavesMargin(acct, q, ex, fillSz);
    hide FreeMargin, FillStep, Fee, NewPosition;
    var pos := acct.positions[ex.order.asset];
    var size := Abs(pos.szi);
    MarginAdds(size - fillSz, fillSz, ex.fillPx, ex.setting.leverage);
    ProductSign(fillSz, ex.fillPx);
    assert InitialMargin(fillSz, ex.fillPx, ex.setting.leverage) >= 0.0;
    KeptPart(IsolatedMarginOf(pos, ex.setting.leverage), size - fillSz, size);
    hide InitialMargin, Times, Over, IsolatedMarginOf;
  }

  lemma KeptPart(margin: real, left: real, size: real)
    requires margin >= 0.0 && 0.0 <= left <= size && size > 0.0
    ensures Times(margin, Over(left, size)) <= margin
  {
    OverCancels(left, size);
    var k := Over(left, size);
    hide Over, Times;
    if k > 1.0 {
      TimesOrders(size, 1.0, k);
      TimesUnit(size);
    }
    TimesOrders(margin, k, 1.0);
    TimesUnit(margin);
  }

  /** What acceptance means for every order: filled at the mid it leaves no less than zero free margin before fees,
      unless it is against the position and the remainder's margin is not covered. */
  lemma {:induction false} AcceptedLeavesMargin(acct: Account, q: Quotes, ex: Execution)
    requires acct.Valid() && ex.order.Valid() && ex.order.filledSz == 0.0 && PricedAtMid(q, ex)
    requires
      var o := ex.order;
      CheckMargin(FreeMargin(acct, q), ex.setting.leverage, acct.Szi(o.asset), o.isBuy, o.sz, ex.fillPx)
    ensures
      var o := ex.order;
      FreeMargin(FillStep(acct, ex, o.sz), q) + Fee(ex, o.sz) >= 0.0
      <==> (IsReducing(acct.Szi(o.asset), o.isBuy) ==>
              FreeMargin(acct, q) + PositionMarginUsed(acct.positions[o.asset], ex.setting, ex.fillPx)
              >= RemainderMargin(acct.positions[o.asset], ex.setting, o.sz, ex.fillPx))
  {
    var o := ex.order;
    if IsReducing(acct.Szi(o.asset), o.isBuy) {
      ReducingLeavesMargin(acct, q, ex, o.sz);
    } else {
      CheckMeansFreeMargin(acct, q, ex);
    }
    hide FreeMargin, FillStep, Fee, RemainderMargin, PositionMarginUsed;
  }

  const LONG_OF_ONE := Position(1.0, 100.0, None, None, 0.0, 0.0, 0.0)

  const TEN_TIMES := LeverageSetting(10, true)

  function WorthAHundred(): Account {
    Account(100.0, map[0 := LONG_OF_ONE], [], 0.0, 0.0)
  }

  function AtAHundred(): Quotes {
    Quotes(map[0 := 100.0], (a: int) => TEN_TIMES)
  }

  function SellAThousand(): Execution {
    Execution(Order(0, false, 1000.0, 0.0, false, None), 100.0, true, Fees(false, 0.0, 0.0), TEN_TIMES, None)
  }

  /** A sell of a thousand against a long of one, ten times leveraged, on an account worth a hundred: the
      check accepts it, and filling it leaves less free margin than nothing. */
  lemma {:induction false} FlipIsNotChecked()
    ensures
      var (acct, q, ex) := (WorthAHundred(), AtAHundred(), SellAThousand());
      && CheckMargin(FreeMargin(acct, q), ex.setting.leverage, acct.Szi(0), ex.order.isBuy, ex.order.sz, ex.fillPx)
      && FreeMargin(FillStep(acct, ex, ex.order.sz), q) < 0.0
  {
    var (acct, q, ex) := (WorthAHundred(), AtAHundred(), SellAThousand());
    OneTerm(0, LONG_OF_ONE, PnlAt(q));
    OneTerm(0, LONG_OF_ONE, UsedAt(q));
    assert InitialMargin(1.0, 100.0, 10) == 10.0 && InitialMargin(999.0, 100.0, 10) == 9990.0;
    TermsOf(acct, q, 0, Some(LONG_OF_ONE));
    assert PnlOf(Some(LONG_OF_ONE), 100.0) == 0.0;
    assert UsedOf(Some(LONG_OF_ONE), TEN_TIMES, 100.0) == 10.0;
    FreeOf(acct, q);
    assert FreeMargin(acct, q) == 90.0;
    assert Fee(ex, 1000.0) == 0.0;
    hide FreeMargin, FillStep, InitialMargin, Fee;
    ReducingLeavesMargin(acct, q, ex, 1000.0);
  }
}
