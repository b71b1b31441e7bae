/** The liquidation price shown for a cross position against the engine (the cross branch of calculateLiquidationPrice
    in src/engine/margin.ts, assessCross in src/engine/liquidation.ts). */
module CrossDisplay {
  import opened Prelude
  import opened MarginTiers
  import opened Margin
  import opened Account
  import opened Liquidation
  import opened LiquidationAccounting
  import opened LiquidationPasses

  predicate IsLoneCross(mkt: Market, acct: Account, asset: int) {
    && mkt.Valid() && acct.positions.Keys == {asset} && asset in mkt.marks && mkt.Setting(asset).isCross
    && acct.positions[asset].szi != 0.0 && acct.positions[asset].entryPx > 0.0
  }

  /** The price shown: with the schedule, if one is cached, and the account value of the moment. */
  function Shown(mkt: Market, acct: Account, asset: int): Option<real>
    requires IsLoneCross(mkt, acct, asset)
  {
    var pos := acct.positions[asset];
    CrossLiquidationPrice(pos.szi > 0.0, Abs(pos.szi), pos.entryPx, acct.balance, mkt.Setting(asset).leverage,
                          if asset in mkt.tiers then mkt.tiers[asset] else [])
  }

  /** A lone cross position is liquidated as if the balance were its isolated margin. */
  function AsIsolated(mkt: Market, acct: Account, asset: int): (q: Isolated)
    requires IsLoneCross(mkt, acct, asset)
  {
    var pos := acct.positions[asset];
    Isolated(pos.szi > 0.0, Abs(pos.szi), pos.entryPx, acct.balance, mkt.Setting(asset).leverage, mkt.Tiers(asset))
  }

  lemma AsIsolatedIsValid(mkt: Market, acct: Account, asset: int)
    requires IsLoneCross(mkt, acct, asset)
    ensures AsIsolated(mkt, acct, asset).Valid()
  {
    TiersAreWellFormed(mkt, asset);
  }

  /** It is liquidated when cash and PnL fall below the schedule at the mark. */
  lemma LoneCrossMeans(mkt: Market, acct: Account, asset: int)
    requires IsLoneCross(mkt, acct, asset)
    ensures
      var q := AsIsolated(mkt, acct, asset);
      IsCrossLiquidatable(mkt, acct) <==> q.Cushion(q.Notional(mkt.marks[asset])) < 0.0
  {
    var pos, q := acct.positions[asset], AsIsolated(mkt, acct, asset);
    assert acct.positions == map[asset := pos];
    assert IsPriced(mkt, acct, asset);
    OneTerm(asset, pos, CrossTerm(mkt));
    OneTerm(asset, pos, MaintenanceTerm(mkt));
    PnlOfNotionals(q, pos.szi, pos.entryPx, mkt.marks[asset]);
    hide MaintenanceMargin, SumOf, Market.Tiers, UnrealizedPnl, NotionalOf, Isolated.Notional, Isolated.EntryNotional;
  }

  /** What a price shown solves, in notionals: that account value and PnL come to the maintenance of the entry. */
  predicate Solves(q: Isolated, px: Option<real>) {
    var required := MaintenanceMargin(q.tiers, q.EntryNotional());
    && (px.None? <==> q.margin - required >= q.EntryNotional())
    && (px.Some? && q.margin <= required ==> px.value == if q.isLong then 0.0 else q.entryPx)
    && (px.Some? && q.margin > required ==>
          && 0.0 < px.value
          && (if q.isLong then px.value < q.entryPx else q.entryPx < px.value)
          && q.margin + (if q.isLong then q.Notional(px.value) - q.EntryNotional() else q.EntryNotional() - q.Notional(px.value))
             == required)
  }

  /** The price shown solves on the schedule the engine charges. */
  lemma ShownSolves(mkt: Market, acct: Account, asset: int)
    requires IsLoneCross(mkt, acct, asset)
    ensures Solves(AsIsolated(mkt, acct, asset), Shown(mkt, acct, asset))
  {
    var q := AsIsolated(mkt, acct, asset);
    var ts := if asset in mkt.tiers then mkt.tiers[asset] else [];
    AsIsolatedIsValid(mkt, acct, asset);
    ShownOnSchedule(mkt, acct, asset);
    hide *;
    CrossPriceSolves(q, ts);
  }

  lemma ShownOnSchedule(mkt: Market, acct: Account, asset: int)
    requires IsLoneCross(mkt, acct, asset)
    ensures
      var q := AsIsolated(mkt, acct, asset);
      var ts := if asset in mkt.tiers then mkt.tiers[asset] else [];
      && q.size > 0.0 && q.entryPx > 0.0
      && q.tiers == (if |ts| > 0 then ts else [Tier(0.0, q.leverage)])
      && Shown(mkt, acct, asset) == CrossLiquidationPrice(q.isLong, q.size, q.entryPx, q.margin, q.leverage, ts)
  {
    hide CrossLiquidationPrice;
    TiersAreWellFormed(mkt, asset);
  }

  lemma CrossPriceSolves(q: Isolated, ts: seq<Tier>)
    requires q.size > 0.0 && q.entryPx > 0.0 && q.tiers == if |ts| > 0 then ts else [Tier(0.0, q.leverage)]
    ensures Solves(q, CrossLiquidationPrice(q.isLong, q.size, q.entryPx, q.margin, q.leverage, ts))
  {
    var px := CrossLiquidationPrice(q.isLong, q.size, q.entryPx, q.margin, q.leverage, ts);
    hide MaintenanceMargin, CrossLiquidationPrice;
    if px.Some? {
      NotionalMoves(q, px.value);
    }
    NotionalMoves(q, q.entryPx);
    hide Isolated.Notional, Isolated.EntryNotional, Times;
    CrossPriceMeetsSchedule(q.isLong, q.size, q.entryPx, q.margin, q.leverage, ts);
  }

  lemma NotionalMoves(q: Isolated, px: real)
    ensures q.EntryNotional() == Times(q.size, q.entryPx)
    ensures q.Notional(px) - q.EntryNotional() == Times(q.size, px - q.entryPx)
    ensures q.EntryNotional() - q.Notional(px) == Times(q.size, q.entryPx - px)
  {
  }

  /** The maintenance margin of its notional at the entry. */
  function EntryMaintenance(mkt: Market, acct: Account, asset: int): real
    requires IsLoneCross(mkt, acct, asset)
  {
    MaintenanceMargin(mkt.Tiers(asset), NotionalOf(acct.positions[asset].szi, acct.positions[asset].entryPx))
  }

  lemma EntryMaintenanceIs(mkt: Market, acct: Account, asset: int)
    requires IsLoneCross(mkt, acct, asset)
    ensures var q := AsIsolated(mkt, acct, asset);
      && EntryMaintenance(mkt, acct, asset) == MaintenanceMargin(q.tiers, q.EntryNotional())
      && q.margin == acct.balance && q.isLong == (acct.positions[asset].szi > 0.0) && q.entryPx == acct.positions[asset].entryPx
      && q.EntryNotional() == q.Notional(q.entryPx)
      && (q.isLong || acct.positions[asset].szi < 0.0)
  {
    var pos, q := acct.positions[asset], AsIsolated(mkt, acct, asset);
    assert NotionalOf(pos.szi, pos.entryPx) == q.EntryNotional();
    assert q.tiers == mkt.Tiers(asset);
    hide MaintenanceMargin, NotionalOf, Market.Tiers;
  }

  /** Marked at its entry, a lone cross position is liquidated exactly when the account value is below the maintenance
      margin that the price shown rests on; the price is then clamped. */
  lemma ShownAtEntry(mkt: Market, acct: Account, asset: int)
    requires IsLoneCross(mkt, acct, asset) && mkt.marks[asset] == acct.positions[asset].entryPx
    ensures
      var pos, px := acct.positions[asset], Shown(mkt, acct, asset);
      && (IsCrossLiquidatable(mkt, acct) <==> acct.balance < EntryMaintenance(mkt, acct, asset))
      && (acct.balance <= EntryMaintenance(mkt, acct, asset) ==> px == Some(if pos.szi > 0.0 then 0.0 else pos.entryPx))
  {
    var q := AsIsolated(mkt, acct, asset);
    AsIsolatedIsValid(mkt, acct, asset);
    EntryMaintenanceIs(mkt, acct, asset);
    LoneCrossMeans(mkt, acct, asset);
    ShownSolves(mkt, acct, asset);
    hide MaintenanceMargin, IsCrossLiquidatable, Shown, Isolated.Notional, Isolated.EntryNotional, AsIsolated, EntryMaintenance;
    NotionalIsMonotone(q, 0.0, q.entryPx);
  }

  /** The price shown holds the maintenance margin of the entry, so unless it is clamped it errs, for each side one way:
      at the price shown and every mark above it, the engine leaves a lone long alone and liquidates a lone short. */
  lemma ShownErrs(mkt: Market, acct: Account, asset: int)
    requires IsLoneCross(mkt, acct, asset) && acct.balance > EntryMaintenance(mkt, acct, asset)
    requires Shown(mkt, acct, asset).Some? && mkt.marks[asset] >= Shown(mkt, acct, asset).value
    ensures IsCrossLiquidatable(mkt, acct) <==> acct.positions[asset].szi < 0.0
  {
    var q := AsIsolated(mkt, acct, asset);
    AsIsolatedIsValid(mkt, acct, asset);
    EntryMaintenanceIs(mkt, acct, asset);
    LoneCrossMeans(mkt, acct, asset);
    ShownSolves(mkt, acct, asset);
    hide MaintenanceMargin, IsCrossLiquidatable, Shown, Isolated.Notional, Isolated.Cushion, Isolated.EntryNotional, AsIsolated, EntryMaintenance;
    CushionPastShown(q, Shown(mkt, acct, asset).value, mkt.marks[asset]);
  }

  lemma CushionPastShown(q: Isolated, px: real, mark: real)
    requires q.Valid() && 0.0 < px <= mark && if q.isLong then px < q.entryPx else q.entryPx < px
    requires q.margin + (if q.isLong then q.Notional(px) - q.EntryNotional() else q.EntryNotional() - q.Notional(px))
          == MaintenanceMargin(q.tiers, q.EntryNotional())
    ensures q.Cushion(q.Notional(mark)) < 0.0 <==> !q.isLong
  {
    NotionalIsMonotone(q, 0.0, px);
    NotionalIsMonotone(q, 0.0, q.entryPx);
    NotionalIsMonotone(q, px, mark);
    NotionalIsMonotone(q, px, q.entryPx);
    NotionalIsMonotone(q, q.entryPx, px);
    var n, m, e := q.Notional(px), q.Notional(mark), q.EntryNotional();
    hide MaintenanceMargin, Isolated.Notional;
    if n < m {
      CushionIsMonotone(q, n, m);
    }
    if q.isLong {
      MarginGrowth(q.tiers, n, e);
    } else {
      MarginGrowth(q.tiers, e, n);
    }
  }
}
