/** Safety of whole liquidation passes: at fixed marks three passes always settle an account, every
    pass keeps the books, and the engine fires exactly where the displayed price says. */
module LiquidationPasses {
  import opened Prelude
  import opened MarginTiers
  import opened Margin
  import opened Account
  import opened Liquidation
  import opened LiquidationAccounting
  import opened Fills

  // ---- The displayed price and the engine ----

  /** The solver's query for a position, as the account view builds it. */
  function QueryOf(mkt: Market, asset: int, pos: Position): Isolated {
    var lev := mkt.Setting(asset).leverage;
    Isolated(pos.szi > 0.0, Abs(pos.szi), pos.entryPx, IsolatedMarginOf(pos, lev), lev, mkt.Tiers(asset))
  }

  predicate FiresAt(mkt: Market, asset: int, pos: Position, mark: real) {
    var there := mkt.(marks := mkt.marks[asset := mark]);
    AssessIsolated(ViewOf(there, asset, pos)).shouldLiquidate
  }

  predicate PastDisplay(q: Isolated, mark: real)
    requires q.size != 0.0
  {
    if q.isLong then mark < q.LiquidationPrice() else mark > q.LiquidationPrice()
  }

  /** The engine's condition is a negative cushion. */
  lemma {:induction false} FiringIsNegativeCushion(mkt: Market, asset: int, pos: Position, mark: real)
    requires pos.szi != 0.0 && !mkt.Setting(asset).isCross
    ensures var q := QueryOf(mkt, asset, pos);
      FiresAt(mkt, asset, pos, mark) <==> q.Cushion(q.Notional(mark)) < 0.0
  {
    var there := mkt.(marks := mkt.marks[asset := mark]);
    SettingsStay(mkt, asset, mark);
    var q, v := QueryOf(mkt, asset, pos), ViewOf(there, asset, pos);
    PnlOfNotionals(q, pos.szi, pos.entryPx, mark);
    hide MaintenanceMargin, IsolatedMarginOf, UnrealizedPnl, NotionalOf, Market.Tiers, Market.Setting;
    hide Isolated.Notional, Isolated.EntryNotional;
  }

  lemma SettingsStay(mkt: Market, asset: int, mark: real)
    ensures var there := mkt.(marks := mkt.marks[asset := mark]);
      there.Setting(asset) == mkt.Setting(asset) && there.Tiers(asset) == mkt.Tiers(asset)
  {
  }

  lemma PnlOfNotionals(q: Isolated, szi: real, entryPx: real, mark: real)
    requires szi != 0.0 && q.isLong == (szi > 0.0) && q.size == Abs(szi) && q.entryPx == entryPx
    ensures q.Notional(mark) == NotionalOf(szi, mark)
    ensures UnrealizedPnl(szi, entryPx, mark)
         == if q.isLong then q.Notional(mark) - q.EntryNotional() else q.EntryNotional() - q.Notional(mark)
  {
  }

  /** The displayed liquidation price of an isolated position is exactly where the engine liquidates it,
      for every positive mark and any schedule, if and only if its first solve is sound (always for a short, and
      for a long unless its margin falls within the entry tier's deduction of the entry notional) and the
      rounds suffice (always on at most nine tiers). */
  lemma {:induction false} DisplayMatchesEngine(mkt: Market, asset: int, pos: Position)
    requires mkt.Valid() && pos.szi != 0.0 && pos.entryPx > 0.0 && !mkt.Setting(asset).isCross
    ensures QueryOf(mkt, asset, pos).Valid()
    ensures (forall mark :: mark > 0.0 ==> (FiresAt(mkt, asset, pos, mark) <==> PastDisplay(QueryOf(mkt, asset, pos), mark)))
       <==> FirstSolveIsSound(QueryOf(mkt, asset, pos)) && RoundsSuffice(QueryOf(mkt, asset, pos))
    ensures |mkt.Tiers(asset)| <= ROUNDS + 1 ==> RoundsSuffice(QueryOf(mkt, asset, pos))
  {
    var q := QueryOf(mkt, asset, pos);
    DisplayIsRight(q);
    if |mkt.Tiers(asset)| <= ROUNDS + 1 {
      NineTiersSuffice(q);
    }
    forall mark | mark > 0.0
      ensures DisplayIsRightAt(q, mark) <==> (FiresAt(mkt, asset, pos, mark) <==> PastDisplay(q, mark))
    {
      FiringIsNegativeCushion(mkt, asset, pos, mark);
    }
    hide FirstSolveIsSound, RoundsSuffice, FiresAt, PastDisplay, DisplayIsRightAt, QueryOf;
    if forall mark :: mark > 0.0 ==> (FiresAt(mkt, asset, pos, mark) <==> PastDisplay(q, mark)) {
      forall mark | mark > 0.0 ensures DisplayIsRightAt(q, mark) {
        assert FiresAt(mkt, asset, pos, mark) <==> PastDisplay(q, mark);
      }
    }
    if FirstSolveIsSound(q) && RoundsSuffice(q) {
      forall mark | mark > 0.0 ensures FiresAt(mkt, asset, pos, mark) <==> PastDisplay(q, mark) {
        assert DisplayIsRightAt(q, mark);
      }
    }
  }

  // ---- Reducing keeps a position healthy ----

  /** The engine leaves an isolated position alone exactly while its equity covers its maintenance margin. */
  lemma HealthyMeans(mkt: Market, acct: Account, a: int)
    requires IsPriced(mkt, acct, a) && !mkt.Setting(a).isCross
    ensures
      var pos := acct.positions[a];
      IsIsolatedLiquidatable(mkt, acct, a)
      <==> IsolatedEquity(pos, mkt.Setting(a).leverage, mkt.marks[a])
           < MaintenanceMargin(mkt.Tiers(a), NotionalOf(pos.szi, mkt.marks[a]))
  {
    hide MaintenanceMargin, IsolatedMarginOf, NotionalOf, UnrealizedPnl;
  }

  /** A position cut, or gone, and the rest as before: nothing that was healthy is liquidatable. */
  lemma CutKeepsAllHealthy(mkt: Market, acct: Account, after: Account, asset: int, k: real, a: int)
    requires mkt.Valid() && !IsIsolatedLiquidatable(mkt, acct, a)
    requires forall b :: b != asset ==> Lookup(after, b) == Lookup(acct, b)
    requires asset in acct.positions
    requires asset in after.positions ==> 0.0 < k <= 1.0 && after.positions[asset].szi != 0.0
    requires asset in after.positions && !mkt.Setting(asset).isCross ==>
               IsCutOf(after.positions[asset], acct.positions[asset], mkt.Setting(asset).leverage, k)
    ensures !IsIsolatedLiquidatable(mkt, after, a)
  {
    hide IsIsolatedLiquidatable, Market.Tiers;
    if a != asset {
      assert Lookup(after, a) == Lookup(acct, a);
      LookupDecides(mkt, acct, after, a);
    } else if a in after.positions && IsPriced(mkt, after, a) && !mkt.Setting(a).isCross {
      HealthyMeans(mkt, after, a);
      assert acct.positions[a].szi != 0.0;
      HealthyMeans(mkt, acct, a);
      TiersAreWellFormed(mkt, a);
      CutKeepsHealth(after.positions[a], acct.positions[a], mkt.Setting(a).leverage, k, mkt.marks[a], mkt.Tiers(a));
    } else {
      NotPricedNotLiquidatable(mkt, after, a);
    }
  }

  lemma NotPricedNotLiquidatable(mkt: Market, acct: Account, a: int)
    requires !IsPriced(mkt, acct, a) || mkt.Setting(a).isCross
    ensures !IsIsolatedLiquidatable(mkt, acct, a)
  {
  }

  lemma TiersAreWellFormed(mkt: Market, a: int)
    requires mkt.Valid()
    ensures WellFormed(mkt.Tiers(a))
  {
  }

  /** In the engine's own terms: a fill that reduces or closes a position never makes any isolated position
      liquidatable. */
  lemma ReducingFillKeepsHealthy(mkt: Market, acct: Account, ex: Execution, fillSz: real, a: int)
    requires mkt.Valid() && acct.Valid() && ex.order.asset in acct.positions
    requires ex.setting == mkt.Setting(ex.order.asset)
    requires 0.0 < fillSz <= Abs(acct.Szi(ex.order.asset)) && !IsIncreasing(acct.Szi(ex.order.asset), ex.order.isBuy)
    requires !IsIsolatedLiquidatable(mkt, acct, a)
    ensures !IsIsolatedLiquidatable(mkt, FillStep(acct, ex, fillSz), a)
  {
    var asset := ex.order.asset;
    var after := FillStep(acct, ex, fillSz);
    FillLookups(acct, ex, fillSz);
    hide FillStep, IsIsolatedLiquidatable, IsCutOf;
    var k := 1.0;
    if fillSz < Abs(acct.Szi(asset)) && !ex.setting.isCross {
      k := ReduceIsCut(acct, ex, fillSz);
    }
    CutKeepsAllHealthy(mkt, acct, after, asset, k, a);
  }

  lemma FillLookups(acct: Account, ex: Execution, fillSz: real)
    requires acct.Valid() && fillSz > 0.0
    ensures var after := FillStep(acct, ex, fillSz);
      && (forall b :: b != ex.order.asset ==> Lookup(after, b) == Lookup(acct, b))
      && Lookup(after, ex.order.asset) == NewPosition(acct, ex, fillSz)
      && after.Szi(ex.order.asset) == acct.Szi(ex.order.asset) + (if ex.order.isBuy then fillSz else -fillSz)
      && (ex.order.asset in after.positions ==> after.positions[ex.order.asset].szi != 0.0)
  {
    hide Fee, MarginFields, NewEntryPx, ClosedPnl;
  }

  /** Nor does any liquidation close, whole or a slice. */
  lemma CloseKeepsHealthy(mkt: Market, books: Books, cooldowns: set<Bucket>, kind: Kind, acct: Account, v: View, a: int)
    requires mkt.Valid() && acct.Valid() && IsPriced(mkt, acct, v.asset) && v == ViewOf(mkt, v.asset, acct.positions[v.asset])
    requires !IsIsolatedLiquidatable(mkt, acct, a)
    ensures !IsIsolatedLiquidatable(mkt, QueueClose(acct, PlanFor(mkt, books, cooldowns, kind, v)), a)
  {
    var plan := PlanFor(mkt, books, cooldowns, kind, v);
    var after := QueueClose(acct, plan);
    QueueCloseEffect(mkt, books, cooldowns, kind, acct, v);
    PlanWithoutSlice(mkt, books, cooldowns, kind, v);
    var k := 1.0;
    if !v.setting.isCross && SliceOf(mkt, cooldowns, kind, v).Some? {
      k := SliceIsCut(mkt, books, cooldowns, kind, v);
    }
    hide QueueClose, IsIsolatedLiquidatable, PlanFor, Remainder, SliceOf, IsCutOf;
    CutKeepsAllHealthy(mkt, acct, after, v.asset, k, a);
  }

  lemma PlanWithoutSlice(mkt: Market, books: Books, cooldowns: set<Bucket>, kind: Kind, v: View)
    ensures SliceOf(mkt, cooldowns, kind, v).None? ==> Remainder(PlanFor(mkt, books, cooldowns, kind, v)).None?
  {
    hide LiquidationFillPx, SliceOf;
  }

  // ---- The isolated phase ----

  lemma IsolatedStepEffect(mkt: Market, books: Books, d: Desk, v: View)
    requires d.acct.Valid() && Snapshot(mkt, d.acct, [v]) && !v.setting.isCross
    ensures var after := RunLiquidation(mkt, books, d, AssessIsolated(v));
      && after.acct.Valid()
      && (forall b :: b != v.asset ==> Lookup(after.acct, b) == Lookup(d.acct, b))
      && (after.cooldowns == d.cooldowns || after.cooldowns == d.cooldowns + {IsolatedBucket(v.asset)})
      && (Lookup(after.acct, v.asset).None?
          || (IsolatedBucket(v.asset) !in d.cooldowns && IsolatedBucket(v.asset) in after.cooldowns))
  {
    var a := AssessIsolated(v);
    assert a.targets == [v] && BucketOf(v) == IsolatedBucket(v.asset);
    QueueAllEffect(mkt, books, d.cooldowns, a.kind, d.acct, a.targets);
    InSnapshot(mkt, d.acct, [v], 0);
    PlanIsClose(mkt, books, d.cooldowns, a.kind, v);
    var slice := SliceOf(mkt, d.cooldowns, a.kind, v);
    assert AnySlice(mkt, d.cooldowns, a.kind, a.targets) <==> slice.Some? by {
      assert a.targets[0] == v;
    }
    hide SliceOf, PlanFor, QueueAll, AssessIsolated, ViewOf, AnySlice;
    var after := RunLiquidation(mkt, books, d, a);
    var closed := QueueAll(mkt, books, d.cooldowns, a.kind, d.acct, a.targets);
    assert after.acct.positions == closed.positions;
    assert Lookup(closed, a.targets[0].asset) == Remainder(PlanFor(mkt, books, d.cooldowns, a.kind, v));
    forall b | b != v.asset ensures Lookup(after.acct, b) == Lookup(d.acct, b) {
      assert !Shows(a.targets, b);
    }
  }

  /** What the phase may have done to one asset. */
  ghost predicate IsolatedOutcome(mkt: Market, d: Desk, after: Desk, b: int) {
    || (Lookup(after.acct, b) == Lookup(d.acct, b) && !IsIsolatedLiquidatable(mkt, d.acct, b))
    || (IsIsolatedLiquidatable(mkt, d.acct, b) && Lookup(after.acct, b).None?)
    || (IsIsolatedLiquidatable(mkt, d.acct, b) && IsolatedBucket(b) !in d.cooldowns && IsolatedBucket(b) in after.cooldowns)
  }

  lemma LookupDecides(mkt: Market, x: Account, y: Account, b: int)
    requires Lookup(x, b) == Lookup(y, b)
    ensures IsPriced(mkt, x, b) <==> IsPriced(mkt, y, b)
    ensures IsIsolatedLiquidatable(mkt, x, b) <==> IsIsolatedLiquidatable(mkt, y, b)
  {
  }

  lemma SnapshotSurvives(mkt: Market, x: Account, y: Account, views: seq<View>)
    requires Snapshot(mkt, x, views)
    requires forall i :: 0 <= i < |views| ==> Lookup(x, views[i].asset) == Lookup(y, views[i].asset)
    ensures Snapshot(mkt, y, views)
  {
    hide ViewOf;
    forall i | 0 <= i < |views|
      ensures IsPriced(mkt, y, views[i].asset) && views[i] == ViewOf(mkt, views[i].asset, y.positions[views[i].asset])
    {
      LookupDecides(mkt, x, y, views[i].asset);
    }
  }

  lemma ShowsHead(views: seq<View>, b: int)
    requires |views| > 0
    ensures Shows(views, b) <==> views[0].asset == b || Shows(views[1..], b)
  {
    if Shows(views[1..], b) {
      var i :| 0 <= i < |views[1..]| && views[1..][i].asset == b;
      assert views[i + 1].asset == b;
    }
    if Shows(views, b) {
      var i :| 0 <= i < |views| && views[i].asset == b;
      if i > 0 {
        assert views[1..][i - 1].asset == b;
      }
    }
  }

  /** One turn of the phase: liquidate the position if it is isolated and under water. */
  function IsolatedTurn(mkt: Market, books: Books, d: Desk, v: View): Desk {
    var a := AssessIsolated(v);
    if !v.setting.isCross && a.shouldLiquidate then RunLiquidation(mkt, books, d, a) else d
  }

  lemma IsolatedTurnEffect(mkt: Market, books: Books, d: Desk, v: View)
    requires d.acct.Valid() && Snapshot(mkt, d.acct, [v])
    ensures var next := IsolatedTurn(mkt, books, d, v);
      && next.acct.Valid()
      && (forall b :: b != v.asset || mkt.Setting(b).isCross ==> Lookup(next.acct, b) == Lookup(d.acct, b))
      && (next.cooldowns == d.cooldowns || next.cooldowns == d.cooldowns + {IsolatedBucket(v.asset)})
      && IsolatedOutcome(mkt, d, next, v.asset)
      && (!IsIsolatedLiquidatable(mkt, d.acct, v.asset) ==> next == d)
  {
    InSnapshot(mkt, d.acct, [v], 0);
    assert IsIsolatedLiquidatable(mkt, d.acct, v.asset) <==> !v.setting.isCross && AssessIsolated(v).shouldLiquidate;
    if !v.setting.isCross && AssessIsolated(v).shouldLiquidate {
      IsolatedStepEffect(mkt, books, d, v);
    }
    hide AssessIsolated, RunLiquidation, ViewOf;
  }

  lemma {:induction false} IsolatedPhaseEffect(mkt: Market, books: Books, d: Desk, views: seq<View>)
    requires d.acct.Valid() && Snapshot(mkt, d.acct, views)
    ensures var after := IsolatedPhase(mkt, books, d, views);
      && after.acct.Valid()
      && (forall b :: !Shows(views, b) || mkt.Setting(b).isCross ==> Lookup(after.acct, b) == Lookup(d.acct, b))
      && d.cooldowns <= after.cooldowns
      && (forall b :: IsolatedBucket(b) in after.cooldowns && !Shows(views, b) ==> IsolatedBucket(b) in d.cooldowns)
      && (CrossBucket in after.cooldowns <==> CrossBucket in d.cooldowns)
      && (forall b :: Shows(views, b) ==> IsolatedOutcome(mkt, d, after, b))
    decreases |views|
  {
    hide ViewOf, AssessIsolated, RunLiquidation, IsIsolatedLiquidatable, Lookup;
    if |views| > 0 {
      var v := views[0];
      var next := IsolatedTurn(mkt, books, d, v);
      assert Snapshot(mkt, d.acct, [v]);
      IsolatedTurnEffect(mkt, books, d, v);
      SnapshotSurvives(mkt, d.acct, next.acct, views[1..]);
      IsolatedPhaseEffect(mkt, books, next, views[1..]);
      var after := IsolatedPhase(mkt, books, d, views);
      assert after == IsolatedPhase(mkt, books, next, views[1..]);
      assert !Shows(views[1..], v.asset);
      hide IsolatedPhase, IsolatedTurn, Snapshot, Shows;
      forall b
        ensures !Shows(views, b) || mkt.Setting(b).isCross ==> Lookup(after.acct, b) == Lookup(d.acct, b)
        ensures IsolatedBucket(b) in after.cooldowns && !Shows(views, b) ==> IsolatedBucket(b) in d.cooldowns
        ensures Shows(views, b) ==> IsolatedOutcome(mkt, d, after, b)
      {
        ShowsHead(views, b);
        if Shows(views, b) && b != v.asset {
          assert IsolatedOutcome(mkt, next, after, b);
          LookupDecides(mkt, d.acct, next.acct, b);
        } else if b == v.asset {
          LookupDecides(mkt, next.acct, after.acct, b);
        }
      }
    }
  }

  lemma {:induction false} IsolatedPhaseIdle(mkt: Market, books: Books, d: Desk, views: seq<View>)
    requires d.acct.Valid() && Snapshot(mkt, d.acct, views)
    requires forall b :: !IsIsolatedLiquidatable(mkt, d.acct, b)
    ensures IsolatedPhase(mkt, books, d, views) == d
    decreases |views|
  {
    if |views| > 0 {
      assert Snapshot(mkt, d.acct, [views[0]]);
      IsolatedTurnEffect(mkt, books, d, views[0]);
      assert IsolatedTurn(mkt, books, d, views[0]) == d;
      IsolatedPhaseIdle(mkt, books, d, views[1..]);
    }
  }

  // ---- The cross phase ----

  /** Without a slice a liquidation closes every target outright. */
  lemma FullCloseRemoves(mkt: Market, books: Books, cooldowns: set<Bucket>, kind: Kind, acct: Account, targets: seq<View>, b: int)
    requires acct.Valid() && Snapshot(mkt, acct, targets)
    requires !AnySlice(mkt, cooldowns, kind, targets) && Shows(targets, b)
    ensures Lookup(QueueAll(mkt, books, cooldowns, kind, acct, targets), b).None?
  {
    QueueAllEffect(mkt, books, cooldowns, kind, acct, targets);
    var i :| 0 <= i < |targets| && targets[i].asset == b;
    InSnapshot(mkt, acct, targets, i);
    PlanIsClose(mkt, books, cooldowns, kind, targets[i]);
    hide PlanFor, SliceOf;
    assert Remainder(PlanFor(mkt, books, cooldowns, kind, targets[i])).None?;
  }

  lemma CrossPhaseEffect(mkt: Market, books: Books, reply: Reply, d: Desk)
    requires d.acct.Valid() && IsReply(reply)
    ensures var after := CrossPhase(mkt, books, reply, d);
      && after.acct.Valid()
      && (forall b :: !mkt.Setting(b).isCross ==> Lookup(after.acct, b) == Lookup(d.acct, b))
      && d.cooldowns <= after.cooldowns <= d.cooldowns + {CrossBucket}
      && (!IsCrossLiquidatable(mkt, d.acct) ==> after == d)
      && (IsCrossLiquidatable(mkt, d.acct) && IsCrossLiquidatable(mkt, after.acct) ==>
            CrossBucket !in d.cooldowns && CrossBucket in after.cooldowns)
  {
    var assets := reply(d.acct.positions.Keys);
    var a := AssessCross(d.acct.balance, LoadPositions(mkt, d.acct, assets));
    assert Lists(assets, d.acct.positions.Keys);
    CrossAssessmentMeaning(mkt, d.acct, assets);
    CrossTargets(mkt, d.acct, assets);
    var after := CrossPhase(mkt, books, reply, d);
    assert after == if a.shouldLiquidate then RunLiquidation(mkt, books, d, a) else d;
    hide CrossPhase, AssessCross, LoadPositions, Lists, IsReply, ViewOf, CrossValue, CrossMaintenanceMargin;
    if a.shouldLiquidate {
      CrossRunEffect(mkt, books, d, a);
    }
  }

  lemma CrossRunEffect(mkt: Market, books: Books, d: Desk, a: Assessment)
    requires d.acct.Valid() && Snapshot(mkt, d.acct, a.targets) && |a.targets| > 0
    requires forall i :: 0 <= i < |a.targets| ==> a.targets[i].setting.isCross
    requires forall b :: Shows(a.targets, b) <==> IsPriced(mkt, d.acct, b) && mkt.Setting(b).isCross
    ensures var after := RunLiquidation(mkt, books, d, a);
      && after.acct.Valid()
      && (forall b :: !mkt.Setting(b).isCross ==> Lookup(after.acct, b) == Lookup(d.acct, b))
      && d.cooldowns <= after.cooldowns <= d.cooldowns + {CrossBucket}
      && (HasCross(mkt, after.acct) ==> CrossBucket !in d.cooldowns && CrossBucket in after.cooldowns)
  {
    var after := RunLiquidation(mkt, books, d, a);
    var closed := QueueAll(mkt, books, d.cooldowns, a.kind, d.acct, a.targets);
    QueueAllEffect(mkt, books, d.cooldowns, a.kind, d.acct, a.targets);
    hide QueueAll, ViewOf, Shows;
    assert after.acct.positions == closed.positions;
    if AnySlice(mkt, d.cooldowns, a.kind, a.targets) {
      SliceStartsCooldown(mkt, d.cooldowns, a.kind, a.targets);
    } else {
      forall b ensures !(IsPriced(mkt, after.acct, b) && mkt.Setting(b).isCross) {
        if Shows(a.targets, b) {
          FullCloseRemoves(mkt, books, d.cooldowns, a.kind, d.acct, a.targets, b);
        } else {
          LookupDecides(mkt, d.acct, after.acct, b);
        }
      }
    }
  }

  lemma SliceStartsCooldown(mkt: Market, cooldowns: set<Bucket>, kind: Kind, targets: seq<View>)
    requires AnySlice(mkt, cooldowns, kind, targets)
    requires forall i :: 0 <= i < |targets| ==> targets[i].setting.isCross
    ensures CrossBucket !in cooldowns
  {
    var i :| 0 <= i < |targets| && SliceOf(mkt, cooldowns, kind, targets[i]).Some?;
    assert BucketOf(targets[i]) == CrossBucket;
  }

  // ---- Three passes ----

  ghost predicate IsSettled(mkt: Market, d: Desk) {
    && (forall b :: !IsIsolatedLiquidatable(mkt, d.acct, b))
    && !IsCrossLiquidatable(mkt, d.acct)
  }

  /** Everything still under water has used its slice. */
  ghost predicate IsolatedCooling(mkt: Market, d: Desk) {
    forall b :: IsIsolatedLiquidatable(mkt, d.acct, b) ==> IsolatedBucket(b) in d.cooldowns
  }

  lemma {:induction false} PassEffect(mkt: Market, books: Books, reply: Reply, d: Desk) returns (middle: Desk)
    requires d.acct.Valid() && IsReply(reply)
    ensures middle.acct.Valid() && Pass(mkt, books, reply, d) == CrossPhase(mkt, books, reply, middle)
    ensures d.cooldowns <= middle.cooldowns && (CrossBucket in middle.cooldowns <==> CrossBucket in d.cooldowns)
    ensures IsolatedCooling(mkt, middle)
    ensures IsolatedCooling(mkt, d) ==> forall b :: !IsIsolatedLiquidatable(mkt, middle.acct, b)
    ensures (forall b :: !IsIsolatedLiquidatable(mkt, d.acct, b)) ==> middle == d
  {
    var assets := reply(d.acct.positions.Keys);
    assert Lists(assets, d.acct.positions.Keys);
    var views := LoadPositions(mkt, d.acct, assets);
    LoadedSnapshot(mkt, d.acct, assets);
    middle := IsolatedPhase(mkt, books, d, views);
    IsolatedPhaseEffect(mkt, books, d, views);
    if forall b :: !IsIsolatedLiquidatable(mkt, d.acct, b) {
      IsolatedPhaseIdle(mkt, books, d, views);
    }
    assert Pass(mkt, books, reply, d) == CrossPhase(mkt, books, reply, middle);
    hide IsolatedPhase, CrossPhase, LoadPositions, Lists, IsReply, ViewOf, AssessIsolated, Snapshot, Pass;
    forall b | IsIsolatedLiquidatable(mkt, middle.acct, b)
      ensures IsIsolatedLiquidatable(mkt, d.acct, b) && IsolatedBucket(b) !in d.cooldowns && IsolatedBucket(b) in middle.cooldowns
    {
      StillUnderWater(mkt, d, middle, views, b);
    }
  }

  lemma StillUnderWater(mkt: Market, d: Desk, after: Desk, views: seq<View>, b: int)
    requires IsIsolatedLiquidatable(mkt, after.acct, b)
    requires forall c :: IsPriced(mkt, d.acct, c) <==> Shows(views, c)
    requires forall c :: !Shows(views, c) ==> Lookup(after.acct, c) == Lookup(d.acct, c)
    requires forall c :: Shows(views, c) ==> IsolatedOutcome(mkt, d, after, c)
    ensures IsIsolatedLiquidatable(mkt, d.acct, b) && IsolatedBucket(b) !in d.cooldowns && IsolatedBucket(b) in after.cooldowns
  {
    hide Shows, AssessIsolated, ViewOf;
    if Lookup(after.acct, b) == Lookup(d.acct, b) {
      LookupDecides(mkt, d.acct, after.acct, b);
    }
    assert Shows(views, b);
    assert IsolatedOutcome(mkt, d, after, b);
  }

  /** A cross phase leaves every isolated position exactly as healthy as it was. */
  lemma CrossKeepsIsolated(mkt: Market, books: Books, reply: Reply, d: Desk)
    requires d.acct.Valid() && IsReply(reply)
    ensures forall b :: IsIsolatedLiquidatable(mkt, CrossPhase(mkt, books, reply, d).acct, b)
                   <==> IsIsolatedLiquidatable(mkt, d.acct, b)
  {
    CrossPhaseEffect(mkt, books, reply, d);
    var after := CrossPhase(mkt, books, reply, d);
    hide CrossPhase, IsReply, AssessIsolated, ViewOf;
    forall b ensures IsIsolatedLiquidatable(mkt, after.acct, b) <==> IsIsolatedLiquidatable(mkt, d.acct, b) {
      if !mkt.Setting(b).isCross {
        LookupDecides(mkt, d.acct, after.acct, b);
      }
    }
  }

  /** Whatever prices the books give in each pass and in whatever order the store lists the positions:
      at fixed marks, with no other writer and the cooldowns still live, after three passes no isolated
      position and no cross account is liquidatable. */
  lemma ThreePassesSettle(mkt: Market, books: seq<Books>, replies: seq<Reply>, d: Desk) returns (d3: Desk)
    requires d.acct.Valid() && |books| == 3 && |replies| == 3
    requires forall i :: 0 <= i < 3 ==> IsReply(replies[i])
    ensures d3 == Pass(mkt, books[2], replies[2], Pass(mkt, books[1], replies[1], Pass(mkt, books[0], replies[0], d)))
    ensures d3.acct.Valid() && IsSettled(mkt, d3)
  {
    hide Pass, CrossPhase, IsIsolatedLiquidatable, IsCrossLiquidatable, IsReply;
    var m1 := PassEffect(mkt, books[0], replies[0], d);
    CrossPhaseEffect(mkt, books[0], replies[0], m1);
    CrossKeepsIsolated(mkt, books[0], replies[0], m1);
    var d1 := Pass(mkt, books[0], replies[0], d);

    var m2 := PassEffect(mkt, books[1], replies[1], d1);
    CrossPhaseEffect(mkt, books[1], replies[1], m2);
    CrossKeepsIsolated(mkt, books[1], replies[1], m2);
    var d2 := Pass(mkt, books[1], replies[1], d1);

    var m3 := PassEffect(mkt, books[2], replies[2], d2);
    CrossPhaseEffect(mkt, books[2], replies[2], m3);
    CrossKeepsIsolated(mkt, books[2], replies[2], m3);
    d3 := Pass(mkt, books[2], replies[2], d2);
  }

  /** A settled account is left alone by every further pass. */
  lemma SettledIsFinal(mkt: Market, books: Books, reply: Reply, d: Desk)
    requires d.acct.Valid() && IsReply(reply) && IsSettled(mkt, d)
    ensures Pass(mkt, books, reply, d) == d
  {
    hide Pass, CrossPhase, IsIsolatedLiquidatable, IsCrossLiquidatable, IsReply;
    var middle := PassEffect(mkt, books, reply, d);
    CrossPhaseEffect(mkt, books, reply, middle);
  }

  // ---- Every pass keeps the books ----

  lemma {:induction false} IsolatedPhaseReconciles(mkt: Market, books: Books, d: Desk, views: seq<View>, deposit: real)
    requires d.acct.Valid() && Snapshot(mkt, d.acct, views) && Reconciles(d.acct, deposit)
    ensures Reconciles(IsolatedPhase(mkt, books, d, views).acct, deposit)
    decreases |views|
  {
    hide Reconciles, ViewOf, RunLiquidation;
    if |views| > 0 {
      var v := views[0];
      assert Snapshot(mkt, d.acct, [v]);
      IsolatedTurnEffect(mkt, books, d, v);
      if !v.setting.isCross && AssessIsolated(v).shouldLiquidate {
        LiquidationReconciles(mkt, books, d, AssessIsolated(v), deposit);
      }
      var next := IsolatedTurn(mkt, books, d, v);
      SnapshotSurvives(mkt, d.acct, next.acct, views[1..]);
      IsolatedPhaseReconciles(mkt, books, next, views[1..], deposit);
    }
  }

  lemma PassReconciles(mkt: Market, books: Books, reply: Reply, d: Desk, deposit: real)
    requires d.acct.Valid() && IsReply(reply) && Reconciles(d.acct, deposit)
    ensures Pass(mkt, books, reply, d).acct.Valid()
    ensures Reconciles(Pass(mkt, books, reply, d).acct, deposit)
  {
    hide Reconciles, ViewOf, RunLiquidation;
    var assets := reply(d.acct.positions.Keys);
    assert Lists(assets, d.acct.positions.Keys);
    LoadedSnapshot(mkt, d.acct, assets);
    var views := LoadPositions(mkt, d.acct, assets);
    IsolatedPhaseEffect(mkt, books, d, views);
    IsolatedPhaseReconciles(mkt, books, d, views, deposit);
    var middle := IsolatedPhase(mkt, books, d, views);
    var again := reply(middle.acct.positions.Keys);
    assert Lists(again, middle.acct.positions.Keys);
    CrossAssessmentMeaning(mkt, middle.acct, again);
    CrossPhaseEffect(mkt, books, reply, middle);
    var a := AssessCross(middle.acct.balance, LoadPositions(mkt, middle.acct, again));
    if a.shouldLiquidate {
      LiquidationReconciles(mkt, books, middle, a, deposit);
    }
  }
}
