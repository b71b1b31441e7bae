/** What a liquidation does to the money: snapshots add up to the account they were taken from, every
    close keeps the books, and a backstop takes exactly what it should. */
module LiquidationAccounting {
  import opened Prelude
  import opened Margin
  import opened Account
  import opened Liquidation
  import Fills
  import opened Slippage

  // ---- Snapshots ----

  ghost predicate IsPriced(mkt: Market, acct: Account, a: int) {
    a in acct.positions && a in mkt.marks && acct.positions[a].szi != 0.0
  }

  /** Distinct positions of the account as they stand. */
  ghost predicate Snapshot(mkt: Market, acct: Account, views: seq<View>) {
    && (forall i :: 0 <= i < |views| ==>
          && IsPriced(mkt, acct, views[i].asset)
          && views[i] == ViewOf(mkt, views[i].asset, acct.positions[views[i].asset]))
    && (forall i, j :: 0 <= i < j < |views| ==> views[i].asset != views[j].asset)
  }

  ghost predicate Shows(views: seq<View>, a: int) {
    exists i :: 0 <= i < |views| && views[i].asset == a
  }

  /** The cross account's term of one position: PnL if cross, minus the dedicated margin if isolated. */
  function CrossTerm(mkt: Market): (int, Position) -> real {
    (a: int, p: Position) =>
      if a in mkt.marks && p.szi != 0.0 then
        var v := ViewOf(mkt, a, p);
        if v.setting.isCross then v.pnl else -v.isolatedMargin
      else 0.0
  }

  function MaintenanceTerm(mkt: Market): (int, Position) -> real {
    (a: int, p: Position) =>
      if a in mkt.marks && p.szi != 0.0 then
        var v := ViewOf(mkt, a, p);
        if v.setting.isCross then v.maintenance else 0.0
      else 0.0
  }

  /** The cross account value and its maintenance margin, without an order. */
  ghost function CrossValue(mkt: Market, acct: Account): real {
    acct.balance + SumOf(acct.positions, CrossTerm(mkt))
  }

  ghost function CrossMaintenanceMargin(mkt: Market, acct: Account): real {
    SumOf(acct.positions, MaintenanceTerm(mkt))
  }

  ghost predicate HasCross(mkt: Market, acct: Account) {
    exists a :: IsPriced(mkt, acct, a) && mkt.Setting(a).isCross
  }

  ghost predicate IsCrossLiquidatable(mkt: Market, acct: Account) {
    HasCross(mkt, acct) && CrossValue(mkt, acct) < CrossMaintenanceMargin(mkt, acct)
  }

  ghost predicate IsIsolatedLiquidatable(mkt: Market, acct: Account, a: int) {
    && IsPriced(mkt, acct, a)
    && !mkt.Setting(a).isCross
    && AssessIsolated(ViewOf(mkt, a, acct.positions[a])).shouldLiquidate
  }

  lemma {:induction false} LoadAgrees(mkt: Market, acct: Account, other: Account, assets: seq<int>)
    requires forall i :: 0 <= i < |assets| ==>
      (assets[i] in acct.positions <==> assets[i] in other.positions)
      && (assets[i] in acct.positions ==> acct.positions[assets[i]] == other.positions[assets[i]])
    ensures LoadPositions(mkt, acct, assets) == LoadPositions(mkt, other, assets)
    decreases |assets|
  {
    if |assets| > 0 {
      LoadAgrees(mkt, acct, other, assets[..|assets| - 1]);
    }
  }

  lemma ListsRest(assets: seq<int>, acct: Account) returns (rest: Account)
    requires Lists(assets, acct.positions.Keys) && |assets| > 0
    ensures rest == WithPosition(acct, assets[|assets| - 1], None)
    ensures Lists(assets[..|assets| - 1], rest.positions.Keys)
    ensures assets[|assets| - 1] !in assets[..|assets| - 1]
  {
    var n := |assets| - 1;
    rest := WithPosition(acct, assets[n], None);
    forall b | b in rest.positions.Keys ensures b in assets[..n] {
      assert b in assets;
    }
  }

  /** A loaded snapshot shows every priced position once. */
  lemma {:induction false} LoadedSnapshot(mkt: Market, acct: Account, assets: seq<int>)
    requires Lists(assets, acct.positions.Keys)
    ensures Snapshot(mkt, acct, LoadPositions(mkt, acct, assets))
    ensures forall a :: IsPriced(mkt, acct, a) <==> Shows(LoadPositions(mkt, acct, assets), a)
    decreases |assets|
  {
    hide ViewOf;
    if |assets| > 0 {
      var a := assets[|assets| - 1];
      var rest := ListsRest(assets, acct);
      var front := LoadPositions(mkt, acct, assets[..|assets| - 1]);
      LoadedSnapshot(mkt, rest, assets[..|assets| - 1]);
      LoadAgrees(mkt, rest, acct, assets[..|assets| - 1]);
      hide LoadPositions, Lists;
      forall b ensures IsPriced(mkt, rest, b) <==> IsPriced(mkt, acct, b) && b != a {
      }
      if IsPriced(mkt, acct, a) {
        SnapshotExtends(mkt, acct, rest, front, a);
      } else {
        SnapshotKeeps(mkt, acct, rest, front, a);
      }
      LoadLast(mkt, acct, assets);
    }
  }

  lemma LoadLast(mkt: Market, acct: Account, assets: seq<int>)
    requires |assets| > 0
    ensures var a, front := assets[|assets| - 1], LoadPositions(mkt, acct, assets[..|assets| - 1]);
      LoadPositions(mkt, acct, assets) == if IsPriced(mkt, acct, a) then front + [ViewOf(mkt, a, acct.positions[a])] else front
  {
  }

  lemma SnapshotKeeps(mkt: Market, acct: Account, rest: Account, front: seq<View>, a: int)
    requires rest == WithPosition(acct, a, None) && Snapshot(mkt, rest, front)
    ensures Snapshot(mkt, acct, front)
  {
  }

  lemma SnapshotExtends(mkt: Market, acct: Account, rest: Account, front: seq<View>, a: int)
    requires rest == WithPosition(acct, a, None) && Snapshot(mkt, rest, front) && IsPriced(mkt, acct, a)
    ensures Snapshot(mkt, acct, front + [ViewOf(mkt, a, acct.positions[a])])
    ensures forall b :: Shows(front + [ViewOf(mkt, a, acct.positions[a])], b) <==> Shows(front, b) || b == a
  {
    var v := ViewOf(mkt, a, acct.positions[a]);
    assert v.asset == a;
    hide ViewOf;
    forall b ensures Shows(front + [v], b) <==> Shows(front, b) || b == a {
      ShowsAppend(front, v, b);
    }
  }

  lemma ViewsAppend(balance: real, front: seq<View>, v: View)
    ensures CrossAccountValue(balance, front + [v])
         == CrossAccountValue(balance, front) + (if v.setting.isCross then v.pnl else -v.isolatedMargin)
    ensures CrossOf(front + [v]) == CrossOf(front) + (if v.setting.isCross then [v] else [])
    ensures TotalMaintenance(CrossOf(front + [v]))
         == TotalMaintenance(CrossOf(front)) + (if v.setting.isCross then v.maintenance else 0.0)
  {
    var all := front + [v];
    assert all[..|all| - 1] == front && all[|all| - 1] == v;
    assert CrossOf(all) == CrossOf(front) + (if v.setting.isCross then [v] else []);
    assert CrossOf(front) + [] == CrossOf(front);
    if v.setting.isCross {
      var cross := CrossOf(front) + [v];
      assert cross[..|cross| - 1] == CrossOf(front) && cross[|cross| - 1] == v;
      assert TotalMaintenance(cross) == TotalMaintenance(CrossOf(front)) + v.maintenance;
    }
  }

  lemma NothingListed(assets: seq<int>, s: set<int>)
    requires Lists(assets, s) && |assets| == 0
    ensures s == {}
  {
    assert forall a :: a in s ==> a in assets;
  }

  /** The sums over a snapshot are the account's sums: the order in which the store lists the positions
      does not matter. */
  lemma {:induction false} LoadedSums(mkt: Market, acct: Account, assets: seq<int>)
    requires Lists(assets, acct.positions.Keys)
    ensures var views := LoadPositions(mkt, acct, assets);
      && CrossAccountValue(acct.balance, views) == CrossValue(mkt, acct)
      && TotalMaintenance(CrossOf(views)) == CrossMaintenanceMargin(mkt, acct)
    decreases |assets|
  {
    hide ViewOf, Total;
    if |assets| == 0 {
      NothingListed(assets, acct.positions.Keys);
      TotalZero(ValuesOf(acct.positions, CrossTerm(mkt)));
      TotalZero(ValuesOf(acct.positions, MaintenanceTerm(mkt)));
    } else {
      var a := assets[|assets| - 1];
      var rest := ListsRest(assets, acct);
      LoadedSums(mkt, rest, assets[..|assets| - 1]);
      LoadAgrees(mkt, rest, acct, assets[..|assets| - 1]);
      SumAfterWrite(acct, a, None, CrossTerm(mkt));
      SumAfterWrite(acct, a, None, MaintenanceTerm(mkt));
      LoadLast(mkt, acct, assets);
      hide LoadPositions, SumOf, Lists;
      if IsPriced(mkt, acct, a) {
        ViewsAppend(acct.balance, LoadPositions(mkt, acct, assets[..|assets| - 1]), ViewOf(mkt, a, acct.positions[a]));
      }
    }
  }

  lemma {:induction false} CrossOfShows(mkt: Market, acct: Account, views: seq<View>)
    requires Snapshot(mkt, acct, views)
    ensures forall a :: Shows(CrossOf(views), a) <==> Shows(views, a) && mkt.Setting(a).isCross
    decreases |views|
  {
    hide ViewOf, Market.Setting, Shows;
    if |views| > 0 {
      var n := |views| - 1;
      InSnapshot(mkt, acct, views, n);
      CrossOfShows(mkt, acct, views[..n]);
      hide Snapshot;
      assert views == views[..n] + [views[n]];
      ViewsAppend(0.0, views[..n], views[n]);
      CrossShowsAppend(mkt, views[..n], CrossOf(views[..n]), views[n]);
    } else {
      NothingShown(views);
      NothingShown(CrossOf(views));
    }
  }

  lemma NothingShown(views: seq<View>)
    requires |views| == 0
    ensures forall a :: !Shows(views, a)
  {
  }

  lemma {:induction false} CrossOfSnapshot(mkt: Market, acct: Account, views: seq<View>)
    requires Snapshot(mkt, acct, views)
    ensures Snapshot(mkt, acct, CrossOf(views))
    decreases |views|
  {
    hide ViewOf;
    if |views| > 0 {
      var n := |views| - 1;
      InSnapshot(mkt, acct, views, n);
      assert !Shows(views[..n], views[n].asset);
      CrossOfSnapshot(mkt, acct, views[..n]);
      CrossOfShows(mkt, acct, views[..n]);
      hide Snapshot, Shows;
      assert views == views[..n] + [views[n]];
      ViewsAppend(0.0, views[..n], views[n]);
      if views[n].setting.isCross {
        SnapshotAppend(mkt, acct, CrossOf(views[..n]), views[n]);
      }
    }
  }

  lemma CrossShowsAppend(mkt: Market, front: seq<View>, cross: seq<View>, v: View)
    requires v.setting == mkt.Setting(v.asset)
    requires forall a :: Shows(cross, a) <==> Shows(front, a) && mkt.Setting(a).isCross
    ensures forall a :: Shows(cross + (if v.setting.isCross then [v] else []), a)
                   <==> Shows(front + [v], a) && mkt.Setting(a).isCross
  {
    hide Market.Setting, Shows;
    assert cross + [] == cross;
    forall a ensures Shows(cross + (if v.setting.isCross then [v] else []), a)
                <==> Shows(front + [v], a) && mkt.Setting(a).isCross
    {
      ShowsAppend(front, v, a);
      ShowsAppend(cross, v, a);
    }
  }

  lemma SnapshotAppend(mkt: Market, acct: Account, views: seq<View>, v: View)
    requires Snapshot(mkt, acct, views) && !Shows(views, v.asset)
    requires IsPriced(mkt, acct, v.asset) && v == ViewOf(mkt, v.asset, acct.positions[v.asset])
    ensures Snapshot(mkt, acct, views + [v])
  {
    hide ViewOf;
    forall i | 0 <= i < |views| ensures views[i].asset != v.asset {
    }
  }

  lemma ShowsAppend(views: seq<View>, v: View, a: int)
    ensures Shows(views + [v], a) <==> Shows(views, a) || v.asset == a
  {
    var all := views + [v];
    if Shows(views, a) {
      var i :| 0 <= i < |views| && views[i].asset == a;
      assert all[i].asset == a;
    }
    if v.asset == a {
      assert all[|views|].asset == a;
    }
  }

  /** The assessment of the cross account says what it should, whatever the order of the snapshot. */
  lemma CrossAssessmentMeaning(mkt: Market, acct: Account, assets: seq<int>)
    requires Lists(assets, acct.positions.Keys)
    ensures var a := AssessCross(acct.balance, LoadPositions(mkt, acct, assets));
      && a.equity == CrossValue(mkt, acct)
      && a.maintenance == CrossMaintenanceMargin(mkt, acct)
      && (a.shouldLiquidate <==> IsCrossLiquidatable(mkt, acct))
      && Snapshot(mkt, acct, a.targets)
      && (forall b :: Shows(a.targets, b) <==> IsPriced(mkt, acct, b) && mkt.Setting(b).isCross)
  {
    var views := LoadPositions(mkt, acct, assets);
    LoadedSnapshot(mkt, acct, assets);
    LoadedSums(mkt, acct, assets);
    CrossOfSnapshot(mkt, acct, views);
    CrossOfShows(mkt, acct, views);
    hide LoadPositions, CrossValue, CrossMaintenanceMargin, CrossAccountValue, TotalMaintenance;
    forall b | Shows(CrossOf(views), b) ensures HasCross(mkt, acct) {
    }
    if |CrossOf(views)| > 0 {
      assert Shows(CrossOf(views), CrossOf(views)[0].asset);
    }
  }

  // ---- One close ----

  /** A planned close of a position as it stands: its size is positive and at most the position's. */
  lemma PlanIsClose(mkt: Market, books: Books, cooldowns: set<Bucket>, kind: Kind, v: View)
    requires v.pos.szi != 0.0
    ensures var plan := PlanFor(mkt, books, cooldowns, kind, v);
      && 0.0 < plan.fill.sz <= Abs(v.pos.szi)
      && plan.view == v
      && plan.remaining == Abs(v.pos.szi) - plan.fill.sz
      && plan.fill.isBuy == (v.pos.szi < 0.0)
      && plan.fill.asset == v.asset
      && (if SliceOf(mkt, cooldowns, kind, v).None? then plan.remaining == 0.0
          else plan.remaining >= (1.0 - PARTIAL_LIQ_PCT) * Abs(v.pos.szi) > 0.0)
      && plan.fill.closedPnl == -plan.fill.Signed() * (plan.fill.px - v.pos.entryPx)
      && (kind == Backstop ==> plan.fill.px == v.px && plan.fill.fee == 0.0 && plan.remaining == 0.0)
  {
    hide RoundDown, ExecutionPx;
  }

  /** Liquidation closes never grow or flip a position. */
  lemma CloseOnlyShrinks(mkt: Market, books: Books, cooldowns: set<Bucket>, kind: Kind, v: View)
    requires v.pos.szi != 0.0
    ensures var plan := PlanFor(mkt, books, cooldowns, kind, v);
      match Remainder(plan)
      case None => plan.fill.sz == Abs(v.pos.szi)
      case Some(pos) =>
        && pos.szi == v.pos.szi + plan.fill.Signed()
        && (if v.pos.szi > 0.0 then 0.0 < pos.szi < v.pos.szi else v.pos.szi < pos.szi < 0.0)
        && pos.entryPx == v.pos.entryPx
  {
    hide PlanFor, ScaledMargin, SliceOf;
    PlanIsClose(mkt, books, cooldowns, kind, v);
  }

  /** A 20% slice of an isolated position is a cut to the fraction it leaves, at least four fifths. */
  lemma SliceIsCut(mkt: Market, books: Books, cooldowns: set<Bucket>, kind: Kind, v: View) returns (k: real)
    requires v.pos.szi != 0.0 && !v.setting.isCross && SliceOf(mkt, cooldowns, kind, v).Some?
    ensures Remainder(PlanFor(mkt, books, cooldowns, kind, v)).Some?
    ensures Fills.IsCutOf(Remainder(PlanFor(mkt, books, cooldowns, kind, v)).value, v.pos, v.setting.leverage, k)
    ensures 1.0 - PARTIAL_LIQ_PCT <= k < 1.0
  {
    hide PlanFor, ScaledMargin, SliceOf;
    PlanIsClose(mkt, books, cooldowns, kind, v);
    var plan := PlanFor(mkt, books, cooldowns, kind, v);
    k := plan.remaining / Abs(v.pos.szi);
    KeptFraction(v.pos.szi, Abs(v.pos.szi), plan.remaining, k);
  }

  lemma KeptFraction(szi: real, size: real, left: real, k: real)
    requires size == Abs(szi) && size > 0.0 && k == left / size
    requires (1.0 - PARTIAL_LIQ_PCT) * size <= left < size
    ensures 1.0 - PARTIAL_LIQ_PCT <= k < 1.0
    ensures szi * k == if szi > 0.0 then left else -left
  {
    Fills.FractionKept(left, size);
    assert Times(size, k) == left;
    assert left >= Times(size, 1.0 - PARTIAL_LIQ_PCT);
    TimesOrders(size, k, 1.0 - PARTIAL_LIQ_PCT);
    assert szi == size || szi == -size;
  }

  /** A close preserves worth: the position and the cash move by what the fill is worth. */
  lemma ClosePreservesWorth(acct: Account, mkt: Market, books: Books, cooldowns: set<Bucket>, kind: Kind, v: View)
    requires acct.Valid() && v.asset in acct.positions && acct.positions[v.asset] == v.pos
    ensures var plan := PlanFor(mkt, books, cooldowns, kind, v);
      && PreservesWorth(acct, plan.fill, Remainder(plan), plan.fill.closedPnl - plan.fill.fee)
      && (if Remainder(plan).Some? then Remainder(plan).value.szi else 0.0) == acct.Szi(v.asset) + plan.fill.Signed()
  {
    hide PlanFor, ScaledMargin, SliceOf, Remainder, MarkedTo;
    var plan := PlanFor(mkt, books, cooldowns, kind, v);
    PlanIsClose(mkt, books, cooldowns, kind, v);
    CloseOnlyShrinks(mkt, books, cooldowns, kind, v);
    var pos, f, e := Remainder(plan), plan.fill, v.pos.entryPx;
    var left := if pos.Some? then pos.value.szi else 0.0;
    assert left == v.pos.szi + f.Signed();
    forall px: real
      ensures (if pos.Some? then MarkedTo(pos.value.szi, pos.value.entryPx, px) else 0.0)
              + (f.closedPnl - f.fee) + f.fee
           == MarkedTo(acct.Szi(f.asset), acct.EntryPx(f.asset), px) + MarkedTo(f.Signed(), f.px, px)
    {
      RealizedWorth(v.pos.szi, f.Signed(), e, f.px, px);
      Fills.MarkedToZero(e, px);
    }
  }

  lemma RealizedWorth(szi: real, signed: real, e: real, p: real, px: real)
    ensures MarkedTo(szi + signed, e, px) + -signed * (p - e) == MarkedTo(szi, e, px) + MarkedTo(signed, p, px)
  {
  }

  // ---- A whole liquidation ----

  /** What a snapshot says of one of its positions. */
  lemma InSnapshot(mkt: Market, acct: Account, targets: seq<View>, i: nat)
    requires Snapshot(mkt, acct, targets) && i < |targets|
    ensures var v := targets[i];
      && v.setting == mkt.Setting(v.asset)
      && v.pos.szi != 0.0
      && IsPriced(mkt, acct, v.asset)
      && acct.positions[v.asset] == v.pos
      && v == ViewOf(mkt, v.asset, v.pos)
  {
  }

  lemma QueueCloseEffect(mkt: Market, books: Books, cooldowns: set<Bucket>, kind: Kind, acct: Account, v: View)
    requires acct.Valid() && v.pos.szi != 0.0
    ensures var plan := PlanFor(mkt, books, cooldowns, kind, v);
      var after := QueueClose(acct, plan);
      && after.Valid()
      && after.fundingPaid == acct.fundingPaid && after.transferred == acct.transferred
      && Fills.Lookup(after, v.asset) == Remainder(plan)
      && (forall a :: a != v.asset ==> Fills.Lookup(after, a) == Fills.Lookup(acct, a))
  {
    hide PlanFor, Remainder, SliceOf;
    PlanIsClose(mkt, books, cooldowns, kind, v);
    CloseOnlyShrinks(mkt, books, cooldowns, kind, v);
  }

  /** Closing the targets one after the other leaves every other position alone and replaces each
      target by its remainder. */
  lemma {:induction false} QueueAllEffect(mkt: Market, books: Books, cooldowns: set<Bucket>, kind: Kind,
                                          acct: Account, targets: seq<View>)
    requires acct.Valid() && Snapshot(mkt, acct, targets)
    ensures var after := QueueAll(mkt, books, cooldowns, kind, acct, targets);
      && after.Valid()
      && after.fundingPaid == acct.fundingPaid && after.transferred == acct.transferred
      && (forall a :: !Shows(targets, a) ==> Fills.Lookup(after, a) == Fills.Lookup(acct, a))
      && (forall i :: 0 <= i < |targets| ==>
            Fills.Lookup(after, targets[i].asset) == Remainder(PlanFor(mkt, books, cooldowns, kind, targets[i])))
    decreases |targets|
  {
    hide PlanFor, Remainder, SliceOf, ViewOf;
    if |targets| > 0 {
      var n := |targets| - 1;
      var v := targets[n];
      InSnapshot(mkt, acct, targets, n);
      var before := QueueAll(mkt, books, cooldowns, kind, acct, targets[..n]);
      var plan := PlanFor(mkt, books, cooldowns, kind, v);
      QueueAllEffect(mkt, books, cooldowns, kind, acct, targets[..n]);
      var after := QueueAll(mkt, books, cooldowns, kind, acct, targets);
      assert after == QueueClose(before, plan);
      hide QueueAll;
      QueueCloseEffect(mkt, books, cooldowns, kind, before, v);
      hide QueueClose;
      forall a | !Shows(targets, a) ensures Fills.Lookup(after, a) == Fills.Lookup(acct, a) {
        ShowsAppend(targets[..n], v, a);
        assert targets == targets[..n] + [v];
      }
      forall i | 0 <= i < |targets|
        ensures Fills.Lookup(after, targets[i].asset) == Remainder(PlanFor(mkt, books, cooldowns, kind, targets[i]))
      {
        if i < n {
          assert targets[i] == targets[..n][i];
        }
      }
    }
  }

  /** Before its turn, a target is still as the snapshot shows it. */
  lemma {:induction false} TargetWaits(mkt: Market, books: Books, cooldowns: set<Bucket>, kind: Kind, acct: Account, targets: seq<View>)
    requires acct.Valid() && Snapshot(mkt, acct, targets) && |targets| > 0
    ensures var n := |targets| - 1; var v := targets[n];
      var before := QueueAll(mkt, books, cooldowns, kind, acct, targets[..n]);
      before.Valid() && IsPriced(mkt, before, v.asset) && before.positions[v.asset] == v.pos
      && v == ViewOf(mkt, v.asset, v.pos) && Snapshot(mkt, acct, targets[..n])
  {
    var n := |targets| - 1;
    QueueAllEffect(mkt, books, cooldowns, kind, acct, targets[..n]);
    hide QueueAll;
    assert !Shows(targets[..n], targets[n].asset);
    assert Fills.Lookup(acct, targets[n].asset) == Some(targets[n].pos);
  }

  /** Every close keeps the books. */
  lemma {:induction false} QueueAllReconciles(mkt: Market, books: Books, cooldowns: set<Bucket>, kind: Kind,
                                              acct: Account, targets: seq<View>, deposit: real)
    requires acct.Valid() && Snapshot(mkt, acct, targets) && Reconciles(acct, deposit)
    ensures Reconciles(QueueAll(mkt, books, cooldowns, kind, acct, targets), deposit)
    decreases |targets|
  {
    hide PlanFor, Remainder, Reconciles, PreservesWorth, SliceOf, ViewOf;
    if |targets| > 0 {
      var n := |targets| - 1;
      var v := targets[n];
      var before := QueueAll(mkt, books, cooldowns, kind, acct, targets[..n]);
      var plan := PlanFor(mkt, books, cooldowns, kind, v);
      TargetWaits(mkt, books, cooldowns, kind, acct, targets);
      QueueAllReconciles(mkt, books, cooldowns, kind, acct, targets[..n], deposit);
      assert QueueAll(mkt, books, cooldowns, kind, acct, targets) == QueueClose(before, plan);
      PlanIsClose(mkt, books, cooldowns, kind, v);
      ClosePreservesWorth(before, mkt, books, cooldowns, kind, v);
      hide QueueAll, Snapshot;
      TradeReconciles(before, deposit, plan.fill, Remainder(plan), plan.fill.closedPnl - plan.fill.fee);
    }
  }

  /** Any liquidation keeps the books: whatever prices the book gave, the account's worth moves by its
      fills and the equity handed to the vault, and by nothing else. */
  lemma {:induction false} LiquidationReconciles(mkt: Market, books: Books, d: Desk, a: Assessment, deposit: real)
    requires d.acct.Valid() && Reconciles(d.acct, deposit) && Snapshot(mkt, d.acct, a.targets)
    ensures RunLiquidation(mkt, books, d, a).acct.Valid()
    ensures Reconciles(RunLiquidation(mkt, books, d, a).acct, deposit)
  {
    hide Reconciles, QueueAll, Snapshot;
    QueueAllEffect(mkt, books, d.cooldowns, a.kind, d.acct, a.targets);
    QueueAllReconciles(mkt, books, d.cooldowns, a.kind, d.acct, a.targets, deposit);
    if |a.targets| > 0 {
      var closed := QueueAll(mkt, books, d.cooldowns, a.kind, d.acct, a.targets);
      HandoverReconciles(closed, if a.kind == Backstop then a.equity else 0.0, deposit);
    }
  }

  /** What is handed over leaves the balance and is remembered. */
  lemma HandoverReconciles(acct: Account, moved: real, deposit: real)
    requires Reconciles(acct, deposit)
    ensures Reconciles(acct.(balance := acct.balance - moved, transferred := acct.transferred + moved), deposit)
  {
    var after := acct.(balance := acct.balance - moved, transferred := acct.transferred + moved);
    forall x: int -> real
      ensures Worth(after, x) == deposit + FillWorth(after.fills, x) - after.fundingPaid - after.transferred
    {
      assert Worth(acct, x) == deposit + FillWorth(acct.fills, x) - acct.fundingPaid - acct.transferred;
    }
    forall b ensures after.Szi(b) == NetFilled(after.fills, b) {
      assert acct.Szi(b) == NetFilled(acct.fills, b);
    }
  }

  // ---- Backstops ----

  /** Closing cross positions at their marks without a fee leaves the cross account value as it was. */
  lemma {:induction false} CrossClosesAtMark(mkt: Market, books: Books, cooldowns: set<Bucket>, acct: Account, targets: seq<View>)
    requires acct.Valid() && Snapshot(mkt, acct, targets)
    requires forall i :: 0 <= i < |targets| ==> targets[i].setting.isCross
    ensures CrossValue(mkt, QueueAll(mkt, books, cooldowns, Backstop, acct, targets)) == CrossValue(mkt, acct)
    decreases |targets|
  {
    if |targets| > 0 {
      var n := |targets| - 1;
      var v := targets[n];
      var before := QueueAll(mkt, books, cooldowns, Backstop, acct, targets[..n]);
      TargetWaits(mkt, books, cooldowns, Backstop, acct, targets);
      CrossClosesAtMark(mkt, books, cooldowns, acct, targets[..n]);
      hide ViewOf, PlanFor, QueueClose, CrossValue, Snapshot;
      BackstopCloseValue(mkt, books, cooldowns, before, v);
    }
  }

  /** A backstop close at the mark moves the cross account value by the position's isolated equity. */
  lemma BackstopCloseValue(mkt: Market, books: Books, cooldowns: set<Bucket>, acct: Account, v: View)
    requires IsPriced(mkt, acct, v.asset) && v == ViewOf(mkt, v.asset, acct.positions[v.asset])
    ensures var plan := PlanFor(mkt, books, cooldowns, Backstop, v);
      var after := QueueClose(acct, plan);
      && after.positions == acct.positions - {v.asset}
      && after.balance == acct.balance + v.pnl
      && CrossValue(mkt, after) == CrossValue(mkt, acct) + (if v.setting.isCross then 0.0 else v.isolatedMargin + v.pnl)
  {
    PlanIsClose(mkt, books, cooldowns, Backstop, v);
    var plan := PlanFor(mkt, books, cooldowns, Backstop, v);
    assert plan.fill.closedPnl == v.pnl && Remainder(plan) == None;
    hide PlanFor, Remainder;
    SumAfterWrite(acct, v.asset, None, CrossTerm(mkt));
  }

  /** An isolated backstop lowers the balance by exactly the position's dedicated margin, removes only
      that position, leaves the cross account value untouched, and credits the vault with what was
      positive of the equity. */
  lemma IsolatedBackstop(mkt: Market, books: Books, d: Desk, v: View)
    requires d.acct.Valid() && IsPriced(mkt, d.acct, v.asset)
    requires v == ViewOf(mkt, v.asset, d.acct.positions[v.asset]) && !v.setting.isCross
    requires AssessIsolated(v).kind == Backstop
    ensures var after := RunLiquidation(mkt, books, d, AssessIsolated(v));
      && after.acct.balance == d.acct.balance - v.isolatedMargin
      && after.acct.positions == d.acct.positions - {v.asset}
      && CrossValue(mkt, after.acct) == CrossValue(mkt, d.acct)
      && after.vault == d.vault + (if mkt.vaultIsSet then Max(0.0, v.isolatedMargin + v.pnl) else 0.0)
      && after.cooldowns == d.cooldowns
  {
    var a := AssessIsolated(v);
    assert a.targets[..0] == [];
    assert QueueAll(mkt, books, d.cooldowns, Backstop, d.acct, a.targets)
        == QueueClose(d.acct, PlanFor(mkt, books, d.cooldowns, Backstop, v));
    BackstopCloseValue(mkt, books, d.cooldowns, d.acct, v);
    hide PlanFor, QueueClose;
  }

  /** The cross assessment's targets are cross positions, and they are all of them. */
  lemma CrossTargets(mkt: Market, acct: Account, assets: seq<int>)
    requires Lists(assets, acct.positions.Keys)
    ensures var targets := AssessCross(acct.balance, LoadPositions(mkt, acct, assets)).targets;
      && (forall i :: 0 <= i < |targets| ==> targets[i].setting.isCross)
      && (HasCross(mkt, acct) <==> |targets| > 0)
  {
    CrossAssessmentMeaning(mkt, acct, assets);
    var targets := AssessCross(acct.balance, LoadPositions(mkt, acct, assets)).targets;
    hide AssessCross, LoadPositions, ViewOf, Lists;
    forall i | 0 <= i < |targets| ensures targets[i].setting.isCross {
      InSnapshot(mkt, acct, targets, i);
      assert Shows(targets, targets[i].asset);
    }
    if |targets| > 0 {
      assert Shows(targets, targets[0].asset);
    }
    if HasCross(mkt, acct) {
      var c :| IsPriced(mkt, acct, c) && mkt.Setting(c).isCross;
      assert Shows(targets, c);
    }
  }

  lemma DebitMovesValue(mkt: Market, acct: Account, moved: real)
    ensures CrossValue(mkt, acct.(balance := acct.balance - moved, transferred := acct.transferred + moved))
         == CrossValue(mkt, acct) - moved
  {
  }

  /** A cross backstop, for any number of positions, leaves the cross account value exactly zero. */
  lemma {:induction false} CrossBackstop(mkt: Market, books: Books, d: Desk, assets: seq<int>)
    requires d.acct.Valid() && Lists(assets, d.acct.positions.Keys) && HasCross(mkt, d.acct)
    requires AssessCross(d.acct.balance, LoadPositions(mkt, d.acct, assets)).kind == Backstop
    ensures
      var after := RunLiquidation(mkt, books, d, AssessCross(d.acct.balance, LoadPositions(mkt, d.acct, assets)));
      && CrossValue(mkt, after.acct) == 0.0
      && after.vault == d.vault + (if mkt.vaultIsSet then Max(0.0, CrossValue(mkt, d.acct)) else 0.0)
      && !HasCross(mkt, after.acct)
      && after.cooldowns == d.cooldowns
  {
    hide AssessCross, LoadPositions, ViewOf, Lists, CrossValue, QueueAll, Shows, SliceOf;
    var a := AssessCross(d.acct.balance, LoadPositions(mkt, d.acct, assets));
    CrossAssessmentMeaning(mkt, d.acct, assets);
    CrossTargets(mkt, d.acct, assets);
    CrossClosesAtMark(mkt, books, d.cooldowns, d.acct, a.targets);
    BackstopRemovesTargets(mkt, books, d.cooldowns, d.acct, a.targets);
    var closed := QueueAll(mkt, books, d.cooldowns, Backstop, d.acct, a.targets);
    var after := RunLiquidation(mkt, books, d, a);
    DebitMovesValue(mkt, closed, a.equity);
    NoSliceInBackstop(mkt, d.cooldowns, a.targets);
    forall b ensures !(IsPriced(mkt, after.acct, b) && mkt.Setting(b).isCross) {
      assert Shows(a.targets, b) <==> IsPriced(mkt, d.acct, b) && mkt.Setting(b).isCross;
      assert Fills.Lookup(closed, b) == if Shows(a.targets, b) then None else Fills.Lookup(d.acct, b);
      assert Fills.Lookup(after.acct, b) == Fills.Lookup(closed, b);
    }
  }

  lemma NoSliceInBackstop(mkt: Market, cooldowns: set<Bucket>, targets: seq<View>)
    ensures !AnySlice(mkt, cooldowns, Backstop, targets)
  {
  }

  /** A backstop leaves nothing of its targets, and nothing else of the account moves. */
  lemma {:induction false} BackstopRemovesTargets(mkt: Market, books: Books, cooldowns: set<Bucket>, acct: Account, targets: seq<View>)
    requires acct.Valid() && Snapshot(mkt, acct, targets)
    ensures var after := QueueAll(mkt, books, cooldowns, Backstop, acct, targets);
      forall a :: Fills.Lookup(after, a) == if Shows(targets, a) then None else Fills.Lookup(acct, a)
  {
    QueueAllEffect(mkt, books, cooldowns, Backstop, acct, targets);
    var after := QueueAll(mkt, books, cooldowns, Backstop, acct, targets);
    hide QueueAll;
    forall a ensures Fills.Lookup(after, a) == if Shows(targets, a) then None else Fills.Lookup(acct, a) {
      if Shows(targets, a) {
        var i :| 0 <= i < |targets| && targets[i].asset == a;
        PlanIsClose(mkt, books, cooldowns, Backstop, targets[i]);
        assert Fills.Lookup(after, a) == Remainder(PlanFor(mkt, books, cooldowns, Backstop, targets[i]));
      }
    }
  }
}
