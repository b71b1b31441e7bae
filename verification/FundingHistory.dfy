/** What a position's funding counters count, over every run of executed orders, liquidation passes and funding rounds
    (src/worker/funding-worker.ts, src/worker/order-matcher.ts, src/engine/liquidation.ts). */
module FundingHistory {
  import opened Prelude
  import opened Margin
  import opened Account
  import opened Liquidation
  import opened LiquidationAccounting
  import opened LiquidationPasses
  import opened LiquidationOutcomes
  import Fills
  import Funding
  import Ledger

  // ---- What the runs charge ----

  /** What a round charges a position: what it owes, for every time its asset is listed. */
  ghost function DueIn(ctx: map<int, Funding.Context>, assets: seq<int>, a: int, pos: Position): real {
    Times(multiset(assets)[a] as real, Funding.Owed(ctx)(a, pos))
  }

  /** Funding charged to the position held now, since it was opened. */
  ghost function SinceOpen(d: Desk, es: seq<Ledger.Event>, a: int): real
    requires Ledger.AreEvents(es)
  {
    if |es| == 0 then 0.0
    else
      var front := es[..|es| - 1];
      var before, after := Ledger.Run(d, front).acct, Ledger.Run(d, es).acct;
      if a !in before.positions || a !in after.positions then 0.0
      else SinceOpen(d, front, a) + Charged(before, es[|es| - 1], a)
  }

  /** And since an order on its asset last traded. A liquidation is no such order. */
  ghost function SinceChange(d: Desk, es: seq<Ledger.Event>, a: int): real
    requires Ledger.AreEvents(es)
  {
    if |es| == 0 then 0.0
    else
      var front, e := es[..|es| - 1], es[|es| - 1];
      var before, after := Ledger.Run(d, front).acct, Ledger.Run(d, es).acct;
      if a !in before.positions || a !in after.positions then 0.0
      else if e.Executed? && after.Szi(a) != before.Szi(a) then 0.0
      else SinceChange(d, front, a) + Charged(before, e, a)
  }

  ghost function Charged(before: Account, e: Ledger.Event, a: int): real
    requires a in before.positions
  {
    match e
    case Funded(ctx, assets) => DueIn(ctx, assets, a, before.positions[a])
    case _ => 0.0
  }

  // ---- What each event does to the counters ----

  /** A position that goes on, with so much added to each counter. */
  predicate Counts(before: Position, after: Position, due: real, dueChange: real) {
    && after.cumFunding == before.cumFunding + due
    && after.cumFundingSinceOpen == before.cumFundingSinceOpen + due
    && after.cumFundingSinceChange == dueChange
  }

  lemma {:induction false} FundedCounts(acct: Account, ctx: map<int, Funding.Context>, assets: seq<int>, a: int)
    requires a in acct.positions
    ensures var after := Funding.FundAll(acct, ctx, assets);
      var due := DueIn(ctx, assets, a, acct.positions[a]);
      a in after.positions && Funding.HasPaid(acct.positions[a], after.positions[a], due)
    decreases |assets|
  {
    var pos := acct.positions[a];
    if |assets| == 0 {
      TimesZeroLeft(Funding.Owed(ctx)(a, pos));
    } else {
      var n := |assets| - 1;
      var front := Funding.FundAll(acct, ctx, assets[..n]);
      FundedCounts(acct, ctx, assets[..n], a);
      assert assets == assets[..n] + [assets[n]];
      assert multiset(assets)[a] == multiset(assets[..n])[a] + (if assets[n] == a then 1 else 0);
      Funding.ChargeIsOwed(ctx, a, front.positions[a]);
      OwedBySize(ctx, a, pos, front.positions[a]);
      OneMoreTime(multiset(assets[..n])[a], Funding.Owed(ctx)(a, pos));
      hide Funding.Owed, Funding.Charge, Funding.FundPosition, Times;
    }
  }

  lemma TimesZeroLeft(x: real)
    ensures Times(0.0, x) == 0.0
  {
  }

  lemma OneMoreTime(n: nat, x: real)
    ensures Times((n + 1) as real, x) == Times(n as real, x) + x
  {
  }

  lemma OwedBySize(ctx: map<int, Funding.Context>, a: int, p: Position, q: Position)
    requires p.szi == q.szi
    ensures Funding.Owed(ctx)(a, p) == Funding.Owed(ctx)(a, q)
  {
  }

  lemma ExecutedCounts(acct: Account, ex: Fills.Execution, a: int)
    requires acct.Valid() && ex.order.Valid()
    ensures var after := Fills.ExecuteFill(acct, ex);
      a in after.positions ==>
        var pos := after.positions[a];
        if a !in acct.positions then
          pos.cumFunding == 0.0 && pos.cumFundingSinceOpen == 0.0 && pos.cumFundingSinceChange == 0.0
        else
          Counts(acct.positions[a], pos, 0.0,
                 if after.Szi(a) != acct.Szi(a) then 0.0 else acct.positions[a].cumFundingSinceChange)
  {
    hide Fills.Fee, Fills.MarginFields, Fills.NewEntryPx, Fills.ClosedPnl;
  }

  /** Positions go on with their counters as they are, or go. */
  ghost predicate KeepsCounters(before: Account, after: Account) {
    forall a :: a in after.positions ==>
      a in before.positions && Counts(before.positions[a], after.positions[a], 0.0, before.positions[a].cumFundingSinceChange)
  }

  lemma LookupKeeps(before: Account, after: Account, a: int)
    requires Fills.Lookup(after, a) == Fills.Lookup(before, a)
    ensures a in after.positions ==> a in before.positions && after.positions[a] == before.positions[a]
  {
  }

  lemma RestKeeps(pos: Position, setting: LeverageSetting, sz: real, rest: Option<Position>)
    requires pos.szi != 0.0 && IsRest(pos, setting, sz, rest)
    ensures rest.Some? ==> Counts(pos, rest.value, 0.0, pos.cumFundingSinceChange)
  {
    hide ScaledMargin;
  }

  lemma MarketKeeps(mkt: Market, books: Books, assets: set<int>, bucket: Bucket, d: Desk, after: Desk, news: seq<Fill>)
    requires IsMarketLiquidation(mkt, books, assets, bucket, d, after, news)
    ensures KeepsCounters(d.acct, after.acct)
  {
    hide IsMarketFill, IsRest, Realized;
    forall a | a in after.acct.positions
      ensures a in d.acct.positions
      ensures Counts(d.acct.positions[a], after.acct.positions[a], 0.0, d.acct.positions[a].cumFundingSinceChange)
    {
      if a in assets {
        var i :| 0 <= i < |news| && news[i].asset == a;
        RestKeeps(d.acct.positions[a], mkt.Setting(a), news[i].sz, Fills.Lookup(after.acct, a));
      } else {
        LookupKeeps(d.acct, after.acct, a);
      }
    }
  }

  lemma TakeoverKeeps(mkt: Market, assets: set<int>, equity: real, d: Desk, after: Desk, news: seq<Fill>)
    requires IsTakeover(mkt, assets, equity, d, after, news)
    ensures KeepsCounters(d.acct, after.acct)
  {
  }

  lemma TurnKeeps(mkt: Market, books: Books, d: Desk, v: View)
    requires d.acct.Valid() && Snapshot(mkt, d.acct, [v])
    ensures KeepsCounters(d.acct, IsolatedTurn(mkt, books, d, v).acct)
  {
    InSnapshot(mkt, d.acct, [v], 0);
    var after := IsolatedTurn(mkt, books, d, v);
    if !mkt.Setting(v.asset).isCross {
      hide IsolatedTurn, ViewOf, IsMarketLiquidation, IsTakeover, Equity, Required, KeepsCounters;
      var news := IsolatedLiquidation(mkt, books, d, v.asset);
      if Equity(mkt, d.acct, v.asset) < Required(mkt, d.acct, v.asset) {
        if 3.0 * Equity(mkt, d.acct, v.asset) < 2.0 * Required(mkt, d.acct, v.asset) {
          TakeoverKeeps(mkt, {v.asset}, Equity(mkt, d.acct, v.asset), d, after, news);
        } else {
          MarketKeeps(mkt, books, {v.asset}, IsolatedBucket(v.asset), d, after, news);
        }
      } else {
        Unchanged(d.acct);
      }
    }
  }

  lemma Unchanged(acct: Account)
    ensures KeepsCounters(acct, acct)
  {
  }

  lemma KeepsOn(x: Account, y: Account, z: Account)
    requires KeepsCounters(x, y) && KeepsCounters(y, z)
    ensures KeepsCounters(x, z)
  {
  }

  lemma {:induction false} PhaseKeeps(mkt: Market, books: Books, d: Desk, views: seq<View>)
    requires d.acct.Valid() && Snapshot(mkt, d.acct, views)
    ensures KeepsCounters(d.acct, IsolatedPhase(mkt, books, d, views).acct)
    decreases |views|
  {
    hide ViewOf, RunLiquidation, AssessIsolated, KeepsCounters;
    if |views| > 0 {
      var v := views[0];
      var next := IsolatedTurn(mkt, books, d, v);
      assert Snapshot(mkt, d.acct, [v]);
      TurnKeeps(mkt, books, d, v);
      IsolatedTurnEffect(mkt, books, d, v);
      SnapshotSurvives(mkt, d.acct, next.acct, views[1..]);
      PhaseKeeps(mkt, books, next, views[1..]);
      KeepsOn(d.acct, next.acct, IsolatedPhase(mkt, books, next, views[1..]).acct);
    } else {
      Unchanged(d.acct);
    }
  }

  lemma CrossKeeps(mkt: Market, books: Books, reply: Reply, d: Desk)
    requires d.acct.Valid() && IsReply(reply)
    ensures KeepsCounters(d.acct, CrossPhase(mkt, books, reply, d).acct)
  {
    hide CrossPhase, IsMarketLiquidation, IsTakeover, CrossValue, CrossMaintenanceMargin, CrossAssets, KeepsCounters, IsReply;
    var news := CrossLiquidation(mkt, books, reply, d);
    var after := CrossPhase(mkt, books, reply, d);
    var assets, value := CrossAssets(mkt, d.acct), CrossValue(mkt, d.acct);
    if assets == {} || value >= CrossMaintenanceMargin(mkt, d.acct) {
      Unchanged(d.acct);
    } else if 3.0 * value < 2.0 * CrossMaintenanceMargin(mkt, d.acct) {
      TakeoverKeeps(mkt, assets, value, d, after, news);
    } else {
      MarketKeeps(mkt, books, assets, CrossBucket, d, after, news);
    }
  }

  lemma PassKeeps(mkt: Market, books: Books, reply: Reply, d: Desk)
    requires d.acct.Valid() && IsReply(reply)
    ensures KeepsCounters(d.acct, Pass(mkt, books, reply, d).acct)
  {
    var assets := reply(d.acct.positions.Keys);
    assert Lists(assets, d.acct.positions.Keys);
    LoadedSnapshot(mkt, d.acct, assets);
    var views := LoadPositions(mkt, d.acct, assets);
    var middle := IsolatedPhase(mkt, books, d, views);
    hide IsolatedPhase, CrossPhase, LoadPositions, Snapshot, Lists, IsReply, KeepsCounters;
    IsolatedPhaseEffect(mkt, books, d, views);
    PhaseKeeps(mkt, books, d, views);
    CrossKeeps(mkt, books, reply, middle);
    KeepsOn(d.acct, middle.acct, CrossPhase(mkt, books, reply, middle).acct);
  }

  // ---- Over runs ----

  /** The counters of one position say what the history says. */
  ghost predicate CountersOk(d: Desk, es: seq<Ledger.Event>, a: int)
    requires Ledger.AreEvents(es)
  {
    var acct := Ledger.Run(d, es).acct;
    a in acct.positions ==>
      && acct.positions[a].cumFunding == SinceOpen(d, es, a)
      && acct.positions[a].cumFundingSinceOpen == SinceOpen(d, es, a)
      && acct.positions[a].cumFundingSinceChange == SinceChange(d, es, a)
  }

  /** In every run from a flat account, of every position held: both totals are the funding charged since it was opened,
      and the third what was charged since an order on its asset last traded, through every liquidation slice. */
  lemma {:induction false} CountersAreHistory(d: Desk, es: seq<Ledger.Event>, deposit: real, a: int)
    requires Ledger.AreEvents(es) && d.acct.positions == map[] && Reconciles(d.acct, deposit)
    ensures CountersOk(d, es, a)
    decreases |es|
  {
    hide Reconciles;
    if |es| > 0 {
      var front, e := es[..|es| - 1], es[|es| - 1];
      assert Ledger.IsEvent(e);
      CountersAreHistory(d, front, deposit, a);
      Ledger.RunReconciles(d, front, deposit);
      var before := Ledger.Run(d, front);
      assert Ledger.Run(d, es) == Ledger.Apply(before, e);
      if a in Ledger.Apply(before, e).acct.positions {
        EventCounts(before, e, a);
      }
      hide Ledger.Run, Ledger.Apply, Ledger.IsEvent, Charged;
    }
  }

  /** What one event does to one position's counters. */
  lemma EventCounts(d: Desk, e: Ledger.Event, a: int)
    requires Ledger.IsEvent(e) && d.acct.Valid() && a in Ledger.Apply(d, e).acct.positions
    ensures
      var before, after := d.acct, Ledger.Apply(d, e).acct;
      if a in before.positions then
        var pos := before.positions[a];
        Counts(pos, after.positions[a], Charged(before, e, a),
               if e.Executed? && after.Szi(a) != before.Szi(a) then 0.0 else pos.cumFundingSinceChange + Charged(before, e, a))
      else
        var pos := after.positions[a];
        pos.cumFunding == 0.0 && pos.cumFundingSinceOpen == 0.0 && pos.cumFundingSinceChange == 0.0
  {
    hide Pass, IsReply, DueIn, Fills.FillStep;
    match e
    case Executed(ex) => ExecutedCounts(d.acct, ex, a);
    case Passed(mkt, books, reply) => PassKeeps(mkt, books, reply, d);
    case Funded(ctx, assets) =>
      FundedKeys(d.acct, ctx, assets);
      FundedCounts(d.acct, ctx, assets, a);
      hide Funding.FundAll;
  }

  lemma FundedKeys(acct: Account, ctx: map<int, Funding.Context>, assets: seq<int>)
    ensures Funding.FundAll(acct, ctx, assets).positions.Keys == acct.positions.Keys
  {
    Funding.FundAllKeys(acct, ctx, assets);
  }
}
