/** Hourly funding (src/worker/funding-worker.ts): every open position pays size * mark * rate out of
    the balance and remembers what it has paid. */
module Funding {
  import opened Prelude
  import opened Margin
  import opened Account
  import opened Fills
  import Liquidation
  import LiquidationAccounting

  /** The market context of one coin; either field may be missing. */
  datatype Context = Context(funding: Option<real>, markPx: Option<real>)

  /** Missing and zero rates or marks charge nothing. */
  function Charge(ctx: map<int, Context>, asset: int, szi: real): real {
    if asset !in ctx || ctx[asset].funding.None? || ctx[asset].markPx.None? then 0.0
    else szi * ctx[asset].markPx.value * ctx[asset].funding.value
  }

  function FundPosition(pos: Position, charge: real): Position {
    pos.(cumFunding := pos.cumFunding + charge,
         cumFundingSinceOpen := pos.cumFundingSinceOpen + charge,
         cumFundingSinceChange := pos.cumFundingSinceChange + charge)
  }

  function FundOne(acct: Account, ctx: map<int, Context>, asset: int): Account {
    if asset !in acct.positions then acct
    else
      var charge := Charge(ctx, asset, acct.positions[asset].szi);
      WithPosition(acct, asset, Some(FundPosition(acct.positions[asset], charge)))
        .(balance := acct.balance - charge, fundingPaid := acct.fundingPaid + charge)
  }

  function FundAll(acct: Account, ctx: map<int, Context>, assets: seq<int>): Account {
    if |assets| == 0 then acct
    else FundOne(FundAll(acct, ctx, assets[..|assets| - 1]), ctx, assets[|assets| - 1])
  }

  // ---- One round charges each position once ----

  /** What a position owes: its signed size at the mark, times the rate, where the coin has both. */
  function Owed(ctx: map<int, Context>): (int, Position) -> real {
    (a: int, p: Position) =>
      if a in ctx && ctx[a].funding.Some? && ctx[a].markPx.Some?
      then p.szi * ctx[a].markPx.value * ctx[a].funding.value else 0.0
  }

  /** A position that has paid so much, in all three counters. */
  predicate HasPaid(before: Position, after: Position, due: real) {
    && after.cumFunding == before.cumFunding + due
    && after.cumFundingSinceOpen == before.cumFundingSinceOpen + due
    && after.cumFundingSinceChange == before.cumFundingSinceChange + due
    && (after.szi, after.entryPx, after.marginAlloc, after.rawUsd)
       == (before.szi, before.entryPx, before.marginAlloc, before.rawUsd)
  }

  lemma ChargeIsOwed(ctx: map<int, Context>, asset: int, pos: Position)
    ensures Charge(ctx, asset, pos.szi) == Owed(ctx)(asset, pos)
    ensures HasPaid(pos, FundPosition(pos, Charge(ctx, asset, pos.szi)), Owed(ctx)(asset, pos))
  {
  }

  ghost function TotalCharge(acct: Account, ctx: map<int, Context>): real {
    SumOf(acct.positions, Owed(ctx))
  }

  lemma {:induction false} FundAllFrame(acct: Account, ctx: map<int, Context>, assets: seq<int>, a: int)
    requires a !in assets
    ensures Lookup(FundAll(acct, ctx, assets), a) == Lookup(acct, a)
    decreases |assets|
  {
    if |assets| > 0 {
      FundAllFrame(acct, ctx, assets[..|assets| - 1], a);
    }
  }

  lemma {:induction false} FundedOnce(acct: Account, ctx: map<int, Context>, assets: seq<int>, a: int)
    requires forall i, j :: 0 <= i < j < |assets| ==> assets[i] != assets[j]
    requires a in assets && a in acct.positions
    ensures Lookup(FundAll(acct, ctx, assets), a)
         == Some(FundPosition(acct.positions[a], Charge(ctx, a, acct.positions[a].szi)))
    decreases |assets|
  {
    hide FundPosition, Charge;
    var n := |assets| - 1;
    if assets[n] == a {
      assert a !in assets[..n];
      FundAllFrame(acct, ctx, assets[..n], a);
    } else {
      FundedOnce(acct, ctx, assets[..n], a);
    }
  }

  lemma {:induction false} FundedTotal(acct: Account, ctx: map<int, Context>, assets: seq<int>)
    requires Liquidation.Lists(assets, acct.positions.Keys)
    ensures FundAll(acct, ctx, assets).balance == acct.balance - TotalCharge(acct, ctx)
    ensures FundAll(acct, ctx, assets).fundingPaid == acct.fundingPaid + TotalCharge(acct, ctx)
    decreases |assets|
  {
    hide Total, Charge, FundPosition;
    if |assets| == 0 {
      LiquidationAccounting.NothingListed(assets, acct.positions.Keys);
      TotalZero(ValuesOf(acct.positions, Owed(ctx)));
    } else {
      var a := assets[|assets| - 1];
      var rest := LiquidationAccounting.ListsRest(assets, acct);
      FundedTotal(rest, ctx, assets[..|assets| - 1]);
      FundAllFrame(acct, ctx, assets[..|assets| - 1], a);
      FundAllAgrees(acct, rest, ctx, assets[..|assets| - 1], a);
      ChargeIsOwed(ctx, a, acct.positions[a]);
      SumAfterWrite(acct, a, None, Owed(ctx));
      hide SumOf;
      assert a in acct.positions;
    }
  }

  /** In whatever order the positions come, each one is charged exactly once, at its own size, and the
      balance falls by the sum of the charges. */
  lemma FundingChargesOnce(acct: Account, ctx: map<int, Context>, assets: seq<int>)
    requires Liquidation.Lists(assets, acct.positions.Keys)
    ensures var after := FundAll(acct, ctx, assets);
      && after.positions.Keys == acct.positions.Keys
      && (forall a :: a in acct.positions ==>
            a in after.positions && HasPaid(acct.positions[a], after.positions[a], Owed(ctx)(a, acct.positions[a])))
      && after.balance == acct.balance - TotalCharge(acct, ctx)
      && after.fundingPaid == acct.fundingPaid + TotalCharge(acct, ctx)
  {
    hide FundPosition, Charge, FundAll, HasPaid, Owed;
    FundedTotal(acct, ctx, assets);
    var after := FundAll(acct, ctx, assets);
    forall a | a in acct.positions
      ensures a in after.positions && HasPaid(acct.positions[a], after.positions[a], Owed(ctx)(a, acct.positions[a]))
    {
      FundedOnce(acct, ctx, assets, a);
      ChargeIsOwed(ctx, a, acct.positions[a]);
    }
    FundAllKeys(acct, ctx, assets);
  }

  lemma {:induction false} FundAllKeys(acct: Account, ctx: map<int, Context>, assets: seq<int>)
    ensures FundAll(acct, ctx, assets).positions.Keys == acct.positions.Keys
    decreases |assets|
  {
    if |assets| > 0 {
      FundAllKeys(acct, ctx, assets[..|assets| - 1]);
    }
  }

  /** Funding some assets does not depend on the position of another. */
  lemma {:induction false} FundAllAgrees(acct: Account, rest: Account, ctx: map<int, Context>, assets: seq<int>, a: int)
    requires rest == WithPosition(acct, a, None) && a !in assets
    ensures WithPosition(FundAll(acct, ctx, assets), a, None) == FundAll(rest, ctx, assets)
    decreases |assets|
  {
    hide Charge, FundPosition;
    if |assets| > 0 {
      var n := |assets| - 1;
      FundAllAgrees(acct, rest, ctx, assets[..n], a);
      var x := FundAll(acct, ctx, assets[..n]);
      assert WithPosition(FundOne(x, ctx, assets[n]), a, None) == FundOne(WithPosition(x, a, None), ctx, assets[n]) by {
        if assets[n] in x.positions {
          var p := FundPosition(x.positions[assets[n]], Charge(ctx, assets[n], x.positions[assets[n]].szi));
          assert x.positions[assets[n] := p] - {a} == (x.positions - {a})[assets[n] := p];
        }
      }
    }
  }

  // ---- Who pays whom ----

  /** At a positive rate and mark a long strictly pays and a short strictly receives. */
  lemma LongsPayShorts(ctx: map<int, Context>, a: int, p: Position)
    requires a in ctx && ctx[a].funding.Some? && ctx[a].markPx.Some?
    requires ctx[a].funding.value > 0.0 && ctx[a].markPx.value > 0.0
    ensures p.szi > 0.0 ==> Owed(ctx)(a, p) > 0.0
    ensures p.szi < 0.0 ==> Owed(ctx)(a, p) < 0.0
  {
    var mark, rate := ctx[a].markPx.value, ctx[a].funding.value;
    if p.szi > 0.0 {
      ProductSign(p.szi, mark);
      ProductSign(p.szi * mark, rate);
    } else if p.szi < 0.0 {
      ProductSign(-p.szi, mark);
      ProductSign(-p.szi * mark, rate);
      assert -p.szi * mark * rate == -(p.szi * mark * rate);
    }
  }

  /** Every position of one account against an equal one of the other. */
  predicate AreOpposite(x: Account, y: Account) {
    x.positions.Keys == y.positions.Keys && forall a :: a in x.positions ==> y.positions[a].szi == -x.positions[a].szi
  }

  /** What one account pays the other receives: two accounts with opposite positions together neither gain nor lose,
      in whatever order each is charged. */
  lemma FundingIsZeroSum(x: Account, y: Account, ctx: map<int, Context>, xs: seq<int>, ys: seq<int>)
    requires AreOpposite(x, y)
    requires Liquidation.Lists(xs, x.positions.Keys) && Liquidation.Lists(ys, y.positions.Keys)
    ensures FundAll(x, ctx, xs).balance + FundAll(y, ctx, ys).balance == x.balance + y.balance
  {
    FundingChargesOnce(x, ctx, xs);
    FundingChargesOnce(y, ctx, ys);
    hide *;
    ChargesCancel(x, y, ctx);
  }

  lemma ChargesCancel(x: Account, y: Account, ctx: map<int, Context>)
    requires AreOpposite(x, y)
    ensures TotalCharge(x, ctx) + TotalCharge(y, ctx) == 0.0
  {
    var mine, yours := ValuesOf(x.positions, Owed(ctx)), ValuesOf(y.positions, Owed(ctx));
    var both := map a | a in mine :: 0.0;
    assert mine.Keys == yours.Keys == both.Keys;
    forall a | a in both ensures both[a] == mine[a] + yours[a] {
      OwedNegates(ctx, a, x.positions[a], y.positions[a]);
    }
    hide Total, Owed;
    TotalAdd(mine, yours, both);
    TotalZero(both);
  }

  lemma OwedNegates(ctx: map<int, Context>, a: int, p: Position, q: Position)
    requires q.szi == -p.szi
    ensures Owed(ctx)(a, q) == -Owed(ctx)(a, p)
  {
    if a in ctx && ctx[a].funding.Some? && ctx[a].markPx.Some? {
      var mark, rate := ctx[a].markPx.value, ctx[a].funding.value;
      assert q.szi * mark == -(p.szi * mark);
      assert q.szi * mark * rate == -(p.szi * mark * rate);
    }
  }

  // ---- A round over all users ----

  /** Every active user with positions is charged; one without is dropped from the active set. */
  function FundUsers(accounts: map<int, Account>, active: set<int>, ctx: map<int, Context>, reply: Liquidation.Reply)
    : map<int, Account>
  {
    map u | u in accounts ::
      if u in active then FundAll(accounts[u], ctx, reply(accounts[u].positions.Keys)) else accounts[u]
  }

  predicate HasPositions(accounts: map<int, Account>, u: int) {
    u in accounts && accounts[u].positions.Keys != {}
  }

  /** In a round every active user's positions are each charged once and the balance falls by the sum of the
      charges; nobody else's account changes. */
  lemma RoundChargesOnce(accounts: map<int, Account>, active: set<int>, ctx: map<int, Context>, reply: Liquidation.Reply, u: int)
    requires Liquidation.IsReply(reply) && u in accounts
    ensures
      var before, after := accounts[u], FundUsers(accounts, active, ctx, reply)[u];
      && (u !in active ==> after == before)
      && (u in active ==> after.balance == before.balance - TotalCharge(before, ctx))
      && (u in active ==> forall a :: a in before.positions ==>
            a in after.positions && HasPaid(before.positions[a], after.positions[a], Owed(ctx)(a, before.positions[a])))
  {
    var assets := reply(accounts[u].positions.Keys);
    assert Liquidation.Lists(assets, accounts[u].positions.Keys);
    FundingChargesOnce(accounts[u], ctx, assets);
    hide FundAll, TotalCharge, HasPaid, Owed, Liquidation.IsReply;
  }

  // ---- Funding keeps the books ----

  lemma FundOneReconciles(acct: Account, deposit: real, ctx: map<int, Context>, asset: int)
    requires acct.Valid() && Reconciles(acct, deposit)
    ensures FundOne(acct, ctx, asset).Valid() && Reconciles(FundOne(acct, ctx, asset), deposit)
  {
    hide Charge;
    var after := FundOne(acct, ctx, asset);
    if asset in acct.positions {
      var pos := FundPosition(acct.positions[asset], Charge(ctx, asset, acct.positions[asset].szi));
      forall x: int -> real
        ensures Worth(after, x) == deposit + FillWorth(after.fills, x) - after.fundingPaid - after.transferred
      {
        SumAfterWrite(acct, asset, Some(pos), WorthOf(x));
        hide MarkedTo, SumOf;
        assert Worth(acct, x) == deposit + FillWorth(acct.fills, x) - acct.fundingPaid - acct.transferred;
      }
      forall a ensures after.Szi(a) == NetFilled(after.fills, a) {
        assert acct.Szi(a) == NetFilled(acct.fills, a);
      }
    }
  }

  lemma {:induction false} FundAllReconciles(acct: Account, deposit: real, ctx: map<int, Context>, assets: seq<int>)
    requires acct.Valid() && Reconciles(acct, deposit)
    ensures FundAll(acct, ctx, assets).Valid() && Reconciles(FundAll(acct, ctx, assets), deposit)
    decreases |assets|
  {
    hide Reconciles, FundOne;
    if |assets| > 0 {
      FundAllReconciles(acct, deposit, ctx, assets[..|assets| - 1]);
      FundOneReconciles(FundAll(acct, ctx, assets[..|assets| - 1]), deposit, ctx, assets[|assets| - 1]);
    }
  }
}
