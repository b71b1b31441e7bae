/** The three writers of an account together: over every run of executed orders, liquidation passes and
    funding rounds the books stay exact at every price. */
module Ledger {
  import opened Account
  import opened Fills
  import Liquidation
  import LiquidationPasses
  import Funding

  /** One atomic step of a user's account. */
  datatype Event =
    | Executed(ex: Execution)
    | Passed(mkt: Liquidation.Market, books: Liquidation.Books, reply: Liquidation.Reply)
    | Funded(ctx: map<int, Funding.Context>, assets: seq<int>)

  ghost predicate IsEvent(e: Event) {
    match e
    case Executed(ex) => ex.order.Valid()
    case Passed(_, _, reply) => Liquidation.IsReply(reply)
    case Funded(_, _) => true
  }

  ghost predicate AreEvents(events: seq<Event>) {
    forall e :: e in events ==> IsEvent(e)
  }

  function Apply(d: Liquidation.Desk, e: Event): Liquidation.Desk
    requires e.Executed? ==> e.ex.order.Valid()
  {
    match e
    case Executed(ex) => d.(acct := ExecuteFill(d.acct, ex))
    case Passed(mkt, books, reply) => Liquidation.Pass(mkt, books, reply, d)
    case Funded(ctx, assets) => d.(acct := Funding.FundAll(d.acct, ctx, assets))
  }

  ghost function Run(d: Liquidation.Desk, events: seq<Event>): Liquidation.Desk
    requires AreEvents(events)
  {
    if |events| == 0 then d
    else
      assert IsEvent(events[|events| - 1]);
      Apply(Run(d, events[..|events| - 1]), events[|events| - 1])
  }

  lemma EventReconciles(d: Liquidation.Desk, e: Event, deposit: real)
    requires IsEvent(e) && d.acct.Valid() && Reconciles(d.acct, deposit)
    ensures Apply(d, e).acct.Valid() && Reconciles(Apply(d, e).acct, deposit)
  {
    hide Reconciles, FillStep, Liquidation.Pass, Funding.FundAll, Liquidation.IsReply;
    match e
    case Executed(ex) =>
      var sz := ExecutableSz(d.acct.Szi(ex.order.asset), ex.order);
      if sz > 0.0 {
        FillReconciles(d.acct, deposit, ex, sz);
      }
    case Passed(mkt, books, reply) =>
      LiquidationPasses.PassReconciles(mkt, books, reply, d, deposit);
    case Funded(ctx, assets) =>
      Funding.FundAllReconciles(d.acct, deposit, ctx, assets);
  }

  lemma {:induction false} RunReconciles(d: Liquidation.Desk, events: seq<Event>, deposit: real)
    requires AreEvents(events)
    requires d.acct.Valid() && Reconciles(d.acct, deposit)
    ensures Run(d, events).acct.Valid() && Reconciles(Run(d, events).acct, deposit)
    decreases |events|
  {
    hide Reconciles, Apply;
    if |events| > 0 {
      assert IsEvent(events[|events| - 1]);
      RunReconciles(d, events[..|events| - 1], deposit);
      EventReconciles(Run(d, events[..|events| - 1]), events[|events| - 1], deposit);
    }
  }

  /** From a fresh account, after any run: for every price function x, balance plus every position
      marked to x equals the deposit plus the fills marked to x and less their fees, minus funding
      paid, minus equity moved to the vault; and the fill list sums to every position. */
  lemma BooksBalance(deposit: real, vault: real, events: seq<Event>, x: int -> real, asset: int)
    requires AreEvents(events)
    ensures
      var acct := Run(Liquidation.Desk(Account(deposit, map[], [], 0.0, 0.0), {}, vault), events).acct;
      && acct.balance + SumOf(acct.positions, WorthOf(x))
         == deposit + FillWorth(acct.fills, x) - acct.fundingPaid - acct.transferred
      && acct.Szi(asset) == NetFilled(acct.fills, asset)
  {
    var d := Liquidation.Desk(Account(deposit, map[], [], 0.0, 0.0), {}, vault);
    OpeningReconciles(deposit);
    RunReconciles(d, events, deposit);
    var acct := Run(d, events).acct;
    assert Worth(acct, x) == deposit + FillWorth(acct.fills, x) - acct.fundingPaid - acct.transferred;
    assert acct.Szi(asset) == NetFilled(acct.fills, asset);
  }
}
