/** What trading costs: the fee of every executed order, from the rates alone, and the fees of a whole run
    (executeFillWithSize in src/worker/order-matcher.ts). */
module Fees {
  import opened Prelude
  import opened Account
  import opened Fills
  import Liquidation
  import Ledger

  /** A taker pays the taker rate and the builder's, a maker the maker rate; with fees off nobody pays. */
  function Rate(ex: Execution): real {
    if !ex.fees.enabled then 0.0
    else if ex.isTaker then ex.fees.taker + ex.order.builderRate.GetOr(0.0)
    else ex.fees.maker
  }

  /** How far a position moved. */
  function Moved(before: Account, after: Account, asset: int): real {
    Abs(after.Szi(asset) - before.Szi(asset))
  }

  /** One more fill, newest first, of what the position moved, at the price and rate of the execution; the cash moves by
      what is realized on the part that was closed, less exactly the fee. */
  predicate Pays(before: Account, after: Account, ex: Execution) {
    var asset, szi, entryPx := ex.order.asset, before.Szi(ex.order.asset), before.EntryPx(ex.order.asset);
    var sz := Moved(before, after, asset);
    var due := Times(Times(sz, ex.fillPx), Rate(ex));
    var closed := if IsReducing(szi, ex.order.isBuy) then Min(sz, Abs(szi)) else 0.0;
    var realized := Times(if szi > 0.0 then ex.fillPx - entryPx else entryPx - ex.fillPx, closed);
    && after.fills == [Fill(asset, ex.order.isBuy, sz, ex.fillPx, due, realized, szi)] + before.fills
    && after.balance == before.balance + realized - due
  }

  /** Every order either trades nothing and changes nothing, or pays so. */
  lemma ExecutionPays(acct: Account, ex: Execution)
    requires acct.Valid() && ex.order.Valid()
    ensures var after := ExecuteFill(acct, ex);
      if Moved(acct, after, ex.order.asset) == 0.0 then after == acct else Pays(acct, after, ex)
  {
    var sz := ExecutableSz(acct.Szi(ex.order.asset), ex.order);
    if sz > 0.0 {
      FillPays(acct, ex, sz);
    }
    hide FillStep;
  }

  lemma FillPays(acct: Account, ex: Execution, sz: real)
    requires sz > 0.0
    ensures Moved(acct, FillStep(acct, ex, sz), ex.order.asset) == sz
    ensures Pays(acct, FillStep(acct, ex, sz), ex)
  {
    var szi, entryPx := acct.Szi(ex.order.asset), acct.EntryPx(ex.order.asset);
    FeeIsRate(ex, sz);
    RealizedIs(szi, entryPx, ex.order.isBuy, sz, ex.fillPx);
    hide Fee, MarginFields, NewEntryPx, ClosedPnl, Rate, Times;
    assert FillStep(acct, ex, sz).Szi(ex.order.asset) == szi + (if ex.order.isBuy then sz else -sz);
  }

  lemma FeeIsRate(ex: Execution, sz: real)
    ensures Fee(ex, sz) == Times(Times(sz, ex.fillPx), Rate(ex))
  {
  }

  lemma RealizedIs(szi: real, entryPx: real, isBuy: bool, sz: real, px: real)
    requires sz > 0.0
    ensures ClosedPnl(szi, entryPx, isBuy, sz, px)
         == Times(if szi > 0.0 then px - entryPx else entryPx - px, if IsReducing(szi, isBuy) then Min(sz, Abs(szi)) else 0.0)
  {
  }

  // ---- Over runs ----

  function TotalFee(fills: seq<Fill>): real {
    if |fills| == 0 then 0.0 else fills[0].fee + TotalFee(fills[1..])
  }

  lemma {:induction false} TotalFeeAppend(x: seq<Fill>, y: seq<Fill>)
    ensures TotalFee(x + y) == TotalFee(x) + TotalFee(y)
    decreases |x|
  {
    if |x| == 0 {
      assert x + y == y;
    } else {
      assert (x + y)[1..] == x[1..] + y;
      TotalFeeAppend(x[1..], y);
    }
  }

  /** The fills an event put on the list. */
  function NewFills(before: Account, after: Account): seq<Fill> {
    if |after.fills| >= |before.fills| then after.fills[..|after.fills| - |before.fills|] else []
  }

  /** The fills of a run's executed orders, newest first. */
  ghost function OrderFills(d: Liquidation.Desk, es: seq<Ledger.Event>): seq<Fill>
    requires Ledger.AreEvents(es)
  {
    if |es| == 0 then []
    else
      var front := es[..|es| - 1];
      (if es[|es| - 1].Executed? then NewFills(Ledger.Run(d, front).acct, Ledger.Run(d, es).acct) else [])
      + OrderFills(d, front)
  }

  /** What the rates ask of a run: for every executed order, how far it moved the position, at its price and rate. */
  ghost function Due(d: Liquidation.Desk, es: seq<Ledger.Event>): real
    requires Ledger.AreEvents(es)
  {
    if |es| == 0 then 0.0
    else
      var front, e := es[..|es| - 1], es[|es| - 1];
      Due(d, front)
      + match e
        case Executed(ex) =>
          Times(Times(Moved(Ledger.Run(d, front).acct, Ledger.Run(d, es).acct, ex.order.asset), ex.fillPx), Rate(ex))
        case _ => 0.0
  }

  /** In every run the fees on the executed orders' fills add up to what the rates ask. */
  lemma {:induction false} FeesAddUp(d: Liquidation.Desk, es: seq<Ledger.Event>, deposit: real)
    requires Ledger.AreEvents(es) && d.acct.Valid() && Reconciles(d.acct, deposit)
    ensures TotalFee(OrderFills(d, es)) == Due(d, es)
    decreases |es|
  {
    hide Reconciles, Times, Rate;
    if |es| > 0 {
      var front, e := es[..|es| - 1], es[|es| - 1];
      assert Ledger.IsEvent(e);
      FeesAddUp(d, front, deposit);
      Ledger.RunReconciles(d, front, deposit);
      var before, after := Ledger.Run(d, front), Ledger.Run(d, es);
      assert after == Ledger.Apply(before, e);
      assert OrderFills(d, es)
          == (if e.Executed? then NewFills(before.acct, after.acct) else []) + OrderFills(d, front);
      hide Ledger.Run, OrderFills;
      if e.Executed? {
        ExecutionFees(before.acct, e.ex);
        hide Ledger.Apply;
        TotalFeeAppend(NewFills(before.acct, after.acct), OrderFills(d, front));
      } else {
        assert [] + OrderFills(d, front) == OrderFills(d, front);
      }
    }
  }

  lemma ExecutionFees(acct: Account, ex: Execution)
    requires acct.Valid() && ex.order.Valid()
    ensures var after := ExecuteFill(acct, ex);
      TotalFee(NewFills(acct, after)) == Times(Times(Moved(acct, after, ex.order.asset), ex.fillPx), Rate(ex))
  {
    var after := ExecuteFill(acct, ex);
    ExecutionPays(acct, ex);
    NoMove(ex);
    hide ExecuteFill, Times, Rate;
    if Moved(acct, after, ex.order.asset) != 0.0 {
      assert NewFills(acct, after) == [after.fills[0]];
      assert [after.fills[0]][1..] == [];
    }
  }

  lemma NoMove(ex: Execution)
    ensures Times(Times(0.0, ex.fillPx), Rate(ex)) == 0.0
  {
  }
}
