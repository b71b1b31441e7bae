/** Accounts and trailing stops together: every fill, liquidation pass and funding round of any user, and every event
    of the stops, on one state. A position that moves is reconciled at once (src/worker/order-matcher.ts,
    src/engine/liquidation.ts), and a stop that fires trades on its user's account. */
module Exchange {
  import opened Prelude
  import opened Account
  import opened Fills
  import Liquidation
  import Ledger
  import Fees
  import TrailingStops
  import TrailingStopSafety

  /** The users' accounts, and the stops with the position sizes they look at. */
  datatype Exchange = Exchange(desks: map<int, Liquidation.Desk>, stops: TrailingStops.World)
  {
    /** A user nothing is stored for has an empty account. */
    function Desk(user: int): Liquidation.Desk {
      if user in desks then desks[user] else EMPTY_DESK
    }

    function Szi(user: int, asset: int): real { Desk(user).acct.Szi(asset) }
  }

  const EMPTY_DESK: Liquidation.Desk := Opening(0.0)

  function Opening(deposit: real): Liquidation.Desk {
    Liquidation.Desk(Account(deposit, map[], [], 0.0, 0.0), {}, 0.0)
  }

  /** What a stop's market order meets: the price the book gives, the fees, and the user's setting and mark. */
  datatype Terms = Terms(fillPx: real, fees: Fills.Fees, builderRate: Option<real>, setting: LeverageSetting, mark: Option<real>)

  datatype Event =
    | OnAccount(user: int, entry: Ledger.Event)
    | OnStops(step: TrailingStops.Event, terms: Terms)

  /** Positions move only with an account. */
  ghost predicate IsEvent(e: Event) {
    match e
    case OnAccount(_, entry) => Ledger.IsEvent(entry)
    case OnStops(step, _) => step.Valid() && !step.Trade?
  }

  ghost predicate AreEvents(es: seq<Event>) {
    forall e :: e in es ==> IsEvent(e)
  }

  // ---- Steps ----

  /** The positions that differ, with their new sizes. */
  function Moved(before: Account, after: Account): map<int, real> {
    map a | a in before.positions.Keys + after.positions.Keys && after.Szi(a) != before.Szi(a) :: after.Szi(a)
  }

  /** What an event is to the stops. */
  function StopEvent(x: Exchange, e: Event): TrailingStops.Event
    requires e.OnAccount? && e.entry.Executed? ==> e.entry.ex.order.Valid()
  {
    match e
    case OnAccount(user, entry) =>
      TrailingStops.Trade(user, Moved(x.Desk(user).acct, Ledger.Apply(x.Desk(user), entry).acct))
    case OnStops(step, _) => step
  }

  predicate HasFired(before: TrailingStops.World, after: TrailingStops.World, step: TrailingStops.Event) {
    && step.Tick? && before.IsOpen(step.oid)
    && step.oid in after.stops && after.stops[step.oid].status == TrailingStops.Filled
  }

  /** The taker order of a stop that fired. */
  function FiredOrder(s: TrailingStops.Stop, terms: Terms): Execution {
    Execution(Order(s.asset, s.isBuy, s.filledSz, 0.0, s.reduceOnly, terms.builderRate),
              terms.fillPx, true, terms.fees, terms.setting, terms.mark)
  }

  function Traded(d: Liquidation.Desk, ex: Execution): Liquidation.Desk {
    if ex.order.Valid() then d.(acct := ExecuteFill(d.acct, ex)) else d
  }

  ghost function Step(x: Exchange, e: Event): Exchange
    requires IsEvent(e)
  {
    var stops := TrailingStops.Step(x.stops, StopEvent(x, e));
    match e
    case OnAccount(user, entry) => Exchange(x.desks[user := Ledger.Apply(x.Desk(user), entry)], stops)
    case OnStops(step, terms) =>
      if HasFired(x.stops, stops, step) then
        var s := stops.stops[step.oid];
        Exchange(x.desks[s.user := Traded(x.Desk(s.user), FiredOrder(s, terms))], stops)
      else x.(stops := stops)
  }

  /** From accounts that hold a deposit and no position, and no stops. */
  ghost function Run(deposits: map<int, real>, es: seq<Event>): Exchange
    requires AreEvents(es)
  {
    if |es| == 0 then Exchange(map u | u in deposits :: Opening(deposits[u]), TrailingStops.EMPTY)
    else
      assert IsEvent(es[|es| - 1]);
      Step(Run(deposits, es[..|es| - 1]), es[|es| - 1])
  }

  // ---- The stops see the accounts' positions ----

  ghost predicate Mirrors(x: Exchange) {
    forall user, asset :: x.stops.Szi(user, asset) == x.Szi(user, asset)
  }

  ghost predicate Inv(x: Exchange) {
    && Mirrors(x) && TrailingStopSafety.Inv(x.stops)
    && (forall user :: x.Desk(user).acct.Valid())
  }

  lemma FillMoves(acct: Account, ex: Execution, asset: int)
    requires acct.Valid() && ex.order.Valid()
    ensures ExecuteFill(acct, ex).Valid()
    ensures
      var sz := ExecutableSz(acct.Szi(ex.order.asset), ex.order);
      ExecuteFill(acct, ex).Szi(asset)
      == acct.Szi(asset) + (if asset != ex.order.asset then 0.0 else if ex.order.isBuy then sz else -sz)
  {
    hide Fee, MarginFields, NewEntryPx, ClosedPnl;
  }

  /** How a stop that fires, or does not, moves the positions the stops look at. */
  lemma FireSzi(w: TrailingStops.World, oid: int, funds: TrailingStops.Funds, mark: real, user: int, asset: int)
    requires w.IsOpen(oid) && mark > 0.0 && w.stops[oid].sz > 0.0
    ensures
      var s, w' := w.stops[oid], TrailingStops.Fire(w, oid, funds, mark);
      && oid in w'.stops
      && (w'.stops[oid].user, w'.stops[oid].asset, w'.stops[oid].isBuy, w'.stops[oid].reduceOnly)
         == (s.user, s.asset, s.isBuy, s.reduceOnly)
      && (w'.stops[oid].status == TrailingStops.Filled ==>
            w'.stops[oid].filledSz > 0.0 && (s.reduceOnly ==> TrailingStops.CanReduce(w.Szi(s.user, s.asset), s.isBuy)))
      && w'.Szi(user, asset) ==
           if w'.stops[oid].status == TrailingStops.Filled && user == s.user && asset == s.asset
           then TrailingStops.SziAfterFire(s, w.Szi(user, asset), w'.stops[oid].filledSz)
           else w.Szi(user, asset)
  {
    var s := w.stops[oid];
    var szi := w.Szi(s.user, s.asset);
    match TrailingStops.OutcomeOf(s, szi, funds, mark)
    case Rests =>
    case Unaffordable =>
    case Fires(sz) =>
      assert 0.0 < sz;
      TrailingStopSafety.FireOf(w, oid, funds, mark, sz);
      var finished := TrailingStops.Finish(w, oid, TrailingStops.Filled, [TrailingStops.Triggered, TrailingStops.Filled], sz);
      var changes := map[s.asset := TrailingStops.SziAfterFire(s, szi, sz)];
      assert finished.stops[oid] == s.(status := TrailingStops.Filled, filledSz := sz,
                                       history := s.history + [TrailingStops.Triggered, TrailingStops.Filled]);
      assert finished.positions == w.positions;
      hide TrailingStops.Fire, TrailingStops.Finish, TrailingStops.OutcomeOf, TrailingStops.SziAfterFire;
      TrailingStopSafety.MoveOnly(finished, s.user, changes, user, asset);
      TrailingStopSafety.FilledStays(finished, s.user, changes, oid);
      hide TrailingStops.MovePositions;
  }

  lemma TickSzi(w: TrailingStops.World, step: TrailingStops.Event, user: int, asset: int)
    requires TrailingStopSafety.Inv(w) && step.Tick? && step.Valid()
    ensures
      var w' := TrailingStops.Step(w, step);
      w'.Szi(user, asset) ==
        if HasFired(w, w', step) && user == w'.stops[step.oid].user && asset == w'.stops[step.oid].asset
        then TrailingStops.SziAfterFire(w'.stops[step.oid], w.Szi(user, asset), w'.stops[step.oid].filledSz)
        else w.Szi(user, asset)
    ensures
      var w' := TrailingStops.Step(w, step);
      HasFired(w, w', step) ==>
        var s := w'.stops[step.oid];
        s.filledSz > 0.0 && (s.reduceOnly ==> TrailingStops.CanReduce(w.Szi(s.user, s.asset), s.isBuy))
  {
    if w.IsOpen(step.oid) && step.quote.Some? {
      assert TrailingStopSafety.StopOk(w.stops[step.oid]);
      var stepped := TrailingStopSafety.Stepped(w, step.oid, step.quote.value);
      FireSzi(stepped, step.oid, step.funds, step.quote.value, user, asset);
    }
    hide TrailingStops.Fire, TrailingStops.EvalOf, TrailingStopSafety.StopOk;
  }

  lemma OtherStepSzi(w: TrailingStops.World, step: TrailingStops.Event)
    requires step.Valid() && !step.Tick? && !step.Trade?
    ensures TrailingStops.Step(w, step).positions == w.positions
  {
  }

  /** The order a fired stop sends to the account moves it by what the stops were told. */
  lemma SameMove(s: TrailingStops.Stop, terms: Terms, szi: real)
    requires s.filledSz > 0.0
    ensures FiredOrder(s, terms).order.Valid()
    ensures
      var sz := ExecutableSz(szi, FiredOrder(s, terms).order);
      TrailingStops.SziAfterFire(s, szi, s.filledSz) == szi + (if s.isBuy then sz else -sz)
  {
  }

  lemma AccountStepMirrors(x: Exchange, e: Event)
    requires Inv(x) && IsEvent(e) && e.OnAccount?
    ensures Mirrors(Step(x, e))
  {
    var y := Step(x, e);
    var before, after := x.Desk(e.user).acct, Ledger.Apply(x.Desk(e.user), e.entry).acct;
    hide Ledger.Apply, IsEvent;
    forall user, asset ensures y.stops.Szi(user, asset) == y.Szi(user, asset) {
      TrailingStopSafety.MoveOnly(x.stops, e.user, Moved(before, after), user, asset);
      assert x.stops.Szi(user, asset) == x.Szi(user, asset);
    }
  }

  lemma StopStepMirrors(x: Exchange, e: Event)
    requires Inv(x) && IsEvent(e) && e.OnStops?
    ensures Mirrors(Step(x, e))
  {
    var y := Step(x, e);
    forall user, asset ensures y.stops.Szi(user, asset) == y.Szi(user, asset) {
      assert x.stops.Szi(user, asset) == x.Szi(user, asset);
      if e.step.Tick? {
        TickSzi(x.stops, e.step, user, asset);
        if HasFired(x.stops, y.stops, e.step) {
          var s := y.stops.stops[e.step.oid];
          SameMove(s, e.terms, x.stops.Szi(user, asset));
          FillMoves(x.Desk(s.user).acct, FiredOrder(s, e.terms), asset);
        }
      } else {
        OtherStepSzi(x.stops, e.step);
      }
      hide TrailingStops.Step, TrailingStops.SziAfterFire, ExecuteFill, ExecutableSz, IsEvent, TrailingStopSafety.Inv;
    }
  }

  lemma AccountStepValid(x: Exchange, e: Event, user: int, deposit: real)
    requires Inv(x) && IsEvent(e) && Reconciles(x.Desk(user).acct, deposit)
    ensures Step(x, e).Desk(user).acct.Valid() && Reconciles(Step(x, e).Desk(user).acct, deposit)
  {
    var y := Step(x, e);
    hide Reconciles, TrailingStops.Step, Ledger.Apply;
    match e
    case OnAccount(u, entry) =>
      if u == user {
        Ledger.EventReconciles(x.Desk(u), entry, deposit);
      }
    case OnStops(step, terms) =>
      if HasFired(x.stops, y.stops, step) {
        var s := y.stops.stops[step.oid];
        if s.user == user && FiredOrder(s, terms).order.Valid() {
          Ledger.EventReconciles(x.Desk(user), Ledger.Executed(FiredOrder(s, terms)), deposit);
          TradedIsApplied(x.Desk(user), FiredOrder(s, terms));
        }
      }
      hide Traded;
  }

  lemma TradedIsApplied(d: Liquidation.Desk, ex: Execution)
    requires ex.order.Valid()
    ensures Traded(d, ex) == Ledger.Apply(d, Ledger.Executed(ex))
  {
  }

  function Deposit(deposits: map<int, real>, user: int): real {
    if user in deposits then deposits[user] else 0.0
  }

  /** In every run the stops look at exactly the positions the accounts hold, and every user's books balance, with
      the trades of fired stops among the fills. */
  lemma {:induction false} StopsSeeTheAccounts(deposits: map<int, real>, es: seq<Event>)
    requires AreEvents(es)
    ensures Inv(Run(deposits, es))
    ensures forall user :: Reconciles(Run(deposits, es).Desk(user).acct, Deposit(deposits, user))
    decreases |es|
  {
    hide Reconciles, Step;
    if |es| == 0 {
      forall user ensures Reconciles(Run(deposits, es).Desk(user).acct, Deposit(deposits, user)) {
        OpeningReconciles(Deposit(deposits, user));
      }
    } else {
      var front, e := es[..|es| - 1], es[|es| - 1];
      assert IsEvent(e);
      var x := Run(deposits, front);
      StopsSeeTheAccounts(deposits, front);
      StepInv(x, e, deposits);
      hide Inv, IsEvent;
      forall user ensures Reconciles(Step(x, e).Desk(user).acct, Deposit(deposits, user)) {
        AccountStepValid(x, e, user, Deposit(deposits, user));
      }
    }
  }

  lemma StepInv(x: Exchange, e: Event, deposits: map<int, real>)
    requires Inv(x) && IsEvent(e)
    requires forall user :: Reconciles(x.Desk(user).acct, Deposit(deposits, user))
    ensures Inv(Step(x, e))
  {
    TrailingStopSafety.StepKeeps(x.stops, StopEvent(x, e));
    if e.OnAccount? {
      AccountStepMirrors(x, e);
    } else {
      StopStepMirrors(x, e);
    }
    hide Mirrors, TrailingStopSafety.Inv, TrailingStops.Step, IsEvent, Reconciles;
    forall user ensures Step(x, e).Desk(user).acct.Valid() {
      AccountStepValid(x, e, user, Deposit(deposits, user));
    }
  }

  // ---- The stops' own run ----

  /** The run of the stops that a run of the exchange is. */
  ghost function StopEvents(deposits: map<int, real>, es: seq<Event>): seq<TrailingStops.Event>
    requires AreEvents(es)
  {
    if |es| == 0 then []
    else
      assert IsEvent(es[|es| - 1]);
      StopEvents(deposits, es[..|es| - 1]) + [StopEvent(Run(deposits, es[..|es| - 1]), es[|es| - 1])]
  }

  lemma {:induction false} IsStopRun(deposits: map<int, real>, es: seq<Event>)
    requires AreEvents(es)
    ensures
      var stops := StopEvents(deposits, es);
      && |stops| == |es|
      && TrailingStops.IsRun(stops)
      && TrailingStops.Run(stops) == Run(deposits, es).stops
    decreases |es|
  {
    hide TrailingStops.Step;
    if |es| > 0 {
      var front, e := es[..|es| - 1], es[|es| - 1];
      assert IsEvent(e);
      assert StopEvent(Run(deposits, front), e).Valid();
      hide StopEvent;
      IsStopRun(deposits, front);
      var stops := StopEvents(deposits, es);
      assert stops[..|stops| - 1] == StopEvents(deposits, front);
    }
  }

  lemma {:induction false} StopEventsFront(deposits: map<int, real>, es: seq<Event>, i: nat)
    requires AreEvents(es) && i <= |es|
    ensures i <= |StopEvents(deposits, es)| && StopEvents(deposits, es)[..i] == StopEvents(deposits, es[..i])
    decreases |es|
  {
    IsStopRun(deposits, es);
    if i == |es| {
      assert es[..i] == es;
    } else {
      var front := es[..|es| - 1];
      assert front[..i] == es[..i];
      StopEventsFront(deposits, front, i);
    }
  }

  /** The reduce-only discipline, on the accounts themselves: whenever a user's position changes, by a fill, a
      liquidation or a stop that fired, every stop of that user and asset that is reduce-only and still open can reduce
      the position, and goes on being able to through everything that follows. */
  lemma {:induction false} ReduceOnlyDiscipline(deposits: map<int, real>, es: seq<Event>, i: nat, oid: int)
    requires AreEvents(es) && i < |es| && oid in Run(deposits, es[..i]).stops.stops
    requires
      var s := Run(deposits, es[..i]).stops.stops[oid];
      Run(deposits, es[..i]).Szi(s.user, s.asset) != Run(deposits, es[..i + 1]).Szi(s.user, s.asset)
    ensures
      var x := Run(deposits, es);
      && oid in x.stops.stops
      && var s := x.stops.stops[oid];
         x.stops.IsOpen(oid) && s.reduceOnly ==> TrailingStops.CanReduce(x.Szi(s.user, s.asset), s.isBuy)
  {
    IsStopRun(deposits, es);
    IsStopRun(deposits, es[..i]);
    IsStopRun(deposits, es[..i + 1]);
    StopEventsFront(deposits, es, i);
    StopEventsFront(deposits, es, i + 1);
    StopsSeeTheAccounts(deposits, es);
    StopsSeeTheAccounts(deposits, es[..i]);
    StopsSeeTheAccounts(deposits, es[..i + 1]);
    hide StopEvents, Run, TrailingStops.Run, Reconciles, TrailingStopSafety.Inv;
    TrailingStopSafety.OnlyNewStopsAreIdle(StopEvents(deposits, es), i, oid);
  }

  /** A stop that fires trades: its fill is on the account, for the size it records unless it is reduce-only, which
      moves the position strictly towards zero and never across it. */
  lemma {:induction false} FiredStopTrades(deposits: map<int, real>, es: seq<Event>, e: Event)
    requires AreEvents(es) && IsEvent(e) && e.OnStops?
    requires HasFired(Run(deposits, es).stops, Step(Run(deposits, es), e).stops, e.step)
    ensures
      var x, y := Run(deposits, es), Step(Run(deposits, es), e);
      var s := y.stops.stops[e.step.oid];
      var before, after := x.Szi(s.user, s.asset), y.Szi(s.user, s.asset);
      && after == TrailingStops.SziAfterFire(s, before, s.filledSz)
      && (!s.reduceOnly ==> after == before + (if s.isBuy then s.filledSz else -s.filledSz))
      && (s.reduceOnly ==> (0.0 <= after < before) || (before < after <= 0.0))
      && (forall u, a :: (u, a) != (s.user, s.asset) ==> y.Szi(u, a) == x.Szi(u, a))
  {
    var x := Run(deposits, es);
    var y := Step(x, e);
    StopsSeeTheAccounts(deposits, es);
    StepInv(x, e, deposits);
    hide Reconciles, Run;
    FiredSzi(x, e);
  }

  /** What its order costs: a taker's fee on what the position moved, at the price the book gave. */
  lemma FiredStopPays(deposits: map<int, real>, es: seq<Event>, e: Event)
    requires AreEvents(es) && IsEvent(e) && e.OnStops?
    requires HasFired(Run(deposits, es).stops, Step(Run(deposits, es), e).stops, e.step)
    ensures
      var x, y := Run(deposits, es), Step(Run(deposits, es), e);
      var s, terms := y.stops.stops[e.step.oid], e.terms;
      && s.filledSz > 0.0
      && Fees.Pays(x.Desk(s.user).acct, y.Desk(s.user).acct,
                   Execution(Order(s.asset, s.isBuy, s.filledSz, 0.0, s.reduceOnly, terms.builderRate),
                             terms.fillPx, true, terms.fees, terms.setting, terms.mark))
  {
    var x := Run(deposits, es);
    var y := Step(x, e);
    var s := y.stops.stops[e.step.oid];
    FiredStopTrades(deposits, es, e);
    StopsSeeTheAccounts(deposits, es);
    TickSzi(x.stops, e.step, s.user, s.asset);
    assert x.Desk(s.user).acct.Valid();
    hide Run, TrailingStops.Step, TrailingStops.SziAfterFire, Mirrors, TrailingStopSafety.Inv, Reconciles, Fees.Pays;
    Fees.ExecutionPays(x.Desk(s.user).acct, FiredOrder(s, e.terms));
    SomethingFired(s, x.Szi(s.user, s.asset), y.Szi(s.user, s.asset));
    hide ExecuteFill, Inv, IsEvent;
  }

  lemma SomethingFired(s: TrailingStops.Stop, before: real, after: real)
    requires s.filledSz > 0.0
    requires !s.reduceOnly ==> after == before + (if s.isBuy then s.filledSz else -s.filledSz)
    requires s.reduceOnly ==> (0.0 <= after < before) || (before < after <= 0.0)
    ensures after != before
  {
  }

  lemma FiredSzi(x: Exchange, e: Event)
    requires Inv(x) && IsEvent(e) && e.OnStops? && Mirrors(Step(x, e))
    requires HasFired(x.stops, Step(x, e).stops, e.step)
    ensures
      var y := Step(x, e);
      var s := y.stops.stops[e.step.oid];
      var before, after := x.Szi(s.user, s.asset), y.Szi(s.user, s.asset);
      && after == TrailingStops.SziAfterFire(s, before, s.filledSz)
      && (!s.reduceOnly ==> after == before + (if s.isBuy then s.filledSz else -s.filledSz))
      && (s.reduceOnly ==> (0.0 <= after < before) || (before < after <= 0.0))
      && (forall u, a :: (u, a) != (s.user, s.asset) ==> y.Szi(u, a) == x.Szi(u, a))
  {
    var y := Step(x, e);
    var s := y.stops.stops[e.step.oid];
    assert y.stops == TrailingStops.Step(x.stops, e.step);
    hide Step, TrailingStops.Step, TrailingStopSafety.Inv;
    forall u, a ensures y.Szi(u, a) ==
      if u == s.user && a == s.asset then TrailingStops.SziAfterFire(s, x.Szi(u, a), s.filledSz) else x.Szi(u, a)
    {
      TickSzi(x.stops, e.step, u, a);
      assert x.stops.Szi(u, a) == x.Szi(u, a) && y.stops.Szi(u, a) == y.Szi(u, a);
    }
    TickSzi(x.stops, e.step, s.user, s.asset);
    assert x.stops.Szi(s.user, s.asset) == x.Szi(s.user, s.asset);
    FiredMove(s, x.Szi(s.user, s.asset));
  }

  lemma FiredMove(s: TrailingStops.Stop, szi: real)
    requires s.filledSz > 0.0 && (s.reduceOnly ==> TrailingStops.CanReduce(szi, s.isBuy))
    ensures
      var after := TrailingStops.SziAfterFire(s, szi, s.filledSz);
      if s.reduceOnly then (0.0 <= after < szi) || (szi < after <= 0.0)
      else after == szi + (if s.isBuy then s.filledSz else -s.filledSz)
  {
  }
}
