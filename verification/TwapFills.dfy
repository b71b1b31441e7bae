/** What a TWAP records as filled against what its suborders execute: every slice is an immediate order that is
    answered as filled at its whole size, and then executed against the position (matchTwaps and executeFillLocked in
    src/worker/order-matcher.ts, the immediate branch of placeSingleOrder in src/engine/order.ts). */
module TwapFills {
  import opened Prelude
  import opened Account
  import Fills
  import Twap
  import TwapSafety

  /** The terms every suborder shares, and the size step that slices are counted in. */
  datatype Terms = Terms(asset: int, isBuy: bool, reduceOnly: bool, step: real)

  function Suborder(t: Terms, slice: int): Fills.Order {
    Fills.Order(t.asset, t.isBuy, Times(t.step, slice as real), 0.0, t.reduceOnly, None)
  }

  /** One tick of the scheduler, with the price, side and setting its suborder would execute at. */
  datatype Turn = Turn(tick: Twap.Tick, how: Fills.Execution)

  predicate IsSent(o: Twap.Order, k: Twap.Tick)
    requires k.now >= o.start
  {
    o.status == Twap.Running && Twap.Decide(o, k.now).Submit? && k.hasMid && k.accepted
  }

  /** The account after a tick. */
  function Traded(acct: Account, o: Twap.Order, t: Terms, turn: Turn): Account
    requires turn.tick.now >= o.start && t.step > 0.0
  {
    if !IsSent(o, turn.tick) then acct
    else
      var slice := Twap.Decide(o, turn.tick.now).slice;
      SizeIsPositive(t.step, slice);
      Fills.ExecuteFill(acct, turn.how.(order := Suborder(t, slice)))
  }

  lemma SizeIsPositive(step: real, slice: int)
    requires step > 0.0 && slice > 0
    ensures Times(step, slice as real) > 0.0
  {
    TimesSign(step, slice as real);
  }

  /** The signed size the record gains in a tick. */
  function Recorded(o: Twap.Order, t: Terms, k: Twap.Tick): real
    requires k.now >= o.start
  {
    var gained := Times(t.step, Twap.TickOrder(o, k).filled - o.filled);
    if t.isBuy then gained else -gained
  }

  /** The position can absorb the whole slice. */
  predicate Absorbs(szi: real, t: Terms, size: real) {
    if t.isBuy then szi <= -size else szi >= size
  }

  /** A tick records what it executes if and only if nothing is sent, or the order may open positions, or the
      position absorbs the whole slice. */
  lemma RecordedIsExecuted(acct: Account, o: Twap.Order, t: Terms, turn: Turn)
    requires acct.Valid() && turn.tick.now >= o.start && t.step > 0.0
    ensures
      Traded(acct, o, t, turn).Szi(t.asset) - acct.Szi(t.asset) == Recorded(o, t, turn.tick)
      <==> IsSent(o, turn.tick) && t.reduceOnly ==>
             Absorbs(acct.Szi(t.asset), t, Times(t.step, Twap.Decide(o, turn.tick.now).slice as real))
  {
    TimesZero(t.step);
    if IsSent(o, turn.tick) {
      var slice := Twap.Decide(o, turn.tick.now).slice;
      var order := Suborder(t, slice);
      SizeIsPositive(t.step, slice);
      ExecutedSize(acct, turn.how.(order := order));
      assert Twap.TickOrder(o, turn.tick).filled - o.filled == slice as real;
      hide Twap.Decide, Twap.TickOrder, Fills.ExecuteFill, Times;
    } else {
      assert Twap.TickOrder(o, turn.tick).filled == o.filled;
      hide Twap.Decide, Twap.TickOrder, Fills.ExecuteFill, Times;
    }
  }

  /** A fill moves the position by the executable size. */
  lemma ExecutedSize(acct: Account, ex: Fills.Execution)
    requires acct.Valid() && ex.order.Valid()
    ensures
      var o := ex.order;
      var sz := Fills.ExecutableSz(acct.Szi(o.asset), o);
      Fills.ExecuteFill(acct, ex).Valid()
      && Fills.ExecuteFill(acct, ex).Szi(o.asset)
         == acct.Szi(o.asset) + if sz <= 0.0 then 0.0 else if o.isBuy then sz else -sz
  {
    hide Fills.Fee, Fills.MarginFields, Fills.NewEntryPx, Fills.ClosedPnl;
  }

  // ---- Runs ----

  ghost function Ticks(turns: seq<Turn>): (ks: seq<Twap.Tick>)
    ensures |ks| == |turns| && forall i :: 0 <= i < |ks| ==> ks[i] == turns[i].tick
  {
    seq(|turns|, i requires 0 <= i < |turns| => turns[i].tick)
  }

  ghost predicate IsRun(o: Twap.Order, t: Terms, turns: seq<Turn>) {
    t.step > 0.0 && TwapSafety.IsPlaced(o) && Twap.IsRun(o, Ticks(turns))
  }

  lemma FrontIsRun(o: Twap.Order, t: Terms, turns: seq<Turn>)
    requires IsRun(o, t, turns) && |turns| > 0
    ensures IsRun(o, t, turns[..|turns| - 1])
    ensures Ticks(turns)[..|turns| - 1] == Ticks(turns[..|turns| - 1])
  {
  }

  /** The record and the account after a run in which nothing else trades. */
  ghost function AfterRun(acct: Account, o: Twap.Order, t: Terms, turns: seq<Turn>): (r: (Account, Twap.Order))
    requires IsRun(o, t, turns)
    ensures r.1.start == o.start
    decreases |turns|
  {
    if |turns| == 0 then (acct, o)
    else
      FrontIsRun(o, t, turns);
      var (a, r) := AfterRun(acct, o, t, turns[..|turns| - 1]);
      var last := turns[|turns| - 1];
      assert last.tick == Ticks(turns)[|turns| - 1];
      (Traded(a, r, t, last), Twap.TickOrder(r, last.tick))
  }

  /** The account holds what it held at first and what the record says since. */
  ghost predicate Matches(first: real, acct: Account, o: Twap.Order, t: Terms) {
    && acct.Valid()
    && acct.Szi(t.asset) == first + if t.isBuy then Times(t.step, o.filled) else -Times(t.step, o.filled)
  }

  lemma TickStillMatches(first: real, acct: Account, o: Twap.Order, t: Terms, turn: Turn)
    requires Matches(first, acct, o, t) && turn.tick.now >= o.start && t.step > 0.0 && !t.reduceOnly
    ensures Matches(first, Traded(acct, o, t, turn), Twap.TickOrder(o, turn.tick), t)
  {
    RecordedIsExecuted(acct, o, t, turn);
    TradedIsValid(acct, o, t, turn);
    TimesSubtracts(t.step, o.filled, Twap.TickOrder(o, turn.tick).filled);
    hide Twap.TickOrder, Traded, Times, IsSent, Twap.Decide;
  }

  /** An order that may open positions has at every moment traded exactly what it records. */
  lemma {:induction false} OpeningOrdersRecordTrades(acct: Account, o: Twap.Order, t: Terms, turns: seq<Turn>)
    requires acct.Valid() && IsRun(o, t, turns) && !t.reduceOnly
    ensures
      var (a, r) := AfterRun(acct, o, t, turns);
      Matches(acct.Szi(t.asset), a, r, t)
    decreases |turns|
  {
    if |turns| == 0 {
      TimesZero(t.step);
    } else {
      var front, last := turns[..|turns| - 1], turns[|turns| - 1];
      FrontIsRun(o, t, turns);
      hide Matches, Traded, Twap.TickOrder;
      OpeningOrdersRecordTrades(acct, o, t, front);
      var (a, r) := AfterRun(acct, o, t, front);
      assert last.tick == Ticks(turns)[|turns| - 1];
      TickStillMatches(acct.Szi(t.asset), a, r, t, last);
    }
  }

  lemma TradedIsValid(acct: Account, o: Twap.Order, t: Terms, turn: Turn)
    requires acct.Valid() && turn.tick.now >= o.start && t.step > 0.0
    ensures Traded(acct, o, t, turn).Valid()
  {
    if IsSent(o, turn.tick) {
      var slice := Twap.Decide(o, turn.tick.now).slice;
      SizeIsPositive(t.step, slice);
      ExecutedSize(acct, turn.how.(order := Suborder(t, slice)));
    }
    hide Fills.ExecuteFill, Twap.Decide;
  }

  /** A reduce-only order on a flat account never trades, whatever it records. */
  lemma {:induction false} FlatReduceOnlyNeverTrades(acct: Account, o: Twap.Order, t: Terms, turns: seq<Turn>)
    requires acct.Valid() && IsRun(o, t, turns) && t.reduceOnly && acct.Szi(t.asset) == 0.0
    ensures AfterRun(acct, o, t, turns).0 == acct
    decreases |turns|
  {
    if |turns| > 0 {
      var front, last := turns[..|turns| - 1], turns[|turns| - 1];
      FrontIsRun(o, t, turns);
      FlatReduceOnlyNeverTrades(acct, o, t, front);
      var (a, r) := AfterRun(acct, o, t, front);
      assert last.tick == Ticks(turns)[|turns| - 1];
      assert Traded(a, r, t, last) == acct;
      hide Twap.TickOrder, Twap.Decide;
    }
  }

  /** Two steps over one minute, reduce-only, on a flat account: the record ends filled whole, and nothing traded. */
  lemma RecordedButNotTraded(how: Fills.Execution)
    ensures
      var acct := Account(1000.0, map[], [], 0.0, 0.0);
      var o := Twap.NewOrder(7, 2.0, 1, 0, false);
      var t := Terms(0, true, true, 1.0);
      var turns := [Turn(Twap.Tick(0, true, true, 15000), how), Turn(Twap.Tick(30000, true, true, 15000), how)];
      && IsRun(o, t, turns)
      && AfterRun(acct, o, t, turns).0 == acct
      && AfterRun(acct, o, t, turns).1.filled == o.total
  {
    var acct := Account(1000.0, map[], [], 0.0, 0.0);
    var o := Twap.NewOrder(7, 2.0, 1, 0, false);
    var t := Terms(0, true, true, 1.0);
    var k1, k2 := Twap.Tick(0, true, true, 15000), Twap.Tick(30000, true, true, 15000);
    var turns := [Turn(k1, how), Turn(k2, how)];
    FlatReduceOnlyNeverTrades(acct, o, t, turns);
    assert turns[..1] == [Turn(k1, how)] && [Turn(k1, how)][..0] == [];
    OneStepIsDue(o, 0);
    var after := o.(filled := 1.0, lastAt := Some(0), nextAt := Some(30000));
    assert Twap.TickOrder(o, k1) == after;
    OneStepIsDue(after, 30000);
    assert Twap.TickOrder(after, k2).filled == 2.0;
    hide Twap.Decide, Twap.TickOrder, Traded;
    FrontIsRun(o, t, turns);
    assert AfterRun(acct, o, t, [Turn(k1, how)]).1 == after;
  }

  lemma OneStepIsDue(o: Twap.Order, now: int)
    requires (o.total, o.minutes, o.start) == (2.0, 1, 0) && 0 <= now <= 30000 && 0.0 <= o.filled <= 1.0
    requires if o.nextAt.Some? then now >= o.nextAt.value else o.lastAt.None?
    ensures Twap.Decide(o, now) == Twap.Submit(1)
  {
    assert Twap.NumSlices(o) == 2 && o.Duration() == 60000;
    assert Twap.BaseSlice(o) == 1.0;
    assert Twap.Target(o, now) == 2.0 * (now as real / 60000.0);
    hide Twap.Target, Twap.BaseSlice;
    assert Twap.WantedSlice(o, now) == 1.0;
    hide Twap.WantedSlice;
  }
}
