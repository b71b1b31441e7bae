/** Placing an order (placeSingleOrder and placeOrders in src/engine/order.ts): which orders are rejected, which rest,
    and which execute on arrival, decided from the account; and what a batch of them puts on the book. */
module Placement {
  import opened Prelude
  import opened Margin
  import opened Account
  import opened Fills
  import opened Slippage
  import opened OrderMargin
  import opened Brackets
  import opened BracketSafety
  import BracketRuns
  import Fees
  import TrailingStops

  datatype Tif = Ioc | Alo | Gtc

  /** One order as sent: a limit order has a time in force, a trigger order need not. */
  datatype Wire = Wire(asset: int, isBuy: bool, sz: real, limitPx: real, reduceOnly: bool, isTrigger: bool, tif: Option<Tif>)

  /** What placing it reads besides the account: whether the asset exists and its most leverage, if known; the mids and
      the user's settings; and what an execution meets, the book, the fees, the batch's builder and the fresh mark. */
  datatype Quote = Quote(
    isListed: bool, maxLeverage: Option<int>, margins: Quotes,
    book: Option<L2Book>, fees: Fills.Fees, builderRate: Option<real>, mark: Option<real>)

  datatype Outcome = Refused | Joins(kind: Kind) | Executes

  // ---- One order ----

  predicate Crosses(w: Wire, mid: real) {
    if w.isBuy then mid <= w.limitPx else mid >= w.limitPx
  }

  function MidOf(w: Wire, q: Quote): Option<real> {
    if w.asset in q.margins.mids then Some(q.margins.mids[w.asset]) else None
  }

  predicate CrossesMid(w: Wire, q: Quote) {
    MidOf(w, q).Some? && Crosses(w, MidOf(w, q).value)
  }

  /** Reduce-only orders are never checked against the margin. */
  predicate Affords(free: real, szi: real, w: Wire, q: Quote, px: real) {
    w.reduceOnly || CheckMargin(free, q.margins.settings(w.asset).leverage, szi, w.isBuy, w.sz, px)
  }

  predicate MayOpen(szi: real, w: Wire, q: Quote) {
    TrailingStops.MayOpen(szi, w.reduceOnly, w.isBuy, TrailingStops.Leveraged(q.margins.settings(w.asset).leverage, q.maxLeverage))
  }

  function OutcomeOf(free: real, szi: real, w: Wire, q: Quote): Outcome {
    if !q.isListed || w.sz <= 0.0 || !MayOpen(szi, w, q) then Refused
    else if w.isTrigger then Joins(Trigger)
    else if w.tif.None? then Refused
    else if CrossesMid(w, q) then
      if w.tif.value != Alo && Affords(free, szi, w, q, MidOf(w, q).value) then Executes else Refused
    else
      if w.tif.value != Ioc && Affords(free, szi, w, q, w.limitPx) then Joins(Limit) else Refused
  }

  ghost function Decide(acct: Account, w: Wire, q: Quote): Outcome {
    OutcomeOf(FreeMargin(acct, q.margins), acct.Szi(w.asset), w, q)
  }

  /** The order as saved. The branch of a Gtc order that crosses leaves the builder out. */
  function OrderOf(w: Wire, q: Quote): Order {
    Order(w.asset, w.isBuy, w.sz, 0.0, w.reduceOnly, if w.tif == Some(Ioc) then q.builderRate else None)
  }

  /** Filled from the book, clamped to its limit, or at the mid. */
  function ExecutionOf(w: Wire, q: Quote): Execution
    requires MidOf(w, q).Some?
  {
    Execution(OrderOf(w, q), FillPrice(q.book, w.sz, w.isBuy, Some(w.limitPx), MidOf(w, q).value), true, q.fees,
              q.margins.settings(w.asset), q.mark)
  }

  /** An order that executes with nothing to reduce leaves its hash open, in no index. */
  function ArrivalOf(szi: real, w: Wire, q: Quote): Arrival {
    if ExecutableSz(szi, OrderOf(w, q)) > 0.0 then Executed else Idle
  }

  // ---- A batch ----

  /** The account, the next order id, and the orders that reached the book. */
  datatype Placing = Placing(acct: Account, next: int, legs: seq<Leg>)

  ghost function PlaceOne(p: Placing, w: Wire, q: Quote): Placing {
    match Decide(p.acct, w, q)
    case Refused => p
    case Joins(kind) => Placing(p.acct, p.next + 1, p.legs + [Leg(p.next, kind, Resting)])
    case Executes =>
      assert w.sz > 0.0;
      Placing(ExecuteFill(p.acct, ExecutionOf(w, q)), p.next + 1,
              p.legs + [Leg(p.next, Limit, ArrivalOf(p.acct.Szi(w.asset), w, q))])
  }

  ghost function PlaceAll(acct: Account, next: int, wires: seq<Wire>, quotes: seq<Quote>): Placing
    requires |wires| == |quotes|
  {
    if |wires| == 0 then Placing(acct, next, [])
    else
      var n := |wires| - 1;
      PlaceOne(PlaceAll(acct, next, wires[..n], quotes[..n]), wires[n], quotes[n])
  }

  ghost predicate IsHeaded(acct: Account, wires: seq<Wire>, quotes: seq<Quote>)
    requires |wires| == |quotes|
  {
    |wires| > 0 && Decide(acct, wires[0], quotes[0]) != Refused
  }

  // ---- When an order rests and when it executes ----

  /** An order the exchange takes at all: of a listed coin and a positive size, and at a leverage the coin allows if it
      could open a position. */
  predicate IsAllowed(szi: real, w: Wire, q: Quote) {
    && q.isListed && w.sz > 0.0
    && (w.reduceOnly || (szi > 0.0 && !w.isBuy) || (szi < 0.0 && w.isBuy) || q.maxLeverage.None?
        || q.margins.settings(w.asset).leverage <= q.maxLeverage.value)
  }

  /** Free margin at the user's leverage pays for the order at px, or the order needs none. */
  ghost predicate IsCovered(acct: Account, w: Wire, q: Quote, px: real) {
    var szi := acct.Szi(w.asset);
    || w.reduceOnly || (szi > 0.0 && !w.isBuy) || (szi < 0.0 && w.isBuy)
    || Times(q.margins.settings(w.asset).leverage as real, FreeMargin(acct, q.margins)) >= Times(px, w.sz)
  }

  /** Which orders execute, which rest as limit orders, which as triggers. A limit order executes exactly when it is Ioc
      or Gtc and the mid is within its limit; it rests exactly when it is Alo or Gtc and there is no mid, or the mid is
      strictly beyond its limit; its margin is taken at the price it would trade at. */
  lemma DecidesExactly(acct: Account, w: Wire, q: Quote)
    ensures
      Decide(acct, w, q) == Executes
      <==> && IsAllowed(acct.Szi(w.asset), w, q) && !w.isTrigger && w.tif in {Some(Ioc), Some(Gtc)}
           && w.asset in q.margins.mids
           && (if w.isBuy then q.margins.mids[w.asset] <= w.limitPx else q.margins.mids[w.asset] >= w.limitPx)
           && IsCovered(acct, w, q, q.margins.mids[w.asset])
    ensures
      Decide(acct, w, q) == Joins(Limit)
      <==> && IsAllowed(acct.Szi(w.asset), w, q) && !w.isTrigger && w.tif in {Some(Alo), Some(Gtc)}
           && (w.asset in q.margins.mids ==>
                 if w.isBuy then w.limitPx < q.margins.mids[w.asset] else q.margins.mids[w.asset] < w.limitPx)
           && IsCovered(acct, w, q, w.limitPx)
    ensures Decide(acct, w, q) == Joins(Trigger) <==> IsAllowed(acct.Szi(w.asset), w, q) && w.isTrigger
  {
    AffordsIsCovered(acct, w, q, w.limitPx);
    if w.asset in q.margins.mids {
      AffordsIsCovered(acct, w, q, q.margins.mids[w.asset]);
    }
    hide Affords, IsCovered, FreeMargin;
  }

  lemma AffordsIsCovered(acct: Account, w: Wire, q: Quote, px: real)
    ensures Affords(FreeMargin(acct, q.margins), acct.Szi(w.asset), w, q, px) <==> IsCovered(acct, w, q, px)
  {
    var lev := q.margins.settings(w.asset).leverage;
    var free, needed := FreeMargin(acct, q.margins), InitialMargin(w.sz, px, lev);
    MarginTimesLeverage(w.sz, px, lev);
    hide FreeMargin, Times, InitialMargin;
    TimesOrders(lev as real, needed, free);
    TimesOrders(lev as real, free, needed);
  }

  /** An order that executes is filled as one taker trade from its side of the book, never beyond its limit, and pays
      for it; the builder's share only if it is Ioc. */
  lemma {:induction false} ExecutesWithinLimit(p: Placing, w: Wire, q: Quote)
    requires p.acct.Valid() && Decide(p.acct, w, q) == Executes
    ensures
      var after := PlaceOne(p, w, q).acct;
      && MidOf(w, q).Some?
      && var ex := ExecutionOf(w, q);
         && ex.fillPx == (if q.book.None? then q.margins.mids[w.asset]
                          else ExecutionPx(if w.isBuy then q.book.value.asks else q.book.value.bids, w.sz, w.isBuy,
                                           Some(w.limitPx), q.margins.mids[w.asset]).fillPx)
         && (if w.isBuy then ex.fillPx <= w.limitPx else ex.fillPx >= w.limitPx)
         && ex.isTaker
         && ex.order.builderRate == (if w.tif == Some(Ioc) then q.builderRate else None)
         && (if Fees.Moved(p.acct, after, w.asset) == 0.0 then after == p.acct else Fees.Pays(p.acct, after, ex))
  {
    DecidesExactly(p.acct, w, q);
    var ex := ExecutionOf(w, q);
    NeverBeyond(q.book, w.sz, w.isBuy, w.limitPx, q.margins.mids[w.asset]);
    Fees.ExecutionPays(p.acct, ex);
    hide IsAllowed, IsCovered, ExecutionPx, ExecuteFill, Fees.Pays, Fees.Moved;
  }

  /** Opened at the mid, an order that executes leaves free margin not below zero before fees. */
  lemma {:induction false} ExecutesWithinMargin(p: Placing, w: Wire, q: Quote)
    requires p.acct.Valid() && Decide(p.acct, w, q) == Executes && !w.reduceOnly
    requires IsIncreasing(p.acct.Szi(w.asset), w.isBuy)
    requires q.book.None? && q.mark.GetOr(q.margins.mids[w.asset]) == q.margins.mids[w.asset]
    ensures FreeMargin(PlaceOne(p, w, q).acct, q.margins) + Fee(ExecutionOf(w, q), w.sz) >= 0.0
  {
    var ex := ExecutionOf(w, q);
    assert ExecutableSz(p.acct.Szi(w.asset), ex.order) == w.sz;
    assert PricedAtMid(q.margins, ex);
    hide FreeMargin, Fee, FillStep;
    CheckMeansFreeMargin(p.acct, q.margins, ex);
  }

  // ---- When an order is idle ----

  /** An accepted order is idle exactly when it is a limit order that crosses, is reduce-only and is not against the
      position; an order changes the account exactly when it crosses and is not idle. */
  lemma IdleExactly(p: Placing, w: Wire, q: Quote)
    requires Decide(p.acct, w, q) != Refused
    ensures
      var after := PlaceOne(p, w, q);
      var leg := Leg(p.next, if w.isTrigger then Trigger else Limit, after.legs[|p.legs|].arrival);
      var crosses := !w.isTrigger && CrossesMid(w, q);
      && after.legs == p.legs + [leg] && after.next == p.next + 1
      && (leg.arrival == Resting <==> !crosses)
      && (leg.arrival == Idle <==> crosses && w.reduceOnly && !IsReducing(p.acct.Szi(w.asset), w.isBuy))
      && (after.acct == p.acct <==> leg.arrival != Executed)
  {
    if Decide(p.acct, w, q).Executes? {
      NothingExecuted(p.acct, ExecutionOf(w, q));
    }
    hide FreeMargin, ExecuteFill;
  }

  // ---- What a batch puts on the book ----

  /** Every order id given out so far is below the next one. */
  predicate IsNext(b: Book, next: int) {
    forall o :: o in b.orders ==> o < next
  }

  /** The orders that reached the book took their ids in turn. */
  lemma {:induction false} LegsInTurn(acct: Account, next: int, wires: seq<Wire>, quotes: seq<Quote>)
    requires |wires| == |quotes|
    ensures
      var p := PlaceAll(acct, next, wires, quotes);
      && p.next == next + |p.legs|
      && forall i :: 0 <= i < |p.legs| ==> p.legs[i].oid == next + i
    decreases |wires|
  {
    hide Decide, ExecuteFill, ArrivalOf;
    if |wires| > 0 {
      var n := |wires| - 1;
      LegsInTurn(acct, next, wires[..n], quotes[..n]);
    }
  }

  lemma BatchIsFresh(b: Book, acct: Account, next: int, wires: seq<Wire>, quotes: seq<Quote>)
    requires |wires| == |quotes| && IsNext(b, next)
    ensures FreshLegs(b, PlaceAll(acct, next, wires, quotes).legs)
  {
    LegsInTurn(acct, next, wires, quotes);
    hide PlaceAll;
  }

  lemma {:induction false} FirstStays(acct: Account, next: int, wires: seq<Wire>, quotes: seq<Quote>)
    requires |wires| == |quotes| && |wires| > 0
    ensures PlaceAll(acct, next, wires[..1], quotes[..1]) == PlaceOne(Placing(acct, next, []), wires[0], quotes[0])
    ensures PlaceAll(acct, next, wires[..1], quotes[..1]).legs <= PlaceAll(acct, next, wires, quotes).legs
    decreases |wires|
  {
    hide PlaceOne;
    assert wires[..1][..0] == [] && quotes[..1][..0] == [];
    if |wires| > 1 {
      var n := |wires| - 1;
      assert wires[..n][..1] == wires[..1] && quotes[..n][..1] == quotes[..1];
      FirstStays(acct, next, wires[..n], quotes[..n]);
      LegsGrow(PlaceAll(acct, next, wires[..n], quotes[..n]), wires[n], quotes[n]);
    } else {
      assert wires[..1] == wires && quotes[..1] == quotes;
    }
  }

  lemma LegsGrow(p: Placing, w: Wire, q: Quote)
    ensures p.legs <= PlaceOne(p, w, q).legs
  {
    hide Decide, ExecuteFill, ArrivalOf;
  }

  // ---- The exits of a batch ----

  /** A take-profit or stop-loss as sent. */
  predicate IsExit(w: Wire, q: Quote) {
    q.isListed && w.sz > 0.0 && w.reduceOnly && w.isTrigger
  }

  ghost predicate AreExits(wires: seq<Wire>, quotes: seq<Quote>)
    requires |wires| == |quotes|
  {
    forall i :: 0 < i < |wires| ==> IsExit(wires[i], quotes[i])
  }

  lemma ExitRests(p: Placing, w: Wire, q: Quote)
    requires IsExit(w, q)
    ensures PlaceOne(p, w, q) == Placing(p.acct, p.next + 1, p.legs + [Leg(p.next, Trigger, Resting)])
  {
    hide FreeMargin;
  }

  /** Exits are accepted whatever the account, so of a batch all of them reach the book, and the entry if it is
      accepted. */
  lemma {:induction false} ExitsArrive(acct: Account, next: int, wires: seq<Wire>, quotes: seq<Quote>)
    requires |wires| == |quotes| && |wires| > 0 && AreExits(wires, quotes)
    ensures
      var legs := PlaceAll(acct, next, wires, quotes).legs;
      var head := if IsHeaded(acct, wires, quotes) then 1 else 0;
      && |legs| == head + |wires| - 1
      && (forall i :: head <= i < |legs| ==> legs[i] == Leg(next + i, Trigger, Resting))
    decreases |wires|
  {
    hide PlaceOne, Decide, IsExit;
    var n := |wires| - 1;
    var p := PlaceAll(acct, next, wires[..n], quotes[..n]);
    assert PlaceAll(acct, next, wires, quotes) == PlaceOne(p, wires[n], quotes[n]);
    hide PlaceAll;
    if n == 0 {
      OnlyEntry(acct, next, wires, quotes);
    } else {
      LegsInTurn(acct, next, wires[..n], quotes[..n]);
      ExitsArrive(acct, next, wires[..n], quotes[..n]);
      ExitRests(p, wires[n], quotes[n]);
    }
  }

  lemma OnlyEntry(acct: Account, next: int, wires: seq<Wire>, quotes: seq<Quote>)
    requires |wires| == |quotes| == 1
    ensures |PlaceAll(acct, next, wires, quotes).legs| == if IsHeaded(acct, wires, quotes) then 1 else 0
  {
    assert wires[..0] == [] && quotes[..0] == [];
    hide Decide, ExecuteFill, ArrivalOf;
  }

  /** The entry decides, on any book any run has led to: a normalTpsl batch of an entry and two or more exits makes the
      exits one another's siblings if and only if the entry is accepted. */
  lemma {:induction false} EntryDecides(turns: seq<BracketRuns.Turn>, listing: Listing,
                                        user: int, acct: Account, next: int, wires: seq<Wire>, quotes: seq<Quote>)
    requires BracketRuns.IsRun(turns) && IsNext(BracketRuns.After(turns).book, next)
    requires |wires| == |quotes| && |wires| > 2 && AreExits(wires, quotes)
    ensures
      var legs, headed := PlaceAll(acct, next, wires, quotes).legs, IsHeaded(acct, wires, quotes);
      var exits := BracketRuns.ExitsOf(NormalTpsl, legs, headed);
      var e := Place(user, NormalTpsl, legs, headed);
      && IsEnabled(BracketRuns.After(turns), e)
      && |exits| == |wires| - 1
      && (Decide(acct, wires[0], quotes[0]) != Refused
          <==> BracketRuns.AreSiblings(Step(BracketRuns.After(turns), e, listing).book, exits))
  {
    var w := BracketRuns.After(turns);
    BracketRuns.RunKeeps(turns);
    var legs, headed := PlaceAll(acct, next, wires, quotes).legs, IsHeaded(acct, wires, quotes);
    ExitsArrive(acct, next, wires, quotes);
    BatchIsFresh(w.book, acct, next, wires, quotes);
    assert headed <==> Decide(acct, wires[0], quotes[0]) != Refused;
    hide Inv, PlaceAll, Decide, AreExits, BracketRuns.AreSiblings, BracketRuns.IsRun, BracketRuns.After, Step, FreshLegs, IsHeaded;
    BracketRuns.BatchLinks(w, user, legs, headed, listing);
  }

  /** If it is rejected, the first exit and any other may both fill in what follows. */
  lemma {:induction false} RejectedEntryFillsTwice(turns: seq<BracketRuns.Turn>, listing: Listing,
                                                   user: int, acct: Account, next: int, wires: seq<Wire>, quotes: seq<Quote>, i: nat)
    requires BracketRuns.IsRun(turns) && IsListing(listing) && IsNext(BracketRuns.After(turns).book, next)
    requires |wires| == |quotes| && 0 < i < |wires| - 1 && AreExits(wires, quotes)
    requires Decide(acct, wires[0], quotes[0]) == Refused
    ensures
      var legs := PlaceAll(acct, next, wires, quotes).legs;
      var placed := turns + [BracketRuns.Turn(Place(user, NormalTpsl, legs, false), listing)];
      var both := BracketRuns.Fills(placed, next, next + i, listing);
      && BracketRuns.IsRun(both)
      && HasStatus(BracketRuns.After(both).book, next, Filled) && HasStatus(BracketRuns.After(both).book, next + i, Filled)
  {
    hide PlaceAll, Decide, AreExits, BracketRuns.IsRun, BracketRuns.After, BracketRuns.Fills, FreshLegs, HasStatus, IsListing, IsEnabled, IsNext;
    var legs := PlaceAll(acct, next, wires, quotes).legs;
    ExitsArrive(acct, next, wires, quotes);
    BatchIsFresh(BracketRuns.After(turns).book, acct, next, wires, quotes);
    assert legs[0] == Leg(next, Trigger, Resting) && legs[i] == Leg(next + i, Trigger, Resting);
    hide *;
    BracketRuns.HeadlessExitsBothFill(turns, user, legs, i, listing);
  }

  /** An entry that executes with nothing to reduce is answered as filled, yet stays open, watched by no matcher, and
      none of its exits may fill. */
  lemma {:induction false} IdleEntryHolds(turns: seq<BracketRuns.Turn>, listing: Listing,
                                          user: int, acct: Account, next: int, wires: seq<Wire>, quotes: seq<Quote>, i: nat)
    requires BracketRuns.IsRun(turns) && IsListing(listing) && IsNext(BracketRuns.After(turns).book, next)
    requires |wires| == |quotes| && 0 < i < |wires| && AreExits(wires, quotes)
    requires Decide(acct, wires[0], quotes[0]) == Executes
    requires wires[0].reduceOnly && !IsReducing(acct.Szi(wires[0].asset), wires[0].isBuy)
    ensures
      var p := PlaceAll(acct, next, wires, quotes);
      var placed := turns + [BracketRuns.Turn(Place(user, NormalTpsl, p.legs, true), listing)];
      var w := BracketRuns.After(placed);
      && BracketRuns.IsRun(placed)
      && IsOpen(w.book, next) && !BracketRuns.IsWatched(w.book, next)
      && IsOpen(w.book, next + i) && !IsEnabled(w, Event.Fill(next + i))
  {
    hide BracketRuns.IsRun, BracketRuns.After, PlaceAll, AreExits, FreshLegs, IsListing, IsEnabled, IsNext;
    var legs := PlaceAll(acct, next, wires, quotes).legs;
    EntryIsIdle(acct, next, wires, quotes);
    hide Decide;
    ExitsArrive(acct, next, wires, quotes);
    BatchIsFresh(BracketRuns.After(turns).book, acct, next, wires, quotes);
    assert legs[0] == Leg(next, Limit, Idle) && legs[i] == Leg(next + i, Trigger, Resting);
    hide *;
    IdleHeadHolds(turns, listing, user, legs, i);
  }

  lemma EntryIsIdle(acct: Account, next: int, wires: seq<Wire>, quotes: seq<Quote>)
    requires |wires| == |quotes| && |wires| > 0 && Decide(acct, wires[0], quotes[0]) == Executes
    requires wires[0].reduceOnly && !IsReducing(acct.Szi(wires[0].asset), wires[0].isBuy)
    ensures [Leg(next, Limit, Idle)] <= PlaceAll(acct, next, wires, quotes).legs
    ensures IsHeaded(acct, wires, quotes)
  {
    FirstStays(acct, next, wires, quotes);
    hide PlaceAll, Decide, ExecuteFill;
  }

  lemma {:induction false} IdleHeadHolds(turns: seq<BracketRuns.Turn>, listing: Listing, user: int, legs: seq<Leg>, i: nat)
    requires BracketRuns.IsRun(turns) && IsListing(listing) && FreshLegs(BracketRuns.After(turns).book, legs)
    requires 0 < i < |legs| && legs[0].arrival == Idle && legs[i].arrival == Resting && legs[i].kind == Trigger
    ensures
      var placed := turns + [BracketRuns.Turn(Place(user, NormalTpsl, legs, true), listing)];
      var w := BracketRuns.After(placed);
      && BracketRuns.IsRun(placed)
      && IsOpen(w.book, legs[0].oid) && !BracketRuns.IsWatched(w.book, legs[0].oid)
      && IsOpen(w.book, legs[i].oid) && !IsEnabled(w, Event.Fill(legs[i].oid))
  {
    var v := BracketRuns.After(turns);
    var e := Place(user, NormalTpsl, legs, true);
    assert IsEnabled(v, e);
    BracketRuns.RunKeeps(turns);
    HeadAndExit(v, user, legs, i, listing);
    hide Inv, FreshLegs, IsListing, BracketRuns.IsRun, BracketRuns.After, Step, IsEnabled, BracketRuns.IsWatched;
    BracketRuns.RunOn(turns, e, listing);
    BracketRuns.ExitsStayDormant(turns + [BracketRuns.Turn(e, listing)], legs[i].oid);
  }

  lemma HeadAndExit(w: World, user: int, legs: seq<Leg>, i: nat, listing: Listing)
    requires Inv(w) && FreshLegs(w.book, legs)
    requires 0 < i < |legs| && legs[0].arrival == Idle && legs[i].arrival == Resting && legs[i].kind == Trigger
    ensures
      var v := Step(w, Place(user, NormalTpsl, legs, true), listing);
      && IsOpen(v.book, legs[0].oid) && !BracketRuns.IsWatched(v.book, legs[0].oid)
      && IsOpen(v.book, legs[i].oid) && legs[i].oid in v.book.triggerIndex && v.book.orders[legs[i].oid].kind == Trigger
      && legs[i].oid in v.entry && v.entry[legs[i].oid] == legs[0].oid
  {
    HeadAndExitPlaced(w, user, legs, i);
    assert legs[1..][i - 1] == legs[i];
    hide Inv, PlaceLegs, LinkClique, FreshLegs;
  }

  lemma HeadAndExitPlaced(w: World, user: int, legs: seq<Leg>, i: nat)
    requires Inv(w) && FreshLegs(w.book, legs)
    requires 0 < i < |legs| && legs[0].arrival == Idle && legs[i].arrival == Resting && legs[i].kind == Trigger
    ensures
      var c := PlaceLegs(w.book, user, legs);
      && IsOpen(c, legs[0].oid) && !BracketRuns.IsWatched(c, legs[0].oid)
      && IsOpen(c, legs[i].oid) && legs[i].oid in c.triggerIndex && c.orders[legs[i].oid].kind == Trigger
  {
    InvParts(w);
    assert forall l :: l in legs ==> l.oid !in w.book.openIndex && l.oid !in w.book.triggerIndex;
    hide Inv, Known, Layered, Cliques, OneFill, Attached, Indexed, PlaceLegs;
    PlaceGrows(w.book, user, legs);
    BracketRuns.PlaceFollows(w.book, user, legs, legs[0].oid);
    BracketRuns.PlacedLeg(w.book, user, legs, i);
    assert legs[0] in legs && legs[i] in legs;
    assert legs[i].oid in Oids(legs);
    hide FreshLegs, Oids;
  }

  // ---- A modified order's replacement ----

  /** How the one order of a modify came out. */
  function ReplacementOf(legs: seq<Leg>): Replacement
    requires |legs| <= 1
  {
    if |legs| == 0 then Replacement.Rejected
    else if legs[0].arrival == Resting then Replacement.Rests(legs[0].oid, legs[0].kind)
    else FillsAtOnce(legs[0].oid, legs[0].kind, legs[0].arrival == Executed)
  }

  lemma ReplacementIsPlaced(b: Book, user: int, legs: seq<Leg>)
    requires |legs| <= 1
    ensures PlaceReplacement(b, user, ReplacementOf(legs)) == PlaceLegs(b, user, legs)
  {
    if |legs| == 1 {
      assert legs == [ReplacementLeg(ReplacementOf(legs))];
    }
    hide PlaceLegs;
  }
}
