/** The order engine as it runs (src/engine/order.ts): placing a batch order by order on the account and the book, and
    modifying an order. Each method is tied to the functions that specify it. */
module OrderEngine {
  import opened Prelude
  import opened Account
  import opened Fills
  import opened OrderMargin
  import opened Brackets
  import opened Placement
  import OrderStore

  class OrderEngine {
    var acct: Account
    var nextOid: int
    const store: OrderStore.OrderStore

    constructor (acct: Account, store: OrderStore.OrderStore)
      ensures this.acct == acct && this.store == store && nextOid == 1
    {
      this.acct, this.store, nextOid := acct, store, 1;
    }

    /** The state of a batch on its way. */
    ghost function State(legs: seq<Leg>): Placing
      reads this
    {
      Placing(acct, nextOid, legs)
    }

    method FreeMarginOf(q: Quotes) returns (free: real)
      ensures free == FreeMargin(acct, q)
    {
      hide SumOf;
      var pnl := CalculateTotal(acct.positions, PnlAt(q));
      var used := CalculateTotal(acct.positions, UsedAt(q));
      free := acct.balance + pnl - used;
    }

    method CheckMarginFor(w: Wire, q: Quote, px: real) returns (ok: bool)
      ensures ok == Affords(FreeMargin(acct, q.margins), acct.Szi(w.asset), w, q, px)
    {
      hide FreeMargin;
      var free := FreeMarginOf(q.margins);
      ok := Affords(free, acct.Szi(w.asset), w, q, px);
    }

    /** The fresh hash of an order, resting or not. */
    method Save(user: int, kind: Kind, arrival: Arrival) returns (leg: Leg)
      modifies this`nextOid, store`orders, store`openIndex, store`triggerIndex
      ensures leg == Leg(old(nextOid), kind, arrival) && nextOid == old(nextOid) + 1
      ensures store.Book() == PlaceLeg(old(store.Book()), user, leg)
    {
      leg := Leg(nextOid, kind, arrival);
      nextOid := nextOid + 1;
      store.SaveLeg(user, leg);
    }

    /** One order: refused, rested, or executed at once. */
    method PlaceSingleOrder(user: int, w: Wire, q: Quote) returns (leg: Option<Leg>)
      modifies this, store`orders, store`openIndex, store`triggerIndex
      ensures State(if leg.Some? then [leg.value] else []) == PlaceOne(old(State([])), w, q)
      ensures store.Book() == if leg.Some? then PlaceLeg(old(store.Book()), user, leg.value) else old(store.Book())
    {
      hide FreeMargin, ExecuteFill, PlaceLeg;
      leg := None;
      if !q.isListed || w.sz <= 0.0 {
        return;
      }
      if !Placement.MayOpen(acct.Szi(w.asset), w, q) {
        return;
      }
      if w.isTrigger {
        var l := Save(user, Trigger, Resting);
        return Some(l);
      }
      if w.tif.None? {
        return;
      }
      if CrossesMid(w, q) {
        if w.tif.value == Alo {
          return;
        }
        var ok := CheckMarginFor(w, q, MidOf(w, q).value);
        if !ok {
          return;
        }
        var arrival := ArrivalOf(acct.Szi(w.asset), w, q);
        var l := Save(user, Limit, arrival);
        acct := ExecuteFill(acct, ExecutionOf(w, q));
        return Some(l);
      }
      if w.tif.value == Ioc {
        return;
      }
      var ok := CheckMarginFor(w, q, w.limitPx);
      if !ok {
        return;
      }
      var l := Save(user, Limit, Resting);
      return Some(l);
    }

    /** A batch, order by order; then the links between those that reached the book. */
    method PlaceOrders(user: int, grouping: Grouping, wires: seq<Wire>, quotes: seq<Quote>) returns (legs: seq<Leg>)
      requires |wires| == |quotes|
      modifies this, store
      ensures State(legs) == PlaceAll(old(acct), old(nextOid), wires, quotes)
      ensures store.Book() == Brackets.PlaceOrders(old(store.Book()), user, grouping, legs)
    {
      hide PlaceOne;
      legs := [];
      var i := 0;
      while i < |wires|
        invariant 0 <= i <= |wires|
        invariant State(legs) == PlaceAll(old(acct), old(nextOid), wires[..i], quotes[..i])
        invariant store.Book() == PlaceLegs(old(store.Book()), user, legs)
      {
        assert wires[..i + 1][..i] == wires[..i] && quotes[..i + 1][..i] == quotes[..i];
        OneMore(State([]), legs, wires[i], quotes[i]);
        var leg := PlaceSingleOrder(user, wires[i], quotes[i]);
        if leg.Some? {
          assert (legs + [leg.value])[..|legs|] == legs;
          legs := legs + [leg.value];
        }
        i := i + 1;
      }
      assert wires[..i] == wires && quotes[..i] == quotes;
      store.LinkBatch(grouping, legs);
    }

    /** A modify: the order is closed, its replacement is placed like any order, and its links move. */
    method ModifyOrder(user: int, oid: int, w: Wire, q: Quote, listing: Listing) returns (done: bool)
      modifies this, store
      ensures done <==> IsOpen(old(store.Book()), oid) && old(store.orders)[oid].user == user
      ensures !done ==> State([]) == old(State([])) && store.Book() == old(store.Book())
      ensures done ==>
                var p := PlaceOne(old(State([])), w, q);
                && State(p.legs) == p && |p.legs| <= 1
                && store.Book() == Brackets.ModifyOrder(old(store.Book()), user, oid, ReplacementOf(p.legs), listing)
    {
      if oid !in store.orders || store.orders[oid].user != user || store.orders[oid].status != Open {
        return false;
      }
      hide PlaceOne, CarryBracketLinks, PlaceLeg;
      store.SetStatus(oid, Cancelled);
      var leg := PlaceSingleOrder(user, w, q);
      var legs := if leg.Some? then [leg.value] else [];
      ReplacementIsPlaced(WithStatus(old(store.Book()), {oid}, Cancelled), user, legs);
      assert legs == [] || legs[..0] == [];
      store.CarryLinks(user, oid, ReplacementOf(legs), listing);
      done := true;
    }
  }

  /** Placing an order adds to the batch what it would add on its own. */
  lemma OneMore(p: Placing, legs: seq<Leg>, w: Wire, q: Quote)
    requires p.legs == []
    ensures PlaceOne(p.(legs := legs), w, q) == PlaceOne(p, w, q).(legs := legs + PlaceOne(p, w, q).legs)
  {
    hide Decide, ExecuteFill, ArrivalOf;
  }
}
