/** All TWAPs as the store holds them: their records, the set the matcher scans, and the history row each one
    leaves when it ends (src/worker/order-matcher.ts, src/engine/order.ts). */
module TwapStore {
  import opened Prelude
  import opened Twap
  import opened TwapSafety

  /** How an order ended, and what it had executed by then. */
  datatype Row = Row(status: Status, executed: real)

  datatype Book = Book(orders: map<int, Order>, active: set<int>, closed: map<int, Row>)

  const EMPTY: Book := Book(map[], {}, map[])

  /** The row of an order that already has one is left alone. */
  function Record(b: Book, id: int, row: Row): Book {
    if id in b.closed then b else b.(closed := b.closed[id := row])
  }

  function Create(b: Book, id: int, o: Order, stepValue: Option<real>): Book {
    if !IsPlaceable(o, stepValue) then b else b.(orders := b.orders[id := o], active := b.active + {id})
  }

  function Cancel(b: Book, user: int, id: int): Book {
    if id !in b.orders || b.orders[id].user != user || b.orders[id].status != Running then b
    else
      var o := b.orders[id];
      Record(b.(orders := b.orders[id := o.(status := Cancelled)], active := b.active - {id}), id, Row(Cancelled, o.filled))
  }

  /** The matcher's work on one id of its scan. */
  function MatchOne(b: Book, id: int, k: Tick): Book
    requires id in b.orders ==> k.now >= b.orders[id].start
  {
    if id !in b.orders then b.(active := b.active - {id})
    else
      var o := b.orders[id];
      if o.status != Running then
        var b' := b.(active := b.active - {id});
        if o.status == Cancelled then Record(b', id, Row(Cancelled, o.filled)) else b'
      else
        var o' := TickOrder(o, k);
        var b' := b.(orders := b.orders[id := o']);
        if o'.status == Finished then Record(b'.(active := b.active - {id}), id, Row(Finished, o.filled)) else b'
  }

  function MatchAll(b: Book, ids: seq<int>, ticks: int -> Tick): Book
    requires forall id :: id in b.orders ==> ticks(id).now >= b.orders[id].start
    ensures MatchAll(b, ids, ticks).orders.Keys == b.orders.Keys
    ensures forall id :: id in b.orders ==> MatchAll(b, ids, ticks).orders[id].start == b.orders[id].start
  {
    if |ids| == 0 then b
    else MatchOne(MatchAll(b, ids[..|ids| - 1], ticks), ids[|ids| - 1], ticks(ids[|ids| - 1]))
  }

  // ---- Runs ----

  /** Placement (under a fresh id), user cancel, and one order of one matcher scan, each with its time. */
  datatype Event =
    | CreateTwap(id: int, user: int, total: real, minutes: nat, at: int, randomize: bool, stepValue: Option<real>)
    | CancelTwap(user: int, id: int, at: int)
    | Match(id: int, tick: Tick)
  {
    function Time(): int {
      match this
      case CreateTwap(_, _, _, _, at, _, _) => at
      case CancelTwap(_, _, at) => at
      case Match(_, tick) => tick.now
    }

    predicate Valid() {
      Match? ==> tick.Valid()
    }
  }

  function Placed(e: Event): Order
    requires e.CreateTwap?
  {
    NewOrder(e.user, e.total, e.minutes, e.at, e.randomize)
  }

  predicate IsCreated(b: Book, e: Event)
    requires e.CreateTwap?
  {
    e.id !in b.orders && IsPlaceable(Placed(e), e.stepValue)
  }

  function Step(b: Book, e: Event): Book {
    match e
    case CreateTwap(id, _, _, _, _, _, _) => if id in b.orders then b else Create(b, id, Placed(e), e.stepValue)
    case CancelTwap(user, id, _) => Cancel(b, user, id)
    case Match(id, tick) => if id in b.orders && tick.now < b.orders[id].start then b else MatchOne(b, id, tick)
  }

  /** Events come in the order of time. */
  ghost predicate IsHistory(es: seq<Event>) {
    && (forall i :: 0 <= i < |es| ==> es[i].Valid())
    && (forall i, j :: 0 <= i < j < |es| ==> es[i].Time() <= es[j].Time())
  }

  ghost function Run(es: seq<Event>): Book {
    if |es| == 0 then EMPTY else Step(Run(es[..|es| - 1]), es[|es| - 1])
  }

  // ---- One row for every ended order ----

  predicate EntryOk(b: Book, id: int) {
    && (id in b.active <==> id in b.orders && b.orders[id].status == Running)
    && (id in b.closed <==> id in b.orders && b.orders[id].status != Running)
    && (id in b.closed ==> b.closed[id] == Row(b.orders[id].status, b.orders[id].filled))
  }

  ghost predicate Inv(b: Book) {
    forall id :: EntryOk(b, id)
  }

  /** A closing row, and the order it closes, stay as they are. */
  predicate Closed(b: Book, b': Book, id: int) {
    id in b.closed ==>
      && id in b'.closed && b'.closed[id] == b.closed[id]
      && id in b.orders && id in b'.orders && b'.orders[id] == b.orders[id]
  }

  lemma StepKeeps(b: Book, e: Event)
    requires Inv(b)
    ensures Inv(Step(b, e)) && forall id :: Closed(b, Step(b, e), id)
  {
    hide Decide, Times;
    forall id ensures EntryOk(Step(b, e), id) && Closed(b, Step(b, e), id) {
      assert EntryOk(b, id);
      assert e.Match? ==> EntryOk(b, e.id);
      assert e.CancelTwap? ==> EntryOk(b, e.id);
      assert e.CreateTwap? ==> EntryOk(b, e.id);
    }
  }

  /** In every run an order is scanned exactly while it runs, and has a closing row exactly once it has ended; the
      row says how it ended and all it ever filled, and neither changes afterwards. */
  lemma {:induction false} OneClosingRow(es: seq<Event>, i: nat)
    requires i <= |es|
    ensures Inv(Run(es)) && forall id :: Closed(Run(es[..i]), Run(es), id)
    decreases |es|
  {
    if |es| > 0 {
      var front := es[..|es| - 1];
      OneClosingRow(front, if i < |es| then i else i - 1);
      StepKeeps(Run(front), es[|es| - 1]);
      if i < |es| {
        assert front[..i] == es[..i];
        forall id ensures Closed(Run(es[..i]), Run(es), id) {
          assert Closed(Run(es[..i]), Run(front), id) && Closed(Run(front), Run(es), id);
        }
      }
      hide Step;
    }
    if i == |es| {
      assert es[..i] == es;
      forall id ensures Closed(Run(es), Run(es), id) {
        assert EntryOk(Run(es), id);
      }
    }
  }

  // ---- Each order runs as if alone ----

  /** The ticks an order was matched with, and its placement. */
  ghost function TicksOf(es: seq<Event>, id: int): seq<Tick> {
    if |es| == 0 then []
    else
      var front, e := es[..|es| - 1], es[|es| - 1];
      if e.Match? && e.id == id && id in Run(front).orders && Run(front).orders[id].status == Running
         && e.tick.now >= Run(front).orders[id].start
      then TicksOf(front, id) + [e.tick]
      else TicksOf(front, id)
  }

  ghost function PlacementOf(es: seq<Event>, id: int): Option<Order> {
    if |es| == 0 then None
    else
      var front, e := es[..|es| - 1], es[|es| - 1];
      if e.CreateTwap? && e.id == id && IsCreated(Run(front), e) then Some(Placed(e)) else PlacementOf(front, id)
  }

  /** The order as its own ticks, none later than now, leave it, cancelled or not. */
  ghost predicate Alone(b: Book, now: int, placed: Option<Order>, ks: seq<Tick>, id: int) {
    && (id in b.orders <==> placed.Some?)
    && (if placed.None? then ks == [] else
          var o := b.orders[id];
          && IsPlaced(placed.value)
          && IsRun(placed.value, ks)
          && (forall i :: 0 <= i < |ks| ==> ks[i].now <= now)
          && (o == After(placed.value, ks)
              || (o.status == Cancelled && o == After(placed.value, ks).(status := Cancelled))))
  }

  lemma AloneLater(b: Book, now: int, now': int, placed: Option<Order>, ks: seq<Tick>, id: int)
    requires Alone(b, now, placed, ks, id) && now <= now'
    ensures Alone(b, now', placed, ks, id)
  {
  }

  lemma AloneStep(b: Book, e: Event, placed: Order, ks: seq<Tick>, id: int)
    requires Alone(b, e.Time(), Some(placed), ks, id) && e.Valid()
    ensures
      var matched := e.Match? && e.id == id && b.orders[id].status == Running && e.tick.now >= b.orders[id].start;
      Alone(Step(b, e), e.Time(), Some(placed), if matched then ks + [e.tick] else ks, id)
  {
    StepOnOrder(b, e, id);
    hide Step, TickOrder;
    if e.Match? && e.id == id && b.orders[id].status == Running && e.tick.now >= b.orders[id].start {
      ExtendRun(placed, ks, e.tick);
    }
  }

  function LastTime(es: seq<Event>): int {
    if |es| == 0 then 0 else es[|es| - 1].Time()
  }

  lemma StepOnOrder(b: Book, e: Event, id: int)
    requires id in b.orders
    ensures
      var o, b' := b.orders[id], Step(b, e);
      && id in b'.orders
      && b'.orders[id] ==
           if e.Match? && e.id == id && o.status == Running && e.tick.now >= o.start then TickOrder(o, e.tick)
           else if e.CancelTwap? && e.id == id && o.status == Running && o.user == e.user then o.(status := Cancelled)
           else o
  {
    hide TickOrder;
  }

  lemma StepOnNone(b: Book, e: Event, id: int)
    requires id !in b.orders
    ensures id in Step(b, e).orders <==> e.CreateTwap? && e.id == id && IsCreated(b, e)
    ensures id in Step(b, e).orders ==> Step(b, e).orders[id] == Placed(e)
  {
    hide TickOrder;
  }

  lemma ExtendRun(o: Order, ks: seq<Tick>, k: Tick)
    requires IsRun(o, ks) && k.Valid() && k.now >= o.start
    requires forall i :: 0 <= i < |ks| ==> ks[i].now <= k.now
    ensures IsRun(o, ks + [k]) && After(o, ks + [k]) == TickOrder(After(o, ks), k)
  {
    var more := ks + [k];
    assert more[..|more| - 1] == ks;
    forall i | 0 <= i < |more| ensures more[i].Valid() && more[i].now >= o.start {
    }
    hide TickOrder;
  }

  /** In every history each order is in the state its own ticks leave it in, whatever happens to the others. */
  lemma {:induction false} EveryOrderRunsAlone(es: seq<Event>, id: int)
    requires IsHistory(es)
    ensures Alone(Run(es), LastTime(es), PlacementOf(es, id), TicksOf(es, id), id)
    decreases |es|
  {
    if |es| > 0 {
      var front, e := es[..|es| - 1], es[|es| - 1];
      var b := Run(front);
      EveryOrderRunsAlone(front, id);
      if PlacementOf(front, id).Some? {
        assert TicksOf(front, id) != [] ==> |front| > 0;
        AloneLater(b, LastTime(front), if |front| > 0 then e.Time() else LastTime(front),
                   PlacementOf(front, id), TicksOf(front, id), id);
        hide Step, After;
        AloneStep(b, e, PlacementOf(front, id).value, TicksOf(front, id), id);
      } else {
        StepOnNone(b, e, id);
        hide Step;
      }
    }
  }

  /** So in every history of placements, cancels and scans, no order fills more than its size or runs ahead of its
      schedule. */
  lemma {:induction false} NoOrderOverfills(es: seq<Event>, id: int)
    requires IsHistory(es) && id in Run(es).orders
    ensures WithinSize(Run(es).orders[id])
    ensures Run(es).orders[id].status == Running ==> NotAhead(Run(es).orders[id])
  {
    EveryOrderRunsAlone(es, id);
    var placed, ks := PlacementOf(es, id).value, TicksOf(es, id);
    NeverOverfills(placed, ks);
    NeverRunsAhead(placed, ks);
    hide Run, NotAhead;
  }

  // ---- The store in place ----

  class TwapStore {
    var orders: map<int, Order>
    var active: set<int>
    var closed: map<int, Row>

    constructor ()
      ensures Contents() == EMPTY
    {
      orders, active, closed := map[], {}, map[];
    }

    ghost function Contents(): Book
      reads this
    {
      Book(orders, active, closed)
    }

    method CreateTwapOrder(id: int, user: int, total: real, minutes: nat, now: int, randomize: bool,
                           stepValue: Option<real>)
      returns (ok: bool)
      requires id !in orders
      modifies this`orders, this`active
      ensures Contents() == Step(old(Contents()), CreateTwap(id, user, total, minutes, now, randomize, stepValue))
      ensures ok <==> Contents() != old(Contents())
    {
      if total <= 0.0 {
        return false;
      }
      if stepValue.Some? && Times(Over(total, PlannedSlices(minutes) as real), stepValue.value) < MIN_NOTIONAL {
        return false;
      }
      orders := orders[id := NewOrder(user, total, minutes, now, randomize)];
      active := active + {id};
      ok := true;
    }

    method CancelTwapOrder(user: int, id: int) returns (ok: bool)
      modifies this
      ensures Contents() == Cancel(old(Contents()), user, id)
      ensures ok <==> old(id in orders && orders[id].user == user && orders[id].status == Running)
    {
      if id !in orders || orders[id].user != user || orders[id].status != Running {
        return false;
      }
      var executed := orders[id].filled;
      orders := orders[id := orders[id].(status := Cancelled)];
      active := active - {id};
      FinalizeHistory(id, Cancelled, executed);
      ok := true;
    }

    method FinalizeHistory(id: int, status: Status, executed: real)
      modifies this`closed
      ensures Contents() == Record(old(Contents()), id, Row(status, executed))
    {
      if id !in closed {
        closed := closed[id := Row(status, executed)];
      }
    }

    /** One scan over the set as it was listed, in whatever order. */
    method MatchTwaps(ticks: int -> Tick) returns (scanned: seq<int>)
      requires forall id :: id in orders ==> ticks(id).now >= orders[id].start
      modifies this
      ensures Contents() == MatchAll(old(Contents()), scanned, ticks)
      ensures multiset(scanned) == multiset(old(active))
    {
      scanned := [];
      var rest := active;
      ghost var b := Contents();
      hide MatchOne;
      while rest != {}
        invariant rest <= old(active)
        invariant multiset(scanned) == multiset(old(active) - rest)
        invariant Contents() == MatchAll(b, scanned, ticks)
      {
        assert (forall y :: y !in rest) ==> rest == {};
        var id :| id in rest;
        ghost var next := scanned + [id];
        assert next[..|next| - 1] == scanned;
        assert old(active) - (rest - {id}) == (old(active) - rest) + {id};
        MatchTwap(id, ticks(id));
        scanned := scanned + [id];
        rest := rest - {id};
      }
    }

    method MatchTwap(id: int, k: Tick)
      requires id in orders ==> k.now >= orders[id].start
      modifies this
      ensures Contents() == MatchOne(old(Contents()), id, k)
    {
      if id !in orders {
        active := active - {id};
        return;
      }
      var o := orders[id];
      if o.status != Running {
        active := active - {id};
        if o.status == Cancelled {
          FinalizeHistory(id, Cancelled, o.filled);
        }
        return;
      }
      var d := Decide(o, k.now);
      hide Decide, Times;
      if d == Finish {
        orders := orders[id := o.(status := Finished, lastAt := Some(k.now))];
        active := active - {id};
        FinalizeHistory(id, Finished, o.filled);
      } else if d.Submit? && k.hasMid {
        var interval := if o.randomize then k.jitter else SLICE_INTERVAL;
        orders := orders[id := o.(filled := if k.accepted then o.filled + d.slice as real else o.filled,
                                  lastAt := Some(k.now), nextAt := Some(k.now + interval))];
      } else {
        assert orders == old(orders)[id := o];
      }
    }
  }
}
