/** The life of trailing stops: placed, followed tick by tick, fired against the user's position, cancelled,
    or ended when the position they were to reduce is gone (src/engine/trailingStop.ts,
    src/engine/trailing-state.ts, fireTrailingStop in src/worker/order-matcher.ts). */
module TrailingStops {
  import opened Prelude
  import opened MarginTiers
  import opened TrailingMath
  import opened TrailingHash
  import Fills
  import OrderMargin

  /** The states an order can be in; the history also has rows that say it triggered. */
  datatype Status = Open | Triggered | Filled | Canceled | ReduceOnlyCanceled | MarginCanceled

  /** One order hash, its trailing fields apart, with the history rows written for it. */
  datatype Stop = Stop(
    user: int, asset: int, isBuy: bool, reduceOnly: bool, sz: real, filledSz: real,
    status: Status, hash: Hash, history: seq<Status>)
  {
    function Remainder(): real { sz - filledSz }
  }

  /** The stops, the set the matcher scans, and the signed position sizes by user and asset. */
  datatype World = World(stops: map<int, Stop>, trailing: set<int>, positions: map<(int, int), real>)
  {
    function Szi(user: int, asset: int): real {
      if (user, asset) in positions then positions[(user, asset)] else 0.0
    }

    predicate IsOpen(oid: int) {
      oid in stops && stops[oid].status == Open
    }
  }

  const EMPTY: World := World(map[], {}, map[])

  predicate CanReduce(szi: real, isBuy: bool) {
    if szi > 0.0 then !isBuy else if szi < 0.0 then isBuy else false
  }

  // ---- Ending a stop ----

  function Finish(w: World, oid: int, status: Status, rows: seq<Status>, filledSz: real): World
    requires oid in w.stops
  {
    var s := w.stops[oid];
    w.(stops := w.stops[oid := s.(status := status, filledSz := filledSz, history := s.history + rows)],
       trailing := w.trailing - {oid})
  }

  function Terminate(w: World, oid: int, status: Status, afterTrigger: bool): World {
    if !w.IsOpen(oid) then w
    else Finish(w, oid, status, if afterTrigger then [Triggered, status] else [status], w.stops[oid].filledSz)
  }

  function Cancel(w: World, user: int, oid: int): World {
    if w.IsOpen(oid) && w.stops[oid].user == user then Terminate(w, oid, Canceled, false) else w
  }

  /** An open reduce-only stop that the user's changed position leaves nothing to reduce. */
  predicate IsOrphan(w: World, user: int, changes: map<int, real>, oid: int) {
    && oid in w.trailing && w.IsOpen(oid)
    && var s := w.stops[oid];
       s.user == user && s.asset in changes && s.reduceOnly && !CanReduce(changes[s.asset], s.isBuy)
  }

  function Orphans(w: World, user: int, changes: map<int, real>): set<int> {
    set oid | oid in w.trailing && IsOrphan(w, user, changes, oid)
  }

  /** Every listed stop ended as an orphan. */
  function EndOrphans(w: World, oids: set<int>): World {
    w.(stops := map oid | oid in w.stops :: Orphaned(w.stops[oid], oid in oids), trailing := w.trailing - oids)
  }

  function Orphaned(s: Stop, ended: bool): Stop {
    if ended then s.(status := ReduceOnlyCanceled, history := s.history + [ReduceOnlyCanceled]) else s
  }

  function Reconcile(w: World, user: int, changes: map<int, real>): World {
    EndOrphans(w, Orphans(w, user, changes))
  }

  function WithPositions(w: World, user: int, changes: map<int, real>): World {
    w.(positions := w.positions + map a | a in changes :: (user, a) := changes[a])
  }

  /** A trade or a liquidation moves positions of one user; every moved asset is reconciled at once. */
  function MovePositions(w: World, user: int, changes: map<int, real>): World {
    Reconcile(WithPositions(w, user, changes), user, changes)
  }

  // ---- Firing ----

  datatype Outcome = Rests | Unaffordable | Fires(sz: real)

  /** What the account can spend when a stop fires. */
  datatype Funds = Funds(available: real, leverage: Leverage)

  function OutcomeOf(s: Stop, szi: real, funds: Funds, mark: real): Outcome
    requires mark > 0.0
  {
    if s.reduceOnly then
      if CanReduce(szi, s.isBuy) then Fires(s.sz) else Rests
    else
      var cap := OrderMargin.MaxAffordable(funds.available, funds.leverage, szi, s.isBuy, mark);
      if cap.None? then Fires(s.sz)
      else
        var affordable := RoundDown(cap.value, ReadParams(s.isBuy, s.hash).szDecimals);
        if affordable >= s.sz then Fires(s.sz)
        else if affordable > 0.0 then Fires(affordable)
        else Unaffordable
  }

  /** The position after the stop's market order for so much. */
  function SziAfterFire(s: Stop, szi: real, sz: real): real {
    var executed := Fills.ExecutableSz(szi, Fills.Order(s.asset, s.isBuy, sz, 0.0, s.reduceOnly, None));
    szi + (if s.isBuy then executed else -executed)
  }

  function Fire(w: World, oid: int, funds: Funds, mark: real): World
    requires mark > 0.0
  {
    if !w.IsOpen(oid) then w
    else
      var s := w.stops[oid];
      var szi := w.Szi(s.user, s.asset);
      match OutcomeOf(s, szi, funds, mark)
      case Rests => w
      case Unaffordable => Terminate(w, oid, MarginCanceled, true)
      case Fires(sz) =>
        MovePositions(Finish(w, oid, Filled, [Triggered, Filled], sz), s.user,
                      map[s.asset := SziAfterFire(s, szi, sz)])
  }

  // ---- Steps ----

  /** The user's leverage for an asset, and the most the asset allows, if that is known. */
  datatype Leveraged = Leveraged(leverage: Leverage, maxLeverage: Option<int>)

  /** What can happen to the stops: placement, user cancel, modify (always refused), one matcher tick of one
      stop, and any other order's fill or liquidation. */
  datatype Event =
    | Place(oid: int, user: int, asset: int, reduceOnly: bool, sz: real, params: Params, mark: real, setting: Leveraged)
    | CancelStop(user: int, oid: int)
    | Modify(user: int, oid: int)
    | Tick(oid: int, quote: Option<real>, funds: Funds)
    | Trade(user: int, changes: map<int, real>)
  {
    /** Marks are positive prices. */
    predicate Valid() {
      match this
      case Place(_, _, _, _, _, _, mark, _) => mark > 0.0
      case Tick(_, quote, _) => quote.Some? ==> quote.value > 0.0
      case _ => true
    }
  }

  /** A stop that could open or grow a position needs a leverage within the asset's limit. */
  predicate MayOpen(szi: real, reduceOnly: bool, isBuy: bool, setting: Leveraged) {
    reduceOnly || CanReduce(szi, isBuy) || setting.maxLeverage.None? || setting.leverage <= setting.maxLeverage.value
  }

  /** Placement takes a fresh id, and a stop that passes validation and the leverage limit; it checks neither margin
      nor, for a reduce-only stop, the position. */
  predicate IsPlaced(w: World, e: Event)
    requires e.Place?
  {
    && e.oid !in w.stops && e.sz > 0.0 && e.params.Valid() && IsAccepted(e.params, e.mark)
    && MayOpen(w.Szi(e.user, e.asset), e.reduceOnly, e.params.isBuy, e.setting)
  }

  function NewStop(e: Event): Stop
    requires e.Place?
  {
    Stop(e.user, e.asset, e.params.isBuy, e.reduceOnly, e.sz, 0.0, Open, Placed(e.params, e.mark), [Open])
  }

  function EvalOf(s: Stop, mark: real): Eval
    requires !IsBroken(s.hash)
  {
    Evaluate(ReadParams(s.isBuy, s.hash), ReadState(s.hash), mark)
  }

  function TickStop(w: World, oid: int, quote: Option<real>, funds: Funds): World
    requires quote.Some? ==> quote.value > 0.0
  {
    if !w.IsOpen(oid) then w.(trailing := w.trailing - {oid})
    else if quote.None? || IsBroken(w.stops[oid].hash) then w
    else
      var s := w.stops[oid];
      var stepped := w.(stops := w.stops[oid := s.(hash := TrailingHash.Tick(s.isBuy, s.hash, quote.value))]);
      if EvalOf(s, quote.value).fire then Fire(stepped, oid, funds, quote.value) else stepped
  }

  function Step(w: World, e: Event): World
    requires e.Valid()
  {
    match e
    case Place(oid, _, _, _, _, _, _, _) =>
      if IsPlaced(w, e) then w.(stops := w.stops[oid := NewStop(e)], trailing := w.trailing + {oid}) else w
    case CancelStop(user, oid) => Cancel(w, user, oid)
    case Modify(_, _) => w
    case Tick(oid, quote, funds) => TickStop(w, oid, quote, funds)
    case Trade(user, changes) => MovePositions(w, user, changes)
  }

  ghost predicate IsRun(es: seq<Event>) {
    forall i :: 0 <= i < |es| ==> es[i].Valid()
  }

  ghost function Run(es: seq<Event>): World
    requires IsRun(es)
  {
    if |es| == 0 then EMPTY else Step(Run(es[..|es| - 1]), es[|es| - 1])
  }
}
