/** What holds of trailing stops in every run: the four lives a stop can have, the set the matcher scans, the
    size left unfilled, the discipline of reduce-only stops, and that the stored state is the automaton's. */
module TrailingStopSafety {
  import opened Prelude
  import opened TrailingMath
  import opened TrailingHash
  import opened TrailingStops
  import OrderMargin

  // ---- The invariant ----

  /** The history rows of an order in each state. */
  function RowsOf(status: Status): seq<Status> {
    match status
    case Open => [Open]
    case Triggered => [Open, Triggered]
    case Filled => [Open, Triggered, Filled]
    case Canceled => [Open, Canceled]
    case ReduceOnlyCanceled => [Open, ReduceOnlyCanceled]
    case MarginCanceled => [Open, Triggered, MarginCanceled]
  }

  predicate StopOk(s: Stop) {
    && s.status != Triggered
    && s.history == RowsOf(s.status)
    && s.sz > 0.0
    && (if s.status == Filled then 0.0 < s.filledSz <= s.sz && (s.reduceOnly ==> s.filledSz == s.sz) else s.filledSz == 0.0)
    && !IsBroken(s.hash)
  }

  ghost predicate Scanned(w: World) {
    forall oid :: oid in w.trailing <==> w.IsOpen(oid)
  }

  ghost predicate AllOk(w: World) {
    forall oid :: oid in w.stops ==> StopOk(w.stops[oid])
  }

  ghost predicate Inv(w: World) {
    Scanned(w) && AllOk(w)
  }

  /** How one stop may change: only an open stop changes, its terms stay, its history grows. */
  predicate Later(s: Stop, s': Stop) {
    && (s.user, s.asset, s.isBuy, s.reduceOnly, s.sz) == (s'.user, s'.asset, s'.isBuy, s'.reduceOnly, s'.sz)
    && s.history <= s'.history
    && (s.status != Open ==> s' == s)
  }

  ghost predicate Grows(w: World, w': World) {
    forall oid :: oid in w.stops ==> oid in w'.stops && Later(w.stops[oid], w'.stops[oid])
  }

  lemma FinishKeeps(w: World, oid: int, status: Status, rows: seq<Status>, filledSz: real)
    requires Inv(w) && w.IsOpen(oid) && status != Open
    requires StopOk(w.stops[oid].(status := status, filledSz := filledSz, history := [Open] + rows))
    ensures Inv(Finish(w, oid, status, rows, filledSz)) && Grows(w, Finish(w, oid, status, rows, filledSz))
  {
    var s := w.stops[oid];
    var s' := s.(status := status, filledSz := filledSz, history := s.history + rows);
    assert StopOk(s);
    assert Finish(w, oid, status, rows, filledSz).stops[oid] == s';
    assert s.history == [Open];
    assert StopOk(s');
    hide StopOk;
  }

  lemma EndOrphansKeeps(w: World, oids: set<int>)
    requires Inv(w) && forall oid :: oid in oids ==> w.IsOpen(oid)
    ensures Inv(EndOrphans(w, oids)) && Grows(w, EndOrphans(w, oids))
  {
    var w' := EndOrphans(w, oids);
    forall oid | oid in w.stops
      ensures StopOk(w'.stops[oid]) && Later(w.stops[oid], w'.stops[oid])
    {
      assert StopOk(w.stops[oid]);
    }
  }

  lemma MoveKeeps(w: World, user: int, changes: map<int, real>)
    requires Inv(w)
    ensures Inv(MovePositions(w, user, changes)) && Grows(w, MovePositions(w, user, changes))
  {
    var moved := WithPositions(w, user, changes);
    assert forall oid :: moved.IsOpen(oid) == w.IsOpen(oid);
    assert Inv(moved);
    EndOrphansKeeps(moved, Orphans(moved, user, changes));
  }

  lemma GrowsOn(w: World, w': World, w'': World)
    requires Grows(w, w') && Grows(w', w'')
    ensures Grows(w, w'')
  {
    forall oid | oid in w.stops
      ensures oid in w''.stops && Later(w.stops[oid], w''.stops[oid])
    {
      assert Later(w.stops[oid], w'.stops[oid]) && Later(w'.stops[oid], w''.stops[oid]);
    }
  }

  lemma FireKeeps(w: World, oid: int, funds: Funds, mark: real)
    requires Inv(w) && mark > 0.0
    ensures Inv(Fire(w, oid, funds, mark)) && Grows(w, Fire(w, oid, funds, mark))
  {
    if w.IsOpen(oid) {
      var s := w.stops[oid];
      assert StopOk(s);
      var szi := w.Szi(s.user, s.asset);
      match OutcomeOf(s, szi, funds, mark)
      case Rests =>
      case Unaffordable => FinishKeeps(w, oid, MarginCanceled, [Triggered, MarginCanceled], s.filledSz);
      case Fires(sz) =>
        assert 0.0 < sz <= s.sz && (s.reduceOnly ==> sz == s.sz);
        FinishKeeps(w, oid, Filled, [Triggered, Filled], sz);
        var finished := Finish(w, oid, Filled, [Triggered, Filled], sz);
        var changes := map[s.asset := SziAfterFire(s, szi, sz)];
        hide *;
        MoveKeeps(finished, s.user, changes);
        GrowsOn(w, finished, MovePositions(finished, s.user, changes));
        FireOf(w, oid, funds, mark, sz);
    }
  }

  lemma FireOf(w: World, oid: int, funds: Funds, mark: real, sz: real)
    requires w.IsOpen(oid) && mark > 0.0
    requires OutcomeOf(w.stops[oid], w.Szi(w.stops[oid].user, w.stops[oid].asset), funds, mark) == Fires(sz)
    ensures
      var s := w.stops[oid];
      Fire(w, oid, funds, mark)
      == MovePositions(Finish(w, oid, Filled, [Triggered, Filled], sz), s.user,
                       map[s.asset := SziAfterFire(s, w.Szi(s.user, s.asset), sz)])
  {
  }

  /** A tick leaves a record that can be read again. */
  lemma TickReads(isBuy: bool, h: Hash, mark: real)
    requires !IsBroken(h)
    ensures
      var ev := Evaluate(ReadParams(isBuy, h), ReadState(h), mark);
      ReadState(TrailingHash.Tick(isBuy, h, mark)) == ev.state && !IsBroken(TrailingHash.Tick(isBuy, h, mark))
  {
    var ev := Evaluate(ReadParams(isBuy, h), ReadState(h), mark);
    assert ev.state.activated <==> ev.state.best.Some?;
    hide Evaluate, Persist, ReadParams;
    PersistReads(h, ev, TrActivated);
    PersistReads(h, ev, TrBest);
  }

  function Stepped(w: World, oid: int, mark: real): World
    requires oid in w.stops
  {
    var s := w.stops[oid];
    w.(stops := w.stops[oid := s.(hash := TrailingHash.Tick(s.isBuy, s.hash, mark))])
  }

  lemma {:induction false} TickKeeps(w: World, oid: int, quote: Option<real>, funds: Funds)
    requires Inv(w) && (quote.Some? ==> quote.value > 0.0)
    ensures Inv(TickStop(w, oid, quote, funds)) && Grows(w, TickStop(w, oid, quote, funds))
  {
    if w.IsOpen(oid) && quote.Some? {
      var s := w.stops[oid];
      assert StopOk(s);
      TickReads(s.isBuy, s.hash, quote.value);
      var stepped := Stepped(w, oid, quote.value);
      hide TrailingHash.Tick, Evaluate, Fire, IsBroken, ReadState, ReadParams;
      assert forall o :: stepped.IsOpen(o) == w.IsOpen(o);
      assert StopOk(stepped.stops[oid]);
      FireKeeps(stepped, oid, funds, quote.value);
      if EvalOf(s, quote.value).fire {
        GrowsOn(w, stepped, Fire(stepped, oid, funds, quote.value));
      }
    }
  }

  lemma NewStopOk(e: Event)
    requires e.Place? && e.sz > 0.0
    ensures StopOk(NewStop(e))
  {
    PlacedStores(e.params, e.mark);
    var ev := Evaluate(e.params, WAITING, e.mark);
    ReadsBack(Placed(e.params, e.mark), e.params, ev.state);
    hide Placed, Stores, ReadState, ReadParams;
  }

  lemma PlaceKeeps(w: World, e: Event)
    requires Inv(w) && e.Place? && e.Valid()
    ensures Inv(Step(w, e)) && Grows(w, Step(w, e))
  {
    if IsPlaced(w, e) {
      NewStopOk(e);
      hide Placed, IsBroken, StopOk;
    }
  }

  lemma {:induction false} StepKeeps(w: World, e: Event)
    requires Inv(w) && e.Valid()
    ensures Inv(Step(w, e)) && Grows(w, Step(w, e))
  {
    match e
    case Place(_, _, _, _, _, _, _, _) => PlaceKeeps(w, e);
    case CancelStop(user, oid) =>
      if w.IsOpen(oid) && w.stops[oid].user == user {
        assert StopOk(w.stops[oid]);
        FinishKeeps(w, oid, Canceled, [Canceled], w.stops[oid].filledSz);
      }
    case Modify(_, _) =>
    case Tick(oid, quote, funds) => TickKeeps(w, oid, quote, funds);
    case Trade(user, changes) => MoveKeeps(w, user, changes);
  }

  lemma {:induction false} RunKeeps(es: seq<Event>)
    requires IsRun(es)
    ensures Inv(Run(es))
    decreases |es|
  {
    if |es| > 0 {
      RunKeeps(es[..|es| - 1]);
      StepKeeps(Run(es[..|es| - 1]), es[|es| - 1]);
      hide Step;
    }
  }

  // ---- The four lives of a stop ----

  /** In every run each stop's history is a prefix of one of the four lives, the matcher scans exactly the open
      stops, only filled stops have a filled size, and a filled reduce-only stop counts as filled whole. */
  lemma {:induction false} EveryLifeIsOneOfFour(es: seq<Event>, oid: int)
    requires IsRun(es) && oid in Run(es).stops
    ensures
      var w := Run(es);
      var s := w.stops[oid];
      && (s.history in {[Open], [Open, Canceled], [Open, ReduceOnlyCanceled],
                        [Open, Triggered, Filled], [Open, Triggered, MarginCanceled]})
      && s.history[|s.history| - 1] == s.status
      && (oid in w.trailing <==> s.status == Open)
      && (s.filledSz > 0.0 <==> s.status == Filled)
      && 0.0 <= s.Remainder() <= s.sz
      && (s.status == Filled && s.reduceOnly ==> s.Remainder() == 0.0)
  {
    RunKeeps(es);
    assert StopOk(Run(es).stops[oid]);
    hide Run;
  }

  /** Histories are append-only, a stop's terms never change, and an ended stop never changes at all. */
  lemma {:induction false} HistoriesGrow(es: seq<Event>, i: nat)
    requires IsRun(es) && i <= |es|
    ensures Grows(Run(es[..i]), Run(es))
    decreases |es|
  {
    if i == |es| {
      assert es[..i] == es;
    } else {
      var front := es[..|es| - 1];
      RunKeeps(front);
      StepKeeps(Run(front), es[|es| - 1]);
      HistoriesGrow(front, i);
      assert front[..i] == es[..i];
      GrowsOn(Run(es[..i]), Run(front), Run(es));
      hide Step;
    }
  }

  // ---- Reduce-only discipline ----

  /** An open reduce-only stop has something to reduce. */
  predicate Reduces(w: World, oid: int) {
    w.IsOpen(oid) && w.stops[oid].reduceOnly ==>
      CanReduce(w.Szi(w.stops[oid].user, w.stops[oid].asset), w.stops[oid].isBuy)
  }

  /** What a position change does to a stop: one of that user and a moved asset can reduce or is closed, any
      other sees the same position as before. */
  lemma MoveReduces(w: World, user: int, changes: map<int, real>, oid: int)
    requires Scanned(w) && oid in w.stops
    ensures
      var w', s := MovePositions(w, user, changes), w.stops[oid];
      && oid in w'.stops
      && (s.user == user && s.asset in changes ==> Reduces(w', oid))
      && (!(s.user == user && s.asset in changes) ==>
            w'.Szi(s.user, s.asset) == w.Szi(s.user, s.asset) && w'.stops[oid] == s)
  {
    var s := w.stops[oid];
    var moved := WithPositions(w, user, changes);
    var w' := MovePositions(w, user, changes);
    assert moved.IsOpen(oid) ==> oid in moved.trailing;
    assert w'.stops[oid] == Orphaned(s, oid in Orphans(moved, user, changes));
    if s.user == user && s.asset in changes {
      assert w'.Szi(user, s.asset) == changes[s.asset];
    }
  }

  /** The position a stop looks at changed, or it could reduce before, so it can reduce now. */
  predicate StillReduces(w: World, w': World, oid: int)
    requires oid in w.stops
  {
    var s := w.stops[oid];
    && oid in w'.stops
    && (Reduces(w, oid) || w.Szi(s.user, s.asset) != w'.Szi(s.user, s.asset) ==> Reduces(w', oid))
  }

  lemma MoveStillReduces(w: World, user: int, changes: map<int, real>, oid: int)
    requires Scanned(w) && oid in w.stops
    ensures StillReduces(w, MovePositions(w, user, changes), oid)
  {
    MoveReduces(w, user, changes, oid);
    hide MovePositions, CanReduce;
  }

  lemma FinishStillReduces(w: World, fired: int, status: Status, rows: seq<Status>, filledSz: real, oid: int)
    requires Scanned(w) && w.IsOpen(fired) && oid in w.stops && status != Open
    ensures var w' := Finish(w, fired, status, rows, filledSz);
      Scanned(w') && StillReduces(w, w', oid) && w'.positions == w.positions && oid in w'.stops
      && (w'.stops[oid].user, w'.stops[oid].asset) == (w.stops[oid].user, w.stops[oid].asset)
  {
    hide CanReduce;
  }

  lemma FireStillReduces(w: World, fired: int, funds: Funds, mark: real, oid: int)
    requires Scanned(w) && w.IsOpen(fired) && oid in w.stops && mark > 0.0
    ensures StillReduces(w, Fire(w, fired, funds, mark), oid)
  {
    var f := w.stops[fired];
    var szi := w.Szi(f.user, f.asset);
    match OutcomeOf(f, szi, funds, mark)
    case Rests =>
    case Unaffordable => FinishStillReduces(w, fired, MarginCanceled, [Triggered, MarginCanceled], f.filledSz, oid);
    case Fires(sz) =>
      FireOf(w, fired, funds, mark, sz);
      FinishStillReduces(w, fired, Filled, [Triggered, Filled], sz, oid);
      var finished := Finish(w, fired, Filled, [Triggered, Filled], sz);
      MoveStillReduces(finished, f.user, map[f.asset := SziAfterFire(f, szi, sz)], oid);
      hide Fire, Finish, MovePositions, OutcomeOf, SziAfterFire, CanReduce;
  }

  /** Whatever step moved the position of a stop's user and asset, the stop can reduce the new one or is
      closed; and a stop that could reduce still can. */
  lemma {:induction false} StepReduces(w: World, e: Event, oid: int)
    requires Inv(w) && e.Valid() && oid in w.stops
    ensures StillReduces(w, Step(w, e), oid)
  {
    match e
    case Trade(user, changes) => MoveStillReduces(w, user, changes, oid);
    case Tick(fired, quote, funds) =>
      if w.IsOpen(fired) && quote.Some? {
        var stepped := Stepped(w, fired, quote.value);
        SteppedReduces(w, fired, quote.value, oid);
        FireStillReduces(stepped, fired, funds, quote.value, oid);
        hide Fire, TrailingHash.Tick, CanReduce, EvalOf;
      }
    case CancelStop(user, fired) =>
      if w.IsOpen(fired) {
        FinishStillReduces(w, fired, Canceled, [Canceled], w.stops[fired].filledSz, oid);
      }
    case _ =>
  }

  lemma SteppedReduces(w: World, fired: int, mark: real, oid: int)
    requires Scanned(w) && w.IsOpen(fired) && oid in w.stops
    ensures var w' := Stepped(w, fired, mark);
      && Scanned(w') && w'.IsOpen(fired) && oid in w'.stops && w'.positions == w.positions
      && (w'.stops[oid].user, w'.stops[oid].asset) == (w.stops[oid].user, w.stops[oid].asset)
      && Reduces(w', oid) == Reduces(w, oid)
  {
    hide TrailingHash.Tick, CanReduce;
  }

  /** After every change of a position, by whatever event, each reduce-only stop of that user and asset that is
      still open can reduce it, and goes on being able to: only a stop placed later can rest with nothing to
      reduce. */
  lemma {:induction false} OnlyNewStopsAreIdle(es: seq<Event>, i: nat, oid: int)
    requires IsRun(es) && i < |es| && oid in Run(es[..i]).stops
    requires
      var s := Run(es[..i]).stops[oid];
      Run(es[..i]).Szi(s.user, s.asset) != Run(es[..i + 1]).Szi(s.user, s.asset)
    ensures oid in Run(es).stops && Reduces(Run(es), oid)
    decreases |es|
  {
    var front, last := es[..|es| - 1], es[|es| - 1];
    RunKeeps(front);
    hide Step;
    if i == |es| - 1 {
      assert es[..i] == front && es[..i + 1] == es;
      StepReduces(Run(front), last, oid);
    } else {
      assert front[..i] == es[..i] && front[..i + 1] == es[..i + 1];
      OnlyNewStopsAreIdle(front, i, oid);
      StepReduces(Run(front), last, oid);
    }
  }

  // ---- Firing ----

  /** A reduce-only stop that fires moves the position strictly towards zero and never across it. */
  lemma ReduceOnlyFireShrinks(s: Stop, szi: real, funds: Funds, mark: real)
    requires s.reduceOnly && s.sz > 0.0 && mark > 0.0
    ensures OutcomeOf(s, szi, funds, mark) == if CanReduce(szi, s.isBuy) then Fires(s.sz) else Rests
    ensures CanReduce(szi, s.isBuy) ==>
              var szi' := SziAfterFire(s, szi, s.sz);
              (szi > 0.0 && szi' == Max(0.0, szi - s.sz) < szi) || (szi < 0.0 && szi' == Min(0.0, szi + s.sz) > szi)
  {
  }

  lemma MoveOnly(w: World, user: int, changes: map<int, real>, u: int, a: int)
    ensures MovePositions(w, user, changes).Szi(u, a)
         == if u == user && a in changes then changes[a] else w.Szi(u, a)
  {
  }

  /** A stop that fires moves its user's position by the size it records as filled, in its own direction, a
      reduce-only one no further than to zero; no other position moves. */
  lemma FireMovesPosition(w: World, oid: int, funds: Funds, mark: real, user: int, asset: int)
    requires w.IsOpen(oid) && mark > 0.0 && w.stops[oid].sz > 0.0
    ensures
      var s, w' := w.stops[oid], Fire(w, oid, funds, mark);
      var szi := w.Szi(user, asset);
      && oid in w'.stops
      && w'.Szi(user, asset) ==
           (if !(w'.stops[oid].status == Filled && user == s.user && asset == s.asset) then szi
            else if !s.reduceOnly then szi + (if s.isBuy then w'.stops[oid].filledSz else -w'.stops[oid].filledSz)
            else if s.isBuy then Min(0.0, szi + s.sz) else Max(0.0, szi - s.sz))
  {
    var s := w.stops[oid];
    var szi := w.Szi(s.user, s.asset);
    match OutcomeOf(s, szi, funds, mark)
    case Rests =>
    case Unaffordable =>
    case Fires(sz) =>
      FireOf(w, oid, funds, mark, sz);
      var finished := Finish(w, oid, Filled, [Triggered, Filled], sz);
      MoveOnly(finished, s.user, map[s.asset := SziAfterFire(s, szi, sz)], user, asset);
      assert s.reduceOnly ==> CanReduce(szi, s.isBuy) && sz == s.sz;
      assert 0.0 < sz;
      FilledStays(finished, s.user, map[s.asset := SziAfterFire(s, szi, sz)], oid);
      hide Fire, Finish, MovePositions, OutcomeOf;
  }

  lemma FilledStays(w: World, user: int, changes: map<int, real>, oid: int)
    requires oid in w.stops && w.stops[oid].status == Filled
    ensures oid in MovePositions(w, user, changes).stops && MovePositions(w, user, changes).stops[oid] == w.stops[oid]
  {
  }

  predicate Passes(s: Stop, szi: real, funds: Funds, mark: real, sz: real) {
    OrderMargin.CheckMargin(funds.available, funds.leverage, szi, s.isBuy, sz, mark)
  }

  /** A stop that may open fires for what the margin check lets through: for its whole size, or else for the
      largest size of the coin's grid that passes, and it is margin-cancelled only when no size of the grid
      does. */
  lemma {:induction false} FireFillsWhatFits(s: Stop, szi: real, funds: Funds, mark: real)
    requires !s.reduceOnly && s.sz > 0.0 && mark > 0.0
    ensures
      var decimals := ReadParams(s.isBuy, s.hash).szDecimals;
      match OutcomeOf(s, szi, funds, mark)
      case Rests => false
      case Unaffordable =>
        forall z :: OnGrid(z, decimals) && 0.0 < z <= s.sz ==> !Passes(s, szi, funds, mark, z)
      case Fires(sz) =>
        && 0.0 < sz <= s.sz && Passes(s, szi, funds, mark, sz)
        && (sz < s.sz ==> OnGrid(sz, decimals))
        && (forall z :: OnGrid(z, decimals) && sz < z <= s.sz ==> !Passes(s, szi, funds, mark, z))
  {
    var cap := OrderMargin.MaxAffordable(funds.available, funds.leverage, szi, s.isBuy, mark);
    var decimals := ReadParams(s.isBuy, s.hash).szDecimals;
    forall z | z > 0.0
      ensures Passes(s, szi, funds, mark, z) <==> cap.None? || z <= cap.value
    {
      OrderMargin.CheckAgreesWithLimit(funds.available, funds.leverage, szi, s.isBuy, z, mark);
    }
    if cap.Some? {
      RoundDownIsLargest(cap.value, decimals);
    }
    hide Passes, OrderMargin.MaxAffordable, RoundDown, OnGrid, ReadParams;
  }

  // ---- The store follows the automaton ----

  /** The marks a stop has been evaluated on, the first at its placement. */
  ghost function MarksSeen(es: seq<Event>, oid: int): seq<real>
    requires IsRun(es)
  {
    if |es| == 0 then []
    else
      var front, e := es[..|es| - 1], es[|es| - 1];
      var seen := MarksSeen(front, oid);
      if e.Place? && e.oid == oid && IsPlaced(Run(front), e) then [e.mark]
      else if e.Tick? && e.oid == oid && e.quote.Some? && Run(front).IsOpen(oid) then seen + [e.quote.value]
      else seen
  }

  /** The parameters it was placed with. */
  ghost function ParamsOf(es: seq<Event>, oid: int): Option<Params>
    requires IsRun(es)
  {
    if |es| == 0 then None
    else
      var front, e := es[..|es| - 1], es[|es| - 1];
      if e.Place? && e.oid == oid && IsPlaced(Run(front), e) then Some(e.params) else ParamsOf(front, oid)
  }

  ghost predicate Follows(es: seq<Event>, oid: int)
    requires IsRun(es)
  {
    oid in Run(es).stops ==>
      && |MarksSeen(es, oid)| > 0
      && ParamsOf(es, oid).Some?
      && Run(es).stops[oid].isBuy == ParamsOf(es, oid).value.isBuy
      && Run(es).stops[oid].hash == StoredAfter(ParamsOf(es, oid).value, MarksSeen(es, oid))
  }

  predicate SameRecord(w: World, w': World, oid: int)
    requires oid in w.stops
  {
    oid in w'.stops && w'.stops[oid].hash == w.stops[oid].hash && w'.stops[oid].isBuy == w.stops[oid].isBuy
  }

  lemma FireRecord(w: World, fired: int, funds: Funds, mark: real, oid: int)
    requires oid in w.stops && mark > 0.0
    ensures SameRecord(w, Fire(w, fired, funds, mark), oid)
  {
    hide OutcomeOf, SziAfterFire;
  }

  /** A stop's hash changes only by its own ticks while it is open. */
  lemma {:induction false} HashOfStep(w: World, e: Event, oid: int)
    requires Inv(w) && e.Valid() && oid in w.stops
    ensures
      var s, s' := w.stops[oid], Step(w, e).stops;
      && oid in s'
      && s'[oid].isBuy == s.isBuy
      && s'[oid].hash ==
           (if e.Tick? && e.oid == oid && e.quote.Some? && w.IsOpen(oid)
            then TrailingHash.Tick(s.isBuy, s.hash, e.quote.value) else s.hash)
  {
    if e.Tick? {
      if w.IsOpen(e.oid) && e.quote.Some? {
        assert StopOk(w.stops[e.oid]);
        FireRecord(Stepped(w, e.oid, e.quote.value), e.oid, e.funds, e.quote.value, oid);
      }
      hide TrailingHash.Tick, Fire, EvalOf, IsBroken;
    } else {
      hide Placed;
    }
  }

  /** What one event appends to the marks a stop has seen. */
  lemma {:induction false} HashFollowsOn(es: seq<Event>, oid: int)
    requires IsRun(es) && |es| > 0
    requires Follows(es[..|es| - 1], oid) && oid in Run(es[..|es| - 1]).stops
    ensures Follows(es, oid)
  {
    var front, e := es[..|es| - 1], es[|es| - 1];
    var w, seen := Run(front), MarksSeen(front, oid);
    RunKeeps(front);
    HashOfStep(w, e, oid);
    assert e.Place? && e.oid == oid ==> !IsPlaced(w, e);
    var p := ParamsOf(es, oid);
    assert p == ParamsOf(front, oid);
    var ticked := e.Tick? && e.oid == oid && e.quote.Some? && w.IsOpen(oid);
    assert MarksSeen(es, oid) == if ticked then seen + [e.quote.value] else seen;
    hide Step, Inv, IsPlaced, MarksSeen, ParamsOf;
    if ticked {
      StoredOnTick(p.value, seen, e.quote.value);
    }
    hide StoredAfter, TrailingHash.Tick;
  }

  lemma StoredOnTick(p: Params, seen: seq<real>, mark: real)
    requires |seen| > 0
    ensures StoredAfter(p, seen + [mark]) == TrailingHash.Tick(p.isBuy, StoredAfter(p, seen), mark)
  {
    var all := seen + [mark];
    assert all[..|all| - 1] == seen;
    hide TrailingHash.Tick;
  }

  lemma {:induction false} HashFollows(es: seq<Event>, oid: int)
    requires IsRun(es)
    ensures Follows(es, oid)
    decreases |es|
  {
    if |es| > 0 {
      var front, e := es[..|es| - 1], es[|es| - 1];
      HashFollows(front, oid);
      if oid in Run(front).stops {
        HashFollowsOn(es, oid);
      } else {
        NewOnlyByPlace(Run(front), e, oid);
        hide Placed, Step, IsPlaced;
      }
    }
  }

  lemma NewOnlyByPlace(w: World, e: Event, oid: int)
    requires e.Valid() && oid !in w.stops
    ensures oid in Step(w, e).stops ==>
              e.Place? && e.oid == oid && IsPlaced(w, e) && Step(w, e).stops[oid] == NewStop(e)
  {
    hide TrailingHash.Tick, Placed, OutcomeOf, SziAfterFire, Evaluate;
  }

  /** In every run, whatever else happened, a stop's stored state is the automaton's after exactly the marks it
      was evaluated on while open. */
  lemma {:induction false} StoredStateIsAutomaton(es: seq<Event>, oid: int)
    requires IsRun(es) && oid in Run(es).stops
    ensures |MarksSeen(es, oid)| > 0 && ParamsOf(es, oid).Some?
    ensures
      var s, p := Run(es).stops[oid], ParamsOf(es, oid).value;
      && ReadParams(s.isBuy, s.hash) == p
      && ReadState(s.hash) == After(p, MarksSeen(es, oid))
  {
    HashFollows(es, oid);
    StoreFollowsAutomaton(ParamsOf(es, oid).value, MarksSeen(es, oid));
  }

  /** An open stop stays open through an evaluation exactly if the mark does not fire the automaton, or the stop
      is reduce-only and has nothing to reduce. */
  lemma TickEndsStop(w: World, e: Event)
    requires Inv(w) && e.Tick? && e.Valid() && w.IsOpen(e.oid) && e.quote.Some?
    ensures
      var s := w.stops[e.oid];
      && !IsBroken(s.hash)
      && e.oid in Step(w, e).stops
      && (Step(w, e).IsOpen(e.oid) <==>
            !EvalOf(s, e.quote.value).fire || (s.reduceOnly && !CanReduce(w.Szi(s.user, s.asset), s.isBuy)))
  {
    assert StopOk(w.stops[e.oid]);
    var stepped := Stepped(w, e.oid, e.quote.value);
    FireEnds(stepped, e.oid, e.funds, e.quote.value);
    hide TrailingHash.Tick, Fire, EvalOf, IsBroken, StopOk;
  }

  lemma FireEnds(w: World, oid: int, funds: Funds, mark: real)
    requires w.IsOpen(oid) && mark > 0.0
    ensures
      var s := w.stops[oid];
      && oid in Fire(w, oid, funds, mark).stops
      && (Fire(w, oid, funds, mark).IsOpen(oid) <==> s.reduceOnly && !CanReduce(w.Szi(s.user, s.asset), s.isBuy))
  {
    hide RoundDown, ReadParams, OrderMargin.MaxAffordable, SziAfterFire;
  }

  /** Any other event leaves an open stop open, cancelled or orphaned. */
  lemma OnlyTicksFire(w: World, e: Event, oid: int)
    requires Inv(w) && e.Valid() && w.IsOpen(oid) && !(e.Tick? && e.oid == oid && e.quote.Some?)
    ensures oid in Step(w, e).stops && Step(w, e).stops[oid].status in {Open, Canceled, ReduceOnlyCanceled}
  {
    if e.Tick? {
      if w.IsOpen(e.oid) && e.quote.Some? {
        FireOthers(Stepped(w, e.oid, e.quote.value), e.oid, e.funds, e.quote.value, oid);
      }
      hide TrailingHash.Tick, Fire, EvalOf, IsBroken;
    } else {
      hide Placed;
    }
  }

  lemma FireOthers(w: World, fired: int, funds: Funds, mark: real, oid: int)
    requires w.IsOpen(oid) && oid != fired && mark > 0.0
    ensures var w' := Fire(w, fired, funds, mark);
      oid in w'.stops && w'.stops[oid].status in {Open, ReduceOnlyCanceled}
  {
    hide OutcomeOf, SziAfterFire;
  }

  /** In every run, the event on which a stop is filled or margin-cancelled is a mark that crosses the trigger of
      everything the stop has seen since it was placed. */
  lemma {:induction false} FiresOnlyWhenCrossed(es: seq<Event>, oid: int)
    requires IsRun(es) && |es| > 0 && Run(es[..|es| - 1]).IsOpen(oid)
    requires oid in Run(es).stops && Run(es).stops[oid].status in {Filled, MarginCanceled}
    ensures |MarksSeen(es, oid)| > 0 && ParamsOf(es, oid).Some?
    ensures LastEval(ParamsOf(es, oid).value, MarksSeen(es, oid)).fire
  {
    var front, e := es[..|es| - 1], es[|es| - 1];
    var w := Run(front);
    RunKeeps(front);
    StoredStateIsAutomaton(front, oid);
    hide Step;
    if e.Tick? && e.oid == oid && e.quote.Some? {
      TickEndsStop(w, e);
      var seen := MarksSeen(front, oid);
      assert MarksSeen(es, oid) == seen + [e.quote.value];
      assert MarksSeen(es, oid)[..|seen|] == seen;
      hide Evaluate, After, ReadParams, ReadState, CanReduce;
    } else {
      OnlyTicksFire(w, e, oid);
    }
  }
}
