/** The trailing stops as the store holds them and the methods that rewrite them in place: placement,
    cancel, termination, the reduce-only reconciliation, firing, and the matcher's scan. */
module TrailingStore {
  import opened Prelude
  import opened TrailingMath
  import opened TrailingHash
  import opened TrailingStops
  import OrderMargin

  /** The fresh mark of a stop's coin, if the feed has one. */
  function QuoteOf(w: World, oid: int, quotes: map<int, real>): Option<real> {
    if oid in w.stops && w.stops[oid].asset in quotes then Some(quotes[w.stops[oid].asset]) else None
  }

  /** One scan of the matcher, in the order the set was listed. */
  function TickAll(w: World, oids: seq<int>, quotes: map<int, real>, funds: int -> Funds): World
    requires forall a :: a in quotes ==> quotes[a] > 0.0
  {
    if |oids| == 0 then w
    else
      var n := |oids| - 1;
      var before := TickAll(w, oids[..n], quotes, funds);
      TickStop(before, oids[n], QuoteOf(before, oids[n], quotes), funds(oids[n]))
  }

  class TrailingStore {
    var stops: map<int, Stop>
    var trailing: set<int>
    var positions: map<(int, int), real>

    constructor ()
      ensures World() == EMPTY
    {
      stops, trailing, positions := map[], {}, map[];
    }

    ghost function World(): World
      reads this
    {
      TrailingStops.World(stops, trailing, positions)
    }

    method PlaceTrailingStop(oid: int, user: int, asset: int, reduceOnly: bool, sz: real, params: Params, mark: real,
                             setting: Leveraged)
      returns (placed: bool)
      requires mark > 0.0
      modifies this`stops, this`trailing
      ensures World() == Step(old(World()), Place(oid, user, asset, reduceOnly, sz, params, mark, setting))
      ensures placed <==> World() != old(World())
    {
      if oid in stops || sz <= 0.0 || !params.Valid() || !IsAccepted(params, mark) {
        return false;
      }
      if !reduceOnly {
        var szi := if (user, asset) in positions then positions[(user, asset)] else 0.0;
        var reducing := (szi > 0.0 && !params.isBuy) || (szi < 0.0 && params.isBuy);
        if !reducing && setting.maxLeverage.Some? && setting.leverage > setting.maxLeverage.value {
          return false;
        }
      }
      stops := stops[oid := Stop(user, asset, params.isBuy, reduceOnly, sz, 0.0, Open, Placed(params, mark), [Open])];
      trailing := trailing + {oid};
      placed := true;
    }

    method CancelTrailingStop(user: int, oid: int)
      modifies this`stops, this`trailing
      ensures World() == Cancel(old(World()), user, oid)
    {
      if oid in stops && stops[oid].user == user {
        TerminateTrailingStop(oid, Canceled, false);
      }
    }

    method TerminateTrailingStop(oid: int, status: Status, afterTrigger: bool)
      modifies this`stops, this`trailing
      ensures World() == Terminate(old(World()), oid, status, afterTrigger)
    {
      if oid !in stops || stops[oid].status != Open {
        return;
      }
      var rows := if afterTrigger then [Triggered, status] else [status];
      stops := stops[oid := stops[oid].(status := status, history := stops[oid].history + rows)];
      trailing := trailing - {oid};
    }

    /** Every open reduce-only stop of the user and asset that newSzi leaves nothing to reduce is ended, one by
        one, in whatever order the set lists them. */
    method ReconcileReduceOnlyStops(user: int, asset: int, newSzi: real) returns (ended: set<int>)
      modifies this`stops, this`trailing
      ensures World() == Reconcile(old(World()), user, map[asset := newSzi])
      ensures ended == Orphans(old(World()), user, map[asset := newSzi])
    {
      ghost var w := World();
      ghost var changes := map[asset := newSzi];
      ended := {};
      var rest := trailing;
      EndNone(w);
      while rest != {}
        invariant rest <= w.trailing
        invariant ended == set oid | oid in w.trailing - rest && IsOrphan(w, user, changes, oid)
        invariant World() == EndOrphans(w, ended)
      {
        assert (forall y :: y !in rest) ==> rest == {};
        var oid :| oid in rest;
        assert oid !in ended;
        if oid in stops && stops[oid].status == Open && stops[oid].user == user && stops[oid].asset == asset
           && stops[oid].reduceOnly && !CanReduce(newSzi, stops[oid].isBuy) {
          TerminateTrailingStop(oid, ReduceOnlyCanceled, false);
          EndOneMore(w, ended, oid);
          ended := ended + {oid};
        }
        rest := rest - {oid};
      }
      assert ended == Orphans(w, user, changes);
    }

    /** A fill's position write, and the reconciliation that follows it. */
    method MovePosition(user: int, asset: int, newSzi: real)
      modifies this
      ensures World() == MovePositions(old(World()), user, map[asset := newSzi])
    {
      ghost var w := World();
      positions := positions[(user, asset) := newSzi];
      assert World() == WithPositions(w, user, map[asset := newSzi]);
      var _ := ReconcileReduceOnlyStops(user, asset, newSzi);
    }

    /** A liquidation's position writes, all at once, and then the reconciliation of each closed asset. */
    method MoveLiquidated(user: int, changes: map<int, real>)
      modifies this
      ensures World() == MovePositions(old(World()), user, changes)
    {
      positions := positions + map a | a in changes :: (user, a) := changes[a];
      ghost var w := World();
      assert w == WithPositions(old(World()), user, changes);
      var rest := changes.Keys;
      EndNone(w);
      AllOrphans(w, user, changes);
      hide EndOrphans, IsOrphan, Orphans, OrphansOf, WithPositions;
      assert changes.Keys - rest == {};
      while rest != {}
        invariant rest <= changes.Keys
        invariant World() == EndOrphans(w, OrphansOf(w, user, changes, changes.Keys - rest))
      {
        assert (forall y :: y !in rest) ==> rest == {};
        var a :| a in rest;
        EndNextAsset(w, user, changes, changes.Keys - rest, a);
        assert changes.Keys - (rest - {a}) == changes.Keys - rest + {a};
        var _ := ReconcileReduceOnlyStops(user, a, changes[a]);
        rest := rest - {a};
      }
      assert changes.Keys - rest == changes.Keys;
    }

    method FireTrailingStop(oid: int, funds: Funds, mark: real)
      requires mark > 0.0
      modifies this
      ensures World() == Fire(old(World()), oid, funds, mark)
    {
      if oid !in stops || stops[oid].status != Open {
        return;
      }
      var s := stops[oid];
      var szi := if (s.user, s.asset) in positions then positions[(s.user, s.asset)] else 0.0;
      if s.reduceOnly && (szi == 0.0 || (szi > 0.0) == s.isBuy) {
        return;
      }
      var sz := s.sz;
      if !s.reduceOnly {
        var cap := OrderMargin.MaxAffordable(funds.available, funds.leverage, szi, s.isBuy, mark);
        if cap.Some? {
          var affordable := RoundDown(cap.value, ReadParams(s.isBuy, s.hash).szDecimals);
          if affordable < s.sz {
            if affordable <= 0.0 {
              TerminateTrailingStop(oid, MarginCanceled, true);
              return;
            }
            sz := affordable;
          }
        }
      }
      assert OutcomeOf(s, szi, funds, mark) == Fires(sz);
      hide OutcomeOf, RoundDown, OrderMargin.MaxAffordable, ReadParams;
      var newSzi := SziAfterFire(s, szi, sz);
      stops := stops[oid := s.(status := Filled, filledSz := sz, history := s.history + [Triggered, Filled])];
      trailing := trailing - {oid};
      assert World() == Finish(old(World()), oid, Filled, [Triggered, Filled], sz);
      MovePosition(s.user, s.asset, newSzi);
    }

    method EvaluateStop(oid: int, quote: Option<real>, funds: Funds)
      requires quote.Some? ==> quote.value > 0.0
      modifies this
      ensures World() == TickStop(old(World()), oid, quote, funds)
    {
      if oid !in stops || stops[oid].status != Open {
        trailing := trailing - {oid};
        return;
      }
      var s := stops[oid];
      if quote.None? || IsBroken(s.hash) {
        return;
      }
      var ev := Evaluate(ReadParams(s.isBuy, s.hash), ReadState(s.hash), quote.value);
      var stored, changed := PersistTrailingEvaluation(s.hash, ev);
      assert stored == TrailingHash.Tick(s.isBuy, s.hash, quote.value);
      hide TrailingHash.Tick, Evaluate, ReadParams, ReadState, Fire;
      if changed {
        stops := stops[oid := s.(hash := stored)];
      }
      assert stops == old(stops)[oid := s.(hash := stored)];
      if ev.fire {
        FireTrailingStop(oid, funds, quote.value);
      }
    }

    /** One scan: every stop of the set as it was at the start is looked at once. */
    method MatchTrailingStops(quotes: map<int, real>, funds: int -> Funds) returns (scanned: seq<int>)
      requires forall a :: a in quotes ==> quotes[a] > 0.0
      modifies this
      ensures World() == TickAll(old(World()), scanned, quotes, funds)
      ensures multiset(scanned) == multiset(old(trailing))
    {
      scanned := [];
      var rest := trailing;
      while rest != {}
        invariant rest <= old(trailing)
        invariant multiset(scanned) == multiset(old(trailing) - rest)
        invariant World() == TickAll(old(World()), scanned, quotes, funds)
      {
        assert (forall y :: y !in rest) ==> rest == {};
        var oid :| oid in rest;
        ghost var next := scanned + [oid];
        assert next[..|next| - 1] == scanned;
        assert old(trailing) - (rest - {oid}) == (old(trailing) - rest) + {oid};
        var quote := if oid in stops && stops[oid].asset in quotes then Some(quotes[stops[oid].asset]) else None;
        EvaluateStop(oid, quote, funds(oid));
        scanned := scanned + [oid];
        rest := rest - {oid};
      }
    }
  }

  lemma EndNone(w: World)
    ensures EndOrphans(w, {}) == w
  {
    var none := EndOrphans(w, {});
    forall oid | oid in w.stops ensures none.stops[oid] == w.stops[oid] {
      assert oid !in {};
    }
    assert none.stops == w.stops;
    assert none.trailing == w.trailing;
  }

  lemma EndOneMore(w: World, ended: set<int>, oid: int)
    requires oid in w.stops && oid !in ended && w.stops[oid].status == Open
    ensures EndOrphans(w, ended + {oid}) == Terminate(EndOrphans(w, ended), oid, ReduceOnlyCanceled, false)
  {
    var s, t := EndOrphans(w, ended), EndOrphans(w, ended + {oid});
    assert t.stops == Terminate(s, oid, ReduceOnlyCanceled, false).stops;
    assert t.trailing == s.trailing - {oid};
  }

  /** The orphans on some of the moved assets. */
  function OrphansOf(w: World, user: int, changes: map<int, real>, assets: set<int>): set<int> {
    set oid | oid in w.trailing && IsOrphan(w, user, changes, oid) && w.stops[oid].asset in assets
  }

  lemma AllOrphans(w: World, user: int, changes: map<int, real>)
    ensures OrphansOf(w, user, changes, {}) == {}
    ensures OrphansOf(w, user, changes, changes.Keys) == Orphans(w, user, changes)
  {
  }

  /** Reconciling asset by asset ends the same stops as reconciling all at once. */
  lemma EndNextAsset(w: World, user: int, changes: map<int, real>, done: set<int>, a: int)
    requires a in changes && a !in done
    ensures Reconcile(EndOrphans(w, OrphansOf(w, user, changes, done)), user, map[a := changes[a]])
         == EndOrphans(w, OrphansOf(w, user, changes, done + {a}))
  {
    var ended := OrphansOf(w, user, changes, done);
    var s := EndOrphans(w, ended);
    var more := Orphans(s, user, map[a := changes[a]]);
    forall oid
      ensures oid in more <==> oid in OrphansOf(w, user, changes, {a})
    {
    }
    assert OrphansOf(w, user, changes, done + {a}) == ended + more;
    EndBoth(w, ended, more);
  }

  lemma EndBoth(w: World, ended: set<int>, more: set<int>)
    requires ended !! more
    ensures EndOrphans(EndOrphans(w, ended), more) == EndOrphans(w, ended + more)
  {
    var first := EndOrphans(w, ended);
    var s, t := EndOrphans(first, more), EndOrphans(w, ended + more);
    assert s.stops.Keys == first.stops.Keys == w.stops.Keys == t.stops.Keys;
    forall oid | oid in w.stops ensures s.stops[oid] == t.stops[oid] {
      assert first.stops[oid] == Orphaned(w.stops[oid], oid in ended);
      assert s.stops[oid] == Orphaned(first.stops[oid], oid in more);
      assert t.stops[oid] == Orphaned(w.stops[oid], oid in ended + more);
      assert !(oid in ended && oid in more);
    }
    assert s.stops == t.stops;
    assert s.trailing == t.trailing;
  }
}
