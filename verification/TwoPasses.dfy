/** Two liquidation passes do not always settle an account: one that needs the third (src/engine/liquidation.ts). */
module TwoPasses {
  import opened Prelude
  import opened MarginTiers
  import opened Margin
  import opened Account
  import opened Slippage
  import opened Liquidation
  import opened LiquidationAccounting
  import opened LiquidationPasses

  // ---- A market of two coins at 1000, the first held isolated, the second cross, both at 10x ----

  const MARKET: Market := Market(
    map[0 := 1000.0, 1 := 1000.0],
    map[],
    (a: int) => LeverageSetting(10, a == 1),
    map[0 := 0, 1 := 0],
    0.0,
    true)

  /** The bid of the first coin has fallen away. */
  const LOW_BID: Books := map[0 := L2Book([Level(940.0, 1000.0)], [])]

  function Long(szi: real, margin: Option<real>): Position {
    Position(szi, 1000.0, margin, None, 0.0, 0.0, 0.0)
  }

  const START: Desk := Desk(
    Account(17200.0, map[0 := Long(200.0, Some(9000.0)), 1 := Long(200.0, None)], [], 0.0, 0.0), {}, 0.0)

  lemma FlatMargin(n: real)
    requires n > 0.0
    ensures MaintenanceMargin([Tier(0.0, 10)], n) == 0.05 * n
  {
    var ts := [Tier(0.0, 10)];
    assert Rate(ts[0]) == 0.05 && Deduction(ts, 0) == 0.0;
    assert TierIndex(ts, n) == 0;
    hide Rate, Deduction, TierIndex;
  }

  lemma ViewIs(asset: int, szi: real, margin: Option<real>)
    requires 0 <= asset <= 1 && szi > 0.0
    ensures
      var v := ViewOf(MARKET, asset, Long(szi, margin));
      && v.asset == asset && v.pos == Long(szi, margin) && v.px == 1000.0
      && v.setting == LeverageSetting(10, asset == 1)
      && v.notional == 1000.0 * szi && v.pnl == 0.0 && v.maintenance == 50.0 * szi
      && (asset == 0 && margin.Some? ==> v.isolatedMargin == margin.value)
  {
    FlatMargin(1000.0 * szi);
    hide MaintenanceMargin;
  }

  /** A fifth of 200 units. */
  lemma SliceIs(cooldowns: set<Bucket>, v: View)
    requires v.pos.szi == 200.0 && v.notional == 200000.0 && 0 <= v.asset <= 1
    ensures SliceOf(MARKET, cooldowns, MarketClose, v) == if BucketOf(v) in cooldowns then None else Some(40.0)
  {
    assert Scale(0) == 1.0 && Times(1.0, 40.0) == 40.0 && Over(40.0, 1.0) == 40.0;
    assert RoundDown(40.0, 0) == 40.0;
    hide RoundDown;
  }

  // ---- The isolated phase ----

  lemma {:induction false} ListsLength(assets: seq<int>, s: set<int>)
    requires Lists(assets, s)
    ensures |assets| == |s|
    decreases |assets|
  {
    if |assets| > 0 {
      var rest := assets[1..];
      assert assets == [assets[0]] + rest;
      ListsLength(rest, s - {assets[0]});
    } else {
      assert forall a :: a in s ==> a in assets;
      assert s == {};
    }
  }

  lemma {:induction false} OnlyOne(assets: seq<int>, a: int)
    requires Lists(assets, {a})
    ensures assets == [a]
  {
    ListsLength(assets, {a});
    assert assets[0] in {a};
  }

  lemma {:induction false} OnlyTwo(assets: seq<int>)
    requires Lists(assets, {0, 1})
    ensures assets == [0, 1] || assets == [1, 0]
  {
    ListsLength(assets, {0, 1});
    assert assets[0] in {0, 1} && assets[1] in {0, 1};
  }

  predicate HoldsBoth(acct: Account) {
    acct.positions.Keys == {0, 1} && acct.positions[0].szi > 0.0 && acct.positions[1].szi > 0.0
  }

  lemma {:induction false} LoadsBoth(acct: Account, assets: seq<int>)
    requires HoldsBoth(acct) && Lists(assets, {0, 1})
    ensures
      var v, w := ViewOf(MARKET, 0, acct.positions[0]), ViewOf(MARKET, 1, acct.positions[1]);
      LoadPositions(MARKET, acct, assets) == [v, w] || LoadPositions(MARKET, acct, assets) == [w, v]
  {
    OnlyTwo(assets);
    hide ViewOf;
    assert assets[..1] == [assets[0]] && assets[..1][..0] == [];
    assert LoadPositions(MARKET, acct, []) == [];
    assert LoadPositions(MARKET, acct, assets[..1]) == [ViewOf(MARKET, assets[0], acct.positions[assets[0]])];
  }

  /** Whatever the order of the positions, the phase comes to its turn for the isolated one. */
  lemma {:induction false} PhaseIsOneTurn(books: Books, d: Desk, reply: Reply)
    requires HoldsBoth(d.acct) && IsReply(reply)
    ensures IsolatedPhase(MARKET, books, d, LoadPositions(MARKET, d.acct, reply(d.acct.positions.Keys)))
         == IsolatedTurn(MARKET, books, d, ViewOf(MARKET, 0, d.acct.positions[0]))
  {
    var assets := reply({0, 1});
    assert Lists(assets, {0, 1});
    LoadsBoth(d.acct, assets);
    var v, w := ViewOf(MARKET, 0, d.acct.positions[0]), ViewOf(MARKET, 1, d.acct.positions[1]);
    assert w.setting.isCross;
    var turn := IsolatedTurn(MARKET, books, d, v);
    hide ViewOf, LoadPositions, RunLiquidation, AssessIsolated, Lists, IsReply;
    assert [v, w][1..] == [w] && [w, v][1..] == [v];
    assert [v][1..] == [] && [w][1..] == [];
    assert IsolatedPhase(MARKET, books, turn, []) == turn;
    assert IsolatedPhase(MARKET, books, turn, [w]) == turn;
    assert IsolatedPhase(MARKET, books, d, [v]) == turn;
  }

  // ---- The cross phase ----

  lemma {:induction false} CrossOfBoth(balance: real, v: View, w: View)
    requires !v.setting.isCross && w.setting.isCross
    ensures AssessCross(balance, [v, w]) == AssessCross(balance, [w, v])
         == Assess(balance - v.isolatedMargin + w.pnl, w.maintenance, [w])
  {
    assert [v, w][..1] == [v] && [w, v][..1] == [w] && [v][..0] == [] && [w][..0] == [];
    assert CrossOf([v]) == [] && CrossOf([w]) == [w];
    assert CrossOf([v, w]) == [w] && CrossOf([w, v]) == [w];
    assert TotalMaintenance([w]) == w.maintenance;
    assert CrossAccountValue(balance, [v]) == balance - v.isolatedMargin && CrossAccountValue(balance, [w]) == balance + w.pnl;
    hide CrossOf, TotalMaintenance;
  }

  lemma {:induction false} CrossOfOne(balance: real, w: View)
    requires w.setting.isCross
    ensures AssessCross(balance, [w]) == Assess(balance + w.pnl, w.maintenance, [w])
  {
    assert [w][..0] == [];
    assert CrossOf([]) == [] && TotalMaintenance([]) == 0.0 && CrossAccountValue(balance, []) == balance;
    assert CrossOf([w]) == [w];
    assert TotalMaintenance([w]) == w.maintenance;
  }

  // ---- Closes ----

  /** A market close of one position at one price, without a fee. */
  lemma {:induction false} CloseIs(books: Books, d: Desk, a: Assessment, v: View, sz: real)
    requires a.targets == [v] && a.kind == MarketClose && v.pos.szi > 0.0 && 0.0 < sz <= v.pos.szi
    requires sz == SliceOf(MARKET, d.cooldowns, MarketClose, v).GetOr(v.pos.szi)
    ensures
      var px := LiquidationFillPx(books, v, sz, MarketClose);
      var plan := Plan(v, Fill(v.asset, false, sz, px, 0.0, sz * (px - v.pos.entryPx), v.pos.szi), v.pos.szi - sz);
      var after := RunLiquidation(MARKET, books, d, a);
      && after.acct.balance == d.acct.balance + sz * (px - v.pos.entryPx)
      && after.acct.positions == WithPosition(d.acct, v.asset, Remainder(plan)).positions
      && after.cooldowns == d.cooldowns
           + (if SliceOf(MARKET, d.cooldowns, MarketClose, v).Some? then {BucketOf(v)} else {})
  {
    hide LiquidationFillPx, SliceOf, Remainder, PlanClose;
    var plan := PlanFor(MARKET, books, d.cooldowns, MarketClose, v);
    CloseOfLong(books, v, sz);
    hide PlanFor;
    assert a.targets[..0] == [];
    assert QueueAll(MARKET, books, d.cooldowns, MarketClose, d.acct, []) == d.acct;
    assert QueueAll(MARKET, books, d.cooldowns, MarketClose, d.acct, a.targets) == QueueClose(d.acct, plan);
    assert AnySlice(MARKET, d.cooldowns, MarketClose, a.targets) <==> SliceOf(MARKET, d.cooldowns, MarketClose, v).Some? by {
      assert a.targets[0] == v;
    }
    hide QueueAll, AnySlice;
  }

  lemma CloseOfLong(books: Books, v: View, sz: real)
    requires v.pos.szi > 0.0 && 0.0 < sz <= v.pos.szi
    ensures
      var px := LiquidationFillPx(books, v, sz, MarketClose);
      PlanClose(MARKET, books, v, sz, MarketClose)
      == Plan(v, Fill(v.asset, false, sz, px, 0.0, sz * (px - v.pos.entryPx), v.pos.szi), v.pos.szi - sz)
  {
    hide LiquidationFillPx, UnrealizedPnl;
    var plan := PlanClose(MARKET, books, v, sz, MarketClose);
    var f := plan.fill;
    assert plan.view == v && plan.remaining == v.pos.szi - sz;
    assert (f.asset, f.isBuy, f.sz, f.px, f.startPosition)
        == (v.asset, false, sz, LiquidationFillPx(books, v, sz, MarketClose), v.pos.szi);
    assert f.closedPnl == UnrealizedPnl(f.sz, v.pos.entryPx, f.px);
    assert f.fee == Times(Times(f.sz, f.px), MARKET.takerFee);
    hide PlanClose;
    NoFee(f.sz, f.px);
  }

  lemma NoFee(sz: real, px: real)
    ensures Times(Times(sz, px), MARKET.takerFee) == 0.0
  {
    TimesZero(Times(sz, px));
  }

  // ---- First pass: a slice of the isolated position ----

  const SLICED: map<int, Position> := map[0 := Long(160.0, Some(7200.0)), 1 := Long(200.0, None)]

  lemma {:induction false} FirstTurn()
    ensures
      var after := IsolatedTurn(MARKET, map[], START, ViewOf(MARKET, 0, START.acct.positions[0]));
      && after.acct.positions == SLICED && after.acct.balance == 17200.0 && after.cooldowns == {IsolatedBucket(0)}
  {
    var v := ViewOf(MARKET, 0, Long(200.0, Some(9000.0)));
    ViewIs(0, 200.0, Some(9000.0));
    SliceIs({}, v);
    hide ViewOf, SliceOf, RunLiquidation;
    var a := AssessIsolated(v);
    assert a.shouldLiquidate && a.kind == MarketClose && a.targets == [v];
    assert LiquidationFillPx(map[], v, 40.0, MarketClose) == 1000.0;
    CloseIs(map[], START, a, v, 40.0);
    hide LiquidationFillPx, AssessIsolated;
    var plan := Plan(v, Fill(0, false, 40.0, 1000.0, 0.0, 0.0, 200.0), 160.0);
    assert Remainder(plan) == Some(Long(160.0, Some(7200.0)));
  }

  /** That is just enough for the cross account: 10000 against 10000. */
  lemma {:induction false} FirstCross(d: Desk, reply: Reply)
    requires IsReply(reply) && d.acct.positions == SLICED && d.acct.balance == 17200.0
    ensures CrossPhase(MARKET, map[], reply, d) == d
  {
    var assets := reply({0, 1});
    assert Lists(assets, {0, 1});
    assert d.acct.positions.Keys == {0, 1};
    LoadsBoth(d.acct, assets);
    ViewIs(0, 160.0, Some(7200.0));
    ViewIs(1, 200.0, None);
    hide ViewOf, LoadPositions, Lists, IsReply;
    CrossOfBoth(17200.0, ViewOf(MARKET, 0, SLICED[0]), ViewOf(MARKET, 1, SLICED[1]));
    hide AssessCross;
  }

  // ---- Second pass: the rest of it, at the bid, and a slice of the cross account ----

  lemma LowBidPx(v: View)
    requires v.asset == 0 && v.pos.szi > 0.0
    ensures LiquidationFillPx(LOW_BID, v, 160.0, MarketClose) == 940.0
  {
    var bids := [Level(940.0, 1000.0)];
    assert Times(160.0, 940.0) == 150400.0;
    assert Walk(bids, 160.0, false, None, 0.0, 0.0) == (150400.0, 160.0);
    assert Over(150400.0, 160.0) == 940.0;
    hide Times, Over, Walk;
  }

  lemma {:induction false} SecondTurn(d: Desk)
    requires d.acct.positions == SLICED && d.acct.balance == 17200.0 && d.cooldowns == {IsolatedBucket(0)}
    ensures
      var after := IsolatedTurn(MARKET, LOW_BID, d, ViewOf(MARKET, 0, d.acct.positions[0]));
      && after.acct.positions == map[1 := Long(200.0, None)] && after.acct.balance == 7600.0
      && after.cooldowns == {IsolatedBucket(0)}
  {
    var v := ViewOf(MARKET, 0, Long(160.0, Some(7200.0)));
    ViewIs(0, 160.0, Some(7200.0));
    assert SliceOf(MARKET, d.cooldowns, MarketClose, v) == None;
    hide ViewOf, SliceOf, RunLiquidation;
    var a := AssessIsolated(v);
    assert a.shouldLiquidate && a.kind == MarketClose && a.targets == [v];
    LowBidPx(v);
    hide LiquidationFillPx;
    CloseIs(LOW_BID, d, a, v, 160.0);
    hide AssessIsolated;
  }

  predicate IsAlone(mkt: Market, acct: Account, v: View) {
    acct.positions == map[v.asset := v.pos] && v.asset in mkt.marks && v.pos.szi != 0.0 && v == ViewOf(mkt, v.asset, v.pos)
  }

  /** The cross account with one position left. */
  lemma {:induction false} CrossAlone(mkt: Market, books: Books, d: Desk, reply: Reply, v: View)
    requires IsReply(reply) && IsAlone(mkt, d.acct, v) && v.setting.isCross
    ensures
      var a := Assess(d.acct.balance + v.pnl, v.maintenance, [v]);
      && IsCrossLiquidatable(mkt, d.acct) == a.shouldLiquidate
      && CrossPhase(mkt, books, reply, d) == if a.shouldLiquidate then RunLiquidation(mkt, books, d, a) else d
  {
    hide *;
    CrossPhaseOf(mkt, books, d, reply);
    var assets := reply(d.acct.positions.Keys);
    Replies(reply, d.acct.positions.Keys);
    LoadsAlone(mkt, d.acct, assets, v);
    CrossAssessmentMeaning(mkt, d.acct, assets);
    CrossOfOne(d.acct.balance, v);
  }

  lemma Replies(reply: Reply, s: set<int>)
    requires IsReply(reply)
    ensures Lists(reply(s), s)
  {
  }

  lemma CrossPhaseOf(mkt: Market, books: Books, d: Desk, reply: Reply)
    ensures
      var a := AssessCross(d.acct.balance, LoadPositions(mkt, d.acct, reply(d.acct.positions.Keys)));
      CrossPhase(mkt, books, reply, d) == if a.shouldLiquidate then RunLiquidation(mkt, books, d, a) else d
  {
    hide AssessCross, RunLiquidation, LoadPositions;
  }

  lemma LoadsAlone(mkt: Market, acct: Account, assets: seq<int>, v: View)
    requires IsAlone(mkt, acct, v) && Lists(assets, acct.positions.Keys)
    ensures LoadPositions(mkt, acct, assets) == [v]
  {
    assert acct.positions.Keys == {v.asset};
    OnlyOne(assets, v.asset);
    hide ViewOf;
    assert [v.asset][..0] == [];
    assert LoadPositions(mkt, acct, []) == [];
  }

  lemma IsAloneAtEnd(acct: Account, szi: real)
    requires acct.positions == map[1 := Long(szi, None)] && szi > 0.0
    ensures var v := ViewOf(MARKET, 1, Long(szi, None));
      IsAlone(MARKET, acct, v) && v.setting.isCross
  {
    ViewIs(1, szi, None);
    hide ViewOf;
  }

  lemma {:induction false} SecondClose(d: Desk, v: View)
    requires v.asset == 1 && v.pos == Long(200.0, None) && v.px == 1000.0 && v.setting == LeverageSetting(10, true)
    requires v.notional == 200000.0 && v.pnl == 0.0 && v.maintenance == 10000.0
    requires d.acct.positions == map[1 := v.pos] && d.acct.balance == 7600.0 && d.cooldowns == {IsolatedBucket(0)}
    ensures
      var a := Assess(d.acct.balance + v.pnl, v.maintenance, [v]);
      var after := RunLiquidation(MARKET, LOW_BID, d, a);
      && a.shouldLiquidate
      && after.acct.positions == map[1 := Long(160.0, None)] && after.acct.balance == 7600.0
  {
    SliceIs(d.cooldowns, v);
    var a := Assess(d.acct.balance + v.pnl, v.maintenance, [v]);
    assert a.shouldLiquidate && a.kind == MarketClose && a.targets == [v];
    assert LiquidationFillPx(LOW_BID, v, 40.0, MarketClose) == 1000.0;
    var plan := Plan(v, Fill(1, false, 40.0, 1000.0, 0.0, 0.0, 200.0), 160.0);
    assert Remainder(plan) == Some(Long(160.0, None));
    hide RunLiquidation, SliceOf, LiquidationFillPx, Assess, Remainder;
    CloseIs(LOW_BID, d, a, v, 40.0);
  }

  lemma {:induction false} SecondCross(d: Desk, reply: Reply)
    requires IsReply(reply) && d.acct.positions == map[1 := Long(200.0, None)] && d.acct.balance == 7600.0
    requires d.cooldowns == {IsolatedBucket(0)}
    ensures
      var after := CrossPhase(MARKET, LOW_BID, reply, d);
      after.acct.positions == map[1 := Long(160.0, None)] && after.acct.balance == 7600.0
  {
    var v := ViewOf(MARKET, 1, Long(200.0, None));
    ViewIs(1, 200.0, None);
    IsAloneAtEnd(d.acct, 200.0);
    hide *;
    CrossAlone(MARKET, LOW_BID, d, reply, v);
    SecondClose(d, v);
  }

  /** Two passes may leave an account liquidatable, in whatever order the store lists the positions: the first slices
      the isolated position and finds the cross account just covered, the second closes the rest at a bad price and
      so only then slices the cross account. */
  lemma {:induction false} TwoPassesMayNotSettle(first: Reply, second: Reply)
    requires IsReply(first) && IsReply(second)
    ensures START.acct.Valid() && MARKET.Valid()
    ensures !IsSettled(MARKET, Pass(MARKET, LOW_BID, second, Pass(MARKET, map[], first, START)))
  {
    assert START.acct.Valid() && MARKET.Valid();
    FirstPass(first);
    var one := Pass(MARKET, map[], first, START);
    hide Pass, IsReply;
    SecondPass(one, second);
    // What is left of the cross account, 7600, is still below its maintenance margin, 8000.
    ViewIs(1, 160.0, None);
    var two := Pass(MARKET, LOW_BID, second, one);
    IsAloneAtEnd(two.acct, 160.0);
    CrossAlone(MARKET, LOW_BID, two, second, ViewOf(MARKET, 1, Long(160.0, None)));
    hide IsCrossLiquidatable;
  }

  lemma {:induction false} FirstPass(reply: Reply)
    requires IsReply(reply)
    ensures
      var after := Pass(MARKET, map[], reply, START);
      after.acct.positions == SLICED && after.acct.balance == 17200.0 && after.cooldowns == {IsolatedBucket(0)}
  {
    PhaseIsOneTurn(map[], START, reply);
    FirstTurn();
    hide IsolatedPhase, IsolatedTurn, CrossPhase, LoadPositions, IsReply, ViewOf;
    FirstCross(IsolatedTurn(MARKET, map[], START, ViewOf(MARKET, 0, START.acct.positions[0])), reply);
  }

  lemma {:induction false} SecondPass(d: Desk, reply: Reply)
    requires IsReply(reply)
    requires d.acct.positions == SLICED && d.acct.balance == 17200.0 && d.cooldowns == {IsolatedBucket(0)}
    ensures
      var after := Pass(MARKET, LOW_BID, reply, d);
      after.acct.positions == map[1 := Long(160.0, None)] && after.acct.balance == 7600.0
  {
    assert d.acct.positions.Keys == {0, 1};
    PhaseIsOneTurn(LOW_BID, d, reply);
    SecondTurn(d);
    hide IsolatedPhase, IsolatedTurn, CrossPhase, LoadPositions, IsReply, ViewOf;
    SecondCross(IsolatedTurn(MARKET, LOW_BID, d, ViewOf(MARKET, 0, d.acct.positions[0])), reply);
  }
}
