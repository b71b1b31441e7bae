/** What a liquidation does, and when it does which: a market close pays the book and the taker fee and leaves the vault
    alone, a backstop takes the whole position at the mark (src/engine/liquidation.ts). The statements use positions,
    marks, books and the maintenance schedule, and none of the engine's own intermediate values. */
module LiquidationOutcomes {
  import opened Prelude
  import opened MarginTiers
  import opened Margin
  import opened Account
  import opened Slippage
  import opened Liquidation
  import opened LiquidationAccounting
  import opened LiquidationPasses
  import Fills

  // ---- New fills ----

  /** Cash from fills: what they realize less what they cost. */
  function Realized(fills: seq<Fill>): real {
    if |fills| == 0 then 0.0 else fills[0].closedPnl - fills[0].fee + Realized(fills[1..])
  }

  /** One fill for each asset of a set. */
  ghost predicate OneEach(fills: seq<Fill>, assets: set<int>) {
    && (forall i :: 0 <= i < |fills| ==> fills[i].asset in assets)
    && (forall i, j :: 0 <= i < j < |fills| ==> fills[i].asset != fills[j].asset)
    && (forall a :: a in assets ==> exists i :: 0 <= i < |fills| && fills[i].asset == a)
  }

  /** The account with some fills put before those it had, and their cash. */
  predicate Adds(before: Account, after: Account, news: seq<Fill>) {
    && after.fills == news + before.fills
    && after.balance == before.balance + Realized(news)
    && after.fundingPaid == before.fundingPaid && after.transferred == before.transferred
  }

  // ---- A market close ----

  /** The decimals of a coin's sizes. */
  function Decimals(mkt: Market, a: int): nat {
    if a in mkt.szDecimals then mkt.szDecimals[a] else 8
  }

  /** What is sent to the book: outside the cooldown, of a position worth more than 100000, the largest size on the
      coin's grid up to a fifth of it, if there is one; otherwise all of it. */
  ghost predicate IsSent(mkt: Market, cooling: bool, a: int, szi: real, sz: real)
    requires a in mkt.marks
  {
    var decimals, fifth := Decimals(mkt, a), Abs(szi) / 5.0;
    if !cooling && NotionalOf(szi, mkt.marks[a]) > 100000.0 && (exists z :: OnGrid(z, decimals) && 0.0 < z <= fifth) then
      OnGrid(sz, decimals) && 0.0 < sz <= fifth && forall z :: OnGrid(z, decimals) && z <= fifth ==> z <= sz
    else sz == Abs(szi)
  }

  /** A taker order against the position: a short buys from the asks, a long sells to the bids, at the mark without a
      book, and pays the taker fee. */
  ghost predicate IsMarketFill(mkt: Market, books: Books, cooling: bool, a: int, pos: Position, f: Fill)
    requires a in mkt.marks
  {
    var isBuy := pos.szi < 0.0;
    && f.asset == a && f.isBuy == isBuy && f.startPosition == pos.szi
    && IsSent(mkt, cooling, a, pos.szi, f.sz)
    && f.px == (if a !in books then mkt.marks[a]
                else ExecutionPx(if isBuy then books[a].asks else books[a].bids, f.sz, isBuy, None, mkt.marks[a]).fillPx)
    && f.fee == f.sz * f.px * mkt.takerFee
    && f.closedPnl == if isBuy then f.sz * (pos.entryPx - f.px) else f.sz * (f.px - pos.entryPx)
  }

  /** What is left: nothing, or the rest on the same side at the same entry, an isolated one with its margin cut in
      proportion. */
  predicate IsRest(pos: Position, setting: LeverageSetting, sz: real, rest: Option<Position>)
    requires pos.szi != 0.0
  {
    if sz == Abs(pos.szi) then rest.None?
    else
      && rest.Some?
      && rest.value.szi == (if pos.szi > 0.0 then pos.szi - sz else pos.szi + sz)
      && rest.value == pos.(szi := rest.value.szi, marginAlloc := rest.value.marginAlloc, rawUsd := rest.value.rawUsd)
      && (rest.value.marginAlloc, rest.value.rawUsd)
         == if setting.isCross then (pos.marginAlloc, pos.rawUsd)
            else ScaledMargin(pos, setting.leverage, (Abs(pos.szi) - sz) / Abs(pos.szi))
  }

  lemma FifthIs(szi: real)
    ensures PARTIAL_LIQ_PCT * Abs(szi) == Abs(szi) / 5.0
    ensures PARTIAL_LIQ_THRESHOLD == 100000.0
  {
  }

  lemma RoundedIsSent(mkt: Market, cooling: bool, a: int, szi: real)
    requires a in mkt.marks && szi != 0.0
    ensures
      var r := RoundDown(Abs(szi) / 5.0, Decimals(mkt, a));
      && r < Abs(szi)
      && IsSent(mkt, cooling, a, szi,
                if !cooling && NotionalOf(szi, mkt.marks[a]) > 100000.0 && r > 0.0 then r else Abs(szi))
  {
    var decimals, fifth := Decimals(mkt, a), Abs(szi) / 5.0;
    var r := RoundDown(fifth, decimals);
    assert 0.0 < fifth < Abs(szi);
    RoundDownIsLargest(fifth, decimals);
    hide RoundDown, OnGrid, Decimals, NotionalOf;
    assert (exists z :: OnGrid(z, decimals) && 0.0 < z <= fifth) <==> r > 0.0 by {
      if r > 0.0 {
        assert OnGrid(r, decimals) && 0.0 < r <= fifth;
      }
    }
  }

  lemma SliceIs(mkt: Market, cooldowns: set<Bucket>, v: View)
    requires v.asset in mkt.marks && v.pos.szi != 0.0 && v == ViewOf(mkt, v.asset, v.pos)
    ensures
      var r := RoundDown(Abs(v.pos.szi) / 5.0, Decimals(mkt, v.asset));
      SliceOf(mkt, cooldowns, MarketClose, v)
      == if BucketOf(v) !in cooldowns && NotionalOf(v.pos.szi, mkt.marks[v.asset]) > 100000.0 && r > 0.0 then Some(r) else None
  {
    FifthIs(v.pos.szi);
    assert v.notional == NotionalOf(v.pos.szi, mkt.marks[v.asset]);
    hide RoundDown, ViewOf, NotionalOf;
  }

  lemma SentIs(mkt: Market, cooldowns: set<Bucket>, v: View)
    requires v.asset in mkt.marks && v.pos.szi != 0.0 && v == ViewOf(mkt, v.asset, v.pos)
    ensures var slice := SliceOf(mkt, cooldowns, MarketClose, v);
      && IsSent(mkt, BucketOf(v) in cooldowns, v.asset, v.pos.szi, slice.GetOr(Abs(v.pos.szi)))
      && (slice.Some? <==> slice.GetOr(Abs(v.pos.szi)) < Abs(v.pos.szi))
  {
    hide IsSent, SliceOf, RoundDown, ViewOf, BucketOf, NotionalOf, Decimals;
    SliceIs(mkt, cooldowns, v);
    RoundedIsSent(mkt, BucketOf(v) in cooldowns, v.asset, v.pos.szi);
  }

  /** The order a market close sends, and what it fills at. */
  lemma PlanIsMarketFill(mkt: Market, books: Books, cooldowns: set<Bucket>, v: View)
    requires v.asset in mkt.marks && v.pos.szi != 0.0 && v == ViewOf(mkt, v.asset, v.pos)
    ensures var plan := PlanFor(mkt, books, cooldowns, MarketClose, v);
      && plan.view == v && plan.remaining == Abs(v.pos.szi) - plan.fill.sz
      && IsMarketFill(mkt, books, BucketOf(v) in cooldowns, v.asset, v.pos, plan.fill)
      && (SliceOf(mkt, cooldowns, MarketClose, v).Some? <==> plan.fill.sz < Abs(v.pos.szi))
  {
    var sz := SliceOf(mkt, cooldowns, MarketClose, v).GetOr(Abs(v.pos.szi));
    assert v.px == mkt.marks[v.asset];
    hide ViewOf, IsSent, SliceOf, ExecutionPx, BucketOf, PlanClose, IsMarketFill;
    SentIs(mkt, cooldowns, v);
    CloseFill(mkt, books, v, sz, BucketOf(v) in cooldowns);
  }

  lemma CloseFill(mkt: Market, books: Books, v: View, sz: real, cooling: bool)
    requires v.asset in mkt.marks && v.pos.szi != 0.0 && v.px == mkt.marks[v.asset] && sz <= Abs(v.pos.szi)
    requires IsSent(mkt, cooling, v.asset, v.pos.szi, sz)
    ensures var plan := PlanClose(mkt, books, v, sz, MarketClose);
      && plan.view == v && plan.remaining == Abs(v.pos.szi) - sz && plan.fill.sz == sz
      && IsMarketFill(mkt, books, cooling, v.asset, v.pos, plan.fill)
  {
    hide IsSent, ExecutionPx;
    var px := LiquidationFillPx(books, v, sz, MarketClose);
    assert px == if v.asset !in books then v.px
                 else ExecutionPx(if v.pos.szi < 0.0 then books[v.asset].asks else books[v.asset].bids, sz, v.pos.szi < 0.0,
                                  None, v.px).fillPx;
    var plan := PlanClose(mkt, books, v, sz, MarketClose);
    hide LiquidationFillPx;
    assert plan.fill.sz == sz && plan.fill.px == px;
    ClosedAt(v.pos.szi, sz, v.pos.entryPx, px);
    hide UnrealizedPnl;
  }

  lemma ClosedAt(szi: real, sz: real, entryPx: real, px: real)
    requires szi != 0.0
    ensures UnrealizedPnl(if szi > 0.0 then sz else -sz, entryPx, px)
         == if szi < 0.0 then sz * (entryPx - px) else sz * (px - entryPx)
  {
  }

  lemma RestIs(plan: Plan)
    requires plan.view.pos.szi != 0.0 && 0.0 < plan.fill.sz <= Abs(plan.view.pos.szi)
    requires plan.remaining == Abs(plan.view.pos.szi) - plan.fill.sz
    ensures IsRest(plan.view.pos, plan.view.setting, plan.fill.sz, Remainder(plan))
  {
    hide ScaledMargin;
  }

  // ---- A takeover ----

  /** The whole position at the mark, without a fee. */
  predicate IsTakeoverFill(mkt: Market, a: int, pos: Position, f: Fill)
    requires a in mkt.marks
  {
    f == Fill(a, pos.szi < 0.0, Abs(pos.szi), mkt.marks[a], 0.0, pos.szi * (mkt.marks[a] - pos.entryPx), pos.szi)
  }

  lemma PlanIsTakeoverFill(mkt: Market, books: Books, cooldowns: set<Bucket>, v: View)
    requires v.asset in mkt.marks && v.pos.szi != 0.0 && v == ViewOf(mkt, v.asset, v.pos)
    ensures var plan := PlanFor(mkt, books, cooldowns, Backstop, v);
      IsTakeoverFill(mkt, v.asset, v.pos, plan.fill) && Remainder(plan) == None
  {
    assert v.px == mkt.marks[v.asset];
    hide ViewOf;
  }

  // ---- The closes of one liquidation ----

  lemma {:induction false} RealizedAppend(f: Fill, fills: seq<Fill>)
    ensures Realized([f] + fills) == f.closedPnl - f.fee + Realized(fills)
  {
    assert ([f] + fills)[1..] == fills;
  }

  /** The fills of the closes, newest first. */
  lemma {:induction false} QueuedFills(mkt: Market, books: Books, cooldowns: set<Bucket>, kind: Kind, acct: Account, targets: seq<View>)
    returns (news: seq<Fill>)
    ensures Adds(acct, QueueAll(mkt, books, cooldowns, kind, acct, targets), news)
    ensures |news| == |targets|
    ensures forall i :: 0 <= i < |targets| ==> news[|targets| - 1 - i] == PlanFor(mkt, books, cooldowns, kind, targets[i]).fill
    decreases |targets|
  {
    hide PlanFor, Remainder, SliceOf, ViewOf;
    news := [];
    if |targets| > 0 {
      var n := |targets| - 1;
      var front := QueuedFills(mkt, books, cooldowns, kind, acct, targets[..n]);
      var plan := PlanFor(mkt, books, cooldowns, kind, targets[n]);
      news := [plan.fill] + front;
      RealizedAppend(plan.fill, front);
      hide Realized, WithPosition;
      assert news + acct.fills == [plan.fill] + (front + acct.fills);
    }
  }

  lemma OneEachTarget(mkt: Market, acct: Account, targets: seq<View>, assets: set<int>, news: seq<Fill>)
    requires Snapshot(mkt, acct, targets) && forall b :: Shows(targets, b) <==> b in assets
    requires |news| == |targets| && forall i :: 0 <= i < |targets| ==> news[|targets| - 1 - i].asset == targets[i].asset
    ensures OneEach(news, assets)
  {
    var n := |targets|;
    hide ViewOf;
    forall i | 0 <= i < n ensures news[i].asset == targets[n - 1 - i].asset && news[i].asset in assets {
      assert news[n - 1 - (n - 1 - i)] == news[i];
      assert Shows(targets, targets[n - 1 - i].asset);
    }
    forall a | a in assets ensures exists i :: 0 <= i < |news| && news[i].asset == a {
      assert Shows(targets, a);
      var i :| 0 <= i < |targets| && targets[i].asset == a;
      assert news[n - 1 - i].asset == a;
    }
  }

  /** A liquidation through the market: each position of the set is sent to its book, and nothing is handed over. The
      cooldown starts if any is cut and not closed. */
  ghost predicate IsMarketLiquidation(mkt: Market, books: Books, assets: set<int>, bucket: Bucket, d: Desk, after: Desk, news: seq<Fill>)
  {
    && Adds(d.acct, after.acct, news) && OneEach(news, assets)
    && (forall i :: 0 <= i < |news| ==>
          var a := news[i].asset;
          && a in assets && IsPriced(mkt, d.acct, a)
          && IsMarketFill(mkt, books, bucket in d.cooldowns, a, d.acct.positions[a], news[i])
          && IsRest(d.acct.positions[a], mkt.Setting(a), news[i].sz, Fills.Lookup(after.acct, a)))
    && (forall a :: a !in assets ==> Fills.Lookup(after.acct, a) == Fills.Lookup(d.acct, a))
    && after.vault == d.vault
    && after.cooldowns == d.cooldowns
       + if exists i :: 0 <= i < |news| && news[i].sz < Abs(news[i].startPosition) then {bucket} else {}
  }

  /** A takeover: each position of the set is gone whole at its mark without a fee, what the set was worth is taken out of
      the balance, and the vault gets what was positive of it. */
  ghost predicate IsTakeover(mkt: Market, assets: set<int>, equity: real, d: Desk, after: Desk, news: seq<Fill>)
  {
    && after.acct.fills == news + d.acct.fills && OneEach(news, assets)
    && (forall i :: 0 <= i < |news| ==>
          var a := news[i].asset;
          a in assets && IsPriced(mkt, d.acct, a) && IsTakeoverFill(mkt, a, d.acct.positions[a], news[i]))
    && after.acct.positions == d.acct.positions - assets
    && after.acct.balance == d.acct.balance + Realized(news) - equity
    && after.acct.transferred == d.acct.transferred + equity && after.acct.fundingPaid == d.acct.fundingPaid
    && after.vault == d.vault + (if mkt.vaultIsSet then Max(0.0, equity) else 0.0)
    && after.cooldowns == d.cooldowns
  }

  /** Positions all of one bucket, under water together. */
  ghost predicate Targets(mkt: Market, d: Desk, a: Assessment, assets: set<int>, bucket: Bucket) {
    && d.acct.Valid() && Snapshot(mkt, d.acct, a.targets) && |a.targets| > 0
    && (forall b :: Shows(a.targets, b) <==> b in assets)
    && (forall i :: 0 <= i < |a.targets| ==> BucketOf(a.targets[i]) == bucket)
    && (forall b :: b in assets ==> IsPriced(mkt, d.acct, b))
  }

  /** One target of a market liquidation. */
  lemma TargetOutcome(mkt: Market, books: Books, d: Desk, targets: seq<View>, i: nat)
    requires d.acct.Valid() && Snapshot(mkt, d.acct, targets) && i < |targets|
    ensures
      var f := PlanFor(mkt, books, d.cooldowns, MarketClose, targets[i]).fill;
      var after := QueueAll(mkt, books, d.cooldowns, MarketClose, d.acct, targets);
      FillOutcome(mkt, books, BucketOf(targets[i]) in d.cooldowns, d, targets, i, after, f)
  {
    var v := targets[i];
    InSnapshot(mkt, d.acct, targets, i);
    QueueAllEffect(mkt, books, d.cooldowns, MarketClose, d.acct, targets);
    hide PlanFor, QueueAll, IsRest, IsSent, SliceOf, ViewOf, Remainder, ExecutionPx;
    PlanIsMarketFill(mkt, books, d.cooldowns, v);
    PlanIsClose(mkt, books, d.cooldowns, MarketClose, v);
    RestIs(PlanFor(mkt, books, d.cooldowns, MarketClose, v));
  }

  lemma {:induction false} MarketLiquidates(mkt: Market, books: Books, d: Desk, a: Assessment, assets: set<int>, bucket: Bucket)
    returns (news: seq<Fill>)
    requires Targets(mkt, d, a, assets, bucket) && a.kind == MarketClose
    ensures IsMarketLiquidation(mkt, books, assets, bucket, d, RunLiquidation(mkt, books, d, a), news)
  {
    hide RunLiquidation, QueueAll, PlanFor, SliceOf, BucketOf, ViewOf, IsMarketFill, IsRest, Realized, AnySlice;
    var after := RunLiquidation(mkt, books, d, a);
    MarketRun(mkt, books, d, a);
    QueueAllEffect(mkt, books, d.cooldowns, MarketClose, d.acct, a.targets);
    news := QueuedFills(mkt, books, d.cooldowns, MarketClose, d.acct, a.targets);
    TargetsFill(mkt, books, d, a.targets, bucket, after.acct, news);
    hide FillOutcome, Snapshot, Shows;
    FromOutcomes(mkt, books, bucket, d, a.targets, assets, after.acct, news);
    hide OneEach, Adds;
  }

  lemma TargetsFill(mkt: Market, books: Books, d: Desk, targets: seq<View>, bucket: Bucket, after: Account, news: seq<Fill>)
    requires d.acct.Valid() && Snapshot(mkt, d.acct, targets) && |news| == |targets|
    requires after == QueueAll(mkt, books, d.cooldowns, MarketClose, d.acct, targets)
    requires forall i :: 0 <= i < |targets| ==> BucketOf(targets[i]) == bucket
    requires forall i :: 0 <= i < |targets| ==>
               news[|targets| - 1 - i] == PlanFor(mkt, books, d.cooldowns, MarketClose, targets[i]).fill
    ensures forall i :: 0 <= i < |news| ==>
              FillOutcome(mkt, books, bucket in d.cooldowns, d, targets, |news| - 1 - i, after, news[i])
  {
    hide Snapshot, FillOutcome, BucketOf, PlanFor, QueueAll;
    forall i | 0 <= i < |news|
      ensures FillOutcome(mkt, books, bucket in d.cooldowns, d, targets, |news| - 1 - i, after, news[i])
    {
      TargetOutcome(mkt, books, d, targets, |news| - 1 - i);
      assert news[|news| - 1 - (|news| - 1 - i)] == news[i];
    }
  }

  /** What one target's fill is and leaves. */
  ghost predicate FillOutcome(mkt: Market, books: Books, cooling: bool, d: Desk, targets: seq<View>, i: nat, after: Account, f: Fill)
    requires i < |targets|
  {
    var v := targets[i];
    && IsPriced(mkt, d.acct, v.asset)
    && f.asset == v.asset
    && f.startPosition == d.acct.positions[v.asset].szi
    && IsMarketFill(mkt, books, cooling, v.asset, d.acct.positions[v.asset], f)
    && IsRest(d.acct.positions[v.asset], mkt.Setting(v.asset), f.sz, Fills.Lookup(after, v.asset))
    && (SliceOf(mkt, d.cooldowns, MarketClose, v).Some? <==> f.sz < Abs(f.startPosition))
  }

  lemma FromOutcomes(mkt: Market, books: Books, bucket: Bucket, d: Desk, targets: seq<View>, assets: set<int>, after: Account, news: seq<Fill>)
    requires Snapshot(mkt, d.acct, targets) && |news| == |targets|
    requires forall b :: Shows(targets, b) <==> b in assets
    requires forall i :: 0 <= i < |news| ==>
               FillOutcome(mkt, books, bucket in d.cooldowns, d, targets, |news| - 1 - i, after, news[i])
    ensures OneEach(news, assets)
    ensures forall i :: 0 <= i < |news| ==>
              var a := news[i].asset;
              && a in assets && IsPriced(mkt, d.acct, a)
              && IsMarketFill(mkt, books, bucket in d.cooldowns, a, d.acct.positions[a], news[i])
              && IsRest(d.acct.positions[a], mkt.Setting(a), news[i].sz, Fills.Lookup(after, a))
    ensures AnySlice(mkt, d.cooldowns, MarketClose, targets)
       <==> exists i :: 0 <= i < |news| && news[i].sz < Abs(news[i].startPosition)
  {
    hide IsMarketFill, IsRest, SliceOf, ViewOf, AnySlice;
    forall i | 0 <= i < |targets| ensures news[|targets| - 1 - i].asset == targets[i].asset {
      assert |news| - 1 - (|targets| - 1 - i) == i;
    }
    OneEachTarget(mkt, d.acct, targets, assets, news);
    SomeCut(mkt, d.cooldowns, targets, news);
  }

  lemma SomeCut(mkt: Market, cooldowns: set<Bucket>, targets: seq<View>, news: seq<Fill>)
    requires |news| == |targets|
    requires forall i :: 0 <= i < |news| ==>
               (SliceOf(mkt, cooldowns, MarketClose, targets[|news| - 1 - i]).Some? <==> news[i].sz < Abs(news[i].startPosition))
    ensures AnySlice(mkt, cooldowns, MarketClose, targets)
       <==> exists i :: 0 <= i < |news| && news[i].sz < Abs(news[i].startPosition)
  {
    hide SliceOf;
    if AnySlice(mkt, cooldowns, MarketClose, targets) {
      var i :| 0 <= i < |targets| && SliceOf(mkt, cooldowns, MarketClose, targets[i]).Some?;
      assert targets[|news| - 1 - (|news| - 1 - i)] == targets[i];
      assert news[|news| - 1 - i].sz < Abs(news[|news| - 1 - i].startPosition);
    }
  }

  /** A market liquidation in terms of its queued closes. */
  lemma MarketRun(mkt: Market, books: Books, d: Desk, a: Assessment)
    requires |a.targets| > 0 && a.kind == MarketClose
    ensures
      var closed := QueueAll(mkt, books, d.cooldowns, MarketClose, d.acct, a.targets);
      var after := RunLiquidation(mkt, books, d, a);
      && after.acct == closed && after.vault == d.vault
      && after.cooldowns == d.cooldowns + (if AnySlice(mkt, d.cooldowns, MarketClose, a.targets) then {BucketOf(a.targets[0])} else {})
  {
    hide QueueAll, AnySlice, BucketOf;
  }

  lemma {:induction false} TakesOver(mkt: Market, books: Books, d: Desk, a: Assessment, assets: set<int>, bucket: Bucket)
    returns (news: seq<Fill>)
    requires Targets(mkt, d, a, assets, bucket) && a.kind == Backstop
    ensures IsTakeover(mkt, assets, a.equity, d, RunLiquidation(mkt, books, d, a), news)
  {
    var closed := QueueAll(mkt, books, d.cooldowns, Backstop, d.acct, a.targets);
    BackstopRemovesTargets(mkt, books, d.cooldowns, d.acct, a.targets);
    TakeoverRun(mkt, books, d, a);
    news := QueuedFills(mkt, books, d.cooldowns, Backstop, d.acct, a.targets);
    hide QueueAll, IsTakeoverFill, Realized, PlanFor, ViewOf, BucketOf, RunLiquidation, Snapshot, Shows;
    TakeoverFills(mkt, books, d, a.targets, assets, news);
    hide OneEach;
    LookupsAre(d.acct, closed, assets);
  }

  /** A takeover in terms of its queued closes. */
  lemma TakeoverRun(mkt: Market, books: Books, d: Desk, a: Assessment)
    requires |a.targets| > 0 && a.kind == Backstop
    ensures
      var closed := QueueAll(mkt, books, d.cooldowns, Backstop, d.acct, a.targets);
      var after := RunLiquidation(mkt, books, d, a);
      && after.acct == closed.(balance := closed.balance - a.equity, transferred := closed.transferred + a.equity)
      && after.vault == d.vault + (if mkt.vaultIsSet then Max(0.0, a.equity) else 0.0)
      && after.cooldowns == d.cooldowns
  {
    NoSliceInBackstop(mkt, d.cooldowns, a.targets);
    hide QueueAll, AnySlice;
  }

  lemma TakeoverFills(mkt: Market, books: Books, d: Desk, targets: seq<View>, assets: set<int>, news: seq<Fill>)
    requires Snapshot(mkt, d.acct, targets) && |news| == |targets|
    requires forall b :: Shows(targets, b) <==> b in assets
    requires forall i :: 0 <= i < |targets| ==>
               news[|targets| - 1 - i] == PlanFor(mkt, books, d.cooldowns, Backstop, targets[i]).fill
    ensures OneEach(news, assets)
    ensures forall i :: 0 <= i < |news| ==>
              var a := news[i].asset;
              a in assets && IsPriced(mkt, d.acct, a) && IsTakeoverFill(mkt, a, d.acct.positions[a], news[i])
  {
    hide IsTakeoverFill, PlanFor, ViewOf;
    forall i | 0 <= i < |targets|
      ensures
        var t := targets[i].asset;
        var f := news[|targets| - 1 - i];
        f.asset == t && IsPriced(mkt, d.acct, t) && IsTakeoverFill(mkt, t, d.acct.positions[t], f)
    {
      InSnapshot(mkt, d.acct, targets, i);
      PlanIsTakeoverFill(mkt, books, d.cooldowns, targets[i]);
      TakeoverAsset(mkt, targets[i].asset, targets[i].pos, news[|targets| - 1 - i]);
    }
    OneEachTarget(mkt, d.acct, targets, assets, news);
    forall i | 0 <= i < |news|
      ensures
        var a := news[i].asset;
        a in assets && IsPriced(mkt, d.acct, a) && IsTakeoverFill(mkt, a, d.acct.positions[a], news[i])
    {
      assert |targets| - 1 - (|targets| - 1 - i) == i;
    }
  }

  lemma TakeoverAsset(mkt: Market, a: int, pos: Position, f: Fill)
    requires a in mkt.marks && IsTakeoverFill(mkt, a, pos, f)
    ensures f.asset == a
  {
  }

  lemma LookupsAre(before: Account, after: Account, gone: set<int>)
    requires forall b :: Fills.Lookup(after, b) == if b in gone then None else Fills.Lookup(before, b)
    ensures after.positions == before.positions - gone
  {
    forall b ensures b in after.positions <==> b in before.positions && b !in gone {
      assert Fills.Lookup(after, b) == if b in gone then None else Fills.Lookup(before, b);
    }
    forall b | b in after.positions ensures after.positions[b] == before.positions[b] {
      assert Fills.Lookup(after, b) == Fills.Lookup(before, b);
    }
  }

  // ---- When which ----

  lemma TwoThirds(equity: real, required: real)
    ensures equity < required * BACKSTOP_FRACTION <==> 3.0 * equity < 2.0 * required
  {
    assert BACKSTOP_FRACTION * 3.0 == 2.0;
  }

  function Equity(mkt: Market, acct: Account, a: int): real
    requires a in acct.positions && a in mkt.marks
  {
    var pos := acct.positions[a];
    IsolatedMarginOf(pos, mkt.Setting(a).leverage) + pos.szi * (mkt.marks[a] - pos.entryPx)
  }

  /** The maintenance margin of a position at its mark. */
  function Required(mkt: Market, acct: Account, a: int): real
    requires a in acct.positions && a in mkt.marks
  {
    MaintenanceMargin(mkt.Tiers(a), NotionalOf(acct.positions[a].szi, mkt.marks[a]))
  }

  /** An isolated position in its turn: left alone while its equity covers its maintenance margin; taken over below two
      thirds of it, at the cost of exactly its margin; liquidated through the market in between. */
  lemma {:induction false} IsolatedLiquidation(mkt: Market, books: Books, d: Desk, a: int) returns (news: seq<Fill>)
    requires d.acct.Valid() && IsPriced(mkt, d.acct, a) && !mkt.Setting(a).isCross
    ensures
      var after := IsolatedTurn(mkt, books, d, ViewOf(mkt, a, d.acct.positions[a]));
      var equity, required := Equity(mkt, d.acct, a), Required(mkt, d.acct, a);
      if equity >= required then after == d && news == []
      else if 3.0 * equity < 2.0 * required then
        && IsTakeover(mkt, {a}, equity, d, after, news)
        && after.acct.balance == d.acct.balance - IsolatedMarginOf(d.acct.positions[a], mkt.Setting(a).leverage)
      else IsMarketLiquidation(mkt, books, {a}, IsolatedBucket(a), d, after, news)
  {
    var v := ViewOf(mkt, a, d.acct.positions[a]);
    var s := AssessIsolated(v);
    AssessedIsolated(mkt, d.acct, a);
    OneTarget(mkt, d, v);
    hide AssessIsolated, ViewOf, RunLiquidation, IsTakeover, IsMarketLiquidation, Equity, Required, Targets;
    news := [];
    if s.shouldLiquidate && s.kind == Backstop {
      news := TakesOver(mkt, books, d, s, {a}, IsolatedBucket(a));
      CostsItsMargin(mkt, d, RunLiquidation(mkt, books, d, s), a, news);
    } else if s.shouldLiquidate {
      news := MarketLiquidates(mkt, books, d, s, {a}, IsolatedBucket(a));
    }
  }

  lemma AssessedIsolated(mkt: Market, acct: Account, a: int)
    requires IsPriced(mkt, acct, a) && !mkt.Setting(a).isCross
    ensures var v := ViewOf(mkt, a, acct.positions[a]);
      var s := AssessIsolated(v);
      && !v.setting.isCross && s.targets == [v] && s.equity == Equity(mkt, acct, a)
      && (s.shouldLiquidate <==> Equity(mkt, acct, a) < Required(mkt, acct, a))
      && (s.kind == Backstop <==> 3.0 * Equity(mkt, acct, a) < 2.0 * Required(mkt, acct, a))
  {
    TwoThirds(Equity(mkt, acct, a), Required(mkt, acct, a));
    hide MaintenanceMargin, IsolatedMarginOf, NotionalOf, Market.Tiers;
  }

  lemma OneTarget(mkt: Market, d: Desk, v: View)
    requires d.acct.Valid() && IsPriced(mkt, d.acct, v.asset) && v == ViewOf(mkt, v.asset, d.acct.positions[v.asset])
    requires !v.setting.isCross
    ensures Targets(mkt, d, AssessIsolated(v), {v.asset}, IsolatedBucket(v.asset))
  {
    hide ViewOf;
    forall b ensures Shows([v], b) <==> b in {v.asset} {
      if b == v.asset {
        assert [v][0].asset == b;
      }
    }
  }

  lemma CostsItsMargin(mkt: Market, d: Desk, after: Desk, a: int, news: seq<Fill>)
    requires IsPriced(mkt, d.acct, a) && IsTakeover(mkt, {a}, Equity(mkt, d.acct, a), d, after, news)
    ensures after.acct.balance == d.acct.balance - IsolatedMarginOf(d.acct.positions[a], mkt.Setting(a).leverage)
  {
    OneEachCount(news, {a});
    assert news[0].asset in {a};
    assert Realized(news[1..]) == 0.0;
    hide IsolatedMarginOf, OneEach;
  }

  lemma {:induction false} OneEachCount(fills: seq<Fill>, assets: set<int>)
    requires OneEach(fills, assets)
    ensures |fills| == |assets|
    decreases |fills|
  {
    if |fills| > 0 {
      var first := fills[0].asset;
      forall a | a in assets - {first} ensures exists i :: 0 <= i < |fills[1..]| && fills[1..][i].asset == a {
        var i :| 0 <= i < |fills| && fills[i].asset == a;
        assert fills[1..][i - 1].asset == a;
      }
      OneEachCount(fills[1..], assets - {first});
    } else {
      assert assets == {} by {
        if assets != {} {
          var a := AnyOf(assets);
        }
      }
    }
  }

  // ---- The cross account ----

  ghost function CrossAssets(mkt: Market, acct: Account): set<int> {
    set a | a in acct.positions && IsPriced(mkt, acct, a) && mkt.Setting(a).isCross
  }

  /** The cross account in its phase, all its positions together: left alone while its value covers the sum of their
      maintenance margins; taken over below two thirds of it; liquidated through the market in between. */
  lemma {:induction false} CrossLiquidation(mkt: Market, books: Books, reply: Reply, d: Desk) returns (news: seq<Fill>)
    requires d.acct.Valid() && IsReply(reply)
    ensures
      var after := CrossPhase(mkt, books, reply, d);
      var value, required := CrossValue(mkt, d.acct), CrossMaintenanceMargin(mkt, d.acct);
      var assets := CrossAssets(mkt, d.acct);
      if assets == {} || value >= required then after == d && news == []
      else if 3.0 * value < 2.0 * required then IsTakeover(mkt, assets, value, d, after, news)
      else IsMarketLiquidation(mkt, books, assets, CrossBucket, d, after, news)
  {
    var listed := reply(d.acct.positions.Keys);
    assert Lists(listed, d.acct.positions.Keys);
    var s := AssessCross(d.acct.balance, LoadPositions(mkt, d.acct, listed));
    CrossAssessed(mkt, d, listed);
    var assets := CrossAssets(mkt, d.acct);
    assert CrossPhase(mkt, books, reply, d) == if s.shouldLiquidate then RunLiquidation(mkt, books, d, s) else d;
    hide AssessCross, LoadPositions, RunLiquidation, IsTakeover, IsMarketLiquidation, CrossValue, CrossMaintenanceMargin,
         Targets, CrossAssets, IsReply, Lists, CrossPhase;
    news := [];
    if s.shouldLiquidate && s.kind == Backstop {
      news := TakesOver(mkt, books, d, s, assets, CrossBucket);
    } else if s.shouldLiquidate {
      news := MarketLiquidates(mkt, books, d, s, assets, CrossBucket);
    }
  }

  lemma CrossAssessed(mkt: Market, d: Desk, listed: seq<int>)
    requires d.acct.Valid() && Lists(listed, d.acct.positions.Keys)
    ensures
      var s := AssessCross(d.acct.balance, LoadPositions(mkt, d.acct, listed));
      var value, required := CrossValue(mkt, d.acct), CrossMaintenanceMargin(mkt, d.acct);
      && s.equity == value
      && (s.shouldLiquidate <==> CrossAssets(mkt, d.acct) != {} && value < required)
      && (s.kind == Backstop <==> 3.0 * value < 2.0 * required)
      && (s.shouldLiquidate ==> Targets(mkt, d, s, CrossAssets(mkt, d.acct), CrossBucket))
  {
    var s := AssessCross(d.acct.balance, LoadPositions(mkt, d.acct, listed));
    CrossAssessmentMeaning(mkt, d.acct, listed);
    CrossTargets(mkt, d.acct, listed);
    KindOfCross(d.acct.balance, LoadPositions(mkt, d.acct, listed));
    hide AssessCross, LoadPositions, CrossValue, CrossMaintenanceMargin, Lists, ViewOf, Snapshot, Shows, CrossAssets, BACKSTOP_FRACTION;
    TwoThirds(s.equity, s.maintenance);
    CrossTogether(mkt, d, s);
  }

  lemma KindOfCross(balance: real, views: seq<View>)
    ensures var s := AssessCross(balance, views);
      s.kind == if s.equity < s.maintenance * BACKSTOP_FRACTION then Backstop else MarketClose
  {
    hide CrossAccountValue, TotalMaintenance, CrossOf;
  }

  lemma CrossTogether(mkt: Market, d: Desk, s: Assessment)
    requires d.acct.Valid() && Snapshot(mkt, d.acct, s.targets)
    requires forall b :: Shows(s.targets, b) <==> IsPriced(mkt, d.acct, b) && mkt.Setting(b).isCross
    requires forall i :: 0 <= i < |s.targets| ==> s.targets[i].setting.isCross
    ensures CrossAssets(mkt, d.acct) != {} <==> HasCross(mkt, d.acct)
    ensures |s.targets| > 0 ==> Targets(mkt, d, s, CrossAssets(mkt, d.acct), CrossBucket)
  {
    hide ViewOf, Shows, Snapshot;
    if HasCross(mkt, d.acct) {
      var a :| IsPriced(mkt, d.acct, a) && mkt.Setting(a).isCross;
      assert a in CrossAssets(mkt, d.acct);
    }
    assert forall b :: Shows(s.targets, b) <==> b in CrossAssets(mkt, d.acct);
  }
}
