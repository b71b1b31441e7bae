/** The liquidation engine (src/engine/liquidation.ts): assessment of isolated positions and of the
    cross account, market and backstop closes, the 20% slice with its cooldown, and the transfer to
    the liquidator vault (src/engine/liquidator-vault.ts). */
module Liquidation {
  import opened Prelude
  import opened MarginTiers
  import opened Margin
  import opened Account
  import opened Slippage

  const PARTIAL_LIQ_THRESHOLD: real := 100000.0
  const PARTIAL_LIQ_PCT: real := 0.2
  const BACKSTOP_FRACTION: real := 2.0 / 3.0

  /** What a liquidation pass reads besides the account. The marks are the fresh mark of each coin, or
      its mid; a coin with neither is not in the map and its positions are skipped. */
  datatype Market = Market(
    marks: map<int, real>,
    tiers: map<int, seq<Tier>>,
    settings: int -> LeverageSetting,
    szDecimals: map<int, nat>,
    takerFee: real,
    vaultIsSet: bool)
  {
    function Setting(asset: int): LeverageSetting {
      settings(asset)
    }

    /** The asset's schedule, or a flat tier at the position's own leverage when none is cached. */
    function Tiers(asset: int): seq<Tier> {
      if asset in tiers then tiers[asset] else [Tier(0.0, Setting(asset).leverage)]
    }

    predicate Valid() {
      && (forall a :: a in tiers ==> WellFormed(tiers[a]))
      && (forall a :: a in marks ==> marks[a] > 0.0)
    }
  }

  /** The order books of one pass; a coin without a book fills at the mark. */
  type Books = map<int, L2Book>

  // ---- Position snapshots ----

  datatype View = View(
    asset: int,
    pos: Position,
    px: real,
    setting: LeverageSetting,
    notional: real,
    pnl: real,
    maintenance: real,
    isolatedMargin: real)

  function ViewOf(mkt: Market, asset: int, pos: Position): View
    requires asset in mkt.marks
  {
    var px, setting := mkt.marks[asset], mkt.Setting(asset);
    View(asset, pos, px, setting,
         NotionalOf(pos.szi, px),
         UnrealizedPnl(pos.szi, pos.entryPx, px),
         MaintenanceMargin(mkt.Tiers(asset), NotionalOf(pos.szi, px)),
         if setting.isCross then 0.0 else IsolatedMarginOf(pos, setting.leverage))
  }

  /** Snapshots of the priced positions, in the order the position set was returned. */
  function LoadPositions(mkt: Market, acct: Account, assets: seq<int>): seq<View> {
    if |assets| == 0 then []
    else
      var a := assets[|assets| - 1];
      LoadPositions(mkt, acct, assets[..|assets| - 1])
      + (if a in acct.positions && a in mkt.marks && acct.positions[a].szi != 0.0
         then [ViewOf(mkt, a, acct.positions[a])] else [])
  }

  function CrossOf(views: seq<View>): seq<View> {
    if |views| == 0 then []
    else
      var v := views[|views| - 1];
      CrossOf(views[..|views| - 1]) + (if v.setting.isCross then [v] else [])
  }

  function CrossAccountValue(balance: real, views: seq<View>): real {
    if |views| == 0 then balance
    else
      var v := views[|views| - 1];
      CrossAccountValue(balance, views[..|views| - 1])
      + (if v.setting.isCross then v.pnl else -v.isolatedMargin)
  }

  function TotalMaintenance(views: seq<View>): real {
    if |views| == 0 then 0.0
    else TotalMaintenance(views[..|views| - 1]) + views[|views| - 1].maintenance
  }

  // ---- Assessment ----

  datatype Kind = MarketClose | Backstop

  datatype Assessment = Assessment(
    shouldLiquidate: bool, equity: real, maintenance: real, kind: Kind, targets: seq<View>)

  function Assess(equity: real, maintenance: real, targets: seq<View>): Assessment {
    Assessment(
      |targets| > 0 && equity < maintenance,
      equity,
      maintenance,
      if equity < maintenance * BACKSTOP_FRACTION then Backstop else MarketClose,
      targets)
  }

  function AssessIsolated(v: View): Assessment {
    Assess(v.isolatedMargin + v.pnl, v.maintenance, [v])
  }

  function AssessCross(balance: real, views: seq<View>): Assessment {
    Assess(CrossAccountValue(balance, views), TotalMaintenance(CrossOf(views)), CrossOf(views))
  }

  // ---- One liquidation ----

  datatype Bucket = CrossBucket | IsolatedBucket(asset: int)

  /** The state a liquidation writes: the account, the live cooldown markers, the vault. */
  datatype Desk = Desk(acct: Account, cooldowns: set<Bucket>, vault: real)

  function BucketOf(v: View): Bucket {
    if v.setting.isCross then CrossBucket else IsolatedBucket(v.asset)
  }

  /** The part of a position that a first market liquidation sends to the book: 20% of a position
      above the threshold, unless the user is cooling down or the slice rounds to nothing. */
  function SliceOf(mkt: Market, cooldowns: set<Bucket>, kind: Kind, v: View): (slice: Option<real>)
    ensures slice.Some? ==> 0.0 < slice.value <= PARTIAL_LIQ_PCT * Abs(v.pos.szi)
    ensures slice.Some? ==> kind == MarketClose && BucketOf(v) !in cooldowns && v.notional > PARTIAL_LIQ_THRESHOLD
  {
    if kind == MarketClose && BucketOf(v) !in cooldowns && v.notional > PARTIAL_LIQ_THRESHOLD then
      var decimals := if v.asset in mkt.szDecimals then mkt.szDecimals[v.asset] else 8;
      var slice := RoundDown(PARTIAL_LIQ_PCT * Abs(v.pos.szi), decimals);
      if slice > 0.0 then Some(slice) else None
    else None
  }

  /** A market close walks the book like any taker order; the vault takes a backstop at the mark. */
  function LiquidationFillPx(books: Books, v: View, sz: real, kind: Kind): real {
    if kind == Backstop || v.asset !in books then v.px
    else
      var isBuy := !(v.pos.szi > 0.0);
      var book := books[v.asset];
      ExecutionPx(if isBuy then book.asks else book.bids, sz, isBuy, None, v.px).fillPx
  }

  datatype Plan = Plan(view: View, fill: Fill, remaining: real)

  function PlanClose(mkt: Market, books: Books, v: View, closeAbs: real, kind: Kind): Plan {
    var isLong := v.pos.szi > 0.0;
    var posAbs := Abs(v.pos.szi);
    var sz := if closeAbs > posAbs then posAbs else closeAbs;
    var px := LiquidationFillPx(books, v, sz, kind);
    var closedPnl := UnrealizedPnl(if isLong then sz else -sz, v.pos.entryPx, px);
    var fee := if kind == MarketClose then sz * px * mkt.takerFee else 0.0;
    Plan(v, Fill(v.asset, !isLong, sz, px, fee, closedPnl, v.pos.szi), posAbs - sz)
  }

  function PlanFor(mkt: Market, books: Books, cooldowns: set<Bucket>, kind: Kind, v: View): Plan {
    PlanClose(mkt, books, v, SliceOf(mkt, cooldowns, kind, v).GetOr(Abs(v.pos.szi)), kind)
  }

  /** What is left of the position hash: nothing, or the smaller size with the isolated margin
      removed in proportion. */
  function Remainder(plan: Plan): Option<Position> {
    var pos := plan.view.pos;
    if plan.remaining == 0.0 then None
    else
      var szi := if pos.szi > 0.0 then plan.remaining else -plan.remaining;
      if plan.view.setting.isCross || Abs(pos.szi) == 0.0 then Some(pos.(szi := szi))
      else
        var (alloc, raw) := ScaledMargin(pos, plan.view.setting.leverage, plan.remaining / Abs(pos.szi));
        Some(pos.(szi := szi, marginAlloc := alloc, rawUsd := raw))
  }

  /** The writes of one planned close: position, closed PnL less fee, fill list. */
  function QueueClose(acct: Account, plan: Plan): Account {
    AfterTrade(acct, plan.fill, Remainder(plan), plan.fill.closedPnl - plan.fill.fee)
  }

  function QueueAll(mkt: Market, books: Books, cooldowns: set<Bucket>, kind: Kind, acct: Account, targets: seq<View>)
    : Account
  {
    if |targets| == 0 then acct
    else
      var n := |targets| - 1;
      QueueClose(QueueAll(mkt, books, cooldowns, kind, acct, targets[..n]),
                 PlanFor(mkt, books, cooldowns, kind, targets[n]))
  }

  function VaultCredit(mkt: Market, proceeds: real): real {
    if proceeds > 0.0 && mkt.vaultIsSet then proceeds else 0.0
  }

  function AnySlice(mkt: Market, cooldowns: set<Bucket>, kind: Kind, targets: seq<View>): bool {
    exists i :: 0 <= i < |targets| && SliceOf(mkt, cooldowns, kind, targets[i]).Some?
  }

  /** One committed liquidation: every close, the backstop debit, the vault credit, the cooldown. */
  function RunLiquidation(mkt: Market, books: Books, d: Desk, a: Assessment): Desk {
    if |a.targets| == 0 then d
    else
      var closed := QueueAll(mkt, books, d.cooldowns, a.kind, d.acct, a.targets);
      var moved := if a.kind == Backstop then a.equity else 0.0;
      Desk(
        closed.(balance := closed.balance - moved, transferred := closed.transferred + moved),
        if AnySlice(mkt, d.cooldowns, a.kind, a.targets) then d.cooldowns + {BucketOf(a.targets[0])} else d.cooldowns,
        d.vault + VaultCredit(mkt, moved))
  }

  // ---- One pass ----

  /** The order in which the store lists a set. */
  type Reply = set<int> -> seq<int>

  ghost predicate Lists(assets: seq<int>, s: set<int>) {
    && (forall i :: 0 <= i < |assets| ==> assets[i] in s)
    && (forall a :: a in s ==> a in assets)
    && (forall i, j :: 0 <= i < j < |assets| ==> assets[i] != assets[j])
  }

  ghost predicate IsReply(reply: Reply) {
    forall s :: Lists(reply(s), s)
  }

  /** Isolated positions one by one, from one snapshot. */
  function IsolatedPhase(mkt: Market, books: Books, d: Desk, views: seq<View>): Desk
    decreases |views|
  {
    if |views| == 0 then d
    else
      var v := views[0];
      var a := AssessIsolated(v);
      var next := if !v.setting.isCross && a.shouldLiquidate then RunLiquidation(mkt, books, d, a) else d;
      IsolatedPhase(mkt, books, next, views[1..])
  }

  /** Then the cross account, re-read. */
  function CrossPhase(mkt: Market, books: Books, reply: Reply, d: Desk): Desk {
    var views := LoadPositions(mkt, d.acct, reply(d.acct.positions.Keys));
    var a := AssessCross(d.acct.balance, views);
    if a.shouldLiquidate then RunLiquidation(mkt, books, d, a) else d
  }

  function Pass(mkt: Market, books: Books, reply: Reply, d: Desk): Desk {
    CrossPhase(mkt, books, reply,
      IsolatedPhase(mkt, books, d, LoadPositions(mkt, d.acct, reply(d.acct.positions.Keys))))
  }
}
