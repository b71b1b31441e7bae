/** Position margin and the liquidation-price solver (src/engine/margin.ts).

    The isolated branch of the solver is Newton's method on a convex schedule. Written in
    notionals n = size * price, the cushion of an isolated position is
        long:   margin + (n - entry) - maintenance(n)
        short:  margin + (entry - n) - maintenance(n)
    and each round replaces the schedule by the line of one tier and solves that. */
module Margin {
  import opened Prelude
  import opened MarginTiers

  // ---- Positions ----

  datatype Position = Position(
    szi: real,
    entryPx: real,
    marginAlloc: Option<real>,
    rawUsd: Option<real>,
    cumFunding: real,
    cumFundingSinceOpen: real,
    cumFundingSinceChange: real)

  function UnrealizedPnl(szi: real, entryPx: real, markPx: real): (pnl: real)
    ensures pnl == szi * (markPx - entryPx)
  {
    if szi == 0.0 then 0.0
    else if szi > 0.0 then (markPx - entryPx) * Abs(szi)
    else (entryPx - markPx) * Abs(szi)
  }

  function NotionalOf(szi: real, px: real): real { Abs(szi) * px }

  /** What a fill at px allocates to a position of this size. */
  function InitialMargin(size: real, px: real, leverage: Leverage): real {
    size * px / (leverage as real)
  }

  /** Margin allocated by fills, with the entry-price allocation as a fallback. */
  function Allocation(pos: Position, leverage: Leverage): real {
    pos.marginAlloc.GetOr(InitialMargin(Abs(pos.szi), pos.entryPx, leverage))
  }

  /** The margin dedicated to an isolated position; it does not depend on the mark. */
  function IsolatedMarginOf(pos: Position, leverage: Leverage): real {
    Allocation(pos, leverage) + pos.rawUsd.GetOr(0.0)
  }

  /** Allocation and added margin when the fraction keep of a position is left:
      "margin is proportionally removed as the position is closed". */
  function ScaledMargin(pos: Position, leverage: Leverage, keep: real): (Option<real>, Option<real>) {
    (Some(Allocation(pos, leverage) * keep), if pos.rawUsd.Some? then Some(pos.rawUsd.value * keep) else None)
  }

  // ---- The solver ----

  datatype Isolated = Isolated(
    isLong: bool,
    size: real,
    entryPx: real,
    margin: real,
    leverage: Leverage,
    tiers: seq<Tier>)
  {
    predicate Valid() {
      size > 0.0 && entryPx > 0.0 && WellFormed(tiers)
    }

    function Notional(px: real): real { size * px }

    function EntryNotional(): real { Notional(entryPx) }

    /** Equity minus maintenance margin when the position's notional is n. */
    function Cushion(n: real): real {
      margin + (if isLong then n - EntryNotional() else EntryNotional() - n) - MaintenanceMargin(tiers, n)
    }

    /** The same with the schedule replaced by the line of tier k. */
    function LineCushion(k: nat, n: real): real
      requires k < |tiers|
    {
      margin + (if isLong then n - EntryNotional() else EntryNotional() - n) - Line(tiers, k, n)
    }

    /** The notional where the cushion vanishes if maintenance is the line r * n - d. */
    function LineRoot(r: real, d: real): real
      requires 0.0 < r <= 0.5
    {
      if isLong then (EntryNotional() - margin - d) / (1.0 - r)
      else (EntryNotional() + margin + d) / (1.0 + r)
    }

    function Root(k: nat): real
      requires k < |tiers|
    {
      LineRoot(Rate(tiers[k]), Deduction(tiers, k))
    }

    function RateAt(n: real): real {
      if |tiers| > 0 then Rate(tiers[TierIndex(tiers, n)]) else 1.0 / ((leverage * 2) as real)
    }

    function DeductionAt(n: real): real {
      if |tiers| > 0 then n * RateAt(n) - MaintenanceMargin(tiers, n) else 0.0
    }

    /** The price solving the line r * n - d, as the code writes it. */
    function SolveLine(r: real, d: real): real
      requires size != 0.0 && 0.0 < r <= 0.5
    {
      if isLong then (EntryNotional() - margin - d) / (size * (1.0 - r))
      else (EntryNotional() + margin + d) / (size * (1.0 + r))
    }

    /** One round of the solver: the price solving the tier that applies at notional n. */
    function Solve(n: real): real
      requires size != 0.0
    {
      RateBelowHalf(n);
      SolveLine(RateAt(n), DeductionAt(n))
    }

    lemma RateBelowHalf(n: real)
      ensures 0.0 < RateAt(n) <= 0.5
    {
      if |tiers| == 0 {
        ReciprocalsDescend(2.0, (leverage * 2) as real);
      }
    }

    /** The solver's loop, with the rounds it has left. */
    function Iterate(px: real, rounds: nat): real
      requires size != 0.0
      decreases rounds
    {
      if rounds == 0 || |tiers| == 0 || px <= 0.0 then px
      else
        var next := Solve(Notional(px));
        if next == px then px else Iterate(next, rounds - 1)
    }

    function FirstSolve(): real
      requires size != 0.0
    {
      Solve(EntryNotional())
    }

    function LiquidationPrice(): real
      requires size != 0.0
    {
      var px := Iterate(FirstSolve(), ROUNDS);
      if isLong && px <= 0.0 then 0.0 else px
    }
  }

  const ROUNDS: nat := 8

  /** The cross branch: the price at which the account value, moved only by this position's
      PnL, meets the maintenance margin held at entry. It has no price when the cushion covers
      the whole notional. */
  function CrossLiquidationPrice(isLong: bool, size: real, entryPx: real, accountValue: real,
                                 leverage: Leverage, tiers: seq<Tier>): (px: Option<real>)
    requires size != 0.0
    ensures
      var maintenance := CrossMaintenance(size, entryPx, leverage, tiers);
      match px
      case None => accountValue - maintenance >= size * entryPx
      case Some(p) =>
        && accountValue - maintenance < size * entryPx
        && (accountValue > maintenance ==>
              accountValue + (if isLong then size * (p - entryPx) else size * (entryPx - p)) == maintenance)
        && (accountValue <= maintenance ==> p == if isLong then 0.0 else entryPx)
  {
    var cushion := accountValue - CrossMaintenance(size, entryPx, leverage, tiers);
    if cushion >= size * entryPx then None
    else if cushion <= 0.0 then Some(if isLong then 0.0 else entryPx)
    else
      var offset := cushion / size;
      assert size * offset == cushion by { DivisionCancels(cushion, size); }
      Some(if isLong then entryPx - offset else entryPx + offset)
  }

  function CrossMaintenance(size: real, entryPx: real, leverage: Leverage, tiers: seq<Tier>): real {
    if |tiers| > 0 then MaintenanceMargin(tiers, size * entryPx)
    else size * entryPx * (1.0 / ((leverage * 2) as real))
  }

  /** Against the schedule, or without one the flat tier at the user's leverage that the engine charges then: no price
      exactly when the cushion covers the whole notional, a clamped one exactly when there is no cushion, and otherwise
      the price at which account value and this position's PnL come to the maintenance margin of the entry notional. */
  lemma CrossPriceMeetsSchedule(isLong: bool, size: real, entryPx: real, accountValue: real,
                                leverage: Leverage, tiers: seq<Tier>)
    requires size > 0.0 && entryPx > 0.0
    ensures
      var px := CrossLiquidationPrice(isLong, size, entryPx, accountValue, leverage, tiers);
      var n := Times(size, entryPx);
      var required := MaintenanceMargin(if |tiers| > 0 then tiers else [Tier(0.0, leverage)], n);
      && (px.None? <==> accountValue - required >= n)
      && (px.Some? && accountValue <= required ==> px.value == if isLong then 0.0 else entryPx)
      && (px.Some? && accountValue > required ==>
            && 0.0 < px.value
            && (if isLong then px.value < entryPx else entryPx < px.value < 2.0 * entryPx)
            && accountValue + Times(size, if isLong then px.value - entryPx else entryPx - px.value) == required)
  {
    var n := Times(size, entryPx);
    assert n == size * entryPx;
    var required := MaintenanceMargin(if |tiers| > 0 then tiers else [Tier(0.0, leverage)], n);
    assert CrossMaintenance(size, entryPx, leverage, tiers) == required by {
      ProductSign(size, entryPx);
      if |tiers| == 0 {
        FlatMargin(leverage, n);
      }
    }
    var px := CrossLiquidationPrice(isLong, size, entryPx, accountValue, leverage, tiers);
    hide MaintenanceMargin, CrossMaintenance, CrossLiquidationPrice;
    if px.Some? && accountValue > required {
      var move := if isLong then entryPx - px.value else px.value - entryPx;
      MoveBetween(size, move, entryPx, accountValue - required);
    }
  }

  lemma MoveBetween(size: real, move: real, entryPx: real, cushion: real)
    requires size > 0.0 && size * -move == -cushion && 0.0 < cushion < size * entryPx
    ensures 0.0 < move < entryPx
  {
    assert size * move == cushion;
    ProductIsStrict(0.0, move, size);
    ProductIsStrict(move, entryPx, size);
  }

  lemma FlatMargin(leverage: Leverage, n: real)
    requires n >= 0.0
    ensures MaintenanceMargin([Tier(0.0, leverage)], n) == n * (1.0 / ((leverage * 2) as real))
  {
    FlatRate(leverage);
    var ts := [Tier(0.0, leverage)];
    assert TierIndex(ts, n) == 0 && Deduction(ts, 0) == 0.0;
    ProductSign(n, Rate(ts[0]));
    hide Rate, TierIndex, Deduction;
  }

  method CalculateLiquidationPrice(szi: real, entryPx: real, accountValue: real, leverage: Leverage,
                                   isCross: bool, isolatedMargin: Option<real>, tiers: seq<Tier>)
    returns (liqPx: Option<real>)
    ensures szi == 0.0 ==> liqPx == None
    ensures szi != 0.0 && isCross ==>
              liqPx == CrossLiquidationPrice(szi > 0.0, Abs(szi), entryPx, accountValue, leverage, tiers)
    ensures szi != 0.0 && !isCross ==>
              var margin := isolatedMargin.GetOr(InitialMargin(Abs(szi), entryPx, leverage));
              liqPx == Some(Isolated(szi > 0.0, Abs(szi), entryPx, margin, leverage, tiers).LiquidationPrice())
  {
    hide Isolated.Solve;
    if szi == 0.0 {
      return None;
    }
    var isLong, size := szi > 0.0, Abs(szi);
    var positionNotional := size * entryPx;
    if isCross {
      return CrossLiquidationPrice(isLong, size, entryPx, accountValue, leverage, tiers);
    }
    var margin := isolatedMargin.GetOr(InitialMargin(size, entryPx, leverage));
    var q := Isolated(isLong, size, entryPx, margin, leverage, tiers);
    assert positionNotional == q.EntryNotional();
    var px := q.Solve(positionNotional);
    var i := 0;
    while i < ROUNDS && |tiers| > 0 && px > 0.0
      invariant 0 <= i <= ROUNDS
      invariant q.Iterate(px, ROUNDS - i) == q.Iterate(q.FirstSolve(), ROUNDS)
    {
      var next := q.Solve(q.Notional(px));
      if next == px {
        break;
      }
      px := next;
      i := i + 1;
    }
    if isLong {
      return Some(if px > 0.0 then px else 0.0);
    }
    return Some(px);
  }

  // ---- Newton's method ----

  /** A line's cushion is linear with its zero at Root: rising for a long, falling for a short. */
  lemma LineCushionFromRoot(q: Isolated, k: nat, n: real)
    requires k < |q.tiers|
    ensures q.isLong ==> q.LineCushion(k, n) == (1.0 - Rate(q.tiers[k])) * (n - q.Root(k))
    ensures !q.isLong ==> q.LineCushion(k, n) == (1.0 + Rate(q.tiers[k])) * (q.Root(k) - n)
  {
    var r := Rate(q.tiers[k]);
    hide Rate;
    if q.isLong {
      DivisionCancels(q.EntryNotional() - q.margin - Deduction(q.tiers, k), 1.0 - r);
    } else {
      DivisionCancels(q.EntryNotional() + q.margin + Deduction(q.tiers, k), 1.0 + r);
    }
  }

  /** The sign of a line's cushion tells on which side of its root n lies. */
  lemma LineCushionSign(q: Isolated, k: nat, n: real)
    requires k < |q.tiers|
    ensures q.LineCushion(k, q.Root(k)) == 0.0
    ensures q.LineCushion(k, n) == 0.0 <==> n == q.Root(k)
    ensures q.LineCushion(k, n) < 0.0 <==> if q.isLong then n < q.Root(k) else n > q.Root(k)
  {
    hide *;
    LineCushionFromRoot(q, k, n);
    LineCushionFromRoot(q, k, q.Root(k));
    var r := Rate(q.tiers[k]);
    if q.isLong {
      SignOfProduct(1.0 - r, n - q.Root(k), q.LineCushion(k, n));
      SignOfProduct(1.0 - r, q.Root(k) - q.Root(k), q.LineCushion(k, q.Root(k)));
    } else {
      SignOfProduct(1.0 + r, q.Root(k) - n, q.LineCushion(k, n));
      SignOfProduct(1.0 + r, q.Root(k) - q.Root(k), q.LineCushion(k, q.Root(k)));
    }
  }

  lemma SignOfProduct(slope: real, d: real, c: real)
    requires slope > 0.0 && c == slope * d
    ensures c == 0.0 <==> d == 0.0
    ensures c < 0.0 <==> d < 0.0
  {
    if d > 0.0 {
      ProductSign(slope, d);
    } else if d < 0.0 {
      ProductSign(slope, -d);
    }
  }

  lemma NotionalIsMonotone(q: Isolated, a: real, b: real)
    requires q.size > 0.0
    ensures a < b <==> q.Notional(a) < q.Notional(b)
    ensures a == b <==> q.Notional(a) == q.Notional(b)
    ensures b > 0.0 <==> q.Notional(b) > 0.0
  {
    ProductIsStrict(a, b, q.size);
    ProductIsStrict(0.0, b, q.size);
  }

  /** The cushion is below every line's cushion and touches that of its own tier. */
  lemma CushionIsLowest(q: Isolated, n: real)
    requires q.Valid() && n >= 0.0
    ensures forall k :: 0 <= k < |q.tiers| ==> q.Cushion(n) <= q.LineCushion(k, n)
    ensures q.Cushion(n) == q.LineCushion(TierIndex(q.tiers, n), n)
  {
    MarginIsEnvelope(q.tiers, n);
    hide Line, MaintenanceMargin, TierIndex;
    forall k | 0 <= k < |q.tiers| ensures q.Cushion(n) <= q.LineCushion(k, n) {
      assert Line(q.tiers, k, n) <= MaintenanceMargin(q.tiers, n);
    }
  }

  /** Above zero the cushion strictly rises for a long and strictly falls for a short. */
  lemma CushionIsMonotone(q: Isolated, m: real, n: real)
    requires q.Valid() && 0.0 <= m < n
    ensures if q.isLong then q.Cushion(n) - q.Cushion(m) >= 0.5 * (n - m) else q.Cushion(n) < q.Cushion(m)
  {
    MarginGrowth(q.tiers, m, n);
    hide MaintenanceMargin;
  }

  /** One round in notionals: Notional(Solve(n)) is the root of the line that applies at n. */
  lemma SolveIsRoot(q: Isolated, n: real)
    requires q.Valid() && n >= 0.0
    ensures q.Notional(q.Solve(n)) == q.Root(TierIndex(q.tiers, n))
  {
    MarginIsEnvelope(q.tiers, n);
    assert q.DeductionAt(n) == Deduction(q.tiers, TierIndex(q.tiers, n));
    hide Rate, Deduction, MaintenanceMargin, TierIndex, Isolated.DeductionAt, Isolated.SolveLine, Isolated.LineRoot;
    SolveLineIsRoot(q, q.RateAt(n), q.DeductionAt(n));
  }

  lemma SolveLineIsRoot(q: Isolated, r: real, d: real)
    requires q.size > 0.0 && 0.0 < r <= 0.5
    ensures q.Notional(q.SolveLine(r, d)) == q.LineRoot(r, d)
  {
    var e := q.EntryNotional();
    hide Isolated.EntryNotional;
    if q.isLong {
      ScaledQuotient(e - q.margin - d, q.size, 1.0 - r);
    } else {
      ScaledQuotient(e + q.margin + d, q.size, 1.0 + r);
    }
  }

  lemma ScaledQuotient(a: real, s: real, b: real)
    requires s != 0.0 && b != 0.0
    ensures s * b != 0.0 && s * (a / (s * b)) == a / b
  {
    DivisionCancels(a, s * b);
    DivisionCancels(a, b);
    var x := a / (s * b);
    assert (s * x) * b == a;
    if s * x != a / b {
      assert (s * x - a / b) * b == 0.0;
    }
  }

  /** From any n at or past the root, the next iterate moves back towards the root without
      passing it, the tier moves with it, and staying in one tier means having arrived. */
  lemma NewtonStep(q: Isolated, n: real)
    requires q.Valid() && n >= 0.0 && q.Cushion(n) <= 0.0
    ensures var k := TierIndex(q.tiers, n); var next := q.Root(k);
      && (if q.isLong then next >= n else next <= n)
      && (next == n <==> q.Cushion(n) == 0.0)
      && (next >= 0.0 ==>
            && q.Cushion(next) <= 0.0
            && (if q.isLong then TierIndex(q.tiers, next) >= k else TierIndex(q.tiers, next) <= k)
            && (TierIndex(q.tiers, next) == k ==> q.Cushion(next) == 0.0))
  {
    ValidMeans(q);
    hide *;
    var k := TierIndex(q.tiers, n);
    var next := q.Root(k);
    CushionIsLowest(q, n);
    LineCushionSign(q, k, n);
    if next >= 0.0 {
      CushionIsLowest(q, next);
      if next >= n {
        TierIndexMonotone(q.tiers, n, next);
      } else {
        TierIndexMonotone(q.tiers, next, n);
      }
    }
  }

  lemma ValidMeans(q: Isolated)
    requires q.Valid()
    ensures q.size > 0.0 && WellFormed(q.tiers) && |q.tiers| > 0
  {
  }

  /** The first solve, wherever it starts, never falls short of the root. */
  lemma FirstSolveIsPast(q: Isolated)
    requires q.Valid()
    ensures q.FirstSolve() > 0.0 ==> q.Cushion(q.Notional(q.FirstSolve())) <= 0.0
    ensures q.FirstSolve() <= 0.0 && !q.isLong ==> q.EntryNotional() + q.margin <= 0.0
  {
    hide Rate, Deduction, MaintenanceMargin, TierIndex;
    hide Isolated.Solve, Isolated.Root, Isolated.Cushion, Isolated.LineCushion;
    var px := q.FirstSolve();
    var n := q.EntryNotional();
    NotionalIsMonotone(q, px, q.entryPx);
    NotionalIsMonotone(q, q.entryPx, px);
    hide Isolated.Notional;
    SolveIsRoot(q, n);
    var k := TierIndex(q.tiers, n);
    var m := q.Root(k);
    LineCushionSign(q, k, m);
    if px > 0.0 {
      CushionIsLowest(q, m);
    }
    if px <= 0.0 && !q.isLong {
      NegativeShortRoot(q, k, px);
    }
  }

  /** Only a short whose margin is gone altogether solves to a price at or below zero. */
  lemma NegativeShortRoot(q: Isolated, k: nat, px: real)
    requires q.Valid() && !q.isLong && k < |q.tiers|
    requires px <= 0.0 && q.Notional(px) == q.Root(k)
    ensures q.EntryNotional() + q.margin <= 0.0
  {
    hide Rate, Isolated.Root, Isolated.EntryNotional;
    LineCushionSign(q, k, 0.0);
    NotionalIsMonotone(q, 0.0, px);
    DeductionIsPositive(q.tiers, k);
    assert Line(q.tiers, k, 0.0) == -Deduction(q.tiers, k);
  }

  lemma {:induction false} DeductionIsPositive(ts: seq<Tier>, k: nat)
    requires WellFormed(ts) && k < |ts|
    ensures Deduction(ts, k) >= 0.0
  {
    hide Rate;
    if k > 0 {
      DeductionIsPositive(ts, k - 1);
      BoundsAscend(ts, 0, k);
      RatesAscend(ts[k - 1], ts[k]);
      ProductSign(ts[k].lowerBound, Rate(ts[k]) - Rate(ts[k - 1]));
    }
  }

  /** No notional at or past the root lies in a tier beyond this one. */
  ghost predicate EndsBy(q: Isolated, last: nat)
    requires |q.tiers| > 0
  {
    forall m :: m >= 0.0 && q.Cushion(m) <= 0.0 ==>
      if q.isLong then TierIndex(q.tiers, m) <= last else last <= TierIndex(q.tiers, m)
  }

  /** How many tiers other than j the iteration could still move through, up to the last one. */
  function TiersAhead(q: Isolated, n: real, j: nat, last: nat): int
    requires |q.tiers| > 0
  {
    var k := TierIndex(q.tiers, n);
    if q.isLong then last + 1 - k - (if k <= j <= last then 1 else 0)
    else k + 1 - last - (if last <= j <= k then 1 else 0)
  }

  /** From at or past the root, a price solves its own line exactly when it is the root. */
  lemma FixpointIsRoot(q: Isolated, px: real)
    requires q.Valid() && px > 0.0 && q.Cushion(q.Notional(px)) <= 0.0
    ensures q.Solve(q.Notional(px)) == px <==> q.Cushion(q.Notional(px)) == 0.0
  {
    hide Rate, TierIndex, MaintenanceMargin;
    hide Isolated.Cushion, Isolated.Root, Isolated.Solve, Isolated.EntryNotional;
    NotionalIsMonotone(q, 0.0, px);
    NotionalIsMonotone(q, px, q.Solve(q.Notional(px)));
    hide Isolated.Notional;
    SolveIsRoot(q, q.Notional(px));
    NewtonStep(q, q.Notional(px));
  }

  /** However many rounds there are, the loop ends at or past the root, or on a short whose margin is gone. */
  lemma {:induction false} IterateStaysPast(q: Isolated, px: real, rounds: nat)
    requires q.Valid() && px > 0.0 && q.Cushion(q.Notional(px)) <= 0.0
    ensures
      var end := q.Iterate(px, rounds);
      if end > 0.0 then q.Cushion(q.Notional(end)) <= 0.0 else !q.isLong && q.EntryNotional() + q.margin <= 0.0
    decreases rounds
  {
    hide Rate, TierIndex, MaintenanceMargin;
    hide Isolated.Cushion, Isolated.Root, Isolated.Solve, Isolated.EntryNotional;
    hide Isolated.Notional;
    if rounds > 0 {
      var n := q.Notional(px);
      var next := q.Solve(n);
      NotionalIsMonotone(q, 0.0, px);
      NotionalIsMonotone(q, px, next);
      NotionalIsMonotone(q, 0.0, next);
      SolveIsRoot(q, n);
      NewtonStep(q, n);
      if next != px {
        if next > 0.0 {
          IterateStaysPast(q, next, rounds - 1);
        } else {
          NegativeShortRoot(q, TierIndex(q.tiers, n), next);
        }
      }
    }
  }

  /** With a round for every tier ahead, other than the one already solved, the loop ends exactly on the root; the
      one other ending is a short whose margin is gone. */
  lemma {:induction false} IterateSettles(q: Isolated, px: real, n: real, j: nat, last: nat, rounds: nat)
    requires q.Valid() && px > 0.0 && n == q.Notional(px) && q.Cushion(n) <= 0.0
    requires j < |q.tiers| && if q.isLong then n >= q.Root(j) else n <= q.Root(j)
    requires EndsBy(q, last) && (q.Cushion(n) == 0.0 || TiersAhead(q, n, j, last) <= rounds)
    ensures Settled(q, q.Iterate(px, rounds))
    decreases rounds
  {
    hide Rate, TierIndex, MaintenanceMargin;
    hide Isolated.Cushion, Isolated.Root, Isolated.Solve, Isolated.EntryNotional;
    hide Isolated.Notional;
    NotionalIsMonotone(q, 0.0, px);
    SolveIsRoot(q, n);
    NewtonStep(q, n);
    if rounds > 0 {
      var next := q.Solve(n);
      var m := q.Root(TierIndex(q.tiers, n));
      NotionalIsMonotone(q, px, next);
      if next != px {
        if next > 0.0 {
          NotionalIsMonotone(q, 0.0, next);
          IterateSettles(q, next, m, j, last, rounds - 1);
        } else {
          NegativeShortRoot(q, TierIndex(q.tiers, n), next);
        }
      }
    }
  }

  /** The exact root, or the one other ending: a short with no margin left at all. */
  predicate Settled(q: Isolated, px: real) {
    || (px > 0.0 && q.Cushion(q.Notional(px)) == 0.0)
    || (!q.isLong && px <= 0.0 && q.EntryNotional() + q.margin <= 0.0)
  }

  /** The loop left by its break, or at a price that is not positive: a ninth round would change nothing. */
  predicate RoundsSuffice(q: Isolated)
    requires q.size != 0.0
  {
    var px := q.Iterate(q.FirstSolve(), ROUNDS);
    px <= 0.0 || q.Solve(q.Notional(px)) == px
  }

  /** For any schedule: the displayed price of a short is the exact root (or not positive, when no margin is left
      at all), and so is that of a long whose first solve is positive, if and only if the rounds suffice. */
  lemma {:induction false} LiquidationPriceIsExact(q: Isolated)
    requires q.Valid()
    requires q.isLong ==> q.FirstSolve() > 0.0
    ensures Settled(q, q.LiquidationPrice()) <==> RoundsSuffice(q)
    ensures q.LiquidationPrice() > 0.0 ==> q.Cushion(q.Notional(q.LiquidationPrice())) <= 0.0
  {
    hide Isolated.Solve, Isolated.Cushion, Isolated.FirstSolve, Isolated.EntryNotional, Isolated.Notional, MaintenanceMargin;
    FirstSolveIsPast(q);
    if q.FirstSolve() > 0.0 {
      IterateStaysPast(q, q.FirstSolve(), ROUNDS);
      var px := q.Iterate(q.FirstSolve(), ROUNDS);
      hide Isolated.Iterate;
      if px > 0.0 {
        FixpointIsRoot(q, px);
      }
    }
  }

  /** A bound that can be checked beforehand: they suffice when, from the tier of the first solve up to that of any
      notional the position is healthy at, no more than eight tiers lie ahead, the entry's own not counted. */
  lemma {:induction false} NearTiersSuffice(q: Isolated, healthy: real)
    requires q.Valid() && healthy >= 0.0 && q.Cushion(healthy) >= 0.0
    requires q.FirstSolve() > 0.0 ==>
               TiersAhead(q, q.Notional(q.FirstSolve()), TierIndex(q.tiers, q.EntryNotional()), TierIndex(q.tiers, healthy))
               <= ROUNDS
    ensures RoundsSuffice(q)
  {
    hide Isolated.FirstSolve, Isolated.Notional, Isolated.EntryNotional;
    HealthyEnds(q, healthy);
    hide Isolated.Cushion, TierIndex;
    FewTiersSuffice(q, TierIndex(q.tiers, healthy));
  }

  lemma HealthyEnds(q: Isolated, healthy: real)
    requires q.Valid() && healthy >= 0.0 && q.Cushion(healthy) >= 0.0
    ensures EndsBy(q, TierIndex(q.tiers, healthy))
  {
    hide Isolated.Cushion, TierIndex;
    forall m | m >= 0.0 && q.Cushion(m) <= 0.0
      ensures if q.isLong then TierIndex(q.tiers, m) <= TierIndex(q.tiers, healthy)
              else TierIndex(q.tiers, healthy) <= TierIndex(q.tiers, m)
    {
      if m < healthy {
        CushionIsMonotone(q, m, healthy);
        TierIndexMonotone(q.tiers, m, healthy);
      } else if healthy < m {
        CushionIsMonotone(q, healthy, m);
        TierIndexMonotone(q.tiers, healthy, m);
      }
    }
  }

  lemma {:induction false} FewTiersSuffice(q: Isolated, last: nat)
    requires q.Valid() && EndsBy(q, last)
    requires var n := q.Notional(q.FirstSolve());
      q.FirstSolve() > 0.0 ==>
        q.Cushion(n) == 0.0 || TiersAhead(q, n, TierIndex(q.tiers, q.EntryNotional()), last) <= ROUNDS
    ensures RoundsSuffice(q)
  {
    hide Isolated.Solve, Isolated.Cushion, Isolated.EntryNotional, Isolated.Notional, MaintenanceMargin, TierIndex, Isolated.Root, TiersAhead, EndsBy;
    var first := q.FirstSolve();
    if first > 0.0 {
      FirstSolveIsPast(q);
      FirstSolveIsRoot(q);
      IterateSettles(q, first, q.Notional(first), TierIndex(q.tiers, q.EntryNotional()), last, ROUNDS);
      LiquidationPriceIsExact(q);
    }
  }

  lemma FirstSolveIsRoot(q: Isolated)
    requires q.Valid() && q.FirstSolve() > 0.0
    ensures q.Notional(q.FirstSolve()) == q.Root(TierIndex(q.tiers, q.EntryNotional())) >= 0.0
  {
    hide Isolated.Solve, Isolated.Root, Isolated.EntryNotional, TierIndex;
    var n := q.EntryNotional();
    assert n >= 0.0 by {
      SameNotional(q, q, q.entryPx);
    }
    SolveIsRoot(q, n);
    NotionalIsMonotone(q, 0.0, q.FirstSolve());
  }

  /** They do for every position on a schedule of at most nine tiers. */
  lemma {:induction false} NineTiersSuffice(q: Isolated)
    requires q.Valid() && |q.tiers| <= ROUNDS + 1
    ensures RoundsSuffice(q)
  {
    var last := if q.isLong then |q.tiers| - 1 else 0;
    hide Isolated.FirstSolve, Isolated.EntryNotional, Isolated.Cushion, TierIndex, Isolated.Root, RoundsSuffice;
    if q.FirstSolve() > 0.0 {
      FirstSolveIsRoot(q);
      hide Isolated.Notional;
      FewTiersAhead(q, q.Notional(q.FirstSolve()), TierIndex(q.tiers, q.EntryNotional()), last);
    }
    FewTiersSuffice(q, last);
  }

  lemma FewTiersAhead(q: Isolated, n: real, j: nat, last: nat)
    requires q.Valid() && j < |q.tiers| && n >= 0.0 && n == q.Root(j) && last == if q.isLong then |q.tiers| - 1 else 0
    ensures q.Cushion(n) == 0.0 || TiersAhead(q, n, j, last) < |q.tiers|
  {
    hide Isolated.Cushion, Isolated.Root, TierIndex;
    LineCushionSign(q, j, n);
    CushionIsLowest(q, n);
  }

  // ---- What the display promises ----

  /** At this mark the displayed price tells whether the cushion is negative: below it for a long,
      above it for a short. */
  predicate DisplayIsRightAt(q: Isolated, mark: real)
    requires q.size != 0.0
  {
    q.Cushion(q.Notional(mark)) < 0.0 <==>
    if q.isLong then mark < q.LiquidationPrice() else mark > q.LiquidationPrice()
  }

  /** For a long, the deduction of the entry tier leaves something to solve for, or there is nothing
      to liquidate because the margin covers the whole entry notional. */
  predicate FirstSolveIsSound(q: Isolated)
    requires q.Valid()
  {
    var n := q.EntryNotional();
    q.isLong ==> q.margin + Deduction(q.tiers, TierIndex(q.tiers, n)) < n || n <= q.margin
  }

  lemma RootSeparates(q: Isolated, root: real, mark: real)
    requires q.Valid() && root > 0.0 && mark > 0.0 && q.Cushion(q.Notional(root)) == 0.0
    ensures q.Cushion(q.Notional(mark)) < 0.0 <==> if q.isLong then mark < root else mark > root
  {
    hide Isolated.Cushion;
    var n, m := q.Notional(root), q.Notional(mark);
    NotionalIsMonotone(q, root, mark);
    NotionalIsMonotone(q, mark, root);
    hide Isolated.Notional;
    if m < n {
      CushionIsMonotone(q, m, n);
    } else if n < m {
      CushionIsMonotone(q, n, m);
    }
  }

  lemma CushionAtExtremes(q: Isolated, n: real)
    requires q.Valid() && n > 0.0
    ensures q.isLong && q.margin >= q.EntryNotional() ==> q.Cushion(n) > 0.0
    ensures !q.isLong && q.EntryNotional() + q.margin <= 0.0 ==> q.Cushion(n) < 0.0
    ensures q.isLong ==> q.Cushion(n) < q.margin - q.EntryNotional() + n
  {
    MarginGrowth(q.tiers, 0.0, n);
    hide MaintenanceMargin, Isolated.EntryNotional;
  }

  lemma {:induction false} FirstSolveSign(q: Isolated)
    requires q.Valid() && q.isLong
    ensures q.FirstSolve() > 0.0 <==>
              q.margin + Deduction(q.tiers, TierIndex(q.tiers, q.EntryNotional())) < q.EntryNotional()
  {
    hide Rate, TierIndex, MaintenanceMargin, Deduction;
    hide Isolated.Solve, Isolated.Root;
    var n := q.EntryNotional();
    NotionalIsMonotone(q, 0.0, q.entryPx);
    hide Isolated.Notional;
    SolveIsRoot(q, n);
    NotionalIsMonotone(q, 0.0, q.FirstSolve());
    var k := TierIndex(q.tiers, n);
    LineCushionSign(q, k, 0.0);
    assert Line(q.tiers, k, 0.0) == -Deduction(q.tiers, k);
  }

  lemma {:induction false} DisplayIsRightWhenSound(q: Isolated, mark: real)
    requires q.Valid() && RoundsSuffice(q) && FirstSolveIsSound(q) && mark > 0.0
    ensures DisplayIsRightAt(q, mark)
  {
    hide TierIndex, Deduction, MaintenanceMargin;
    hide Isolated.Solve, Isolated.Cushion, Isolated.FirstSolve, Isolated.EntryNotional, Isolated.Notional;
    if q.isLong {
      FirstSolveSign(q);
    }
    NotionalIsMonotone(q, 0.0, mark);
    CushionAtExtremes(q, q.Notional(mark));
    if !q.isLong || q.FirstSolve() > 0.0 {
      LiquidationPriceIsExact(q);
      var px := q.LiquidationPrice();
      if px > 0.0 {
        if q.Cushion(q.Notional(px)) == 0.0 {
          RootSeparates(q, px, mark);
        }
      }
    }
  }

  lemma Divide(n: real, size: real) returns (px: real)
    requires size > 0.0
    ensures size * px == n
  {
    px := n / size;
    DivisionCancels(n, size);
  }

  /** The half of the uncovered notional is a mark at which a mispriced long is under water. */
  lemma MispricedLong(q: Isolated) returns (mark: real)
    requires q.Valid() && !FirstSolveIsSound(q)
    ensures mark > 0.0 && !DisplayIsRightAt(q, mark)
    ensures q.isLong && q.LiquidationPrice() == 0.0 && q.Cushion(q.Notional(mark)) < 0.0
  {
    hide Isolated.Solve, Isolated.EntryNotional, TierIndex, Deduction, MaintenanceMargin, Isolated.Cushion;
    var n := (q.EntryNotional() - q.margin) / 2.0;
    mark := Divide(n, q.size);
    assert q.Notional(mark) == n;
    hide Isolated.Notional;
    FirstSolveSign(q);
    NotionalIsMonotone(q, 0.0, mark);
    CushionAtExtremes(q, n);
  }

  /** A price the rounds left short of the root is itself a mark at which the position is under water and the
      display says it is not. */
  lemma UnsettledIsWrong(q: Isolated)
    requires q.Valid() && FirstSolveIsSound(q) && !RoundsSuffice(q)
    ensures q.LiquidationPrice() > 0.0 && !DisplayIsRightAt(q, q.LiquidationPrice())
  {
    hide Isolated.Solve, Isolated.Cushion, Isolated.EntryNotional, Isolated.Notional, TierIndex, Deduction, MaintenanceMargin;
    assert q.FirstSolve() > 0.0 by {
      hide Isolated.FirstSolve;
    }
    LiquidationPriceIsExact(q);
  }

  /** For any isolated position and any schedule, the displayed liquidation price is exactly where the position
      goes under water, for every positive mark, if and only if the first solve is sound and the rounds
      suffice. */
  lemma {:induction false} DisplayIsRight(q: Isolated)
    requires q.Valid()
    ensures (forall mark :: mark > 0.0 ==> DisplayIsRightAt(q, mark)) <==> FirstSolveIsSound(q) && RoundsSuffice(q)
  {
    hide Isolated.LiquidationPrice, DisplayIsRightAt, RoundsSuffice, FirstSolveIsSound;
    if FirstSolveIsSound(q) && RoundsSuffice(q) {
      forall mark | mark > 0.0 ensures DisplayIsRightAt(q, mark) {
        DisplayIsRightWhenSound(q, mark);
      }
    } else if FirstSolveIsSound(q) {
      UnsettledIsWrong(q);
    } else {
      var mark := MispricedLong(q);
    }
  }

  /** Every position whose margin is less than half its entry notional, so every position opened at
      more than twice leverage, is shown the right price. */
  lemma LeveragedPositionsAreSound(q: Isolated)
    requires q.Valid() && q.margin < 0.5 * q.EntryNotional()
    ensures FirstSolveIsSound(q)
  {
    var n := q.EntryNotional();
    NotionalIsMonotone(q, 0.0, q.entryPx);
    hide Isolated.Notional, Isolated.EntryNotional;
    MarginIsEnvelope(q.tiers, n);
    MarginGrowth(q.tiers, 0.0, n);
    LineSlope(q.tiers, TierIndex(q.tiers, n), 0.0, n);
  }

  /** A long of 100000 topped up to 99000 of margin on the 40x/25x/10x schedule: it is shown 0 and is
      liquidatable at 500. */
  lemma {:induction false} ToppedUpLongIsMispriced()
    ensures
      var ts := [Tier(0.0, 40), Tier(10000.0, 25), Tier(50000.0, 10)];
      var q := Isolated(true, 1.0, 100000.0, 99000.0, 1, ts);
      q.Valid() && !FirstSolveIsSound(q) && q.LiquidationPrice() == 0.0 && q.Cushion(q.Notional(500.0)) < 0.0
  {
    var ts := [Tier(0.0, 40), Tier(10000.0, 25), Tier(50000.0, 10)];
    var q := Isolated(true, 1.0, 100000.0, 99000.0, 1, ts);
    assert TierFrom(ts, 100000.0, 2) == 2;
    assert TierIndex(ts, 100000.0) == 2;
    assert Deduction(ts, 1) == 75.0;
    assert Deduction(ts, 2) == 1575.0;
    FirstSolveSign(q);
    CushionAtExtremes(q, 500.0);
  }

  // ---- Without a schedule ----

  /** Without a schedule the display solves at half the reciprocal of the user's leverage, which is what the
      engine charges then: a flat tier at that leverage. So everything above holds of that case too. */
  lemma UntieredIsFlat(q: Isolated)
    requires q.size > 0.0 && q.entryPx > 0.0 && q.tiers == []
    ensures q.LiquidationPrice() == q.(tiers := [Tier(0.0, q.leverage)]).LiquidationPrice()
  {
    hide Isolated.Solve, Isolated.Notional, Isolated.EntryNotional;
    var flat := q.(tiers := [Tier(0.0, q.leverage)]);
    var px := q.FirstSolve();
    SameNotional(q, flat, q.entryPx);
    FlatSolve(q, flat, q.EntryNotional());
    assert flat.FirstSolve() == px;
    if px > 0.0 {
      SameNotional(q, flat, px);
      FlatSolve(q, flat, q.Notional(px));
    }
    hide Isolated.FirstSolve;
    assert flat.Iterate(px, ROUNDS) == px;
    assert q.Iterate(px, ROUNDS) == px;
  }

  lemma SameNotional(q: Isolated, flat: Isolated, px: real)
    requires q.size > 0.0 && px > 0.0 && flat.size == q.size && flat.entryPx == q.entryPx
    ensures flat.Notional(px) == q.Notional(px) >= 0.0
    ensures flat.EntryNotional() == q.EntryNotional()
    ensures px == q.entryPx ==> q.EntryNotional() >= 0.0
  {
    ProductSign(q.size, px);
  }

  /** On a flat tier every solve, from any notional, is the same. */
  lemma FlatSolve(q: Isolated, flat: Isolated, n: real)
    requires q.size > 0.0 && q.tiers == [] && flat == q.(tiers := [Tier(0.0, q.leverage)]) && n >= 0.0
    ensures flat.Solve(n) == q.Solve(n) == q.Solve(q.EntryNotional())
  {
    FlatRate(q.leverage);
    ProductSign(n, Rate(flat.tiers[0]));
    hide Rate, Isolated.SolveLine;
    assert TierIndex(flat.tiers, n) == 0;
    assert Deduction(flat.tiers, 0) == 0.0;
    assert flat.RateAt(n) == q.RateAt(n);
    assert flat.DeductionAt(n) == 0.0;
    SameLine(q, flat, q.RateAt(n));
  }

  lemma SameLine(q: Isolated, flat: Isolated, r: real)
    requires q.size > 0.0 && 0.0 < r <= 0.5
    requires (flat.isLong, flat.size, flat.entryPx, flat.margin) == (q.isLong, q.size, q.entryPx, q.margin)
    ensures flat.SolveLine(r, 0.0) == q.SolveLine(r, 0.0)
  {
    SameQuotient(flat.EntryNotional() - flat.margin - 0.0, q.EntryNotional() - q.margin - 0.0, q.size, 1.0 - r);
    SameQuotient(flat.EntryNotional() + flat.margin + 0.0, q.EntryNotional() + q.margin + 0.0, q.size, 1.0 + r);
    hide Isolated.EntryNotional;
  }

  lemma SameQuotient(x: real, y: real, size: real, rest: real)
    requires x == y && size > 0.0 && rest > 0.0
    ensures size * rest != 0.0 && x / (size * rest) == y / (size * rest)
  {
    ProductSign(size, rest);
  }

  lemma FlatRate(leverage: Leverage)
    ensures Rate(Tier(0.0, leverage)) == 1.0 / ((leverage * 2) as real)
  {
    var l := leverage as real;
    HalfOfReciprocal(l);
    assert (leverage * 2) as real == l * 2.0;
  }

  lemma HalfOfReciprocal(l: real)
    requires l > 0.0
    ensures 1.0 / l / 2.0 == 1.0 / (l * 2.0)
  {
    DivisionCancels(1.0, l);
    DivisionCancels(1.0, l * 2.0);
    var a, b := 1.0 / l / 2.0, 1.0 / (l * 2.0);
    assert a * (l * 2.0) == 1.0;
    ProductIsStrict(a, b, l * 2.0);
  }
}
