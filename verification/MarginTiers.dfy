/** Hyperliquid's tiered maintenance margin (src/engine/marginTiers.ts).

    A schedule is a list of tiers; inside tier i the margin of a notional n is the line
    rate(i) * n - deduction(i). The deductions are what makes the lines meet at the tier
    boundaries, so that the whole schedule is the upper envelope of its lines. */
module MarginTiers {
  import opened Prelude

  type Leverage = x: int | 1 <= x witness 1

  datatype Tier = Tier(lowerBound: real, maxLeverage: Leverage)

  /** What Hyperliquid's wire format always is: starting at zero, strictly ascending
      bounds, leverage falling as the notional grows. */
  predicate WellFormed(ts: seq<Tier>) {
    && |ts| > 0
    && ts[0].lowerBound == 0.0
    && (forall i :: 0 <= i < |ts| - 1 ==> ts[i].lowerBound < ts[i + 1].lowerBound)
    && (forall i :: 0 <= i < |ts| - 1 ==> ts[i].maxLeverage >= ts[i + 1].maxLeverage)
  }

  function Rate(t: Tier): (r: real)
    ensures 0.0 < r <= 0.5
  {
    1.0 / (t.maxLeverage as real) / 2.0
  }

  // ---- Tier lookup ----

  function TierFrom(ts: seq<Tier>, n: real, i: nat): (k: nat)
    requires i < |ts|
    ensures i <= k < |ts|
    decreases |ts| - i
  {
    if i + 1 < |ts| && n >= ts[i + 1].lowerBound then TierFrom(ts, n, i + 1) else i
  }

  /** The tier a notional falls into: the end of the run of leading bounds at or below it. */
  function TierIndex(ts: seq<Tier>, n: real): (k: nat)
    requires |ts| > 0
    ensures k < |ts|
  {
    if n >= ts[0].lowerBound then TierFrom(ts, n, 0) else 0
  }

  method TierForNotional(ts: seq<Tier>, notional: real) returns (tier: Tier, index: nat)
    requires |ts| > 0
    ensures index == TierIndex(ts, notional)
    ensures tier == ts[index]
  {
    tier, index := ts[0], 0;
    var i := 0;
    while i < |ts|
      invariant 0 <= i <= |ts|
      invariant index < |ts| && tier == ts[index]
      invariant i == 0 ==> index == 0
      invariant i > 0 ==> index == i - 1 && notional >= ts[0].lowerBound
      invariant i > 0 ==> TierIndex(ts, notional) == TierFrom(ts, notional, i - 1)
    {
      if notional >= ts[i].lowerBound {
        tier, index := ts[i], i;
      } else {
        break;
      }
      i := i + 1;
    }
  }

  lemma {:induction false} TierFromBrackets(ts: seq<Tier>, n: real, i: nat)
    requires i < |ts| && n >= ts[i].lowerBound
    ensures var k := TierFrom(ts, n, i); n >= ts[k].lowerBound && (k + 1 < |ts| ==> n < ts[k + 1].lowerBound)
    decreases |ts| - i
  {
    if i + 1 < |ts| && n >= ts[i + 1].lowerBound {
      TierFromBrackets(ts, n, i + 1);
    }
  }

  /** The chosen tier is the one whose half-open bracket holds the notional. */
  lemma TierBrackets(ts: seq<Tier>, n: real)
    requires WellFormed(ts) && n >= 0.0
    ensures var k := TierIndex(ts, n); n >= ts[k].lowerBound && (k + 1 < |ts| ==> n < ts[k + 1].lowerBound)
  {
    TierFromBrackets(ts, n, 0);
  }

  lemma {:induction false} BoundsAscend(ts: seq<Tier>, i: nat, j: nat)
    requires WellFormed(ts) && i <= j < |ts|
    ensures 0.0 <= ts[i].lowerBound <= ts[j].lowerBound
    ensures i < j ==> ts[i].lowerBound < ts[j].lowerBound
    ensures Rate(ts[i]) <= Rate(ts[j])
    decreases j
  {
    if i < j {
      BoundsAscend(ts, i, j - 1);
      RatesAscend(ts[j - 1], ts[j]);
    } else if i > 0 {
      BoundsAscend(ts, 0, i - 1);
    }
  }

  lemma ReciprocalsDescend(x: real, y: real)
    requires 0.0 < x <= y
    ensures 0.0 < 1.0 / y <= 1.0 / x
  {
    DivisionCancels(1.0, x);
    DivisionCancels(1.0, y);
    ProductSign(1.0 / x, y - x);
    ProductIsStrict(1.0 / y, 1.0 / x, y);
  }

  lemma RatesAscend(a: Tier, b: Tier)
    requires a.maxLeverage >= b.maxLeverage
    ensures Rate(a) <= Rate(b)
  {
    ReciprocalsDescend(b.maxLeverage as real, a.maxLeverage as real);
  }

  /** A larger notional is never in a lower tier. */
  lemma TierIndexMonotone(ts: seq<Tier>, m: real, n: real)
    requires WellFormed(ts) && 0.0 <= m <= n
    ensures TierIndex(ts, m) <= TierIndex(ts, n)
  {
    TierBrackets(ts, m);
    TierBrackets(ts, n);
    var i, j := TierIndex(ts, m), TierIndex(ts, n);
    if j < i {
      BoundsAscend(ts, j + 1, i);
    }
  }

  // ---- The margin ----

  function Deduction(ts: seq<Tier>, k: nat): real
    requires k < |ts|
  {
    if k == 0 then 0.0
    else Deduction(ts, k - 1) + ts[k].lowerBound * (Rate(ts[k]) - Rate(ts[k - 1]))
  }

  /** The line of tier k. */
  function Line(ts: seq<Tier>, k: nat, n: real): real
    requires k < |ts|
  {
    Rate(ts[k]) * n - Deduction(ts, k)
  }

  function MaintenanceMargin(ts: seq<Tier>, n: real): real {
    if |ts| == 0 then 0.0
    else
      var raw := n * Rate(ts[TierIndex(ts, n)]) - Deduction(ts, TierIndex(ts, n));
      if raw > 0.0 then raw else 0.0
  }

  method MaintenanceMarginRateForNotional(ts: seq<Tier>, notional: real) returns (rate: real)
    requires |ts| > 0
    ensures rate == Rate(ts[TierIndex(ts, notional)])
  {
    var tier, index := TierForNotional(ts, notional);
    rate := Rate(tier);
  }

  method MaintenanceMarginForNotional(ts: seq<Tier>, notional: real) returns (margin: real)
    ensures margin == MaintenanceMargin(ts, notional)
    ensures WellFormed(ts) && notional >= 0.0 ==> margin == SlicedMargin(ts, notional, |ts|)
  {
    hide Rate, TierIndex;
    if |ts| == 0 {
      return 0.0;
    }
    var tier, index := TierForNotional(ts, notional);
    var rate := Rate(tier);
    var deduction := 0.0;
    var i := 1;
    while i <= index
      invariant 1 <= i <= index + 1
      invariant deduction == Deduction(ts, i - 1)
    {
      var prevRate := Rate(ts[i - 1]);
      var curRate := Rate(ts[i]);
      var step := ts[i].lowerBound * (curRate - prevRate);
      deduction := deduction + step;
      i := i + 1;
    }
    assert i - 1 == index == TierIndex(ts, notional);
    var raw := notional * rate - deduction;
    margin := if raw > 0.0 then raw else 0.0;
    assert margin == MaintenanceMargin(ts, notional);
    hide MaintenanceMargin, SlicedMargin, Deduction, WellFormed;
    if WellFormed(ts) && notional >= 0.0 {
      MarginIsSliced(ts, notional);
    }
  }

  /** Neighbouring lines cross exactly at the bound between them. */
  lemma LinesMeet(ts: seq<Tier>, k: nat, n: real)
    requires k + 1 < |ts|
    ensures Line(ts, k + 1, n) - Line(ts, k, n) == (Rate(ts[k + 1]) - Rate(ts[k])) * (n - ts[k + 1].lowerBound)
  {
    hide Rate;
  }

  lemma {:induction false} LineRises(ts: seq<Tier>, j: nat, k: nat, n: real)
    requires WellFormed(ts) && j <= k < |ts| && n >= ts[k].lowerBound
    ensures Line(ts, j, n) <= Line(ts, k, n)
    decreases k
  {
    hide Rate;
    if j < k {
      LinesMeet(ts, k - 1, n);
      RatesAscend(ts[k - 1], ts[k]);
      ProductSign(Rate(ts[k]) - Rate(ts[k - 1]), n - ts[k].lowerBound);
      LineRises(ts, j, k - 1, n);
    }
  }

  lemma {:induction false} LineFalls(ts: seq<Tier>, k: nat, j: nat, n: real)
    requires WellFormed(ts) && k <= j < |ts| && (k + 1 < |ts| ==> n <= ts[k + 1].lowerBound)
    ensures Line(ts, j, n) <= Line(ts, k, n)
    decreases j
  {
    hide Rate;
    if k < j {
      LinesMeet(ts, j - 1, n);
      RatesAscend(ts[j - 1], ts[j]);
      BoundsAscend(ts, k + 1, j);
      ProductSign(Rate(ts[j]) - Rate(ts[j - 1]), ts[j].lowerBound - n);
      LineFalls(ts, k, j - 1, n);
    }
  }

  /** The schedule is the upper envelope of its lines: no line is above it, it is the line of
      the tier that was looked up, and the final clamp at zero never binds. */
  lemma MarginIsEnvelope(ts: seq<Tier>, n: real)
    requires WellFormed(ts) && n >= 0.0
    ensures forall j :: 0 <= j < |ts| ==> Line(ts, j, n) <= MaintenanceMargin(ts, n)
    ensures MaintenanceMargin(ts, n) == Line(ts, TierIndex(ts, n), n)
  {
    hide Rate;
    var k := TierIndex(ts, n);
    TierBrackets(ts, n);
    forall j | 0 <= j < |ts| ensures Line(ts, j, n) <= Line(ts, k, n) {
      if j <= k { LineRises(ts, j, k, n); } else { LineFalls(ts, k, j, n); }
    }
    assert Line(ts, 0, n) == Rate(ts[0]) * n;
    ProductSign(Rate(ts[0]), n);
  }

  /** The part of notional n that lies inside tier i. */
  function Slice(ts: seq<Tier>, n: real, i: nat): real
    requires i < |ts|
  {
    if n <= ts[i].lowerBound then 0.0
    else if i + 1 < |ts| && n > ts[i + 1].lowerBound then ts[i + 1].lowerBound - ts[i].lowerBound
    else n - ts[i].lowerBound
  }

  /** The independent definition: every dollar of notional is charged its own tier's rate. */
  function SlicedMargin(ts: seq<Tier>, n: real, k: nat): real
    requires k <= |ts|
  {
    if k == 0 then 0.0 else SlicedMargin(ts, n, k - 1) + Rate(ts[k - 1]) * Slice(ts, n, k - 1)
  }

  lemma {:induction false} SlicesBelow(ts: seq<Tier>, n: real, k: nat)
    requires WellFormed(ts) && k < |ts| && n >= ts[k].lowerBound
    ensures SlicedMargin(ts, n, k) == Line(ts, k, ts[k].lowerBound)
    decreases k
  {
    hide Rate;
    if k > 0 {
      SlicesBelow(ts, n, k - 1);
      LinesMeet(ts, k - 1, ts[k].lowerBound);
    }
  }

  lemma {:induction false} SlicesAbove(ts: seq<Tier>, n: real, k: nat, m: nat)
    requires WellFormed(ts) && k <= m <= |ts| && (k < |ts| ==> n <= ts[k].lowerBound)
    ensures SlicedMargin(ts, n, m) == SlicedMargin(ts, n, k)
    decreases m
  {
    hide Rate;
    if k < m {
      BoundsAscend(ts, k, m - 1);
      SlicesAbove(ts, n, k, m - 1);
    }
  }

  /** The deduction form equals the slice form. */
  lemma MarginIsSliced(ts: seq<Tier>, n: real)
    requires WellFormed(ts) && n >= 0.0
    ensures MaintenanceMargin(ts, n) == SlicedMargin(ts, n, |ts|)
  {
    hide Rate;
    var k := TierIndex(ts, n);
    TierBrackets(ts, n);
    MarginIsEnvelope(ts, n);
    SlicesBelow(ts, n, k);
    SlicesAbove(ts, n, k + 1, |ts|);
    if n > ts[k].lowerBound {
      assert Slice(ts, n, k) == n - ts[k].lowerBound;
    } else {
      assert Slice(ts, n, k) == 0.0;
    }
    LineFrom(ts, k, ts[k].lowerBound, n);
  }

  lemma LineFrom(ts: seq<Tier>, k: nat, m: real, n: real)
    requires k < |ts|
    ensures Line(ts, k, n) == Line(ts, k, m) + Rate(ts[k]) * (n - m)
  {
    hide Rate, Deduction;
  }

  lemma LineSlope(ts: seq<Tier>, k: nat, m: real, n: real)
    requires k < |ts| && m <= n
    ensures 0.0 <= Line(ts, k, n) - Line(ts, k, m) <= 0.5 * (n - m)
    ensures m < n ==> Line(ts, k, m) < Line(ts, k, n)
  {
    LineFrom(ts, k, m, n);
    ProductSign(0.5 - Rate(ts[k]), n - m);
    ProductSign(Rate(ts[k]), n - m);
    hide Rate, Line;
  }

  /** Zero at zero, increasing, and no steeper than half the notional: in particular the
      schedule has no jump at a tier boundary. */
  lemma MarginGrowth(ts: seq<Tier>, m: real, n: real)
    requires WellFormed(ts) && 0.0 <= m <= n
    ensures MaintenanceMargin(ts, 0.0) == 0.0
    ensures 0.0 <= MaintenanceMargin(ts, n) - MaintenanceMargin(ts, m) <= 0.5 * (n - m)
    ensures m < n ==> MaintenanceMargin(ts, m) < MaintenanceMargin(ts, n)
  {
    MarginAtZero(ts);
    hide *;
    MarginIsEnvelope(ts, m);
    MarginIsEnvelope(ts, n);
    LineSlope(ts, TierIndex(ts, m), m, n);
    LineSlope(ts, TierIndex(ts, n), m, n);
  }

  lemma MarginAtZero(ts: seq<Tier>)
    requires WellFormed(ts)
    ensures MaintenanceMargin(ts, 0.0) == 0.0
  {
    hide Rate;
    TierBrackets(ts, 0.0);
    BoundsAscend(ts, 0, TierIndex(ts, 0.0));
  }

  /** The schedule is convex. */
  lemma {:induction false} MarginIsConvex(ts: seq<Tier>, m: real, n: real, t: real)
    requires WellFormed(ts) && 0.0 <= m && 0.0 <= n && 0.0 <= t <= 1.0
    ensures MaintenanceMargin(ts, t * m + (1.0 - t) * n)
         <= t * MaintenanceMargin(ts, m) + (1.0 - t) * MaintenanceMargin(ts, n)
  {
    hide *;
    ProductSign(t, m);
    ProductSign(1.0 - t, n);
    MarginIsEnvelope(ts, t * m + (1.0 - t) * n);
    MarginIsEnvelope(ts, m);
    MarginIsEnvelope(ts, n);
    var k := TierIndex(ts, t * m + (1.0 - t) * n);
    LineIsAffine(ts, k, m, n, t);
    BlendIsMonotone(t, Line(ts, k, m), MaintenanceMargin(ts, m), Line(ts, k, n), MaintenanceMargin(ts, n));
  }

  lemma LineIsAffine(ts: seq<Tier>, k: nat, m: real, n: real, t: real)
    requires k < |ts|
    ensures Line(ts, k, t * m + (1.0 - t) * n) == t * Line(ts, k, m) + (1.0 - t) * Line(ts, k, n)
  {
    hide Rate;
    var r, d := Rate(ts[k]), Deduction(ts, k);
    assert r * (t * m + (1.0 - t) * n) == t * (r * m) + (1.0 - t) * (r * n);
    assert t * (r * m - d) + (1.0 - t) * (r * n - d) == t * (r * m) + (1.0 - t) * (r * n) - d;
  }

  /** Cutting a notional to the fraction k cuts its maintenance margin at least as much. */
  lemma MarginShrinks(ts: seq<Tier>, n: real, k: real, cut: real)
    requires WellFormed(ts) && 0.0 <= n && 0.0 <= k <= 1.0 && cut == k * n
    ensures MaintenanceMargin(ts, cut) <= k * MaintenanceMargin(ts, n)
  {
    MarginIsConvex(ts, n, 0.0, k);
    MarginAtZero(ts);
    assert k * n + (1.0 - k) * 0.0 == cut;
  }

  /** Inside the first tier it cuts it by exactly k. */
  lemma MarginShrinksExactly(ts: seq<Tier>, n: real, k: real, cut: real)
    requires WellFormed(ts) && 0.0 <= n && 0.0 <= k <= 1.0 && cut == k * n && TierIndex(ts, n) == 0
    ensures MaintenanceMargin(ts, cut) == k * MaintenanceMargin(ts, n)
  {
    hide Rate, MaintenanceMargin;
    ProductSign(1.0 - k, n);
    ProductSign(k, n);
    TierIndexMonotone(ts, cut, n);
    MarginIsEnvelope(ts, n);
    MarginIsEnvelope(ts, cut);
    assert Rate(ts[0]) * cut == k * (Rate(ts[0]) * n);
  }
}
