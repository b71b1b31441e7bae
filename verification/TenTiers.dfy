/** Nine tiers are the most the liquidation-price loop always copes with: a schedule of ten, and a short on it that
    is still one tier away from its price after the eight rounds (src/engine/margin.ts). */
module TenTiers {
  import opened Prelude
  import opened MarginTiers
  import opened Margin

  const SCHEDULE: seq<Tier> := [
    Tier(0.0, 10),
    Tier(200000000000000190.0, 9),
    Tier(200000000000028918.0, 8),
    Tier(200000000003447550.0, 7),
    Tier(200000000311124430.0, 6),
    Tier(200000020310121630.0, 5),
    Tier(200000900265998430.0, 4),
    Tier(200024659074672030.0, 3),
    Tier(200357282396102430.0, 2),
    Tier(202020399003254430.0, 1)]

  /** Where the short's equity meets each tier's line: always inside the tier below. */
  const ROOTS: seq<real> := [
    200000000000000000.0,
    200000000000000001.0,
    200000000000000190.0,
    200000000000028918.0,
    200000000003447550.0,
    200000000311124430.0,
    200000020310121630.0,
    200000900265998430.0,
    200024659074672030.0,
    200357282396102430.0]

  /** One unit, sold at the lowest price of the last tier, with about 4% of margin. */
  const SHORT: Isolated := Isolated(false, 1.0, 202020399003254430.0, 7979600996745570.0, 25, SCHEDULE)

  lemma ShortIsValid()
    ensures SHORT.Valid() && |SCHEDULE| == 10 == |ROOTS|
  {
  }

  lemma TierIs(n: real, k: nat)
    requires k < 10 && n >= SCHEDULE[k].lowerBound && (k < 9 ==> n < SCHEDULE[k + 1].lowerBound)
    ensures TierIndex(SCHEDULE, n) == k
  {
    ShortIsValid();
    assert n >= 0.0 by {
      BoundsAscend(SCHEDULE, 0, k);
    }
    TierBrackets(SCHEDULE, n);
    var i := TierIndex(SCHEDULE, n);
    hide TierIndex, SCHEDULE;
    if i < k {
      BoundsAscend(SCHEDULE, i + 1, k);
    } else if i > k {
      BoundsAscend(SCHEDULE, k + 1, i);
    }
  }

  /** Moving from one line's root to the next. */
  lemma NextRoot(k: nat)
    requires 1 <= k < 10
    ensures
      var r, s := Rate(SCHEDULE[k - 1]), Rate(SCHEDULE[k]);
      Times(1.0 + r, ROOTS[k - 1] - ROOTS[k]) == Times(s - r, ROOTS[k] - SCHEDULE[k].lowerBound)
  {
  }

  /** On the next line the cushion is lower by what the line adds beyond its bound. */
  lemma NextCushion(q: Isolated, k: nat, n: real)
    requires 1 <= k < |q.tiers|
    ensures q.LineCushion(k, n)
         == q.LineCushion(k - 1, n) - Times(Rate(q.tiers[k]) - Rate(q.tiers[k - 1]), n - q.tiers[k].lowerBound)
  {
    LinesMeet(q.tiers, k - 1, n);
    hide Line, Rate, Isolated.EntryNotional;
  }

  lemma CushionOfRoot(q: Isolated, k: nat, n: real)
    requires !q.isLong && k < |q.tiers|
    ensures q.LineCushion(k, n) == Times(1.0 + Rate(q.tiers[k]), q.Root(k) - n)
  {
    LineCushionFromRoot(q, k, n);
    hide Rate, Isolated.Root, Isolated.LineCushion;
  }

  /** Where a line's cushion is what the next line takes off it, the next line has its root. */
  lemma RootMoves(q: Isolated, k: nat, y: real)
    requires !q.isLong && 1 <= k < |q.tiers|
    requires Times(1.0 + Rate(q.tiers[k - 1]), q.Root(k - 1) - y)
          == Times(Rate(q.tiers[k]) - Rate(q.tiers[k - 1]), y - q.tiers[k].lowerBound)
    ensures q.Root(k) == y
  {
    hide *;
    CushionOfRoot(q, k - 1, y);
    NextCushion(q, k, y);
    LineCushionSign(q, k, y);
  }

  lemma FirstRoot()
    ensures SHORT.Root(0) == ROOTS[0]
  {
    assert Deduction(SCHEDULE, 0) == 0.0 && Rate(SCHEDULE[0]) == 0.05;
    assert SHORT.EntryNotional() + SHORT.margin == ROOTS[0] * 1.05;
  }

  lemma {:induction false} RootIs(k: nat)
    requires k < 10
    ensures SHORT.Root(k) == ROOTS[k]
    decreases k
  {
    hide Isolated.Root, Rate, Times;
    ShortIsValid();
    if k == 0 {
      FirstRoot();
    } else {
      RootIs(k - 1);
      NextRoot(k);
      RootMoves(SHORT, k, ROOTS[k]);
    }
  }

  /** Each root lies one tier down, so one round moves by one root. */
  lemma OneRound(k: nat)
    requires 1 <= k < 10
    ensures SHORT.Solve(SHORT.Notional(ROOTS[k])) == ROOTS[k - 1] && ROOTS[k - 1] != ROOTS[k]
  {
    ShortIsValid();
    TierIs(ROOTS[k], k - 1);
    RootIs(k - 1);
    SolveIsRoot(SHORT, ROOTS[k]);
  }

  lemma {:induction false} RoundsDown(k: nat, rounds: nat)
    requires rounds < k < 10
    ensures SHORT.Iterate(ROOTS[k], rounds) == ROOTS[k - rounds]
    decreases rounds
  {
    ShortIsValid();
    if rounds > 0 {
      OneRound(k);
      assert ROOTS[k] > 0.0;
      hide Isolated.Solve, Isolated.Notional;
      RoundsDown(k - 1, rounds - 1);
    }
  }

  lemma LastRoot()
    ensures SHORT.Cushion(ROOTS[0]) == 0.0 && TierIndex(SCHEDULE, ROOTS[0]) == 0
  {
    ShortIsValid();
    TierIs(ROOTS[0], 0);
    RootIs(0);
    LineCushionSign(SHORT, 0, ROOTS[0]);
    CushionIsLowest(SHORT, ROOTS[0]);
    hide SCHEDULE, SHORT, TierIndex, Isolated.Root, Isolated.LineCushion;
  }

  /** On ten tiers the eight rounds may not suffice: the price shown is one above the mark at which the engine
      starts to liquidate. One tier more lies ahead than there are rounds. */
  lemma TenTiersAreTooMany()
    ensures SHORT.Valid() && |SHORT.tiers| == ROUNDS + 2 && FirstSolveIsSound(SHORT) && !RoundsSuffice(SHORT)
    ensures SHORT.LiquidationPrice() == ROOTS[1] == ROOTS[0] + 1.0
    ensures !DisplayIsRightAt(SHORT, ROOTS[1])
    ensures SHORT.Notional(SHORT.FirstSolve()) == ROOTS[9] && TierIndex(SCHEDULE, SHORT.EntryNotional()) == 9
    ensures SHORT.Cushion(ROOTS[0]) == 0.0 && TierIndex(SCHEDULE, ROOTS[0]) == 0
    ensures TiersAhead(SHORT, ROOTS[9], 9, 0) == ROUNDS + 1
  {
    ShortIsValid();
    TierIs(SHORT.EntryNotional(), 9);
    RootIs(9);
    SolveIsRoot(SHORT, SHORT.EntryNotional());
    assert SHORT.FirstSolve() == ROOTS[9];
    assert SHORT.Notional(ROOTS[9]) == ROOTS[9];
    TierIs(ROOTS[9], 8);
    LastRoot();
    hide Isolated.FirstSolve, Isolated.Cushion;
    RoundsDown(9, ROUNDS);
    OneRound(1);
    UnsettledIsWrong(SHORT);
  }
}
