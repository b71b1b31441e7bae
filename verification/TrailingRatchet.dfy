/** What rounding leaves of the trailing stop's ratchet: along every run of marks the trigger and the
    market cap move only the favourable way, even where the cap's rounding step changes at a power of
    ten (src/engine/trailing-math.ts). */
module TrailingRatchet {
  import opened Prelude
  import opened TrailingMath

  // ---- Whole-number arithmetic ----

  lemma Regroup(a: int, b: int, c: int)
    ensures a * (b * c) == (a * b) * c
  {
  }

  lemma QuotientTimes(a: int, d: int)
    requires d > 0
    ensures d * (a / d) <= a < d * (a / d + 1)
  {
  }

  lemma ScaleUp(s: int, a: int, b: int)
    requires s >= 0 && a <= b
    ensures s * a <= s * b
  {
    NonNegativeProduct(s, b - a);
  }

  lemma NonNegativeProduct(a: int, b: int)
    requires a >= 0 && b >= 0
    ensures a * b >= 0
  {
  }

  lemma {:induction false} Pow10Adds(a: nat, b: nat)
    ensures Pow10(a + b) == Pow10(a) * Pow10(b)
    decreases a
  {
    if a > 0 {
      Pow10Adds(a - 1, b);
      assert Pow10(a + b) == 10 * Pow10(a - 1 + b);
      Regroup(10, Pow10(a - 1), Pow10(b));
    }
  }

  lemma {:induction false} Pow10Grows(a: nat, b: nat)
    requires a <= b
    ensures Pow10(a) <= Pow10(b)
    decreases b
  {
    if a < b {
      Pow10Grows(a, b - 1);
    }
  }

  /** A number of d digits lies between the powers of ten around it. */
  lemma {:induction false} DigitsBracket(n: nat)
    ensures n < Pow10(Digits(n))
    ensures Digits(n) > 1 ==> Pow10(Digits(n) - 1) <= n
    decreases n
  {
    if n >= 10 {
      DigitsBracket(n / 10);
      if n / 10 < 10 {
        assert Digits(n) == 2 && Pow10(1) == 10;
        assert Pow10(2) == 10 * Pow10(1);
      }
    } else {
      assert Pow10(1) == 10 * Pow10(0);
    }
  }

  lemma {:induction false} DigitsGrow(m: nat, n: nat)
    requires m <= n
    ensures Digits(m) <= Digits(n)
    decreases n
  {
    if m >= 10 {
      DigitsGrow(m / 10, n / 10);
    }
  }

  // ---- The trigger ----

  lemma RoundIsMonotone(x: real, y: real)
    requires x <= y
    ensures RoundHalfUp(x) <= RoundHalfUp(y)
  {
  }

  /** The trigger's rounding: nearest, a tie going away from zero, on both sides of zero alike. */
  lemma RoundIsNearest(x: real, n: int)
    ensures x >= 0.0 ==> (RoundHalfUp(x) == n <==> x - 0.5 < n as real <= x + 0.5)
    ensures RoundHalfUp(-x) == -RoundHalfUp(x)
  {
    if x >= 0.0 {
      WholeBetween(n, (x + 0.5).Floor, x + 0.5);
    }
  }

  lemma WholeBetween(n: int, f: int, x: real)
    requires f as real <= x < (f + 1) as real
    ensures n == f <==> x - 1.0 < n as real <= x
  {
    assert n >= f + 1 ==> n as real >= (f + 1) as real;
    assert n <= f - 1 ==> n as real <= (f - 1) as real;
  }

  lemma RawIsMonotone(p: Params, x: real, y: real)
    requires p.Valid() && x <= y
    ensures RawTrigger(p, x) <= RawTrigger(p, y)
  {
    if p.retracement.Percent? {
      TimesOrders(if p.isBuy then 1.0 + p.retracement.pct / 100.0 else 1.0 - p.retracement.pct / 100.0, x, y);
    }
  }

  /** A better watermark never loosens the trigger. */
  lemma {:induction false} TriggerIsMonotone(p: Params, x: real, y: real)
    requires p.Valid() && x <= y
    ensures ComputeTrigger(p, x) <= ComputeTrigger(p, y)
  {
    RawIsMonotone(p, x, y);
    RoundIsMonotone(RawTrigger(p, x), RawTrigger(p, y));
  }

  // ---- The limit ----

  /** The cap before rounding, its step and the part of it that is a whole number of steps. */
  function Floored(tenths: int, step: int): int
    requires step >= 1
  {
    tenths / (10 * step) * step
  }

  lemma FloorBrackets(tenths: int, step: int)
    requires step >= 1
    ensures 10 * Floored(tenths, step) <= tenths < 10 * Floored(tenths, step) + 10 * step
  {
    QuotientTimes(tenths, 10 * step);
    Regroup(10, step, tenths / (10 * step));
  }

  /** A sell's limit is above nine tenths of its trigger by at most one step, a buy's at or below eleven
      tenths of it by less than one. */
  lemma LimitBrackets(p: Params, trigger: int)
    ensures !p.isBuy ==>
              9 * trigger < 10 * ComputeLimit(p, trigger) <= 9 * trigger + 10 * CapStep(p, trigger)
    ensures p.isBuy ==>
              11 * trigger - 10 * CapStep(p, trigger) < 10 * ComputeLimit(p, trigger) <= 11 * trigger
  {
    FloorBrackets(CapTenths(p, trigger), CapStep(p, trigger));
  }

  /** With one rounding step, a higher cap never rounds lower. */
  lemma {:induction false} FloorIsMonotone(a: int, b: int, step: int)
    requires a <= b && step >= 1
    ensures Floored(a, step) <= Floored(b, step)
  {
    QuotientTimes(a, 10 * step);
    QuotientTimes(b, 10 * step);
    var x, y := a / (10 * step), b / (10 * step);
    if x > y {
      ScaleUp(10 * step, y + 1, x);
    }
    ScaleUp(step, x, y);
  }

  /** A cap below a multiple of the step, plus one step, does not pass that multiple. */
  lemma {:induction false} FloorStaysBelow(tenths: int, step: int, m: int)
    requires step >= 1 && tenths < 10 * (m * step)
    ensures Floored(tenths, step) + step <= m * step
  {
    var q := tenths / (10 * step);
    Regroup(10, step, m);
    if q >= m {
      QuotientTimes(tenths, 10 * step);
      ScaleUp(10 * step, m, q);
    } else {
      ScaleUp(step, q + 1, m);
    }
  }

  lemma {:induction false} FloorStaysAbove(tenths: int, step: int, m: int)
    requires step >= 1 && tenths >= 10 * (m * step)
    ensures Floored(tenths, step) >= m * step
  {
    var q := tenths / (10 * step);
    Regroup(10, step, m);
    QuotientTimes(tenths, 10 * step);
    if q < m {
      ScaleUp(10 * step, q + 1, m);
    } else {
      ScaleUp(step, m, q);
    }
  }

  /** How many digits a cap of so many tenths has before the point. */
  function IntDigits(decimals: nat, tenths: nat): nat {
    QuotientGrows(tenths, tenths, 10 * Pow10(decimals));
    Digits(tenths / (10 * Pow10(decimals)))
  }

  /** How many decimals five significant figures leave. */
  function KeptDecimals(decimals: nat, intDigits: nat): (k: nat)
    ensures k <= decimals
  {
    if intDigits >= 5 then 0 else if 5 - intDigits <= decimals then 5 - intDigits else decimals
  }

  lemma StepOfCap(p: Params, trigger: nat)
    ensures
      var d := PriceDecimals(p.szDecimals);
      CapStep(p, trigger) == Pow10(d - KeptDecimals(d, IntDigits(d, CapTenths(p, trigger))))
  {
  }

  /** The step is never coarser than one nor finer than the coin's own, and whenever it keeps decimals the cap has at
      most five figures above it. A step coarser than the coin's own leaves exactly five if and only if the cap is at
      least one: below one the zero before the point is counted as a figure, and four decimals are kept whatever the
      cap. */
  lemma StepLeavesFiveFigures(p: Params, trigger: nat)
    ensures
      var d, step := if p.szDecimals >= 6 then 0 else 6 - p.szDecimals, CapStep(p, trigger);
      var tenths := if p.isBuy then 11 * trigger else 9 * trigger;
      && step <= Pow10(d)
      && (step < Pow10(d) ==> tenths < 10 * (100000 * step))
      && (step > 1 ==> (tenths >= 10 * (10000 * step) <==> tenths >= 10 * Pow10(d)))
      && (tenths < 10 * Pow10(d) ==> step == if d > 4 then Pow10(d - 4) else 1)
  {
    var d, tenths := PriceDecimals(p.szDecimals), CapTenths(p, trigger);
    CapIs(p, trigger);
    hide *;
    StepOfCap(p, trigger);
    var intDigits := IntDigits(d, tenths);
    DigitsBracketCap(d, tenths);
    OneDigit(d, tenths);
    AtMostFiveFigures(d, tenths, intDigits);
    FiveFiguresFromOne(d, tenths, intDigits);
  }

  lemma CapIs(p: Params, trigger: nat)
    ensures PriceDecimals(p.szDecimals) == if p.szDecimals >= 6 then 0 else 6 - p.szDecimals
    ensures CapTenths(p, trigger) == (if p.isBuy then 11 * trigger else 9 * trigger) >= 0
    ensures IntDigits(PriceDecimals(p.szDecimals), CapTenths(p, trigger)) >= 1
  {
  }

  lemma AtMostFiveFigures(d: nat, tenths: nat, intDigits: nat)
    requires tenths < 10 * Pow10(d + intDigits)
    ensures var step := Pow10(d - KeptDecimals(d, intDigits));
      step <= Pow10(d) && (step < Pow10(d) ==> tenths < 10 * (100000 * step))
  {
    var k := KeptDecimals(d, intDigits);
    Pow10Grows(d - k, d);
    SmallPowers();
    Pow10Adds(5, d - k);
    hide Pow10;
    if k > 0 {
      Pow10Grows(d + intDigits, 5 + (d - k));
    }
  }

  lemma FiveFiguresFromOne(d: nat, tenths: nat, intDigits: nat)
    requires intDigits >= 1 && (intDigits > 1 ==> 10 * Pow10(d + intDigits - 1) <= tenths)
    requires tenths < 10 * Pow10(d) ==> intDigits == 1
    requires tenths < 10 * Pow10(d + intDigits)
    ensures
      var step := Pow10(d - KeptDecimals(d, intDigits));
      && (step > 1 ==> (tenths >= 10 * (10000 * step) <==> tenths >= 10 * Pow10(d)))
      && (tenths < 10 * Pow10(d) ==> step == if d > 4 then Pow10(d - 4) else 1)
  {
    var k := KeptDecimals(d, intDigits);
    SmallPowers();
    Pow10Adds(4, d - k);
    hide Pow10;
    if k < d && intDigits > 1 {
      Pow10Grows(4 + (d - k), d + intDigits - 1);
      Pow10Grows(d, 4 + (d - k));
    }
  }

  /** A cap below one counts one digit before the point. */
  lemma OneDigit(decimals: nat, tenths: nat)
    ensures tenths < 10 * Pow10(decimals) ==> IntDigits(decimals, tenths) == 1
  {
    var unit := 10 * Pow10(decimals);
    QuotientGrows(tenths, tenths, unit);
    QuotientTimes(tenths, unit);
    if tenths < unit && tenths / unit >= 1 {
      ScaleUp(unit, 1, tenths / unit);
    }
  }

  /** A coin with six decimals, a sell triggered at 0.05: its cap of 0.045 is rounded in steps of 0.0001, and three
      figures are left of it. */
  lemma SmallCapKeepsThreeFigures()
    ensures
      var p, trigger := Params(false, Percent(5.0), None, 0), 50000;
      var step, tenths := CapStep(p, trigger), CapTenths(p, trigger);
      step == 100 && 10 * (100 * step) <= tenths < 10 * (1000 * step)
  {
    var p := Params(false, Percent(5.0), None, 0);
    SmallPowers();
    assert Pow10(6) == 1000000;
    StepLeavesFiveFigures(p, 50000);
    assert Pow10(2) == 100;
    hide CapStep;
  }

  lemma SmallPowers()
    ensures Pow10(0) == 1 && Pow10(4) == 10000 && Pow10(5) == 100000
  {
    assert Pow10(2) == 100;
  }

  /** The digits before the point place the cap between two powers of ten. */
  lemma DigitsBracketCap(decimals: nat, tenths: nat)
    ensures tenths < 10 * Pow10(decimals + IntDigits(decimals, tenths))
    ensures IntDigits(decimals, tenths) > 1 ==>
              10 * Pow10(decimals + IntDigits(decimals, tenths) - 1) <= tenths
  {
    var unit := 10 * Pow10(decimals);
    QuotientGrows(tenths, tenths, unit);
    var x, e := tenths / unit, IntDigits(decimals, tenths);
    DigitsBracket(x);
    QuotientTimes(tenths, unit);
    ScaleUp(unit, x + 1, Pow10(e));
    Pow10Adds(decimals, e);
    Regroup(10, Pow10(decimals), Pow10(e));
    if e > 1 {
      ScaleUp(unit, Pow10(e - 1), x);
      Pow10Adds(decimals, e - 1);
      Regroup(10, Pow10(decimals), Pow10(e - 1));
    }
  }

  lemma {:induction false} QuotientGrows(a: nat, b: nat, d: int)
    requires a <= b && d > 0
    ensures 0 <= a / d <= b / d
  {
    QuotientTimes(a, d);
    QuotientTimes(b, d);
    if a / d > b / d {
      ScaleUp(d, b / d + 1, a / d);
    }
    if a / d < 0 {
      ScaleUp(d, a / d + 1, 0);
    }
  }

  /** Where the step changes between two caps there is a power of ten between them, and it is a whole
      number of both steps. */
  lemma BoundaryBetween(decimals: nat, a: nat, b: nat, k: nat, k': nat) returns (m: int, m': int)
    requires a <= b && k == KeptDecimals(decimals, IntDigits(decimals, a)) && k' == KeptDecimals(decimals, IntDigits(decimals, b))
    requires k != k'
    ensures m * Pow10(decimals - k) == m' * Pow10(decimals - k')
    ensures a < 10 * (m * Pow10(decimals - k)) && 10 * (m' * Pow10(decimals - k')) <= b
  {
    var unit := 10 * Pow10(decimals);
    QuotientGrows(a, b, unit);
    DigitsGrow(a / unit, b / unit);
    DigitsBracketCap(decimals, a);
    DigitsBracketCap(decimals, b);
    var e := IntDigits(decimals, b) - 1;
    Pow10Grows(decimals + IntDigits(decimals, a), decimals + e);
    Pow10Adds(k + e, decimals - k);
    Pow10Adds(k' + e, decimals - k');
    m, m' := Pow10(k + e), Pow10(k' + e);
  }

  /** The limit follows the trigger, across every change of step. */
  lemma {:induction false} LimitIsMonotone(p: Params, trigger: nat, trigger': nat)
    requires trigger <= trigger'
    ensures ComputeLimit(p, trigger) <= ComputeLimit(p, trigger')
  {
    var d := PriceDecimals(p.szDecimals);
    var a, b := CapTenths(p, trigger), CapTenths(p, trigger');
    var k, k' := KeptDecimals(d, IntDigits(d, a)), KeptDecimals(d, IntDigits(d, b));
    StepOfCap(p, trigger);
    StepOfCap(p, trigger');
    LimitIsRounded(p, trigger);
    LimitIsRounded(p, trigger');
    hide CapStep, ComputeLimit, Floored, KeptDecimals, IntDigits, Pow10;
    if k == k' {
      FloorIsMonotone(a, b, Pow10(d - k));
    } else {
      var m, m' := BoundaryBetween(d, a, b, k, k');
      FloorStaysBelow(a, Pow10(d - k), m);
      FloorStaysAbove(b, Pow10(d - k'), m');
    }
  }

  lemma LimitIsRounded(p: Params, trigger: int)
    ensures
      var floored := Floored(CapTenths(p, trigger), CapStep(p, trigger));
      ComputeLimit(p, trigger) == if p.isBuy then floored else floored + CapStep(p, trigger)
  {
  }

  // ---- The ratchet over runs ----

  /** The price the stop trails: its best mark, or its activation price while it waits. */
  function Watermark(p: Params, s: State): real
    requires s.activated ==> s.best.Some?
    requires !s.activated ==> p.activationPx.Some?
  {
    if s.activated then s.best.value else p.activationPx.value
  }

  /** A run of marks of an accepted stop, the first one seen at its placement. */
  ghost predicate IsRun(p: Params, marks: seq<real>) {
    && p.Valid()
    && |marks| > 0
    && (forall i :: 0 <= i < |marks| ==> marks[i] > 0.0)
    && IsAccepted(p, marks[0])
  }

  /** The watermark of a run leaves room for the retracement. */
  ghost predicate HasRoom(p: Params, w: real) {
    w > 0.0 && (p.retracement.Distance? && !p.isBuy ==> w > p.retracement.steps as real)
  }

  predicate Favours(p: Params, w: real, w': real) {
    if p.isBuy then w' <= w else w' >= w
  }

  /** A stop without an activation price is active from its first mark on; any other trails at least its
      activation price. */
  lemma {:induction false} RunHasRoom(p: Params, marks: seq<real>)
    requires IsRun(p, marks)
    ensures After(p, marks).activated || p.activationPx.Some?
    ensures HasRoom(p, Watermark(p, After(p, marks)))
    decreases |marks|
  {
    var n := |marks| - 1;
    var front := marks[..n];
    assert marks[n] == marks[|marks| - 1];
    hide RawTrigger, ComputeLimit, RoundHalfUp;
    if n == 0 {
      assert After(p, front) == WAITING;
    } else {
      assert front[0] == marks[0];
      RunHasRoom(p, front);
    }
  }

  /** One more mark moves the watermark only the favourable way. */
  lemma WatermarkAdvances(p: Params, marks: seq<real>)
    requires IsRun(p, marks) && |marks| > 1
    ensures IsRun(p, marks[..|marks| - 1])
    ensures var s, s' := After(p, marks[..|marks| - 1]), After(p, marks);
      && (s.activated ==> s'.activated)
      && (s.activated || p.activationPx.Some?) && (s'.activated || p.activationPx.Some?)
      && Favours(p, Watermark(p, s), Watermark(p, s'))
  {
    var n := |marks| - 1;
    assert marks[..n][0] == marks[0];
    RunHasRoom(p, marks[..n]);
    RunHasRoom(p, marks);
  }

  /** The trigger of a watermark with room is never negative. */
  lemma TriggerOfRoom(p: Params, w: real)
    requires p.Valid() && HasRoom(p, w)
    ensures ComputeTrigger(p, w) >= 0
  {
    if p.retracement.Percent? {
      TimesSign(if p.isBuy then 1.0 + p.retracement.pct / 100.0 else 1.0 - p.retracement.pct / 100.0, w);
    }
    assert RawTrigger(p, w) >= 0.0;
  }

  /** What a run shows is the trigger and limit of its watermark. */
  lemma EvalOfWatermark(p: Params, marks: seq<real>)
    requires IsRun(p, marks)
    ensures
      var s, e := After(p, marks), LastEval(p, marks);
      && e.state == s
      && (s.activated || p.activationPx.Some?)
      && e.limitPx == ComputeLimit(p, ComputeTrigger(p, Watermark(p, s)))
      && e.triggerPx == if s.activated then Some(ComputeTrigger(p, Watermark(p, s))) else None
  {
    RunHasRoom(p, marks);
  }

  /** Between two evaluations, neither the limit nor a live trigger moves against the user. */
  ghost predicate Ratchets(p: Params, e: Eval, e': Eval) {
    && (e.state.activated ==> e'.state.activated)
    && (e.triggerPx.Some? ==>
          && e'.triggerPx.Some?
          && if p.isBuy then e'.triggerPx.value <= e.triggerPx.value else e'.triggerPx.value >= e.triggerPx.value)
    && (if p.isBuy then e'.limitPx <= e.limitPx else e'.limitPx >= e.limitPx)
  }

  lemma RatchetOneMark(p: Params, marks: seq<real>)
    requires IsRun(p, marks) && |marks| > 1
    ensures Ratchets(p, LastEval(p, marks[..|marks| - 1]), LastEval(p, marks))
  {
    var front := marks[..|marks| - 1];
    WatermarkAdvances(p, marks);
    RunHasRoom(p, front);
    RunHasRoom(p, marks);
    EvalOfWatermark(p, front);
    EvalOfWatermark(p, marks);
    var w, w' := Watermark(p, After(p, front)), Watermark(p, After(p, marks));
    TriggerOfRoom(p, w);
    TriggerOfRoom(p, w');
    hide ComputeTrigger, ComputeLimit, After, LastEval, HasRoom, Watermark, IsRun;
    if p.isBuy {
      TriggerIsMonotone(p, w', w);
      LimitIsMonotone(p, ComputeTrigger(p, w'), ComputeTrigger(p, w));
    } else {
      TriggerIsMonotone(p, w, w');
      LimitIsMonotone(p, ComputeTrigger(p, w), ComputeTrigger(p, w'));
    }
  }

  /** Along any run, from any tick to any later one, the trigger and the limit move only the favourable
      way. */
  lemma {:induction false} RatchetSurvivesRounding(p: Params, marks: seq<real>, i: nat)
    requires IsRun(p, marks) && 0 < i <= |marks|
    ensures Ratchets(p, LastEval(p, marks[..i]), LastEval(p, marks))
    decreases |marks|
  {
    if i == |marks| {
      assert marks[..i] == marks;
    } else {
      var front := marks[..|marks| - 1];
      WatermarkAdvances(p, marks);
      RatchetOneMark(p, marks);
      RatchetSurvivesRounding(p, front, i);
      assert front[..i] == marks[..i];
    }
  }

  // ---- Positive triggers, and the tick of a new best ----

  /** The last mark of the run is the best one so far. */
  ghost predicate SetsNewBest(p: Params, marks: seq<real>)
    requires |marks| > 0
  {
    After(p, marks).best == Some(marks[|marks| - 1])
  }

  /** A fixed-distance sell holds a positive trigger exactly while its best mark is at least half a step
      above its distance. */
  lemma {:induction false} TriggerIsPositive(p: Params, marks: seq<real>)
    requires IsRun(p, marks) && p.retracement.Distance? && !p.isBuy && After(p, marks).activated
    ensures LastEval(p, marks).triggerPx.value > 0
       <==> After(p, marks).best.value >= p.retracement.steps as real + 0.5
  {
    RunHasRoom(p, marks);
    EvalOfWatermark(p, marks);
  }

  /** A fixed-distance sell is accepted exactly if its trigger would be positive were its reference price, the
      activation price or without one the mark, its best price; a buy and a percentage always are. */
  lemma AcceptedExactly(p: Params, mark: real)
    ensures
      var reference := if p.activationPx.Some? then p.activationPx.value else mark;
      IsAccepted(p, mark) <==> p.isBuy || p.retracement.Percent? || RawTrigger(p, reference) > 0.0
  {
  }

  /** The reference is the activation price even when the mark has already reached it. So a fixed-distance sell is
      refused although its trigger would be positive at once, on a mark of the grid, exactly if the activation price is
      not above the distance and the mark is. */
  lemma RefusedThoughPositive(p: Params, mark: int)
    requires !p.isBuy && p.retracement.Distance? && p.retracement.steps >= 1
    ensures
      var steps, trigger := p.retracement.steps, Evaluate(p, WAITING, mark as real).triggerPx;
      !IsAccepted(p, mark as real) && trigger.Some? && trigger.value > 0
      <==> p.activationPx.Some? && p.activationPx.value <= steps as real < mark as real
  {
    var steps := p.retracement.steps;
    RoundOfWhole(mark - steps);
    assert (mark - steps) as real == mark as real - steps as real;
    hide ComputeLimit, RoundHalfUp;
  }

  lemma RoundOfWhole(n: int)
    ensures RoundHalfUp(n as real) == n
  {
    assert (n as real + 0.5).Floor == n;
    assert (-(n as real) + 0.5).Floor == -n;
  }

  /** Such a stop: fifty steps, activated from forty up, placed at a hundred. */
  lemma RefusedAtOnce()
    ensures
      var p := Params(false, Distance(50), Some(40.0), 0);
      p.Valid() && !IsAccepted(p, 100.0) && Evaluate(p, WAITING, 100.0).triggerPx == Some(50)
  {
    hide ComputeLimit;
  }

  /** On marks that lie on the price grid an accepted fixed-distance sell holds a positive trigger
      forever. */
  lemma {:induction false} TriggerStaysPositive(p: Params, marks: seq<real>)
    requires IsRun(p, marks) && p.retracement.Distance? && !p.isBuy && After(p, marks).activated
    requires forall i :: 0 <= i < |marks| ==> marks[i] == marks[i].Floor as real
    ensures LastEval(p, marks).triggerPx.value > 0
  {
    RunHasRoom(p, marks);
    BestIsAMark(p, marks);
    TriggerIsPositive(p, marks);
    hide After, LastEval, IsRun;
    var best := After(p, marks).best.value;
    var i :| 0 <= i < |marks| && marks[i] == best;
    GapOnGrid(best.Floor, p.retracement.steps);
  }

  lemma {:induction false} GapOnGrid(m: int, n: int)
    requires m as real > n as real
    ensures m as real >= n as real + 0.5
  {
    assert m <= n ==> m as real <= n as real;
    assert (n + 1) as real == n as real + 1.0;
    assert m as real >= (n + 1) as real;
  }

  lemma {:induction false} BestIsAMark(p: Params, marks: seq<real>)
    ensures After(p, marks).activated ==> After(p, marks).best.value in marks
    decreases |marks|
  {
    if |marks| > 0 {
      var n := |marks| - 1;
      hide RawTrigger, ComputeLimit, RoundHalfUp;
      BestIsAMark(p, marks[..n]);
      assert forall x :: x in marks[..n] ==> x in marks;
      assert marks[n] in marks;
    }
  }

  /** A fixed distance never fires on the tick that sets a new best. */
  lemma NewBestHolds(p: Params, marks: seq<real>)
    requires IsRun(p, marks) && p.retracement.Distance? && SetsNewBest(p, marks)
    ensures !LastEval(p, marks).fire
  {
    EvalOfWatermark(p, marks);
  }

  /** The lowest price on the grid that is not below x. */
  function GridAbove(x: real): int {
    -((-x).Floor)
  }

  /** Rounding reaches a price exactly within half a step of the grid price beyond it. */
  lemma RoundReaches(x: real, m: real)
    requires x >= 0.0
    ensures RoundHalfUp(x) as real >= m <==> x >= GridAbove(m) as real - 0.5
    ensures RoundHalfUp(x) as real <= m <==> x < m.Floor as real + 0.5
  {
    var n, up, down := RoundHalfUp(x), GridAbove(m), m.Floor;
    assert n as real <= x + 0.5 < (n + 1) as real;
    assert (up - 1) as real < m <= up as real;
    assert n >= up ==> n as real >= up as real;
    assert n < up ==> (n + 1) as real <= up as real && n as real <= (up - 1) as real;
    assert n <= down ==> n as real <= down as real;
    assert n > down ==> n as real >= (down + 1) as real;
    assert n <= down ==> (n + 1) as real <= (down + 1) as real;
  }

  /** A percentage of a best price so low that it rounds away fires at once: exactly when the retracement is worth
      no more than what is left of half a price step once the mark is carried to the grid, up for a sell, down
      for a buy (where it must be worth less). On a grid mark that is half a step. */
  lemma {:induction false} NewBestFires(p: Params, marks: seq<real>)
    requires IsRun(p, marks) && p.retracement.Percent? && SetsNewBest(p, marks)
    ensures
      var best := marks[|marks| - 1];
      var worth := Times(p.retracement.pct / 100.0, best);
      LastEval(p, marks).fire <==>
        if p.isBuy then worth + (best - best.Floor as real) < 0.5
        else worth + (GridAbove(best) as real - best) <= 0.5
  {
    var best := marks[|marks| - 1];
    var rate := p.retracement.pct / 100.0;
    EvalOfWatermark(p, marks);
    PercentOf(rate, best);
    assert RawTrigger(p, best) == if p.isBuy then best + Times(rate, best) else best - Times(rate, best);
    RoundReaches(RawTrigger(p, best), best);
    hide RawTrigger, Times, After, IsRun;
  }

  /** A sell stop of one per cent, placed at ten steps, fires when the mark rises to eleven. */
  lemma RisingMarkFires()
    ensures
      var p, marks := Params(false, Percent(1.0), None, 5), [10.0, 11.0];
      IsRun(p, marks) && SetsNewBest(p, marks) && marks[0] < marks[1] && LastEval(p, marks).fire
  {
    var p, marks := Params(false, Percent(1.0), None, 5), [10.0, 11.0];
    assert marks[..1] == [10.0] && [10.0][..0] == [];
    assert After(p, [10.0]) == State(true, Some(10.0));
    assert After(p, marks) == State(true, Some(11.0));
    assert Times(1.0 / 100.0, 11.0) == 0.11;
    assert GridAbove(11.0) == 11;
    hide After, RawTrigger, RoundHalfUp, ComputeLimit, Times, LastEval;
    NewBestFires(p, marks);
  }

  lemma PercentOf(rate: real, best: real)
    requires 0.0 < rate < 1.0 && best > 0.0
    ensures 0.0 <= Times(rate, best) <= best
    ensures Times(1.0 + rate, best) == best + Times(rate, best)
    ensures Times(1.0 - rate, best) == best - Times(rate, best)
  {
    TimesSign(rate, best);
    TimesSign(1.0 - rate, best);
  }
}
