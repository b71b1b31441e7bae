/** The trailing-stop automaton (src/engine/trailing-math.ts).

    Every price of a stop is held in units of its coin's price step, 10^-(6 - szDecimals), so a price
    on the grid is an integer and rounding to the grid is rounding to an integer. */
module TrailingMath {
  import opened Prelude

  // ---- Parameters and state ----

  /** A fixed distance in price steps, or a percentage of the best price. */
  datatype Retracement = Distance(steps: int) | Percent(pct: real)

  datatype Params = Params(isBuy: bool, retracement: Retracement, activationPx: Option<real>, szDecimals: nat)
  {
    /** What placement validation lets through. */
    predicate Valid() {
      && (match retracement case Distance(steps) => steps >= 1 case Percent(pct) => 0.0 < pct < 100.0)
      && (activationPx.Some? ==> activationPx.value > 0.0)
    }
  }

  datatype State = State(activated: bool, best: Option<real>)

  const WAITING: State := State(false, None)

  function PriceDecimals(szDecimals: nat): nat {
    if szDecimals >= 6 then 0 else 6 - szDecimals
  }

  /** A fixed-distance sell at or above its reference price could never hold a positive trigger. */
  predicate IsAccepted(p: Params, mark: real) {
    p.retracement.Distance? && !p.isBuy ==> (p.retracement.steps as real) < p.activationPx.GetOr(mark)
  }

  // ---- Trigger ----

  /** Rounding half away from zero. */
  function RoundHalfUp(x: real): int {
    if x >= 0.0 then (x + 0.5).Floor else -((-x + 0.5).Floor)
  }

  function RawTrigger(p: Params, best: real): real {
    match p.retracement
    case Distance(steps) => if p.isBuy then best + steps as real else best - steps as real
    case Percent(pct) => Times(if p.isBuy then 1.0 + pct / 100.0 else 1.0 - pct / 100.0, best)
  }

  function ComputeTrigger(p: Params, best: real): int {
    RoundHalfUp(RawTrigger(p, best))
  }

  // ---- Limit ----

  /** How many digits the decimal numeral of n has. */
  function Digits(n: nat): (d: nat)
    ensures d >= 1
  {
    if n < 10 then 1 else 1 + Digits(n / 10)
  }

  /** The market cap before rounding, in tenths of a price step. */
  function CapTenths(p: Params, trigger: int): int {
    if p.isBuy then 11 * trigger else 9 * trigger
  }

  /** The step the cap is rounded to, in price steps: five significant figures, and no more decimals
      than the coin's prices have. */
  function CapStep(p: Params, trigger: int): (s: int)
    ensures s >= 1
  {
    var decimals := PriceDecimals(p.szDecimals);
    var tenths := CapTenths(p, trigger);
    var magnitude := if tenths >= 0 then tenths else -tenths;
    var intDigits := Digits(magnitude / (10 * Pow10(decimals)));
    var k := if intDigits >= 5 then 0 else if 5 - intDigits <= decimals then 5 - intDigits else decimals;
    Pow10(decimals - k)
  }

  function ComputeLimit(p: Params, trigger: int): int {
    var step := CapStep(p, trigger);
    var floored := CapTenths(p, trigger) / (10 * step) * step;
    if p.isBuy then floored else floored + step
  }

  // ---- One evaluation ----

  datatype Eval = Eval(state: State, triggerPx: Option<int>, limitPx: int, fire: bool)

  predicate Reaches(p: Params, mark: real) {
    p.activationPx.None? || if p.isBuy then mark <= p.activationPx.value else mark >= p.activationPx.value
  }

  function Better(p: Params, a: real, b: real): real {
    if p.isBuy then Min(a, b) else Max(a, b)
  }

  predicate Crosses(p: Params, mark: real, trigger: int) {
    if p.isBuy then mark >= trigger as real else mark <= trigger as real
  }

  function Evaluate(p: Params, prev: State, mark: real): Eval
    requires prev.activated ==> prev.best.Some?
  {
    var activated := prev.activated || Reaches(p, mark);
    if !activated then
      Eval(WAITING, None, ComputeLimit(p, ComputeTrigger(p, p.activationPx.value)), false)
    else
      var best := if prev.activated then Better(p, prev.best.value, mark) else mark;
      var trigger := ComputeTrigger(p, best);
      Eval(State(true, Some(best)), Some(trigger), ComputeLimit(p, trigger), Crosses(p, mark, trigger))
  }

  // ---- The automaton computes the history ----

  /** The state after a run of marks. */
  function After(p: Params, marks: seq<real>): (s: State)
    ensures s.activated <==> s.best.Some?
  {
    if |marks| == 0 then WAITING
    else Evaluate(p, After(p, marks[..|marks| - 1]), marks[|marks| - 1]).state
  }

  /** What the last mark of a run evaluates to. */
  function LastEval(p: Params, marks: seq<real>): Eval
    requires |marks| > 0
  {
    Evaluate(p, After(p, marks[..|marks| - 1]), marks[|marks| - 1])
  }

  /** The stop activates at mark i: the first that reaches the activation price. */
  ghost predicate ActivatesAt(p: Params, marks: seq<real>, i: int) {
    0 <= i < |marks| && Reaches(p, marks[i]) && forall j :: 0 <= j < i ==> !Reaches(p, marks[j])
  }

  /** x is the most favourable mark from i on. */
  ghost predicate IsBestFrom(p: Params, marks: seq<real>, i: nat, x: real) {
    && (exists j :: i <= j < |marks| && marks[j] == x)
    && (forall j :: i <= j < |marks| ==> if p.isBuy then x <= marks[j] else x >= marks[j])
  }

  /** Whatever marks come: the stop is activated iff some mark reached the activation price, and its best
      is then the most favourable mark from the first such mark on. */
  lemma {:induction false} StateIsHistory(p: Params, marks: seq<real>)
    ensures After(p, marks).activated <==> exists i :: 0 <= i < |marks| && Reaches(p, marks[i])
    ensures forall i :: ActivatesAt(p, marks, i) ==>
              After(p, marks).best.Some? && IsBestFrom(p, marks, i, After(p, marks).best.value)
    decreases |marks|
  {
    if |marks| > 0 {
      var n := |marks| - 1;
      var front := marks[..n];
      StateIsHistory(p, front);
      var s := After(p, front);
      assert marks[n] == marks[|marks| - 1];
      assert After(p, marks) == Evaluate(p, s, marks[n]).state;
      if i :| 0 <= i < n && Reaches(p, front[i]) {
        assert Reaches(p, marks[i]);
      }
      forall i | ActivatesAt(p, marks, i)
        ensures After(p, marks).best.Some? && IsBestFrom(p, marks, i, After(p, marks).best.value)
      {
        if i < n {
          assert ActivatesAt(p, front, i);
          BestExtends(p, marks, i, s.best.value);
        } else {
          assert forall j :: 0 <= j < n ==> front[j] == marks[j];
          assert !s.activated;
          assert marks[n] == marks[i];
        }
      }
    }
  }

  lemma BestExtends(p: Params, marks: seq<real>, i: nat, x: real)
    requires i + 1 < |marks| && IsBestFrom(p, marks[..|marks| - 1], i, x)
    ensures IsBestFrom(p, marks, i, Better(p, x, marks[|marks| - 1]))
  {
    var n := |marks| - 1;
    var j :| i <= j < n && marks[..n][j] == x;
    assert marks[j] == x;
    assert marks[n] == marks[|marks| - 1];
    forall k | i <= k < |marks|
      ensures if p.isBuy then Better(p, x, marks[n]) <= marks[k] else Better(p, x, marks[n]) >= marks[k]
    {
      if k < n {
        assert marks[..n][k] == marks[k];
      }
    }
  }

  /** The stop fires on the last mark of a run iff that mark is at or past the rounded trigger of the
      best mark since activation. */
  lemma FiresOnCross(p: Params, marks: seq<real>, i: int, best: real)
    requires |marks| > 0 && ActivatesAt(p, marks, i) && IsBestFrom(p, marks, i, best)
    ensures LastEval(p, marks).fire
       <==> Crosses(p, marks[|marks| - 1], ComputeTrigger(p, best))
  {
    StateIsHistory(p, marks);
    var x := After(p, marks).best.value;
    BestIsUnique(p, marks, i, x, best);
  }

  lemma BestIsUnique(p: Params, marks: seq<real>, i: nat, x: real, y: real)
    requires IsBestFrom(p, marks, i, x) && IsBestFrom(p, marks, i, y)
    ensures x == y
  {
    var j :| i <= j < |marks| && marks[j] == x;
    var k :| i <= k < |marks| && marks[k] == y;
  }

  /** A run without a reaching mark never fires. */
  lemma WaitingNeverFires(p: Params, marks: seq<real>)
    requires |marks| > 0 && forall i :: 0 <= i < |marks| ==> !Reaches(p, marks[i])
    ensures !LastEval(p, marks).fire
  {
    StateIsHistory(p, marks[..|marks| - 1]);
  }
}
