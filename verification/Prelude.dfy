/** Definitions shared by every component: optional values, sums over maps, and the
    few facts about real division that the margin arithmetic leans on. */
module Prelude {

  datatype Option<+T> = None | Some(value: T) {
    function GetOr(default: T): T {
      match this
      case Some(v) => v
      case None => default
    }
  }

  function Abs(x: real): (r: real)
    ensures r >= 0.0 && (r == x || r == -x)
  {
    if x < 0.0 then -x else x
  }

  function Min(x: real, y: real): (r: real)
    ensures r <= x && r <= y && (r == x || r == y)
  {
    if x <= y then x else y
  }

  function Max(x: real, y: real): (r: real)
    ensures r >= x && r >= y && (r == x || r == y)
  {
    if x >= y then x else y
  }

  /** Some element of a non-empty set. */
  ghost function AnyOf<T>(s: set<T>): (x: T)
    requires s != {}
    ensures x in s
  {
    assert (forall y :: y !in s) ==> s == {};
    var x :| x in s;
    x
  }

  /** Some key of a non-empty map. */
  ghost function Pick(m: map<int, real>): (k: int)
    requires |m| != 0
    ensures k in m
  {
    AnyOf(m.Keys)
  }

  /** The sum of the values of m. Hash and set replies come in no particular order, so
      every running total of the source is stated as a sum without an order. */
  ghost function Total(m: map<int, real>): real {
    if |m| == 0 then 0.0 else m[Pick(m)] + Total(m - {Pick(m)})
  }

  /** Any key may be counted first. */
  lemma {:induction false} TotalPeel(m: map<int, real>, k: int)
    requires k in m
    ensures Total(m) == m[k] + Total(m - {k})
    decreases |m|
  {
    var c := Pick(m);
    if c != k {
      assert Total(m) == m[c] + Total(m - {c});
      hide Total;
      TotalPeel(m - {c}, k);
      TotalPeel(m - {k}, c);
      assert m - {c} - {k} == m - {k} - {c};
    }
  }

  /** Counting a new key adds its value. */
  lemma TotalExtend(m: map<int, real>, k: int, v: real)
    requires k !in m
    ensures Total(m[k := v]) == Total(m) + v
  {
    TotalPeel(m[k := v], k);
    assert m[k := v] - {k} == m;
  }

  /** Replacing one value moves the total by the difference. */
  lemma TotalReplace(m: map<int, real>, k: int, v: real)
    requires k in m
    ensures Total(m[k := v]) == Total(m) - m[k] + v
  {
    TotalPeel(m[k := v], k);
    TotalPeel(m, k);
    assert m[k := v] - {k} == m - {k};
  }

  lemma {:induction false} TotalZero(m: map<int, real>)
    requires forall k :: k in m ==> m[k] == 0.0
    ensures Total(m) == 0.0
    decreases |m|
  {
    if |m| != 0 {
      var k := Pick(m);
      TotalPeel(m, k);
      TotalZero(m - {k});
    }
  }

  /** Totals add pointwise, a key missing from one side counting as zero there. */
  lemma {:induction false} TotalAdd(a: map<int, real>, b: map<int, real>, c: map<int, real>)
    requires a.Keys == b.Keys == c.Keys
    requires forall k :: k in a ==> c[k] == a[k] + b[k]
    ensures Total(c) == Total(a) + Total(b)
    decreases |a|
  {
    if |a| != 0 {
      var k := Pick(a);
      TotalPeel(a, k);
      TotalPeel(b, k);
      TotalPeel(c, k);
      assert (a - {k}).Keys == a.Keys - {k};
      TotalAdd(a - {k}, b - {k}, c - {k});
    }
  }

  // ---- Products and quotients ----

  /** Products and quotients that proofs treat as opaque, through the laws below. */
  function Times(x: real, y: real): real { x * y }

  function Over(x: real, y: real): real
    requires y != 0.0
  {
    x / y
  }

  lemma TimesSplits(x: real, d: real, y: real)
    ensures Times(x, y) == Times(d, y) + Times(x - d, y)
    ensures Times(0.0, y) == 0.0
    ensures Times(x, -y) == -Times(x, y) == Times(-x, y)
  {
  }

  lemma TimesSubtracts(x: real, y: real, y': real)
    ensures Times(x, y') - Times(x, y) == Times(x, y' - y)
  {
  }

  lemma TimesSign(x: real, y: real)
    requires x >= 0.0 && y >= 0.0
    ensures Times(x, y) >= 0.0
    ensures x > 0.0 && y > 0.0 ==> Times(x, y) > 0.0
  {
  }

  lemma TimesOrders(x: real, y: real, y': real)
    requires x >= 0.0
    ensures y <= y' ==> Times(x, y) <= Times(x, y')
    ensures x > 0.0 ==> (y < y' <==> Times(x, y) < Times(x, y')) && (y == y' <==> Times(x, y) == Times(x, y'))
  {
    hide Times;
    if y < y' {
      TimesSubtracts(x, y, y');
      TimesSign(x, y' - y);
    } else if y > y' {
      TimesSubtracts(x, y', y);
      TimesSign(x, y - y');
    }
  }

  lemma OverCancels(x: real, y: real)
    requires y != 0.0
    ensures Times(y, Over(x, y)) == x
  {
    DivisionCancels(x, y);
  }

  /** A quotient is the only number with its product. */
  lemma OverIsUnique(x: real, y: real, q: real)
    requires y != 0.0 && Times(y, q) == x
    ensures q == Over(x, y)
  {
    DivisionCancels(x, y);
    assert y * (q - x / y) == 0.0;
  }

  lemma DivisionCancels(x: real, y: real)
    requires y != 0.0
    ensures x / y * y == x && y * (x / y) == x
  {
  }

  lemma ProductSign(x: real, y: real)
    requires x >= 0.0 && y >= 0.0
    ensures x * y >= 0.0
    ensures x > 0.0 && y > 0.0 ==> x * y > 0.0
  {
  }

  lemma BlendIsMonotone(t: real, a: real, a': real, b: real, b': real)
    requires 0.0 <= t <= 1.0 && a <= a' && b <= b'
    ensures t * a + (1.0 - t) * b <= t * a' + (1.0 - t) * b'
  {
    ProductSign(t, a' - a);
    ProductSign(1.0 - t, b' - b);
  }

  lemma ProductIsMonotone(x: real, y: real, k: real)
    requires x <= y && k >= 0.0
    ensures x * k <= y * k && k * x <= k * y
  {
    TimesOrders(k, x, y);
  }

  lemma ProductIsStrict(x: real, y: real, k: real)
    requires k > 0.0
    ensures x < y <==> k * x < k * y
    ensures x == y <==> k * x == k * y
  {
    TimesOrders(k, x, y);
  }

  // ---- Decimal places ----

  function Pow10(n: nat): (p: int)
    ensures p >= 1
  {
    if n == 0 then 1 else 10 * Pow10(n - 1)
  }

  function Scale(decimals: nat): (p: real)
    ensures p >= 1.0
  {
    Pow10(decimals) as real
  }

  /** Truncation of a non-negative size to its asset's lot. */
  function RoundDown(x: real, decimals: nat): (r: real)
    requires x >= 0.0
    ensures 0.0 <= r <= x
  {
    FloorIsBelow(x, Scale(decimals));
    Over(Times(Scale(decimals), x).Floor as real, Scale(decimals))
  }

  lemma FloorIsBelow(x: real, p: real)
    requires x >= 0.0 && p > 0.0
    ensures 0.0 <= Over(Times(p, x).Floor as real, p) <= x
  {
    TimesSign(p, x);
    var f := Times(p, x).Floor as real;
    var q := Over(f, p);
    OverCancels(f, p);
    assert 0.0 <= f <= Times(p, x);
    TimesSplits(p, p, 0.0);
    TimesSplits(0.0, 0.0, p);
    hide Times, Over;
    TimesOrders(p, x, q);
    TimesOrders(p, q, 0.0);
    assert Times(p, 0.0) == 0.0 by {
      TimesZero(p);
    }
  }

  lemma TimesUnit(x: real)
    ensures Times(1.0, x) == x == Times(x, 1.0)
  {
  }

  lemma TimesZero(p: real)
    ensures Times(p, 0.0) == 0.0
  {
  }

  /** x is n units of 10^-decimals. */
  predicate IsUnits(x: real, n: int, decimals: nat) {
    Times(Scale(decimals), x) == n as real
  }

  ghost predicate OnGrid(x: real, decimals: nat) {
    exists n: int :: IsUnits(x, n, decimals)
  }

  /** Truncation gives the largest size on the grid that is not above x. */
  lemma RoundDownIsLargest(x: real, decimals: nat)
    requires x >= 0.0
    ensures OnGrid(RoundDown(x, decimals), decimals)
    ensures forall y :: OnGrid(y, decimals) && y <= x ==> y <= RoundDown(x, decimals)
  {
    var p, r := Scale(decimals), RoundDown(x, decimals);
    var f := Times(p, x).Floor;
    OverCancels(f as real, p);
    hide Times, Over;
    assert IsUnits(r, f, decimals);
    forall y | OnGrid(y, decimals) && y <= x
      ensures y <= r
    {
      var n :| IsUnits(y, n, decimals);
      TimesOrders(p, y, x);
      assert n as real <= Times(p, x);
      WholeBelow(n, Times(p, x));
      TimesOrders(p, r, y);
    }
  }

  lemma {:induction false} WholeBelow(n: int, x: real)
    requires n as real <= x
    ensures n as real <= x.Floor as real
  {
    var f := x.Floor;
    assert x < (f + 1) as real;
    assert n >= f + 1 ==> n as real >= (f + 1) as real;
  }
}
