/** One user's account in one dex as the store keeps it: the balance field, the position
    hashes, and the fill list (types/position.ts, types/order.ts, store/keys.ts).

    Fills, liquidations and funding all write this state; what each of them is worth is
    measured here, at any price, so that the three can be compared. */
module Account {
  import opened Prelude
  import opened MarginTiers
  import opened Margin

  datatype LeverageSetting = LeverageSetting(leverage: Leverage, isCross: bool)

  datatype Fill = Fill(asset: int, isBuy: bool, sz: real, px: real, fee: real, closedPnl: real, startPosition: real)
  {
    function Signed(): real { if isBuy then sz else -sz }
  }

  /** The running totals of funding paid and of equity handed to the vault stand for the rows
      the source records elsewhere. Fills are kept newest first, as the list push does. */
  datatype Account = Account(
    balance: real,
    positions: map<int, Position>,
    fills: seq<Fill>,
    fundingPaid: real,
    transferred: real)
  {
    function Szi(asset: int): real {
      if asset in positions then positions[asset].szi else 0.0
    }

    function EntryPx(asset: int): real {
      if asset in positions then positions[asset].entryPx else 0.0
    }

    /** A position hash exists only while there is a position. */
    predicate Valid() {
      forall a :: a in positions ==> positions[a].szi != 0.0
    }
  }

  /** The same account with asset's position hash replaced, or deleted. */
  function WithPosition(acct: Account, asset: int, pos: Option<Position>): Account {
    match pos
    case Some(p) => acct.(positions := acct.positions[asset := p])
    case None => acct.(positions := acct.positions - {asset})
  }

  // ---- Sums over positions ----

  ghost function SumOf(positions: map<int, Position>, f: (int, Position) -> real): real {
    Total(ValuesOf(positions, f))
  }

  ghost function ValueOf(acct: Account, asset: int, f: (int, Position) -> real): real {
    if asset in acct.positions then f(asset, acct.positions[asset]) else 0.0
  }

  ghost function ValuesOf(positions: map<int, Position>, f: (int, Position) -> real): map<int, real> {
    map a | a in positions :: f(a, positions[a])
  }

  /** Rewriting one position changes a sum by that position's term alone. */
  lemma SumAfterWrite(acct: Account, asset: int, pos: Option<Position>, f: (int, Position) -> real)
    ensures SumOf(WithPosition(acct, asset, pos).positions, f)
         == SumOf(acct.positions, f) - ValueOf(acct, asset, f)
            + (if pos.Some? then f(asset, pos.value) else 0.0)
  {
    hide Total;
    var m := ValuesOf(acct.positions, f);
    var n := ValuesOf(WithPosition(acct, asset, pos).positions, f);
    match pos
    case Some(p) =>
      assert n == m[asset := f(asset, p)];
      if asset in m {
        TotalReplace(m, asset, f(asset, p));
      } else {
        TotalExtend(m, asset, f(asset, p));
      }
    case None =>
      assert n == m - {asset};
      if asset in m {
        TotalPeel(m, asset);
      } else {
        assert n == m;
      }
  }

  lemma OneTerm(a: int, p: Position, f: (int, Position) -> real)
    ensures SumOf(map[a := p], f) == f(a, p)
  {
    var m := ValuesOf(map[a := p], f);
    TotalPeel(m, a);
    TotalZero(m - {a});
  }

  // ---- What an account is worth at any prices ----

  /** Size bought (or, if negative, sold) at one price and marked to another. */
  function MarkedTo(szi: real, entryPx: real, px: real): real {
    szi * (px - entryPx)
  }

  function WorthOf(x: int -> real): (int, Position) -> real {
    (a: int, p: Position) => MarkedTo(p.szi, p.entryPx, x(a))
  }

  /** Cash plus every position marked to x. */
  ghost function Worth(acct: Account, x: int -> real): real {
    acct.balance + SumOf(acct.positions, WorthOf(x))
  }

  /** The trades themselves marked to x, less their fees. */
  function FillWorth(fills: seq<Fill>, x: int -> real): real {
    if |fills| == 0 then 0.0
    else MarkedTo(fills[0].Signed(), fills[0].px, x(fills[0].asset)) - fills[0].fee + FillWorth(fills[1..], x)
  }

  function NetFilled(fills: seq<Fill>, asset: int): real {
    if |fills| == 0 then 0.0
    else (if fills[0].asset == asset then fills[0].Signed() else 0.0) + NetFilled(fills[1..], asset)
  }

  /** The account's books agree with its history: at every price its worth is the deposit plus the
      worth of its fills less funding and transfers, and every position is the sum of its fills. */
  ghost predicate Reconciles(acct: Account, deposit: real) {
    && (forall x: int -> real ::
          Worth(acct, x) == deposit + FillWorth(acct.fills, x) - acct.fundingPaid - acct.transferred)
    && (forall a :: acct.Szi(a) == NetFilled(acct.fills, a))
  }

  /** A new account reconciles with its deposit. */
  lemma OpeningReconciles(deposit: real)
    ensures Reconciles(Account(deposit, map[], [], 0.0, 0.0), deposit)
  {
    var acct := Account(deposit, map[], [], 0.0, 0.0);
    forall x: int -> real
      ensures Worth(acct, x) == deposit + FillWorth(acct.fills, x) - acct.fundingPaid - acct.transferred
    {
      TotalZero(ValuesOf(acct.positions, WorthOf(x)));
    }
  }

  /** Cash and position together move by what the fill is worth, at every price. */
  ghost predicate PreservesWorth(acct: Account, fill: Fill, pos: Option<Position>, cash: real) {
    forall px: real ::
      (if pos.Some? then MarkedTo(pos.value.szi, pos.value.entryPx, px) else 0.0) + cash + fill.fee
      == MarkedTo(acct.Szi(fill.asset), acct.EntryPx(fill.asset), px) + MarkedTo(fill.Signed(), fill.px, px)
  }

  function AfterTrade(acct: Account, fill: Fill, pos: Option<Position>, cash: real): Account {
    WithPosition(acct, fill.asset, pos).(balance := acct.balance + cash, fills := [fill] + acct.fills)
  }

  lemma TradeWorth(acct: Account, fill: Fill, pos: Option<Position>, cash: real, x: int -> real)
    requires PreservesWorth(acct, fill, pos, cash)
    ensures Worth(AfterTrade(acct, fill, pos, cash), x)
         == Worth(acct, x) + MarkedTo(fill.Signed(), fill.px, x(fill.asset)) - fill.fee
  {
    SumAfterWrite(acct, fill.asset, pos, WorthOf(x));
    assert MarkedTo(0.0, 0.0, x(fill.asset)) == 0.0;
    hide MarkedTo;
  }

  /** Writing one position and one fill keeps the books if it preserves worth and moves the
      position by the fill's signed size. */
  lemma {:induction false} TradeReconciles(acct: Account, deposit: real, fill: Fill, pos: Option<Position>, cash: real)
    requires Reconciles(acct, deposit)
    requires (if pos.Some? then pos.value.szi else 0.0) == acct.Szi(fill.asset) + fill.Signed()
    requires PreservesWorth(acct, fill, pos, cash)
    ensures Reconciles(AfterTrade(acct, fill, pos, cash), deposit)
  {
    var after := AfterTrade(acct, fill, pos, cash);
    assert after.fills[1..] == acct.fills;
    forall x: int -> real
      ensures Worth(after, x) == deposit + FillWorth(after.fills, x) - after.fundingPaid - after.transferred
    {
      TradeWorth(acct, fill, pos, cash, x);
      hide MarkedTo, Worth;
    }
    forall a ensures after.Szi(a) == NetFilled(after.fills, a) {
      assert acct.Szi(a) == NetFilled(acct.fills, a);
    }
  }
}
