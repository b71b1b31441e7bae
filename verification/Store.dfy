/** The writers as they run: a store of mutable hashes, and the methods of the matcher, the liquidation
    engine and the funding worker that update it in place. Each method is tied to the function that
    specifies it, so everything proved about those functions holds of the store. */
module Store {
  import opened Prelude
  import opened Margin
  import opened Account
  import opened Fills
  import opened Liquidation
  import Funding

  class Store {
    var balance: real
    var positions: map<int, Position>
    var fills: seq<Fill>
    var fundingPaid: real
    var transferred: real
    var cooldowns: set<Bucket>
    var vaultCollected: real

    constructor (deposit: real)
      ensures Acct() == Account(deposit, map[], [], 0.0, 0.0)
      ensures cooldowns == {} && vaultCollected == 0.0
    {
      balance, positions, fills := deposit, map[], [];
      fundingPaid, transferred, cooldowns, vaultCollected := 0.0, 0.0, {}, 0.0;
    }

    ghost function Acct(): Account
      reads this
    {
      Account(balance, positions, fills, fundingPaid, transferred)
    }

    ghost function Desk(): Desk
      reads this
    {
      Liquidation.Desk(Acct(), cooldowns, vaultCollected)
    }

    // ---- Fills (order-matcher.ts) ----

    method ExecuteFillWithSize(ex: Execution, fillSz: real, currentSzi: real, currentEntryPx: real)
      requires fillSz > 0.0
      requires currentSzi == Acct().Szi(ex.order.asset) && currentEntryPx == Acct().EntryPx(ex.order.asset)
      modifies this`balance, this`positions, this`fills
      ensures Acct() == FillStep(old(Acct()), ex, fillSz)
    {
      hide InitialMargin, WeightedEntry, ScaledMargin, Allocation;
      var asset, isBuy := ex.order.asset, ex.order.isBuy;
      var signedFillSz := if isBuy then fillSz else -fillSz;
      var newSzi := currentSzi + signedFillSz;
      var newEntryPx: real;
      var closedPnl := 0.0;
      if IsIncreasing(currentSzi, isBuy) {
        if currentSzi == 0.0 {
          newEntryPx := ex.fillPx;
        } else {
          newEntryPx := WeightedEntry(Abs(currentSzi), currentEntryPx, fillSz, ex.fillPx);
        }
      } else {
        var closingSz := Min(fillSz, Abs(currentSzi));
        if currentSzi > 0.0 {
          closedPnl := (ex.fillPx - currentEntryPx) * closingSz;
        } else {
          closedPnl := (currentEntryPx - ex.fillPx) * closingSz;
        }
        newEntryPx := if fillSz > Abs(currentSzi) then ex.fillPx else currentEntryPx;
      }
      assert newEntryPx == NewEntryPx(currentSzi, currentEntryPx, isBuy, fillSz, ex.fillPx);
      assert closedPnl == ClosedPnl(currentSzi, currentEntryPx, isBuy, fillSz, ex.fillPx);
      hide NewEntryPx, ClosedPnl;
      var fee := Fee(ex, fillSz);
      var fill := Fill(asset, isBuy, fillSz, ex.fillPx, fee, closedPnl, currentSzi);
      hide Fee;
      if newSzi == 0.0 {
        positions := positions - {asset};
      } else {
        var pos := if asset in positions then Some(positions[asset]) else None;
        var cumFunding, cumFundingSinceOpen := 0.0, 0.0;
        if pos.Some? {
          cumFunding := pos.value.cumFunding;
          if currentSzi != 0.0 {
            cumFundingSinceOpen := pos.value.cumFundingSinceOpen;
          }
        }
        var (alloc, raw) := MarginFields(ex, pos, fillSz, newSzi);
        positions := positions[asset := Position(newSzi, newEntryPx, alloc, raw, cumFunding, cumFundingSinceOpen, 0.0)];
      }
      balance := balance + (closedPnl - fee);
      fills := [fill] + fills;
    }

    method ExecuteFillLocked(ex: Execution)
      requires ex.order.Valid()
      modifies this`balance, this`positions, this`fills
      ensures Acct() == ExecuteFill(old(Acct()), ex)
    {
      hide FillStep;
      var o := ex.order;
      var fillSz := o.sz - o.filledSz;
      if fillSz == 0.0 { return; }
      var currentSzi := if o.asset in positions then positions[o.asset].szi else 0.0;
      var currentEntryPx := if o.asset in positions then positions[o.asset].entryPx else 0.0;
      if o.reduceOnly {
        if currentSzi == 0.0 { return; }
        var isLong := currentSzi > 0.0;
        if (isLong && o.isBuy) || (!isLong && !o.isBuy) { return; }
        var posAbs := Abs(currentSzi);
        if fillSz > posAbs {
          ExecuteFillWithSize(ex, posAbs, currentSzi, currentEntryPx);
          return;
        }
      }
      ExecuteFillWithSize(ex, fillSz, currentSzi, currentEntryPx);
    }

    // ---- Funding (funding-worker.ts) ----

    method ApplyFunding(ctx: map<int, Funding.Context>, assets: seq<int>)
      modifies this`balance, this`positions, this`fundingPaid
      ensures Acct() == Funding.FundAll(old(Acct()), ctx, assets)
    {
      hide Funding.Charge;
      var i := 0;
      while i < |assets|
        invariant 0 <= i <= |assets|
        invariant Acct() == Funding.FundAll(old(Acct()), ctx, assets[..i])
      {
        assert assets[..i + 1][..i] == assets[..i];
        var asset := assets[i];
        if asset in positions {
          var pos := positions[asset];
          var fundingCharge := Funding.Charge(ctx, asset, pos.szi);
          balance := balance - fundingCharge;
          positions := positions[asset := Funding.FundPosition(pos, fundingCharge)];
          fundingPaid := fundingPaid + fundingCharge;
        }
        i := i + 1;
      }
      assert assets[..i] == assets;
    }

    // ---- Liquidation (liquidation.ts) ----

    /** Snapshots of the priced positions, in the order given. */
    method LoadViews(mkt: Market, assets: seq<int>) returns (views: seq<View>)
      ensures views == LoadPositions(mkt, Acct(), assets)
    {
      hide ViewOf;
      views := [];
      var i := 0;
      while i < |assets|
        invariant 0 <= i <= |assets|
        invariant views == LoadPositions(mkt, Acct(), assets[..i])
      {
        assert assets[..i + 1][..i] == assets[..i];
        var asset := assets[i];
        if asset in positions && asset in mkt.marks && positions[asset].szi != 0.0 {
          views := views + [ViewOf(mkt, asset, positions[asset])];
        }
        i := i + 1;
      }
      assert assets[..i] == assets;
    }

    /** One close's writes: the position, the balance, the fill list. */
    method WriteClose(plan: Plan)
      modifies this`balance, this`positions, this`fills
      ensures Acct() == QueueClose(old(Acct()), plan)
    {
      hide Remainder;
      var asset := plan.fill.asset;
      var left := Remainder(plan);
      if left.None? {
        positions := positions - {asset};
      } else {
        positions := positions[asset := left.value];
      }
      balance := balance + (plan.fill.closedPnl - plan.fill.fee);
      fills := [plan.fill] + fills;
    }

    method Liquidate(mkt: Market, books: Books, a: Assessment)
      modifies this
      ensures Desk() == RunLiquidation(mkt, books, old(Desk()), a)
    {
      hide SliceOf, PlanFor, QueueClose;
      if |a.targets| == 0 {
        return;
      }
      var partial := false;
      var i := 0;
      while i < |a.targets|
        invariant 0 <= i <= |a.targets|
        invariant Acct() == QueueAll(mkt, books, cooldowns, a.kind, old(Acct()), a.targets[..i])
        invariant partial <==> exists j :: 0 <= j < i && SliceOf(mkt, cooldowns, a.kind, a.targets[j]).Some?
        invariant cooldowns == old(cooldowns) && vaultCollected == old(vaultCollected)
      {
        assert a.targets[..i + 1][..i] == a.targets[..i];
        if SliceOf(mkt, cooldowns, a.kind, a.targets[i]).Some? {
          partial := true;
        }
        WriteClose(PlanFor(mkt, books, cooldowns, a.kind, a.targets[i]));
        i := i + 1;
      }
      assert a.targets[..i] == a.targets;
      var moved := if a.kind == Backstop then a.equity else 0.0;
      balance := balance - moved;
      transferred := transferred + moved;
      CreditVault(mkt, moved);
      if partial {
        cooldowns := cooldowns + {BucketOf(a.targets[0])};
      }
    }

    /** Proceeds that are not positive, and an unset address, credit nothing. */
    method CreditVault(mkt: Market, proceeds: real)
      modifies this`vaultCollected
      ensures vaultCollected == old(vaultCollected) + VaultCredit(mkt, proceeds)
    {
      if proceeds <= 0.0 || !mkt.vaultIsSet { return; }
      vaultCollected := vaultCollected + proceeds;
    }

    /** One pass: isolated positions from one snapshot, then the cross account, re-read. */
    method CheckAndLiquidateUser(mkt: Market, books: Books, reply: Reply)
      modifies this
      ensures Desk() == Pass(mkt, books, reply, old(Desk()))
    {
      hide RunLiquidation, AssessIsolated;
      var views := LoadViews(mkt, reply(positions.Keys));
      var i := 0;
      while i < |views|
        invariant 0 <= i <= |views|
        invariant IsolatedPhase(mkt, books, Desk(), views[i..]) == IsolatedPhase(mkt, books, old(Desk()), views)
      {
        assert views[i..][1..] == views[i + 1..];
        var a := AssessIsolated(views[i]);
        if !views[i].setting.isCross && a.shouldLiquidate {
          Liquidate(mkt, books, a);
        }
        i := i + 1;
      }
      var again := LoadViews(mkt, reply(positions.Keys));
      var a := AssessCrossAccount(balance, again);
      if a.shouldLiquidate {
        Liquidate(mkt, books, a);
      }
    }
  }

  /** The running sums of the cross assessment. */
  method AssessCrossAccount(balance: real, views: seq<View>) returns (a: Assessment)
    ensures a == AssessCross(balance, views)
  {
    var value, mm, cross := balance, 0.0, [];
    var i := 0;
    while i < |views|
      invariant 0 <= i <= |views|
      invariant value == CrossAccountValue(balance, views[..i])
      invariant cross == CrossOf(views[..i]) && mm == TotalMaintenance(cross)
    {
      assert views[..i + 1][..i] == views[..i];
      var v := views[i];
      if v.setting.isCross {
        value := value + v.pnl;
        assert (cross + [v])[..|cross|] == cross;
        mm := mm + v.maintenance;
        cross := cross + [v];
      } else {
        value := value - v.isolatedMargin;
      }
      i := i + 1;
    }
    assert views[..i] == views;
    a := Assess(value, mm, cross);
  }

  // ---- The funding worker (funding-worker.ts) ----

  /** All users' accounts, and the users that may have positions. */
  class FundingWorker {
    var accounts: map<int, Account>
    var active: set<int>
    /** The switch that turns funding off. */
    const enabled: bool

    constructor (accounts: map<int, Account>, active: set<int>, enabled: bool)
      ensures this.accounts == accounts && this.active == active && this.enabled == enabled
    {
      this.accounts, this.active, this.enabled := accounts, active, enabled;
    }

    /** The outer loop over the active users, in whatever order the set lists them, with the clean-up of those
        without positions. */
    method ApplyFunding(ctx: map<int, Funding.Context>, reply: Reply)
      requires IsReply(reply)
      modifies this
      ensures !enabled ==> accounts == old(accounts) && active == old(active)
      ensures enabled ==> accounts == Funding.FundUsers(old(accounts), old(active), ctx, reply)
      ensures enabled ==> active == set u | u in old(active) && Funding.HasPositions(old(accounts), u)
    {
      if !enabled {
        return;
      }
      var rest := active;
      hide Funding.FundAll, IsReply;
      NobodyFunded(accounts, ctx, reply);
      while rest != {}
        invariant rest <= old(active)
        invariant accounts == Funding.FundUsers(old(accounts), old(active) - rest, ctx, reply)
        invariant active == set u | u in old(active) && (u in rest || Funding.HasPositions(old(accounts), u))
      {
        assert (forall y :: y !in rest) ==> rest == {};
        var u :| u in rest;
        if u !in accounts || accounts[u].positions.Keys == {} {
          active := active - {u};
          if u in accounts {
            assert accounts[u] == old(accounts)[u];
            NothingToFund(accounts[u], ctx, reply(accounts[u].positions.Keys));
          }
        } else {
          assert accounts[u] == old(accounts)[u];
          var funded := FundUser(accounts[u], ctx, reply(accounts[u].positions.Keys));
          accounts := accounts[u := funded];
        }
        rest := rest - {u};
        assert accounts == Funding.FundUsers(old(accounts), old(active) - rest, ctx, reply);
      }
    }

    method FundUser(acct: Account, ctx: map<int, Funding.Context>, assets: seq<int>) returns (funded: Account)
      ensures funded == Funding.FundAll(acct, ctx, assets)
    {
      hide Funding.FundOne;
      funded := acct;
      var i := 0;
      while i < |assets|
        invariant 0 <= i <= |assets|
        invariant funded == Funding.FundAll(acct, ctx, assets[..i])
      {
        assert assets[..i + 1][..i] == assets[..i];
        funded := Funding.FundOne(funded, ctx, assets[i]);
        i := i + 1;
      }
      assert assets[..i] == assets;
    }
  }

  lemma NobodyFunded(accounts: map<int, Account>, ctx: map<int, Funding.Context>, reply: Reply)
    ensures Funding.FundUsers(accounts, {}, ctx, reply) == accounts
  {
    hide Funding.FundAll;
    var none := Funding.FundUsers(accounts, {}, ctx, reply);
    forall u | u in accounts ensures none[u] == accounts[u] {
      assert u !in {};
    }
    assert none == accounts;
  }

  /** Without positions there is nothing to charge, whatever the assets. */
  lemma {:induction false} NothingToFund(acct: Account, ctx: map<int, Funding.Context>, assets: seq<int>)
    requires acct.positions.Keys == {}
    ensures Funding.FundAll(acct, ctx, assets) == acct
    decreases |assets|
  {
    if |assets| > 0 {
      NothingToFund(acct, ctx, assets[..|assets| - 1]);
    }
  }
}
