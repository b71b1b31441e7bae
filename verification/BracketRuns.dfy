/** Bracket orders over whole runs: at most one leg of a linked group ever fills, an exit stays dormant while its entry
    rests, and where and when either fails. */
module BracketRuns {
  import opened Prelude
  import opened Brackets
  import opened BracketSafety

  const START: World := World(Book(map[], {}, {}, map[], map[], map[]), map[], map[])

  /** One event, with the order in which the store lists its sets to it. */
  datatype Turn = Turn(event: Event, listing: Listing)

  /** The world after a run of turns from an empty book. */
  function After(turns: seq<Turn>): World {
    if |turns| == 0 then START
    else Step(After(turns[..|turns| - 1]), turns[|turns| - 1].event, turns[|turns| - 1].listing)
  }

  /** Every event was possible when it happened. */
  ghost predicate IsRun(turns: seq<Turn>) {
    |turns| == 0
    || (IsRun(turns[..|turns| - 1])
        && IsListing(turns[|turns| - 1].listing)
        && IsEnabled(After(turns[..|turns| - 1]), turns[|turns| - 1].event))
  }

  lemma {:induction false} RunKeeps(turns: seq<Turn>)
    requires IsRun(turns)
    ensures Inv(After(turns))
    decreases |turns|
  {
    hide Step, IsListing, IsEnabled;
    if |turns| > 0 {
      hide Inv;
      var last := turns[|turns| - 1];
      RunKeeps(turns[..|turns| - 1]);
      StepKeeps(After(turns[..|turns| - 1]), last.event, last.listing);
    } else {
      assert forall k, m :: !IsChild(START.book, k, m) && !IsSibling(START.book, k, m);
    }
  }

  /** One cancels the other: in every run, of any group linked while open, including the resting replacements of
      its legs, at most one order ever becomes filled. */
  lemma {:induction false} AtMostOneFills(turns: seq<Turn>, x: int, y: int)
    requires IsRun(turns) && SameGroup(After(turns), x, y)
    requires HasStatus(After(turns).book, x, Filled) && HasStatus(After(turns).book, y, Filled)
    ensures x == y
  {
    RunKeeps(turns);
    InvParts(After(turns));
    hide Inv, After, IsRun, Known, Layered, Cliques, Attached, Indexed;
    assert x != y ==> HasStatus(After(turns).book, y, Cancelled);
  }

  /** Among the open orders of every reachable book, being siblings is an equivalence: the sibling sets
      are symmetric and disjoint cliques. */
  lemma {:induction false} SiblingsFormCliques(turns: seq<Turn>, x: int, y: int, z: int)
    requires IsRun(turns)
    requires var b := After(turns).book; IsOpen(b, x) && IsOpen(b, y) && IsOpen(b, z) && IsSibling(b, x, y)
    ensures var b := After(turns).book;
      && IsSibling(b, y, x)
      && (IsSibling(b, y, z) && x != z ==> IsSibling(b, x, z))
  {
    RunKeeps(turns);
    InvParts(After(turns));
    var w := After(turns);
    hide Inv, After, IsRun, IsSibling, IsChild, Layered, OneFill, Attached, Indexed;
    assert x != y;
    assert SameGroup(w, x, y) && SameGroup(w, y, x);
    assert SameGroup(w, y, z) ==> SameGroup(w, x, z);
  }

  // ---- Dormancy ----

  /** Dormancy, exactly: in every run, an exit that either matcher watches may fill if and only if it rests as a
      limit order, or the entry it was placed to exit, itself or through the orders it replaces, is not open. */
  lemma {:induction false} ExitsStayDormant(turns: seq<Turn>, exit: int)
    requires IsRun(turns)
    requires var w := After(turns); exit in w.entry && (exit in w.book.triggerIndex || exit in w.book.openIndex)
    ensures var w := After(turns);
      && exit in w.book.orders
      && (IsEnabled(w, Fill(exit)) <==> w.book.orders[exit].kind == Limit || !IsOpen(w.book, w.entry[exit]))
  {
    RunKeeps(turns);
    InvParts(After(turns));
    hide Inv, After, IsRun, Known, Layered, Cliques, OneFill;
  }

  /** A turn added to a run. */
  lemma RunOn(turns: seq<Turn>, e: Event, listing: Listing)
    requires IsRun(turns) && IsListing(listing) && IsEnabled(After(turns), e)
    ensures IsRun(turns + [Turn(e, listing)])
    ensures After(turns + [Turn(e, listing)]) == Step(After(turns), e, listing)
  {
    assert (turns + [Turn(e, listing)])[..|turns|] == turns;
    hide Step, IsListing, IsEnabled;
  }

  /** An entry that rests, with one trigger exit. */
  const BRACKETED: Event := Place(7, NormalTpsl, [Leg(1, Limit, Resting), Leg(2, Trigger, Resting)], true)

  const BRACKETED_BOOK: Book :=
    Book(map[1 := OrderRec(7, Limit, Open), 2 := OrderRec(7, Trigger, Open)],
         {1}, {2}, map[2 := 1], map[1 := {2}], map[2 := {}])

  /** What such a batch leaves, whether its entry rests or is idle. */
  lemma BracketedBook(arrival: Arrival, legs: seq<Leg>)
    requires arrival != Executed && legs == [Leg(1, Limit, arrival), Leg(2, Trigger, Resting)]
    ensures PlaceOrders(START.book, 7, NormalTpsl, legs)
         == BRACKETED_BOOK.(openIndex := if arrival == Resting then {1} else {})
  {
    assert legs[..1] == [legs[0]] && legs[..1][..0] == [];
    assert PlaceLegs(START.book, 7, legs[..1]) == PlaceLeg(START.book, 7, legs[0]);
    var placed := PlaceLegs(START.book, 7, legs);
    assert placed == BRACKETED_BOOK.(openIndex := if arrival == Resting then {1} else {},
                                     parent := map[], children := map[], bracket := map[]);
    hide PlaceLegs, PlaceLeg;
    assert legs[1..] == [legs[1]];
    assert Oids(legs[1..]) == {2};
    LoneClique(2);
  }

  /** A clique of one has no siblings. */
  lemma LoneClique(o: int)
    ensures LinkClique(map[], {o}) == map[o := {}]
  {
    var none: map<int, set<int>> := map[];
    assert none.Keys + {o} == {o};
    assert Members(none, o) + ({o} - {o}) == {};
  }

  lemma FirstTurn(e: Event, listing: Listing)
    requires IsListing(listing) && IsEnabled(START, e)
    ensures IsRun([Turn(e, listing)]) && After([Turn(e, listing)]) == Step(START, e, listing)
  {
    assert [Turn(e, listing)][..0] == [];
    hide Step, IsListing, IsEnabled;
  }

  lemma BracketedRun(arrival: Arrival, listing: Listing)
    requires arrival != Executed && IsListing(listing)
    ensures
      var turns := [Turn(Place(7, NormalTpsl, [Leg(1, Limit, arrival), Leg(2, Trigger, Resting)], true), listing)];
      && IsRun(turns)
      && After(turns)
         == World(BRACKETED_BOOK.(openIndex := if arrival == Resting then {1} else {}), map[2 := 1], map[2 := 1])
  {
    var legs := [Leg(1, Limit, arrival), Leg(2, Trigger, Resting)];
    BracketedStep(arrival, legs, listing);
    hide *;
    FirstTurn(Place(7, NormalTpsl, legs, true), listing);
  }

  lemma BracketedStep(arrival: Arrival, legs: seq<Leg>, listing: Listing)
    requires arrival != Executed && legs == [Leg(1, Limit, arrival), Leg(2, Trigger, Resting)]
    ensures IsEnabled(START, Place(7, NormalTpsl, legs, true))
    ensures Step(START, Place(7, NormalTpsl, legs, true), listing)
         == World(BRACKETED_BOOK.(openIndex := if arrival == Resting then {1} else {}), map[2 := 1], map[2 := 1])
  {
    BracketedBook(arrival, legs);
    hide PlaceOrders;
    assert legs[1..] == [legs[1]];
    assert Oids(legs[1..]) == {2} && Standing(legs[1..]) == {2};
  }

  /** The exit modified into a limit order that rests: it inherits the entry, which is still open, and may fill at
      once. */
  lemma LimitExitIsNotDormant(listing: Listing)
    requires IsListing(listing)
    ensures
      var turns := [Turn(BRACKETED, listing), Turn(Modify(7, 2, Rests(3, Limit)), listing)];
      var w := After(turns);
      && IsRun(turns)
      && 3 in w.entry && w.entry[3] == 1 && IsOpen(w.book, 1)
      && 3 in w.book.parent && w.book.parent[3] == 1
      && IsEnabled(w, Fill(3))
  {
    hide IsListing, IsRun, After, ModifyOrder;
    BracketedRun(Resting, listing);
    var turns := [Turn(BRACKETED, listing)];
    var e := Modify(7, 2, Rests(3, Limit));
    RunOn(turns, e, listing);
    assert turns + [Turn(e, listing)] == [Turn(BRACKETED, listing), Turn(e, listing)];
    LimitExitBook(listing);
  }

  lemma LimitExitBook(listing: Listing)
    ensures
      var b := ModifyOrder(BRACKETED_BOOK, 7, 2, Rests(3, Limit), listing);
      && b.orders == map[1 := OrderRec(7, Limit, Open), 2 := OrderRec(7, Trigger, Cancelled), 3 := OrderRec(7, Limit, Open)]
      && b.openIndex == {1, 3} && b.parent == map[3 := 1]
  {
    var cancelled := WithStatus(BRACKETED_BOOK, {2}, Cancelled);
    var l := Leg(3, Limit, Resting);
    assert [l][..0] == [];
    assert PlaceLegs(cancelled, 7, [l]) == PlaceLeg(cancelled, 7, l);
    assert ReplacementLeg(Rests(3, Limit)) == l;
    hide PlaceLegs;
  }

  // ---- An entry and its exits ----

  lemma StepBooks(w: World, user: int, oid: int, r: Replacement, listing: Listing)
    ensures Step(w, Cancel(user, oid), listing).book == CancelOne(w.book, user, oid, listing)
    ensures Step(w, Modify(user, oid, r), listing).book == ModifyOrder(w.book, user, oid, r, listing)
  {
    hide CancelOne, ModifyOrder;
  }

  /** In every run, cancelling or modifying an entry leaves none of its exits open. */
  lemma {:induction false} EntryTakesExitsAlong(turns: seq<Turn>, listing: Listing, entry: int, user: int, r: Replacement, exit: int)
    requires IsRun(turns) && IsListing(listing)
    requires var w := After(turns);
      && IsOpen(w.book, entry) && w.book.orders[entry].user == user
      && exit in w.entry && w.entry[exit] == entry && IsFresh(w.book, r)
    ensures !IsOpen(Step(After(turns), Cancel(user, entry), listing).book, exit)
    ensures !IsOpen(Step(After(turns), Modify(user, entry, r), listing).book, exit)
  {
    RunKeeps(turns);
    var w := After(turns);
    hide Inv, After, IsRun, IsListing, CancelOne, ModifyOrder, Step;
    StepBooks(w, user, entry, r, listing);
    CancelTakesExit(w, listing, entry, user, exit);
    ModifyTakesExit(w, listing, entry, user, r, exit);
  }

  /** Expiry is the exception: it leaves every link in place, so an exit that was dormant stays open and
      may fill as soon as its entry has expired. */
  lemma {:induction false} ExpiryFreesExits(turns: seq<Turn>, listing: Listing, exit: int)
    requires IsRun(turns)
    requires var w := After(turns);
      exit in w.entry && exit in w.book.triggerIndex && IsOpen(w.book, w.entry[exit])
    ensures var w := After(turns);
      var v := Step(w, Expire(w.entry[exit]), listing);
      !IsEnabled(w, Fill(exit)) && IsOpen(v.book, exit) && IsEnabled(v, Fill(exit))
  {
    ExitsStayDormant(turns, exit);
    var w := After(turns);
    RunKeeps(turns);
    hide Inv, After, IsRun, Step, IsEnabled;
    OpenExitIsTrigger(w, exit);
    ExpiryOf(w, w.entry[exit], exit, listing);
  }

  lemma ExpiryOf(w: World, entry: int, exit: int, listing: Listing)
    requires Inv(w) && exit in w.entry && exit in w.book.triggerIndex && w.entry[exit] == entry
    requires IsOpen(w.book, entry) && IsOpen(w.book, exit) && w.book.orders[exit].kind == Trigger
    ensures var v := Step(w, Expire(entry), listing);
      IsOpen(v.book, exit) && IsEnabled(v, Fill(exit))
  {
    OpenExitIsChild(w, entry, exit);
    InvParts(w);
    assert w.book.parent[exit] == entry;
    hide Inv, Known, Layered, Cliques, OneFill, Indexed, Attached;
    WithStatusEffect(w.book, {entry}, Cancelled);
    hide WithStatus;
  }

  lemma OpenExitIsTrigger(w: World, exit: int)
    requires Inv(w) && exit in w.book.triggerIndex
    ensures IsOpen(w.book, exit) && w.book.orders[exit].kind == Trigger
  {
  }

  /** A run in which it happens: one bracketed entry, which expires. */
  lemma ExpiredEntryFreesItsExit(listing: Listing)
    requires IsListing(listing)
    ensures
      var turns := [Turn(BRACKETED, listing), Turn(Expire(1), listing)];
      && IsRun(turns)
      && !IsEnabled(After(turns[..1]), Fill(2))
      && IsOpen(After(turns).book, 2) && IsEnabled(After(turns), Fill(2))
  {
    hide IsListing, IsRun, After;
    BracketedRun(Resting, listing);
    var turns := [Turn(BRACKETED, listing)];
    RunOn(turns, Expire(1), listing);
    assert turns + [Turn(Expire(1), listing)] == [Turn(BRACKETED, listing), Turn(Expire(1), listing)];
    assert [Turn(BRACKETED, listing), Turn(Expire(1), listing)][..1] == turns;
    ExpiryFreesExits(turns, listing, 2);
    hide Step;
  }

  // ---- Orders no matcher watches ----

  predicate IsWatched(b: Book, o: int) {
    o in b.openIndex || o in b.triggerIndex
  }

  /** What an event does to one order. One that was there stays as open and as watched as it was, or closes, or is a
      trigger just spent; one that comes in is watched unless it comes in idle. */
  predicate Follows(b: Book, c: Book, o: int, idle: bool, spent: bool) {
    if o in b.orders then
      o in c.orders && (IsOpen(c, o) ==> IsOpen(b, o) && (IsWatched(c, o) <==> IsWatched(b, o) && !spent))
    else
      (idle ==> o in c.orders) && (IsOpen(c, o) ==> (IsWatched(c, o) <==> !idle))
  }

  predicate IsIdleLeg(legs: seq<Leg>, o: int) {
    exists l :: l in legs && l.oid == o && l.arrival == Idle
  }

  lemma PlaceLegFollows(p: Book, user: int, l: Leg, o: int)
    requires o == l.oid ==> o !in p.orders && !IsWatched(p, o)
    ensures o == l.oid ==> Follows(p, PlaceLeg(p, user, l), o, l.arrival == Idle, false)
    ensures o != l.oid ==>
              var c := PlaceLeg(p, user, l);
              IsWatched(c, o) == IsWatched(p, o) && IsOpen(c, o) == IsOpen(p, o) && (o in c.orders <==> o in p.orders)
  {
  }

  lemma {:induction false} PlaceFollows(b: Book, user: int, legs: seq<Leg>, o: int)
    requires FreshLegs(b, legs) && (o !in b.orders ==> !IsWatched(b, o))
    ensures var c := PlaceLegs(b, user, legs);
      && (o in c.orders <==> o in b.orders || o in Oids(legs))
      && (o !in c.orders ==> !IsWatched(c, o))
      && Follows(b, c, o, IsIdleLeg(legs, o), false)
    decreases |legs|
  {
    if |legs| > 0 {
      var n := |legs| - 1;
      var l := legs[n];
      var p := PlaceLegs(b, user, legs[..n]);
      assert legs == legs[..n] + [l];
      PlaceFollows(b, user, legs[..n], o);
      assert Oids(legs) == Oids(legs[..n]) + {l.oid};
      assert l.oid !in Oids(legs[..n]);
      PlaceLegFollows(p, user, l, o);
      LastLegIdle(legs, o);
      hide IsWatched, PlaceLeg, FreshLegs, IsIdleLeg, Oids;
    } else {
      assert Oids(legs) == {};
    }
  }

  lemma LastLegIdle(legs: seq<Leg>, o: int)
    requires |legs| > 0
    ensures
      var n := |legs| - 1;
      IsIdleLeg(legs, o) <==> IsIdleLeg(legs[..n], o) || (legs[n].oid == o && legs[n].arrival == Idle)
    ensures IsIdleLeg(legs, o) ==> o in Oids(legs)
  {
    assert legs == legs[..|legs| - 1] + [legs[|legs| - 1]];
    assert forall l :: l in legs <==> l in legs[..|legs| - 1] || l == legs[|legs| - 1];
  }

  /** Orders close, leave the indexes with that, and nothing else of either changes. */
  predicate Closes(b: Book, c: Book) {
    && c.orders.Keys == b.orders.Keys && OpenOrders(c) <= OpenOrders(b)
    && c.openIndex <= b.openIndex && c.triggerIndex <= b.triggerIndex
    && b.openIndex * OpenOrders(c) <= c.openIndex && b.triggerIndex * OpenOrders(c) <= c.triggerIndex
  }

  lemma ThenCloses(b: Book, c: Book, d: Book, o: int, idle: bool, spent: bool)
    requires Follows(b, c, o, idle, spent) && Closes(c, d)
    ensures Follows(b, d, o, idle, spent)
  {
    assert IsOpen(d, o) ==> o in OpenOrders(d);
  }

  lemma WithStatusCloses(b: Book, who: set<int>, status: Status)
    requires status != Open
    ensures Closes(b, WithStatus(b, who, status))
  {
  }

  lemma FillCloses(b: Book, oid: int)
    requires IsOpen(b, oid)
    ensures Closes(b, FillOrder(b, oid))
  {
    FillStatus(b, oid);
    hide FillOrder;
  }

  lemma CarryCloses(b: Book, user: int, was: int, r: Replacement, listing: Listing)
    ensures Closes(b, CarryBracketLinks(b, user, was, r, listing))
  {
    hide CancelChildren;
  }

  lemma ReplacementFollows(b: Book, user: int, r: Replacement, o: int)
    requires IsFresh(b, r) && (o !in b.orders ==> !IsWatched(b, o))
    ensures Follows(b, PlaceReplacement(b, user, r), o, r.FillsAtOnce? && !r.executed && o == r.oid, false)
  {
    if !r.Rejected? {
      var l := ReplacementLeg(r);
      assert [l][..0] == [];
      assert PlaceLegs(b, user, [l]) == PlaceLeg(b, user, l);
      PlaceLegFollows(b, user, l, o);
    }
  }

  /** An order that an event brings in idle. */
  predicate ComesIdle(w: World, e: Event, o: int) {
    match e
    case Place(_, _, legs, _) => IsIdleLeg(legs, o)
    case Modify(user, oid, r) =>
      IsOpen(w.book, oid) && w.book.orders[oid].user == user && r.FillsAtOnce? && !r.executed && o == r.oid
    case _ => false
  }

  lemma ModifyFollows(w: World, user: int, oid: int, r: Replacement, listing: Listing, o: int)
    requires Indexed(w) && IsFresh(w.book, r)
    ensures Follows(w.book, ModifyOrder(w.book, user, oid, r, listing), o, ComesIdle(w, Modify(user, oid, r), o), false)
  {
    var b := w.book;
    if IsOpen(b, oid) && b.orders[oid].user == user {
      var b1 := WithStatus(b, {oid}, Cancelled);
      WithStatusCloses(b, {oid}, Cancelled);
      var c := PlaceReplacement(b1, user, r);
      ReplacementFollows(b1, user, r, o);
      CarryCloses(c, user, oid, r, listing);
      hide WithStatus, PlaceReplacement, CarryBracketLinks;
      var idle := ComesIdle(w, Modify(user, oid, r), o);
      ClosedThenFollows(b, b1, c, o, idle);
      ThenCloses(b, c, ModifyOrder(b, user, oid, r, listing), o, idle, false);
    }
  }

  lemma ClosedThenFollows(b: Book, c: Book, d: Book, o: int, idle: bool)
    requires Closes(b, c) && Follows(c, d, o, idle, false)
    ensures Follows(b, d, o, idle, false)
  {
    assert IsOpen(c, o) ==> o in OpenOrders(c);
  }

  lemma ClosingFollows(b: Book, c: Book, o: int)
    requires Closes(b, c)
    ensures Follows(b, c, o, false, false)
  {
    assert IsOpen(c, o) ==> o in OpenOrders(c);
  }

  lemma StepFollows(w: World, e: Event, listing: Listing, o: int)
    requires Inv(w) && IsEnabled(w, e)
    ensures Follows(w.book, Step(w, e, listing).book, o, ComesIdle(w, e, o), e == Spend(o))
    ensures ComesIdle(w, e, o) ==> o !in w.book.orders
    ensures e == Spend(o) ==> o in w.book.orders
  {
    InvParts(w);
    hide Inv, Known, Layered, Cliques, OneFill, Attached;
    var b := w.book;
    match e
    case Place(user, grouping, legs, _) =>
      PlaceFollows(b, user, legs, o);
      hide PlaceLegs, Follows;
    case Fill(oid) =>
      FillCloses(b, oid);
      ClosingFollows(b, FillOrder(b, oid), o);
      hide FillOrder, Follows, Closes;
    case Cancel(user, oid) =>
      ClosingFollows(b, CancelOne(b, user, oid, listing), o);
      hide CancelOne, Follows;
    case Expire(oid) =>
      WithStatusCloses(b, {oid}, Cancelled);
      ClosingFollows(b, WithStatus(b, {oid}, Cancelled), o);
      hide WithStatus, Follows, Closes;
    case Modify(user, oid, r) =>
      ModifyFollows(w, user, oid, r, listing, o);
      hide ModifyOrder, Follows;
    case Spend(_) =>
  }

  /** The order came in idle, or is a trigger that was spent, at some turn. */
  ghost predicate WentIdle(turns: seq<Turn>, o: int) {
    |turns| > 0 &&
    var front, e := turns[..|turns| - 1], turns[|turns| - 1].event;
    WentIdle(front, o) || ComesIdle(After(front), e, o) || e == Spend(o)
  }

  /** In every run an open order is watched by no matcher if and only if it came in idle, or is a trigger that fired
      with nothing to reduce. */
  lemma {:induction false} UnwatchedExactly(turns: seq<Turn>, o: int)
    requires IsRun(turns)
    ensures WentIdle(turns, o) ==> o in After(turns).book.orders
    ensures IsOpen(After(turns).book, o) ==> (!IsWatched(After(turns).book, o) <==> WentIdle(turns, o))
    decreases |turns|
  {
    if |turns| > 0 {
      var front, last := turns[..|turns| - 1], turns[|turns| - 1];
      UnwatchedExactly(front, o);
      RunKeeps(front);
      StepFollows(After(front), last.event, last.listing, o);
      hide Step, IsEnabled, Inv, ComesIdle, IsWatched;
    }
  }

  /** Once an order is not open and watched it never is again, so it never fills: an entry answered as filled that had
      nothing to reduce stays open, and its exits dormant, until it is cancelled, modified or expires. */
  lemma {:induction false} UnwatchedForEver(turns: seq<Turn>, i: nat, o: int)
    requires IsRun(turns) && i <= |turns| && o in After(turns[..i]).book.orders
    requires IsOpen(After(turns[..i]).book, o) ==> !IsWatched(After(turns[..i]).book, o)
    ensures o in After(turns).book.orders
    ensures IsOpen(After(turns).book, o) ==> !IsWatched(After(turns).book, o)
    ensures !IsEnabled(After(turns), Fill(o))
    decreases |turns|
  {
    if i == |turns| {
      assert turns[..i] == turns;
    } else {
      var front, last := turns[..|turns| - 1], turns[|turns| - 1];
      assert front[..i] == turns[..i];
      UnwatchedForEver(front, i, o);
      RunKeeps(front);
      StepFollows(After(front), last.event, last.listing, o);
      hide Inv, ComesIdle;
    }
    hide Step;
  }

  /** A run in which it happens: the entry of a bracket comes in idle, and its exit waits for it. */
  lemma IdleEntryHoldsItsExit(listing: Listing)
    requires IsListing(listing)
    ensures
      var turns := [Turn(Place(7, NormalTpsl, [Leg(1, Limit, Idle), Leg(2, Trigger, Resting)], true), listing)];
      var w := After(turns);
      && IsRun(turns)
      && IsOpen(w.book, 1) && !IsWatched(w.book, 1)
      && 2 in w.book.triggerIndex && !IsEnabled(w, Fill(2))
  {
    hide IsListing, IsRun, After;
    BracketedRun(Idle, listing);
  }

  // ---- A batch whose entry did not reach the book ----

  /** The orders of a batch that were sent as exits. */
  function ExitsOf(grouping: Grouping, legs: seq<Leg>, headed: bool): seq<Leg> {
    if grouping == NormalTpsl && headed && |legs| > 0 then legs[1..] else legs
  }

  /** The links a normalTpsl batch gets, whatever its first order is. */
  ghost predicate IsLinked(b: Book, legs: seq<Leg>)
    requires |legs| > 0
  {
    && (forall i, j :: 0 < i < |legs| && 0 < j < |legs| && i != j ==> IsSibling(b, legs[i].oid, legs[j].oid))
    && (forall i :: 0 < i < |legs| ==> IsChild(b, legs[0].oid, legs[i].oid) && !IsSibling(b, legs[0].oid, legs[i].oid))
    && (forall i :: 0 < i < |legs| ==> legs[i].oid in b.parent && b.parent[legs[i].oid] == legs[0].oid)
    && legs[0].oid !in b.parent
  }

  lemma TailOids(b: Book, legs: seq<Leg>)
    requires FreshLegs(b, legs) && |legs| > 1
    ensures legs[0].oid !in Oids(legs[1..])
    ensures forall i :: 0 < i < |legs| ==> legs[i].oid in Oids(legs[1..]) && legs[i].oid != legs[0].oid
    ensures forall i, j :: 0 < i < |legs| && 0 < j < |legs| && i != j ==> legs[i].oid != legs[j].oid
  {
    forall i | 0 < i < |legs| ensures legs[i].oid in Oids(legs[1..]) {
      assert legs[1..][i - 1] == legs[i];
    }
  }

  lemma LinkedLegs(b: Book, placed: Book, c: Book, legs: seq<Leg>)
    requires FreshLegs(b, legs) && |legs| > 1
    requires LinksBook(placed, c, Some(legs[0].oid), Oids(legs[1..]))
    requires legs[0].oid !in placed.parent && forall k :: !IsSibling(placed, legs[0].oid, k)
    ensures IsLinked(c, legs)
  {
    TailOids(b, legs);
    hide FreshLegs, Oids, IsChild, IsSibling;
  }

  lemma NewHasNoLinks(w: World, c: Book, o: int)
    requires Known(w) && o !in w.book.orders
    requires c.parent == w.book.parent && c.bracket == w.book.bracket
    ensures o !in c.parent && forall k :: !IsSibling(c, o, k)
  {
    assert forall k :: IsSibling(c, o, k) <==> IsSibling(w.book, o, k);
    hide IsSibling;
  }

  lemma PlacedIsLinked(w: World, user: int, legs: seq<Leg>)
    requires Inv(w) && FreshLegs(w.book, legs) && |legs| > 1
    ensures IsLinked(PlaceOrders(w.book, user, NormalTpsl, legs), legs)
  {
    var b := w.book;
    var c := PlaceLegs(b, user, legs);
    InvParts(w);
    assert forall l :: l in legs ==> l.oid !in b.openIndex && l.oid !in b.triggerIndex;
    assert legs[0].oid !in b.orders;
    hide Inv, Known, Layered, Cliques, OneFill, Attached, Indexed, PlaceLegs, FreshLegs, LinksBook, IsLinked;
    PlaceGrows(b, user, legs);
    assert c.parent == b.parent && c.bracket == b.bracket;
    hide Grows;
    NewHasNoLinks(w, c, legs[0].oid);
    LinkLegsBook(c, NormalTpsl, legs);
    LinkedLegs(b, c, LinkLegs(c, NormalTpsl, legs), legs);
  }

  /** Right after a normalTpsl batch of two exits or more, its exits are mutual siblings if and only if its entry
      reached the book; otherwise the first exit is made the parent of the others. */
  lemma BatchLinks(w: World, user: int, legs: seq<Leg>, headed: bool, listing: Listing)
    requires Inv(w) && FreshLegs(w.book, legs) && |ExitsOf(NormalTpsl, legs, headed)| > 1
    ensures
      var b := Step(w, Place(user, NormalTpsl, legs, headed), listing).book;
      var exits := ExitsOf(NormalTpsl, legs, headed);
      && (headed <==> AreSiblings(b, exits))
      && (!headed ==> forall j :: 0 < j < |exits| ==> IsChild(b, exits[0].oid, exits[j].oid))
  {
    PlacedIsLinked(w, user, legs);
    LinkedExits(PlaceOrders(w.book, user, NormalTpsl, legs), legs);
    hide Inv, FreshLegs, PlaceOrders, IsSibling, IsChild, AreSiblings;
  }

  ghost predicate AreSiblings(b: Book, exits: seq<Leg>) {
    forall i, j :: 0 <= i < |exits| && 0 <= j < |exits| && i != j ==> IsSibling(b, exits[i].oid, exits[j].oid)
  }

  lemma LinkedExits(b: Book, legs: seq<Leg>)
    requires |legs| > 1 && IsLinked(b, legs)
    ensures AreSiblings(b, legs[1..]) && !AreSiblings(b, legs)
  {
    hide IsSibling, IsChild;
    assert !IsSibling(b, legs[0].oid, legs[1].oid);
  }

  /** The first exits of batches whose entry did not reach the book, and the resting replacements of those, each with
      its batch. */
  function Heads(turns: seq<Turn>): map<int, int> {
    if |turns| == 0 then map[]
    else
      var front := turns[..|turns| - 1];
      var w, heads := After(front), Heads(front);
      match turns[|turns| - 1].event
      case Place(_, grouping, legs, headed) =>
        if grouping == NormalTpsl && !headed && |legs| > 1 then heads[legs[0].oid := legs[0].oid] else heads
      case Modify(user, oid, r) =>
        if r.Rests? && oid in heads && IsOpen(w.book, oid) && w.book.orders[oid].user == user
        then heads[r.oid := heads[oid]] else heads
      case _ => heads
  }

  /** The batch an exit was sent in, itself or through the orders it replaces. */
  function BatchOf(turns: seq<Turn>, o: int): Option<int> {
    if o in Heads(turns) then Some(Heads(turns)[o])
    else if o in After(turns).group then Some(After(turns).group[o])
    else None
  }

  /** Of the exits sent in one batch, including their resting replacements, at most one fills, in every run, unless
      one of the two is the first exit of a batch whose entry did not reach the book. */
  lemma {:induction false} AtMostOneOfBatchFills(turns: seq<Turn>, x: int, y: int)
    requires IsRun(turns) && BatchOf(turns, x).Some? && BatchOf(turns, x) == BatchOf(turns, y)
    requires HasStatus(After(turns).book, x, Filled) && HasStatus(After(turns).book, y, Filled)
    ensures x == y || x in Heads(turns) || y in Heads(turns)
  {
    if x !in Heads(turns) && y !in Heads(turns) {
      assert SameGroup(After(turns), x, y);
      hide After, Heads;
      AtMostOneFills(turns, x, y);
    }
    hide After, Heads;
  }

  /** A watched open order that is no dormant trigger may fill. */
  lemma WatchedMayFill(w: World, o: int)
    requires Indexed(w) && IsOpen(w.book, o) && IsWatched(w.book, o)
    ensures MayFill(w.book, o) <==> w.book.orders[o].kind == Limit || !IsDormant(w.book, o)
  {
  }

  /** A resting order with one that it is the parent of. */
  predicate IsPair(b: Book, head: int, exit: int) {
    && head != exit && IsOpen(b, head) && IsWatched(b, head) && head !in b.parent
    && IsOpen(b, exit) && IsWatched(b, exit) && IsChild(b, head, exit)
    && exit in b.parent && b.parent[exit] == head
  }

  /** The parent may fill at once; that leaves the child alone, no longer dormant, and it may fill too. */
  lemma HeadFillFrees(w: World, head: int, exit: int)
    requires Inv(w) && IsPair(w.book, head, exit)
    ensures MayFill(w.book, head)
    ensures w.book.orders[exit].kind == Trigger ==> !MayFill(w.book, exit)
    ensures var b := FillOrder(w.book, head);
      && HasStatus(b, head, Filled)
      && MayFill(b, exit)
      && HasStatus(FillOrder(b, exit), head, Filled) && HasStatus(FillOrder(b, exit), exit, Filled)
  {
    InvParts(w);
    hide Inv, Known, Layered, Cliques, OneFill, Attached;
    WatchedMayFill(w, head);
    WatchedMayFill(w, exit);
    FillStatus(w.book, head);
    FillLinks(w.book, head);
    var b := FillOrder(w.book, head);
    assert Members(w.book.children, head) != {};
    FillStatus(b, exit);
    hide FillOrder;
  }

  lemma FillTurn(w: World, o: int, listing: Listing)
    ensures Step(w, Fill(o), listing).book == FillOrder(w.book, o)
    ensures IsEnabled(w, Fill(o)) == MayFill(w.book, o)
  {
    hide FillOrder, MayFill;
  }

  /** Two orders filled one after the other. */
  function Fills(turns: seq<Turn>, first: int, second: int, listing: Listing): seq<Turn> {
    turns + [Turn(Fill(first), listing)] + [Turn(Fill(second), listing)]
  }

  lemma {:induction false} PairFills(turns: seq<Turn>, head: int, exit: int, listing: Listing)
    requires IsRun(turns) && IsListing(listing) && IsPair(After(turns).book, head, exit)
    ensures IsRun(Fills(turns, head, exit, listing))
    ensures After(turns).book.orders[exit].kind == Trigger ==> !IsEnabled(After(turns), Fill(exit))
    ensures var b := After(Fills(turns, head, exit, listing)).book;
      HasStatus(b, head, Filled) && HasStatus(b, exit, Filled)
  {
    RunKeeps(turns);
    var w := After(turns);
    HeadFillFrees(w, head, exit);
    hide Inv, After, IsRun, IsListing, IsPair, MayFill, FillOrder, Step, IsEnabled, HasStatus;
    FillTurn(w, head, listing);
    FillTurn(w, exit, listing);
    RunOn(turns, Fill(head), listing);
    var one := turns + [Turn(Fill(head), listing)];
    FillTurn(After(one), exit, listing);
    RunOn(one, Fill(exit), listing);
  }

  /** Two exits of a batch without its entry, as placed. */
  lemma HeadlessPair(w: World, user: int, legs: seq<Leg>, i: nat, listing: Listing)
    requires Inv(w) && FreshLegs(w.book, legs) && 0 < i < |legs|
    requires legs[0].arrival == Resting && legs[i].arrival == Resting
    ensures var b := Step(w, Place(user, NormalTpsl, legs, false), listing).book;
      IsPair(b, legs[0].oid, legs[i].oid) && b.orders[legs[i].oid].kind == legs[i].kind
  {
    PlacedIsLinked(w, user, legs);
    PlacedLeg(w.book, user, legs, 0);
    PlacedLeg(w.book, user, legs, i);
    hide Inv, PlaceLegs, IsChild, IsSibling, LinkClique;
  }

  lemma {:induction false} PlacedLeg(b: Book, user: int, legs: seq<Leg>, i: nat)
    requires FreshLegs(b, legs) && i < |legs| && legs[i].arrival == Resting
    ensures var c := PlaceLegs(b, user, legs); var o := legs[i].oid;
      IsOpen(c, o) && IsWatched(c, o) && c.orders[o].kind == legs[i].kind
    decreases |legs|
  {
    var n := |legs| - 1;
    if i < n {
      assert legs[..n][i] == legs[i];
      PlacedLeg(b, user, legs[..n], i);
    }
  }

  /** So without the entry two exits of one batch do both fill: from any book, once the batch is placed, the first
      exit fills, the other, dormant till then, is set free, and fills too. */
  lemma {:induction false} HeadlessExitsBothFill(turns: seq<Turn>, user: int, legs: seq<Leg>, i: nat, listing: Listing)
    requires IsRun(turns) && IsListing(listing) && FreshLegs(After(turns).book, legs) && 0 < i < |legs|
    requires legs[0].arrival == Resting && legs[i].arrival == Resting
    ensures
      var placed := turns + [Turn(Place(user, NormalTpsl, legs, false), listing)];
      var both := Fills(placed, legs[0].oid, legs[i].oid, listing);
      && IsRun(both)
      && (legs[i].kind == Trigger ==> !IsEnabled(After(placed), Fill(legs[i].oid)))
      && HasStatus(After(both).book, legs[0].oid, Filled) && HasStatus(After(both).book, legs[i].oid, Filled)
  {
    var e := Place(user, NormalTpsl, legs, false);
    var w := After(turns);
    assert IsEnabled(w, e);
    RunKeeps(turns);
    hide Inv, After, IsRun, IsListing, Step, HasStatus, IsEnabled, IsPair, Fills;
    HeadlessPair(w, user, legs, i, listing);
    hide FreshLegs;
    RunOn(turns, e, listing);
    PairFills(turns + [Turn(e, listing)], legs[0].oid, legs[i].oid, listing);
  }

  /** The least such run: both exits of a batch sent with an entry that was rejected. */
  lemma RejectedEntryUnlinksExits(listing: Listing)
    requires IsListing(listing)
    ensures
      var legs := [Leg(1, Trigger, Resting), Leg(2, Trigger, Resting)];
      var turns := [Turn(Place(7, NormalTpsl, legs, false), listing), Turn(Fill(1), listing), Turn(Fill(2), listing)];
      && IsRun(turns)
      && HasStatus(After(turns).book, 1, Filled) && HasStatus(After(turns).book, 2, Filled)
  {
    var legs := [Leg(1, Trigger, Resting), Leg(2, Trigger, Resting)];
    assert legs[0] == Leg(1, Trigger, Resting) && legs[1] == Leg(2, Trigger, Resting);
    assert IsRun([]) && FreshLegs(After([]).book, legs);
    hide *;
    HeadlessExitsBothFill([], 7, legs, 1, listing);
    FillsOf(Turn(Place(7, NormalTpsl, legs, false), listing), 1, 2, listing);
  }

  lemma FillsOf(turn: Turn, first: int, second: int, listing: Listing)
    ensures Fills([] + [turn], first, second, listing) == [turn, Turn(Fill(first), listing), Turn(Fill(second), listing)]
  {
  }
}
