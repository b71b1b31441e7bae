/** The invariant of bracket orders: what every placement, fill, cancel, expiry and modify keeps of the links and of the
    groups and entries they stand for. */
module BracketSafety {
  import opened Prelude
  import opened Brackets

  /** The book with its history: which linked group an order belongs to, and which entry order it was
      placed to exit. A replacement that rests inherits both from the order it replaces. */
  datatype World = World(book: Book, group: map<int, int>, entry: map<int, int>)

  /** A placed batch is the orders that reached the book, first to last; headed says whether the first order sent, the
      entry of a normalTpsl batch, is among them. */
  datatype Event =
    | Place(user: int, grouping: Grouping, legs: seq<Leg>, headed: bool)
    | Fill(oid: int)
    | Spend(oid: int)
    | Cancel(user: int, oid: int)
    | Expire(oid: int)
    | Modify(user: int, oid: int, replacement: Replacement)

  predicate IsFresh(b: Book, r: Replacement) {
    match r
    case Rejected => true
    case Rests(oid, _) => oid !in b.orders
    case FillsAtOnce(oid, _, _) => oid !in b.orders
  }

  predicate FreshLegs(b: Book, legs: seq<Leg>) {
    && (forall i :: 0 <= i < |legs| ==> legs[i].oid !in b.orders)
    && (forall i, j :: 0 <= i < j < |legs| ==> legs[i].oid != legs[j].oid)
  }

  predicate IsEnabled(w: World, e: Event) {
    match e
    case Place(_, _, legs, _) => FreshLegs(w.book, legs)
    case Fill(oid) => MayFill(w.book, oid)
    case Spend(oid) => MayFill(w.book, oid) && w.book.orders[oid].kind == Trigger
    case Cancel(_, _) => true
    case Expire(oid) => IsOpen(w.book, oid)
    case Modify(_, _, r) => IsFresh(w.book, r)
  }

  /** The legs that become each other's siblings. */
  function Clique(grouping: Grouping, legs: seq<Leg>): seq<Leg> {
    if grouping == Na || |legs| <= 1 then []
    else if grouping == PositionTpsl then legs
    else legs[1..]
  }

  /** The legs that are open once placed. */
  function Standing(legs: seq<Leg>): set<int> {
    set l | l in legs && l.StaysOpen() :: l.oid
  }

  /** A placed batch names its clique after its first order. */
  function LinkHistory(w: World, book: Book, grouping: Grouping, legs: seq<Leg>): World {
    var clique := Clique(grouping, legs);
    World(
      book,
      if |clique| > 0 then w.group + map o | o in Standing(clique) :: legs[0].oid else w.group,
      if grouping == NormalTpsl && |clique| > 0 then w.entry + map o | o in Oids(clique) :: legs[0].oid else w.entry)
  }

  function Step(w: World, e: Event, listing: Listing): World {
    var b := w.book;
    match e
    case Place(user, grouping, legs, _) => LinkHistory(w, PlaceOrders(b, user, grouping, legs), grouping, legs)
    case Fill(oid) => w.(book := FillOrder(b, oid))
    // A trigger that fired with nothing to reduce leaves the matcher's index but stays open.
    case Spend(oid) => w.(book := b.(triggerIndex := b.triggerIndex - {oid}))
    case Cancel(user, oid) => w.(book := CancelOne(b, user, oid, listing))
    // The expiry sweep flips the status and the indexes and leaves every link in place.
    case Expire(oid) => w.(book := WithStatus(b, {oid}, Cancelled))
    case Modify(user, oid, r) =>
      var next := ModifyOrder(b, user, oid, r, listing);
      if r.Rests? && IsOpen(b, oid) && b.orders[oid].user == user then
        World(
          next,
          if oid in w.group then w.group[r.oid := w.group[oid]] else w.group,
          if oid in w.entry then w.entry[r.oid := w.entry[oid]] else w.entry)
      else w.(book := next)
  }

  // ---- The links as relations ----

  predicate IsChild(b: Book, k: int, m: int) { m in Members(b.children, k) }

  predicate IsSibling(b: Book, x: int, y: int) { y in Members(b.bracket, x) }

  predicate SameGroup(w: World, x: int, y: int) {
    x in w.group && y in w.group && w.group[x] == w.group[y]
  }

  predicate HasStatus(b: Book, o: int, status: Status) {
    o in b.orders && b.orders[o].status == status
  }

  // ---- The invariant ----

  /** Links, groups and entries only name orders that exist. */
  ghost predicate Known(w: World) {
    var b := w.book;
    && (forall k, m :: IsChild(b, k, m) ==> k in b.orders && m in b.orders)
    && (forall x, y :: IsSibling(b, x, y) ==> x in b.orders && y in b.orders && x != y)
    && (forall c :: c in b.parent ==> c in b.orders && b.parent[c] in b.orders)
    && (forall o :: o in w.group ==> o in b.orders && w.group[o] in b.orders)
    && (forall c :: c in w.entry ==> c in b.orders && w.entry[c] in b.orders)
  }

  /** Parents and children are two disjoint layers of one user's orders. */
  ghost predicate Layered(w: World) {
    var b := w.book;
    && (forall k, m :: IsChild(b, k, m) ==>
          k !in w.group && k !in w.entry && k in b.orders && m in b.orders && b.orders[k].user == b.orders[m].user)
    && (forall k, m, n :: IsChild(b, k, m) && IsChild(b, m, n) ==> false)
    && (forall k, m, n :: IsChild(b, k, m) && IsSibling(b, k, n) ==> false)
    && (forall k, m, n :: IsChild(b, k, m) && IsSibling(b, n, k) ==> false)
    && (forall c :: IsOpen(b, c) && c in b.parent ==> IsChild(b, b.parent[c], c))
    && (forall k, c :: IsOpen(b, c) && IsChild(b, k, c) ==> c in b.parent && b.parent[c] == k)
  }

  /** Among open orders, being siblings is exactly being in the same group: the sibling sets are
      symmetric and form disjoint cliques. */
  ghost predicate Cliques(w: World) {
    forall x, y :: IsOpen(w.book, x) && IsOpen(w.book, y) && x != y ==>
      (IsSibling(w.book, x, y) <==> SameGroup(w, x, y))
  }

  /** Once a member of a group has filled, every other member is cancelled. */
  ghost predicate OneFill(w: World) {
    forall x, y :: SameGroup(w, x, y) && x != y && HasStatus(w.book, x, Filled) ==> HasStatus(w.book, y, Cancelled)
  }

  /** An open exit whose entry is open still points to it, and open orders point to nothing else. */
  ghost predicate Attached(w: World) {
    && (forall c :: c in w.entry && IsOpen(w.book, c) && IsOpen(w.book, w.entry[c]) ==>
          c in w.book.parent && w.book.parent[c] == w.entry[c])
    && (forall c :: IsOpen(w.book, c) && c in w.book.parent ==> c in w.entry && w.entry[c] == w.book.parent[c])
  }

  ghost predicate Indexed(w: World) {
    var b := w.book;
    && (forall o :: o in b.openIndex ==> IsOpen(b, o) && b.orders[o].kind == Limit)
    && (forall o :: o in b.triggerIndex ==> IsOpen(b, o) && b.orders[o].kind == Trigger)
  }

  ghost predicate Inv(w: World) {
    Known(w) && Layered(w) && Cliques(w) && OneFill(w) && Attached(w) && Indexed(w)
  }

  lemma InvParts(w: World)
    requires Inv(w)
    ensures Known(w) && Layered(w) && Cliques(w) && OneFill(w) && Attached(w) && Indexed(w)
  {
  }

  // ---- Steps that only close orders and drop links ----

  /** Orders only close, and the orders of a group close together with the one that fills. */
  ghost predicate ShrinksOrders(w: World, v: World) {
    var b, c := w.book, v.book;
    && c.orders.Keys == b.orders.Keys
    && (forall o :: o in b.orders ==> c.orders[o].user == b.orders[o].user && c.orders[o].kind == b.orders[o].kind)
    && (forall o :: o in b.orders ==> c.orders[o].status == b.orders[o].status || b.orders[o].status == Open)
    && (forall x, y :: SameGroup(w, x, y) && x != y && IsOpen(b, x) && HasStatus(c, x, Filled) ==>
          !IsOpen(c, y) && !(IsOpen(b, y) && HasStatus(c, y, Filled)))
    && (forall o :: o in c.openIndex ==> o in b.openIndex && IsOpen(c, o))
    && (forall o :: o in c.triggerIndex ==> o in b.triggerIndex && IsOpen(c, o))
  }

  /** Links only go, and never one that open orders still need. */
  ghost predicate ShrinksLinks(w: World, v: World) {
    var b, c := w.book, v.book;
    && (forall k, m :: IsChild(c, k, m) ==> IsChild(b, k, m))
    && (forall x, y :: IsSibling(c, x, y) ==> IsSibling(b, x, y))
    && (forall x, y :: IsSibling(b, x, y) && IsOpen(c, x) && IsOpen(c, y) ==> IsSibling(c, x, y))
    && (forall o :: o in c.parent ==> o in b.parent && c.parent[o] == b.parent[o])
    && (forall o :: IsOpen(c, o) && o in c.parent ==> IsChild(c, c.parent[o], o))
    && (forall k, o :: IsOpen(c, o) && IsChild(c, k, o) ==> o in c.parent)
    && (forall o :: IsOpen(c, o) && o in b.parent && IsOpen(c, b.parent[o]) ==> o in c.parent)
  }

  ghost predicate Shrinks(w: World, v: World) {
    v.group == w.group && v.entry == w.entry && ShrinksOrders(w, v) && ShrinksLinks(w, v)
  }

  lemma ShrinkKnown(w: World, v: World)
    requires Shrinks(w, v) && Known(w)
    ensures Known(v)
  {
    hide IsChild, IsSibling;
  }

  lemma ShrinkLayered(w: World, v: World)
    requires Shrinks(w, v) && Known(w) && Layered(w)
    ensures Layered(v)
  {
    hide IsChild, IsSibling;
  }

  lemma ShrinkCliques(w: World, v: World)
    requires Shrinks(w, v) && Cliques(w)
    ensures Cliques(v)
  {
    hide IsChild, IsSibling;
  }

  lemma ShrinkOneFill(w: World, v: World)
    requires Shrinks(w, v) && Known(w) && OneFill(w)
    ensures OneFill(v)
  {
    hide IsChild, IsSibling;
    forall x, y | SameGroup(v, x, y) && x != y && HasStatus(v.book, x, Filled)
      ensures HasStatus(v.book, y, Cancelled)
    {
      GroupMembersExist(w, x, y);
      assert SameGroup(w, x, y) && SameGroup(w, y, x);
      assert HasStatus(w.book, x, Filled) || IsOpen(w.book, x);
      assert HasStatus(w.book, x, Filled) ==> HasStatus(w.book, y, Cancelled);
      assert HasStatus(w.book, y, Filled) ==> HasStatus(w.book, x, Cancelled);
    }
  }

  lemma ShrinkAttached(w: World, v: World)
    requires Shrinks(w, v) && Attached(w)
    ensures Attached(v)
  {
    hide IsChild, IsSibling;
  }

  lemma ShrinkIndexed(w: World, v: World)
    requires Shrinks(w, v) && Indexed(w)
    ensures Indexed(v)
  {
    hide ShrinksLinks;
  }

  /** A shrinking step keeps the invariant. */
  lemma {:induction false} ShrinkKeeps(w: World, v: World)
    requires Inv(w) && Shrinks(w, v)
    ensures Inv(v)
  {
    InvParts(w);
    hide *;
    ShrinkKnown(w, v);
    ShrinkLayered(w, v);
    ShrinkCliques(w, v);
    ShrinkOneFill(w, v);
    ShrinkAttached(w, v);
    ShrinkIndexed(w, v);
    InvFromParts(v);
  }

  lemma GroupMembersExist(w: World, x: int, y: int)
    requires Known(w) && SameGroup(w, x, y)
    ensures x in w.book.orders && y in w.book.orders
  {
  }

  // ---- Fills, spent triggers and expiry ----

  lemma WithStatusEffect(b: Book, who: set<int>, status: Status)
    ensures var c := WithStatus(b, who, status);
      && c.orders.Keys == b.orders.Keys
      && (forall o :: o in b.orders ==>
            c.orders[o] == if o in who then b.orders[o].(status := status) else b.orders[o])
      && c.parent == b.parent && c.children == b.children && c.bracket == b.bracket
      && (forall k, m :: IsChild(c, k, m) <==> IsChild(b, k, m))
      && (forall x, y :: IsSibling(c, x, y) <==> IsSibling(b, x, y))
      && c.openIndex == b.openIndex - who && c.triggerIndex == b.triggerIndex - who
  {
  }

  /** The orders a fill takes out of the book: itself, and a child's open siblings. */
  ghost predicate Gone(b: Book, oid: int, o: int) {
    o == oid || (Members(b.children, oid) == {} && IsSibling(b, oid, o) && IsOpen(b, o))
  }

  ghost function FilledRec(b: Book, oid: int, o: int): OrderRec
    requires o in b.orders
  {
    if o == oid then b.orders[o].(status := Filled)
    else if Gone(b, oid, o) then b.orders[o].(status := Cancelled)
    else b.orders[o]
  }

  lemma FillStatus(b: Book, oid: int)
    requires IsOpen(b, oid)
    ensures var c := FillOrder(b, oid);
      && c.orders.Keys == b.orders.Keys
      && (forall o :: o in b.orders ==> c.orders[o] == FilledRec(b, oid, o))
      && (forall o :: o in c.openIndex <==> o in b.openIndex && !Gone(b, oid, o))
      && (forall o :: o in c.triggerIndex <==> o in b.triggerIndex && !Gone(b, oid, o))
  {
  }

  lemma FillLinks(b: Book, oid: int)
    requires IsOpen(b, oid)
    ensures var c := FillOrder(b, oid); var isParent := Members(b.children, oid) != {};
      && (forall k, m :: IsChild(c, k, m) ==> IsChild(b, k, m) && (isParent ==> k != oid))
      && (forall k, m :: IsChild(b, k, m) && !Gone(b, oid, m) && (isParent ==> k != oid) ==> IsChild(c, k, m))
      && (forall x, y :: IsSibling(c, x, y) <==> IsSibling(b, x, y) && (isParent || !Gone(b, oid, x)))
      && (forall o :: o in c.parent <==>
            o in b.parent && (if isParent then !IsChild(b, oid, o) else !Gone(b, oid, o)))
      && (forall o :: o in c.parent ==> c.parent[o] == b.parent[o])
  {
    hide WithStatus;
    var f := WithStatus(b, {oid}, Filled);
    WithStatusEffect(b, {oid}, Filled);
    var hit := set s | s in Members(f.bracket, oid) && IsOpen(f, s);
    WithStatusEffect(f, hit, Cancelled);
    assert forall o :: o in {oid} + hit ==> Gone(b, oid, o) || Members(b.children, oid) != {};
  }

  lemma ParentIsUngrouped(w: World, oid: int)
    requires Layered(w) && Members(w.book.children, oid) != {}
    ensures oid !in w.group
  {
    assert IsChild(w.book, oid, AnyOf(Members(w.book.children, oid)));
  }

  lemma FillShrinksOrders(w: World, oid: int)
    requires Layered(w) && Cliques(w) && Indexed(w) && IsOpen(w.book, oid)
    ensures ShrinksOrders(w, w.(book := FillOrder(w.book, oid)))
  {
    hide FillOrder;
    var b := w.book;
    var c := FillOrder(b, oid);
    FillStatus(b, oid);
    if Members(b.children, oid) != {} {
      ParentIsUngrouped(w, oid);
    }
    hide IsSibling, Members, Layered;
    forall x, y | SameGroup(w, x, y) && x != y && IsOpen(b, x) && HasStatus(c, x, Filled)
      ensures !IsOpen(c, y) && !(IsOpen(b, y) && HasStatus(c, y, Filled))
    {
      assert x == oid;
      assert IsOpen(b, y) ==> IsSibling(b, x, y);
    }
  }

  /** The effect of a fill on the links, in one predicate. */
  ghost predicate FillsLinks(b: Book, c: Book, oid: int, isParent: bool) {
    && (forall o :: IsOpen(c, o) ==> IsOpen(b, o) && o != oid && !Gone(b, oid, o))
    && (forall k, m :: IsChild(c, k, m) ==> IsChild(b, k, m) && (isParent ==> k != oid))
    && (forall k, m :: IsChild(b, k, m) && !Gone(b, oid, m) && (isParent ==> k != oid) ==> IsChild(c, k, m))
    && (forall x, y :: IsSibling(c, x, y) <==> IsSibling(b, x, y) && (isParent || !Gone(b, oid, x)))
    && (forall o :: o in c.parent <==>
          o in b.parent && (if isParent then !IsChild(b, oid, o) else !Gone(b, oid, o)))
    && (forall o :: o in c.parent ==> c.parent[o] == b.parent[o])
  }

  lemma FillLinksHold(b: Book, oid: int)
    requires IsOpen(b, oid)
    ensures FillsLinks(b, FillOrder(b, oid), oid, Members(b.children, oid) != {})
  {
    hide FillOrder;
    FillStatus(b, oid);
    FillLinks(b, oid);
    hide IsChild, IsSibling, Members;
  }

  lemma FillLinksShrink(w: World, c: Book, oid: int, isParent: bool)
    requires Layered(w) && IsOpen(w.book, oid) && FillsLinks(w.book, c, oid, isParent)
    ensures ShrinksLinks(w, w.(book := c))
  {
    hide IsChild, IsSibling, Gone;
    var b := w.book;
    assert forall o :: IsOpen(b, o) && IsChild(b, oid, o) ==> o in b.parent && b.parent[o] == oid;
    assert forall k, o :: IsOpen(c, o) && IsChild(c, k, o) ==> o in b.parent && b.parent[o] == k;
    assert forall o :: IsOpen(c, o) && o in c.parent ==> IsChild(b, b.parent[o], o);
  }

  lemma FillShrinksLinks(w: World, oid: int)
    requires Layered(w) && IsOpen(w.book, oid)
    ensures ShrinksLinks(w, w.(book := FillOrder(w.book, oid)))
  {
    FillLinksHold(w.book, oid);
    hide *;
    FillLinksShrink(w, FillOrder(w.book, oid), oid, Members(w.book.children, oid) != {});
  }

  lemma {:induction false} FillKeeps(w: World, oid: int, listing: Listing)
    requires Inv(w) && IsOpen(w.book, oid)
    ensures Inv(Step(w, Fill(oid), listing))
  {
    FillShrinksOrders(w, oid);
    FillShrinksLinks(w, oid);
    hide Inv, ShrinksOrders, ShrinksLinks, FillOrder;
    ShrinkKeeps(w, w.(book := FillOrder(w.book, oid)));
  }

  lemma ExpireShrinks(w: World, oid: int)
    requires Inv(w) && IsOpen(w.book, oid)
    ensures Shrinks(w, w.(book := WithStatus(w.book, {oid}, Cancelled)))
  {
    hide Inv, Known, OneFill, Attached, Cliques, WithStatus, IsChild, IsSibling;
    InvParts(w);
    WithStatusEffect(w.book, {oid}, Cancelled);
    var v := w.(book := WithStatus(w.book, {oid}, Cancelled));
    assert ShrinksLinks(w, v) by { hide Indexed, SameGroup; }
    assert ShrinksOrders(w, v) by { hide Layered, ShrinksLinks; }
    hide ShrinksLinks, ShrinksOrders;
  }

  lemma {:induction false} ExpireKeeps(w: World, oid: int, listing: Listing)
    requires Inv(w) && IsOpen(w.book, oid)
    ensures Inv(Step(w, Expire(oid), listing))
  {
    ExpireShrinks(w, oid);
    hide Inv, Shrinks, WithStatus;
    ShrinkKeeps(w, w.(book := WithStatus(w.book, {oid}, Cancelled)));
  }

  lemma {:induction false} SpendKeeps(w: World, oid: int, listing: Listing)
    requires Inv(w)
    ensures Inv(Step(w, Spend(oid), listing))
  {
    hide Inv, Known, OneFill, Attached, Cliques;
    InvParts(w);
    var b := w.book;
    var c := b.(triggerIndex := b.triggerIndex - {oid});
    assert forall k, m :: IsChild(c, k, m) <==> IsChild(b, k, m);
    assert forall x, y :: IsSibling(c, x, y) <==> IsSibling(b, x, y);
    hide IsChild, IsSibling;
    assert Shrinks(w, w.(book := c));
    hide Shrinks;
    ShrinkKeeps(w, w.(book := c));
  }

  // ---- Cancels ----

  predicate Falls(b: Book, user: int, who: set<int>, o: int) {
    o in who && IsOpen(b, o) && b.orders[o].user == user
  }

  ghost function FelledRec(b: Book, user: int, who: set<int>, o: int): OrderRec
    requires o in b.orders
  {
    if Falls(b, user, who, o) then b.orders[o].(status := Cancelled) else b.orders[o]
  }

  /** The orders of who that are open and the user's are cancelled, and only their own links may go. */
  ghost predicate Felled(b: Book, r: Book, user: int, who: set<int>) {
    && r.orders.Keys == b.orders.Keys
    && (forall o :: o in b.orders ==> r.orders[o] == FelledRec(b, user, who, o))
    && (forall o :: o in r.openIndex <==> o in b.openIndex && !Falls(b, user, who, o))
    && (forall o :: o in r.triggerIndex <==> o in b.triggerIndex && !Falls(b, user, who, o))
    && r.children == b.children
    && (forall x, y :: IsSibling(r, x, y) ==> IsSibling(b, x, y))
    && (forall x, y :: IsSibling(b, x, y) && x !in who ==> IsSibling(r, x, y))
    && (forall o :: o in r.parent ==> o in b.parent && r.parent[o] == b.parent[o])
    && (forall o :: o in b.parent && o !in who ==> o in r.parent)
  }

  lemma CancelLeaf(b: Book, user: int, oid: int, listing: Listing)
    requires Members(b.children, oid) == {}
    ensures Felled(b, CancelOne(b, user, oid, listing), user, {oid})
  {
  }

  lemma FelledChains(b: Book, c: Book, r: Book, user: int, first: set<int>, rest: set<int>)
    requires Felled(b, c, user, first) && Felled(c, r, user, rest)
    ensures Felled(b, r, user, first + rest)
  {
    hide IsSibling;
    assert forall o :: Falls(c, user, rest, o) <==> Falls(b, user, rest, o) && !Falls(b, user, first, o);
  }

  lemma {:induction false} CancelLeaves(b: Book, user: int, oids: seq<int>, listing: Listing)
    requires forall o :: o in oids ==> Members(b.children, o) == {}
    ensures Felled(b, CancelMany(b, user, oids, listing), user, set o | o in oids)
    decreases |oids|
  {
    if |oids| > 0 {
      CancelLeaf(b, user, oids[0], listing);
      var next := CancelOne(b, user, oids[0], listing);
      assert next.children == b.children;
      hide Felled;
      CancelLeaves(next, user, oids[1..], listing);
      FelledChains(b, next, CancelMany(next, user, oids[1..], listing), user, {oids[0]}, set o | o in oids[1..]);
      assert (set o | o in oids) == {oids[0]} + set o | o in oids[1..];
    }
  }

  lemma {:induction false} OpenOfLists(b: Book, user: int, oids: seq<int>)
    ensures forall o :: o in OpenOf(b, user, oids) <==> o in oids && IsOpen(b, o) && b.orders[o].user == user
    decreases |oids|
  {
    if |oids| > 0 {
      OpenOfLists(b, user, oids[1..]);
    }
  }

  /** c is b without p's child links. */
  ghost predicate IsCut(b: Book, c: Book, p: int) {
    && c.orders == b.orders && c.openIndex == b.openIndex && c.triggerIndex == b.triggerIndex
    && (forall k, m :: IsChild(c, k, m) <==> IsChild(b, k, m) && k != p)
    && (forall x, y :: IsSibling(c, x, y) <==> IsSibling(b, x, y) && !IsChild(b, p, x))
    && (forall o :: o in c.parent <==> o in b.parent && !IsChild(b, p, o))
    && (forall o :: o in c.parent ==> c.parent[o] == b.parent[o])
  }

  lemma CutEffect(b: Book, p: int)
    ensures IsCut(b, Cut(b, p), p)
    ensures forall k :: k != p ==> Members(Cut(b, p).children, k) == Members(b.children, k)
  {
  }

  /** The open children of p are cancelled, p's child links are gone, and no other order loses a link. */
  ghost predicate ChildrenFelled(b: Book, r: Book, user: int, p: int) {
    && r.orders.Keys == b.orders.Keys
    && (forall o :: o in b.orders ==> r.orders[o] == FelledRec(b, user, Members(b.children, p), o))
    && (forall o :: o in r.openIndex <==> o in b.openIndex && !Falls(b, user, Members(b.children, p), o))
    && (forall o :: o in r.triggerIndex <==> o in b.triggerIndex && !Falls(b, user, Members(b.children, p), o))
    && (forall k, m :: IsChild(r, k, m) <==> IsChild(b, k, m) && k != p)
    && (forall x, y :: IsSibling(r, x, y) ==> IsSibling(b, x, y))
    && (forall x, y :: IsSibling(b, x, y) && !IsChild(b, p, x) ==> IsSibling(r, x, y))
    && (forall o :: o in r.parent <==> o in b.parent && !IsChild(b, p, o))
    && (forall o :: o in r.parent ==> r.parent[o] == b.parent[o])
  }

  lemma CutThenFelled(b: Book, c: Book, r: Book, user: int, p: int, who: set<int>)
    requires IsCut(b, c, p) && Felled(c, r, user, who)
    requires forall k, m :: IsChild(r, k, m) <==> IsChild(c, k, m)
    requires forall o :: o in who <==> Falls(b, user, Members(b.children, p), o)
    ensures ChildrenFelled(b, r, user, p)
  {
    assert forall o :: o in who ==> IsChild(b, p, o);
    hide IsChild, IsSibling, Members;
  }

  lemma CancelChildrenEffect(b: Book, user: int, p: int, listing: Listing)
    requires IsListing(listing)
    requires forall m, n :: IsChild(b, p, m) && IsChild(b, m, n) ==> false
    ensures ChildrenFelled(b, CancelChildren(b, user, p, listing), user, p)
  {
    hide Cut, Felled, IsCut, ChildrenFelled;
    var c := Cut(b, p);
    var kids := Members(b.children, p);
    var listed := listing(kids);
    var oids := OpenOf(c, user, listed);
    assert Covers(listed, kids);
    CutEffect(b, p);
    assert c.orders == b.orders by {
      CutKeepsOrders(b, p);
    }
    OpenOfLists(c, user, listed);
    forall o | o in oids ensures Members(c.children, o) == {} {
      assert IsChild(b, p, o);
      ChildlessIsEmpty(b, o);
      assert o == p ==> IsChild(b, o, o);
    }
    CancelLeaves(c, user, oids, listing);
    var r := CancelChildren(b, user, p, listing);
    hide OpenOf, IsListing;
    FelledChildren(c, r, user, set i | i in oids);
    CutThenFelled(b, c, r, user, p, set i | i in oids);
  }

  lemma CutKeepsOrders(b: Book, p: int)
    ensures Cut(b, p).orders == b.orders
  {
  }

  lemma FelledChildren(c: Book, r: Book, user: int, who: set<int>)
    requires Felled(c, r, user, who)
    ensures forall k, m :: IsChild(r, k, m) <==> IsChild(c, k, m)
  {
  }

  lemma ChildlessIsEmpty(b: Book, o: int)
    requires forall n :: !IsChild(b, o, n)
    ensures Members(b.children, o) == {}
  {
    if Members(b.children, o) != {} {
      assert IsChild(b, o, AnyOf(Members(b.children, o)));
    }
  }

  /** Cancelling the user's own childless orders. */
  lemma FelledShrinks(w: World, r: Book, user: int, who: set<int>)
    requires Layered(w) && Indexed(w) && Felled(w.book, r, user, who)
    requires forall k, m :: IsChild(r, k, m) <==> IsChild(w.book, k, m)
    requires forall o :: o in who && IsOpen(w.book, o) ==> w.book.orders[o].user == user
    ensures Shrinks(w, w.(book := r))
  {
    hide IsChild, IsSibling;
    assert forall o :: IsOpen(r, o) ==> o !in who;
  }

  lemma FelledKidsClose(w: World, r: Book, user: int, p: int)
    requires Layered(w) && ChildrenFelled(w.book, r, user, p)
    requires p in w.book.orders && w.book.orders[p].user == user
    ensures forall o :: IsOpen(r, o) ==> IsOpen(w.book, o) && !IsChild(w.book, p, o)
  {
    forall o | IsOpen(r, o) ensures IsOpen(w.book, o) && !IsChild(w.book, p, o) {
      assert r.orders[o] == FelledRec(w.book, user, Members(w.book.children, p), o);
    }
  }

  lemma FelledKidsOrders(w: World, r: Book, user: int, p: int)
    requires Indexed(w) && ChildrenFelled(w.book, r, user, p)
    ensures ShrinksOrders(w, w.(book := r))
  {
    hide IsChild, IsSibling, Members;
  }

  lemma FelledKidsLinks(w: World, r: Book, user: int, p: int)
    requires Layered(w) && ChildrenFelled(w.book, r, user, p) && !IsOpen(w.book, p)
    requires forall o :: IsOpen(r, o) ==> IsOpen(w.book, o) && !IsChild(w.book, p, o)
    ensures ShrinksLinks(w, w.(book := r))
  {
    hide IsChild, IsSibling, Members, Falls;
  }

  /** Cancelling the children of a closed parent. */
  lemma ChildrenFelledShrinks(w: World, r: Book, user: int, p: int)
    requires Layered(w) && Indexed(w) && ChildrenFelled(w.book, r, user, p)
    requires p in w.book.orders && w.book.orders[p].user == user && !IsOpen(w.book, p)
    ensures Shrinks(w, w.(book := r))
  {
    hide Layered, Indexed, ChildrenFelled, ShrinksOrders, ShrinksLinks;
    FelledKidsClose(w, r, user, p);
    FelledKidsOrders(w, r, user, p);
    FelledKidsLinks(w, r, user, p);
  }

  lemma {:induction false} CancelKeeps(w: World, user: int, oid: int, listing: Listing)
    requires Inv(w) && IsListing(listing)
    ensures Inv(Step(w, Cancel(user, oid), listing))
  {
    hide Inv, Shrinks, Felled, ChildrenFelled, Known, Cliques, OneFill, Attached;
    var b := w.book;
    var r := CancelOne(b, user, oid, listing);
    if IsOpen(b, oid) && b.orders[oid].user == user {
      if Members(b.children, oid) == {} {
        CancelLeaf(b, user, oid, listing);
        InvParts(w);
        FelledChildren(b, r, user, {oid});
        FelledShrinks(w, r, user, {oid});
        hide CancelOne;
        ShrinkKeeps(w, w.(book := r));
      } else {
        var b1 := WithStatus(b, {oid}, Cancelled);
        assert r == CancelChildren(b1, user, oid, listing);
        hide CancelOne;
        WithStatusEffect(b, {oid}, Cancelled);
        ExpireKeeps(w, oid, listing);
        var w1 := w.(book := b1);
        InvParts(w1);
        CancelChildrenEffect(b1, user, oid, listing);
        hide WithStatus, CancelChildren;
        ChildrenFelledShrinks(w1, r, user, oid);
        ShrinkKeeps(w1, w1.(book := r));
      }
    } else {
      hide Members;
    }
  }

  // ---- Placement ----

  /** b with fresh orders of one user, still unlinked. */
  ghost predicate Grows(b: Book, c: Book, user: int, added: set<int>) {
    && c.parent == b.parent && c.children == b.children && c.bracket == b.bracket
    && c.orders.Keys == b.orders.Keys + added
    && (forall o :: o in added ==> c.orders[o].user == user && c.orders[o].status != Cancelled)
    && (forall o :: o in b.orders && o !in added ==> c.orders[o] == b.orders[o])
    && (forall o :: o in c.openIndex ==>
          if o in added then IsOpen(c, o) && c.orders[o].kind == Limit else o in b.openIndex)
    && (forall o :: o in c.triggerIndex ==>
          if o in added then IsOpen(c, o) && c.orders[o].kind == Trigger else o in b.triggerIndex)
    && b.openIndex <= c.openIndex && b.triggerIndex <= c.triggerIndex
  }

  lemma PlaceLegGrows(b: Book, p: Book, user: int, added: set<int>, l: Leg)
    requires Grows(b, p, user, added) && l.oid !in b.orders && l.oid !in added
    requires l.oid !in b.openIndex && l.oid !in b.triggerIndex
    ensures Grows(b, PlaceLeg(p, user, l), user, added + {l.oid})
  {
  }

  lemma PlaceLegOpens(p: Book, user: int, l: Leg, o: int)
    ensures IsOpen(PlaceLeg(p, user, l), o) <==> if o == l.oid then l.StaysOpen() else IsOpen(p, o)
  {
  }

  /** The last of a batch of fresh orders. */
  lemma LastLeg(b: Book, legs: seq<Leg>)
    requires FreshLegs(b, legs) && |legs| > 0
    ensures
      var n := |legs| - 1;
      && FreshLegs(b, legs[..n])
      && legs[n].oid !in Oids(legs[..n]) && Oids(legs) == Oids(legs[..n]) + {legs[n].oid}
      && (forall m :: m in legs <==> m in legs[..n] || m == legs[n])
      && (forall m :: m in legs[..n] ==> m.oid in Oids(legs[..n]))
  {
    assert legs == legs[..|legs| - 1] + [legs[|legs| - 1]];
  }

  lemma {:induction false} PlaceGrows(b: Book, user: int, legs: seq<Leg>)
    requires FreshLegs(b, legs)
    requires forall l :: l in legs ==> l.oid !in b.openIndex && l.oid !in b.triggerIndex
    ensures Grows(b, PlaceLegs(b, user, legs), user, Oids(legs))
    ensures forall l :: l in legs ==> (IsOpen(PlaceLegs(b, user, legs), l.oid) <==> l.StaysOpen())
    decreases |legs|
  {
    if |legs| == 0 {
      assert Oids(legs) == {};
    } else {
      var n := |legs| - 1;
      var l := legs[n];
      var p := PlaceLegs(b, user, legs[..n]);
      assert PlaceLegs(b, user, legs) == PlaceLeg(p, user, l);
      assert l.oid !in b.orders;
      LastLeg(b, legs);
      hide Grows, PlaceLegs, PlaceLeg, IsOpen, FreshLegs, Oids;
      PlaceGrows(b, user, legs[..n]);
      PlaceLegGrows(b, p, user, Oids(legs[..n]), l);
      forall m | m in legs ensures IsOpen(PlaceLeg(p, user, l), m.oid) <==> m.StaysOpen() {
        PlaceLegOpens(p, user, l, m.oid);
      }
    }
  }

  /** v is w with more orders and nothing else new. */
  ghost predicate Extends(w: World, v: World) {
    var b, c := w.book, v.book;
    && v.group == w.group && v.entry == w.entry && c.parent == b.parent
    && b.orders.Keys <= c.orders.Keys
    && (forall o :: o in b.orders ==> o in c.orders && c.orders[o] == b.orders[o])
    && (forall k, m :: IsChild(c, k, m) <==> IsChild(b, k, m))
    && (forall x, y :: IsSibling(c, x, y) <==> IsSibling(b, x, y))
  }

  lemma GrowExtends(w: World, c: Book, user: int, added: set<int>)
    requires Grows(w.book, c, user, added)
    requires forall o :: o in added ==> o !in w.book.orders
    ensures Extends(w, w.(book := c))
  {
  }

  lemma ExtendKnown(w: World, v: World)
    requires Extends(w, v) && Known(w)
    ensures Known(v)
  {
    hide IsChild, IsSibling;
  }

  lemma ExtendLayered(w: World, v: World)
    requires Extends(w, v) && Known(w) && Layered(w)
    ensures Layered(v)
  {
    hide IsChild, IsSibling;
  }

  lemma ExtendCliques(w: World, v: World)
    requires Extends(w, v) && Known(w) && Cliques(w)
    ensures Cliques(v)
  {
    hide IsChild, IsSibling;
  }

  lemma ExtendOneFill(w: World, v: World)
    requires Extends(w, v) && Known(w) && OneFill(w)
    ensures OneFill(v)
  {
    hide IsChild, IsSibling;
    forall x, y | SameGroup(v, x, y) && x != y && HasStatus(v.book, x, Filled) ensures HasStatus(v.book, y, Cancelled) {
      GroupMembersExist(w, x, y);
      assert SameGroup(w, x, y);
    }
  }

  lemma ExtendAttached(w: World, v: World)
    requires Extends(w, v) && Known(w) && Attached(w)
    ensures Attached(v)
  {
    hide IsChild, IsSibling;
  }

  lemma GrowIndexed(w: World, c: Book, user: int, added: set<int>)
    requires Grows(w.book, c, user, added) && Indexed(w)
    requires forall o :: o in added ==> o !in w.book.orders
    ensures Indexed(w.(book := c))
  {
  }

  /** Fresh orders without links or groups break nothing. */
  lemma {:induction false} GrowKeeps(w: World, c: Book, user: int, added: set<int>)
    requires Inv(w) && Grows(w.book, c, user, added)
    requires forall o :: o in added ==> o !in w.book.orders
    ensures Inv(w.(book := c))
  {
    InvParts(w);
    hide *;
    var v := w.(book := c);
    GrowExtends(w, c, user, added);
    ExtendKnown(w, v);
    ExtendLayered(w, v);
    ExtendCliques(w, v);
    ExtendOneFill(w, v);
    ExtendAttached(w, v);
    GrowIndexed(w, c, user, added);
    InvFromParts(v);
  }

  lemma InvFromParts(w: World)
    requires Known(w) && Layered(w) && Cliques(w) && OneFill(w) && Attached(w) && Indexed(w)
    ensures Inv(w)
  {
  }

  /** v is w with one fresh clique linked, optionally under one fresh parent. */
  ghost predicate Links(w: World, v: World, parent: Option<int>, clique: set<int>, resting: set<int>, name: int) {
    var b, c := w.book, v.book;
    && c.orders == b.orders && c.openIndex == b.openIndex && c.triggerIndex == b.triggerIndex
    && resting <= clique && (forall o :: o in clique ==> o in b.orders && (IsOpen(b, o) <==> o in resting))
    && (forall k, m :: IsChild(c, k, m) <==> IsChild(b, k, m) || (parent == Some(k) && m in clique))
    && (forall x, y :: IsSibling(c, x, y) <==> IsSibling(b, x, y) || (x in clique && y in clique && x != y))
    && (forall o :: o in c.parent <==> o in b.parent || (parent.Some? && o in clique))
    && (forall o :: o in c.parent ==>
          c.parent[o] == if parent.Some? && o in clique then parent.value else b.parent[o])
    && (forall o :: o in v.group <==> o in w.group || o in resting)
    && (forall o :: o in v.group ==> v.group[o] == if o in resting then name else w.group[o])
    && (forall o :: o in v.entry <==> o in w.entry || (parent.Some? && o in clique))
    && (forall o :: o in v.entry ==> v.entry[o] == if parent.Some? && o in clique then parent.value else w.entry[o])
  }

  /** The order has no links and no history. */
  ghost predicate IsLoose(w: World, o: int) {
    var b := w.book;
    && o in b.orders && o !in w.group && o !in w.entry && o !in b.parent
    && (forall k :: !IsChild(b, k, o) && !IsChild(b, o, k) && !IsSibling(b, k, o) && !IsSibling(b, o, k))
  }

  ghost predicate MayLink(w: World, parent: Option<int>, clique: set<int>, name: int) {
    && (forall o :: o in clique ==> IsLoose(w, o))
    && (parent.Some? ==> IsLoose(w, parent.value) && parent.value !in clique)
    && (parent.Some? ==> forall o :: o in clique ==> w.book.orders[o].user == w.book.orders[parent.value].user)
    && name in w.book.orders && (forall o :: o in w.group ==> w.group[o] != name)
  }

  lemma LinkKnown(w: World, v: World, parent: Option<int>, clique: set<int>, resting: set<int>, name: int)
    requires Links(w, v, parent, clique, resting, name) && MayLink(w, parent, clique, name) && Known(w)
    ensures Known(v)
  {
    hide IsChild, IsSibling;
  }

  lemma LinkLayered(w: World, v: World, parent: Option<int>, clique: set<int>, resting: set<int>, name: int)
    requires Links(w, v, parent, clique, resting, name) && MayLink(w, parent, clique, name) && Layered(w)
    ensures Layered(v)
  {
    hide IsChild, IsSibling;
  }

  lemma LinkCliques(w: World, v: World, parent: Option<int>, clique: set<int>, resting: set<int>, name: int)
    requires Links(w, v, parent, clique, resting, name) && MayLink(w, parent, clique, name) && Cliques(w)
    ensures Cliques(v)
  {
    hide IsChild, IsSibling;
    forall x, y | IsOpen(v.book, x) && IsOpen(v.book, y) && x != y
      ensures IsSibling(v.book, x, y) <==> SameGroup(v, x, y)
    {
      assert IsSibling(w.book, x, y) <==> SameGroup(w, x, y);
    }
  }

  lemma LinkOneFill(w: World, v: World, parent: Option<int>, clique: set<int>, resting: set<int>, name: int)
    requires Links(w, v, parent, clique, resting, name) && MayLink(w, parent, clique, name) && OneFill(w)
    ensures OneFill(v)
  {
    hide IsChild, IsSibling;
    forall x, y | SameGroup(v, x, y) && x != y && HasStatus(v.book, x, Filled) ensures HasStatus(v.book, y, Cancelled) {
      assert x in resting ==> IsOpen(w.book, x);
      assert SameGroup(w, x, y);
    }
  }

  lemma LinkAttached(w: World, v: World, parent: Option<int>, clique: set<int>, resting: set<int>, name: int)
    requires Links(w, v, parent, clique, resting, name) && MayLink(w, parent, clique, name) && Attached(w)
    ensures Attached(v)
  {
    hide IsChild, IsSibling;
  }

  lemma {:induction false} LinkKeeps(w: World, v: World, parent: Option<int>, clique: set<int>, resting: set<int>, name: int)
    requires Links(w, v, parent, clique, resting, name) && MayLink(w, parent, clique, name) && Inv(w)
    ensures Inv(v)
  {
    InvParts(w);
    assert Indexed(v) by { hide IsChild, IsSibling, IsLoose, Known, Layered, Cliques, OneFill, Attached; }
    hide *;
    LinkKnown(w, v, parent, clique, resting, name);
    LinkLayered(w, v, parent, clique, resting, name);
    LinkCliques(w, v, parent, clique, resting, name);
    LinkOneFill(w, v, parent, clique, resting, name);
    LinkAttached(w, v, parent, clique, resting, name);
    InvFromParts(v);
  }

  // ---- A modify whose replacement rests ----

  /** v is w with the closed order `was` replaced in every link, group and entry by the fresh order n. */
  ghost predicate Replaces(w: World, v: World, was: int, n: int) {
    var b, c := w.book, v.book;
    && c.orders == b.orders && c.openIndex == b.openIndex && c.triggerIndex == b.triggerIndex
    && n !in b.parent && n !in w.group && n !in w.entry
    && (forall k, m :: IsChild(c, k, m) <==>
          if was in b.parent && k == b.parent[was] then (IsChild(b, k, m) && m != was) || m == n else IsChild(b, k, m))
    && (forall x, y :: IsSibling(c, x, y) <==>
          if x == n then IsSibling(b, was, y)
          else if IsSibling(b, was, x) then (IsSibling(b, x, y) && y != was) || y == n
          else x != was && IsSibling(b, x, y))
    && (forall o :: o in c.parent <==> (o in b.parent && o != was) || (o == n && was in b.parent))
    && (forall o :: o in c.parent ==> c.parent[o] == if o == n then b.parent[was] else b.parent[o])
    && (forall o :: o in v.group <==> o in w.group || (o == n && was in w.group))
    && (forall o :: o in v.group ==> v.group[o] == if o == n then w.group[was] else w.group[o])
    && (forall o :: o in v.entry <==> o in w.entry || (o == n && was in w.entry))
    && (forall o :: o in v.entry ==> v.entry[o] == if o == n then w.entry[was] else w.entry[o])
  }

  /** was has just closed: its links are still those it had while it was open, and it never filled. */
  ghost predicate JustClosed(w: World, was: int, n: int) {
    var b := w.book;
    && was != n && was in b.orders && !IsOpen(b, was) && b.orders[was].status == Cancelled
    && IsLoose(w, n) && b.orders[n].user == b.orders[was].user && IsOpen(b, n)
    && (forall y :: IsOpen(b, y) && y != n ==> (IsSibling(b, was, y) <==> SameGroup(w, was, y)))
    && (forall y :: SameGroup(w, was, y) && y != was ==> HasStatus(b, y, Open) || HasStatus(b, y, Cancelled))
    && (was in b.parent ==> IsChild(b, b.parent[was], was) && was in w.entry && w.entry[was] == b.parent[was])
    && (was in w.entry && IsOpen(b, w.entry[was]) ==> was in b.parent && b.parent[was] == w.entry[was])
    && (forall m :: !IsChild(b, was, m))
  }

  lemma ReplaceKnown(w: World, v: World, was: int, n: int)
    requires Replaces(w, v, was, n) && JustClosed(w, was, n) && Known(w)
    ensures Known(v)
  {
    hide IsChild, IsSibling;
  }

  lemma ReplaceLayered(w: World, v: World, was: int, n: int)
    requires Replaces(w, v, was, n) && JustClosed(w, was, n) && Known(w) && Layered(w)
    ensures Layered(v)
  {
    hide IsChild, IsSibling;
  }

  lemma ReplaceCliques(w: World, v: World, was: int, n: int)
    requires Replaces(w, v, was, n) && JustClosed(w, was, n) && Cliques(w)
    ensures Cliques(v)
  {
    hide IsChild, IsSibling;
    forall x, y | IsOpen(v.book, x) && IsOpen(v.book, y) && x != y
      ensures IsSibling(v.book, x, y) <==> SameGroup(v, x, y)
    {
      assert IsSibling(w.book, x, y) <==> SameGroup(w, x, y);
      assert SameGroup(w, was, x) <==> SameGroup(w, x, was);
    }
  }

  lemma ReplaceOneFill(w: World, v: World, was: int, n: int)
    requires Replaces(w, v, was, n) && JustClosed(w, was, n) && OneFill(w)
    ensures OneFill(v)
  {
    hide IsChild, IsSibling;
    forall x, y | SameGroup(v, x, y) && x != y && HasStatus(v.book, x, Filled) ensures HasStatus(v.book, y, Cancelled) {
      assert !(SameGroup(w, was, x) && HasStatus(w.book, x, Filled));
      assert y != n ==> x == n || SameGroup(w, x, y);
    }
  }

  lemma ReplaceAttached(w: World, v: World, was: int, n: int)
    requires Replaces(w, v, was, n) && JustClosed(w, was, n) && Attached(w)
    ensures Attached(v)
  {
    hide IsChild, IsSibling;
  }

  lemma {:induction false} ReplaceKeeps(w: World, v: World, was: int, n: int)
    requires Replaces(w, v, was, n) && JustClosed(w, was, n) && Inv(w)
    ensures Inv(v)
  {
    InvParts(w);
    assert Indexed(v) by { hide IsChild, IsSibling, JustClosed, Known, Layered, Cliques, OneFill, Attached; }
    hide *;
    ReplaceKnown(w, v, was, n);
    ReplaceLayered(w, v, was, n);
    ReplaceCliques(w, v, was, n);
    ReplaceOneFill(w, v, was, n);
    ReplaceAttached(w, v, was, n);
    InvFromParts(v);
  }

  // ---- Placement and modify steps ----

  lemma NewIsLoose(w: World, c: Book, o: int)
    requires Known(w) && o !in w.book.orders && o in c.orders
    requires c.parent == w.book.parent && c.children == w.book.children && c.bracket == w.book.bracket
    ensures IsLoose(w.(book := c), o)
  {
    assert forall k, m :: IsChild(c, k, m) <==> IsChild(w.book, k, m);
    assert forall x, y :: IsSibling(c, x, y) <==> IsSibling(w.book, x, y);
    hide IsChild, IsSibling;
  }

  /** What linking a batch does to the book, as relations. */
  ghost predicate LinksBook(b: Book, c: Book, parent: Option<int>, kids: set<int>) {
    && c.orders == b.orders && c.openIndex == b.openIndex && c.triggerIndex == b.triggerIndex
    && (forall k, m :: IsChild(c, k, m) <==> IsChild(b, k, m) || (parent == Some(k) && m in kids))
    && (forall x, y :: IsSibling(c, x, y) <==> IsSibling(b, x, y) || (x in kids && y in kids && x != y))
    && (forall o :: o in c.parent <==> o in b.parent || (parent.Some? && o in kids))
    && (forall o :: o in c.parent ==> c.parent[o] == if parent.Some? && o in kids then parent.value else b.parent[o])
  }

  function ParentOid(grouping: Grouping, legs: seq<Leg>): Option<int>
    requires |legs| > 0
  {
    if grouping == NormalTpsl then Some(legs[0].oid) else None
  }

  lemma LinkLegsBook(b: Book, grouping: Grouping, legs: seq<Leg>)
    requires grouping != Na && |legs| > 1
    ensures LinksBook(b, LinkLegs(b, grouping, legs), ParentOid(grouping, legs), Oids(Clique(grouping, legs)))
  {
    hide Oids;
    var c, kids := LinkLegs(b, grouping, legs), Oids(Clique(grouping, legs));
    assert forall x, y :: IsSibling(c, x, y) <==> IsSibling(b, x, y) || (x in kids && y in kids && x != y);
    assert forall k, m :: IsChild(c, k, m) <==> IsChild(b, k, m) || (ParentOid(grouping, legs) == Some(k) && m in kids);
    hide IsChild, IsSibling;
  }

  lemma CliqueFacts(b: Book, c: Book, grouping: Grouping, legs: seq<Leg>)
    requires FreshLegs(b, legs)
    requires forall l :: l in legs ==> l.oid in c.orders && (IsOpen(c, l.oid) <==> l.StaysOpen())
    ensures var clique := Clique(grouping, legs);
      && Standing(clique) <= Oids(clique) <= Oids(legs)
      && (forall o :: o in Oids(clique) ==> o in c.orders && (IsOpen(c, o) <==> o in Standing(clique)))
      && (|legs| > 0 ==> legs[0].oid in Oids(legs))
      && (|legs| > 0 && grouping == NormalTpsl ==> legs[0].oid !in Oids(clique))
  {
    var clique := Clique(grouping, legs);
    assert forall m :: m in clique ==> m in legs;
    forall o | o in Oids(clique) ensures o in c.orders && (IsOpen(c, o) <==> o in Standing(clique)) {
      var l :| l in clique && l.oid == o;
      LegsAreDistinct(b, legs, clique, l);
    }
  }

  lemma LinkLegsLinks(w: World, c: Book, grouping: Grouping, legs: seq<Leg>, parent: Option<int>)
    requires grouping != Na && |legs| > 1 && parent == ParentOid(grouping, legs)
    requires LinksBook(w.book, c, parent, Oids(Clique(grouping, legs)))
    requires var clique := Clique(grouping, legs);
      && Standing(clique) <= Oids(clique)
      && (forall o :: o in Oids(clique) ==> o in w.book.orders && (IsOpen(w.book, o) <==> o in Standing(clique)))
    ensures Links(w, LinkHistory(w, c, grouping, legs), parent,
                  Oids(Clique(grouping, legs)), Standing(Clique(grouping, legs)), legs[0].oid)
  {
    var clique := Clique(grouping, legs);
    var v := LinkHistory(w, c, grouping, legs);
    assert |clique| > 0;
    Overlay(w.group, Standing(clique), legs[0].oid);
    Overlay(w.entry, Oids(clique), legs[0].oid);
    hide IsChild, IsSibling, Oids, Standing, Clique, IsOpen, LinksBook, Links;
    LinksOf(w, v, parent, Oids(clique), Standing(clique), legs[0].oid);
  }

  lemma LinksOf(w: World, v: World, parent: Option<int>, clique: set<int>, standing: set<int>, name: int)
    requires LinksBook(w.book, v.book, parent, clique) && standing <= clique
    requires forall o :: o in clique ==> o in w.book.orders && (IsOpen(w.book, o) <==> o in standing)
    requires Overlays(w.group, v.group, standing, name)
    requires if parent.Some? then Overlays(w.entry, v.entry, clique, parent.value) else v.entry == w.entry
    ensures Links(w, v, parent, clique, standing, name)
  {
    hide IsChild, IsSibling, IsOpen;
  }

  /** n is m with every member of s mapped to name. */
  ghost predicate Overlays(m: map<int, int>, n: map<int, int>, s: set<int>, name: int) {
    && (forall o :: o in n <==> o in m || o in s)
    && (forall o :: o in n ==> n[o] == if o in s then name else m[o])
  }

  lemma Overlay(m: map<int, int>, s: set<int>, name: int)
    ensures Overlays(m, m + map o | o in s :: name, s, name)
  {
  }

  lemma LegsAreDistinct(b: Book, legs: seq<Leg>, clique: seq<Leg>, l: Leg)
    requires FreshLegs(b, legs) && l in clique && (forall m :: m in clique ==> m in legs)
    ensures l.oid in Standing(clique) <==> l.StaysOpen()
  {
    if m :| m in clique && m.StaysOpen() && m.oid == l.oid {
      var i :| 0 <= i < |legs| && legs[i] == m;
      var j :| 0 <= j < |legs| && legs[j] == l;
      assert i == j;
    }
  }

  lemma {:induction false} PlaceKeeps(w: World, user: int, grouping: Grouping, legs: seq<Leg>, headed: bool, listing: Listing)
    requires Inv(w) && FreshLegs(w.book, legs)
    ensures Inv(Step(w, Place(user, grouping, legs, headed), listing))
  {
    var b := w.book;
    var c := PlaceLegs(b, user, legs);
    var w1 := w.(book := c);
    assert forall l :: l in legs ==> l.oid !in b.openIndex && l.oid !in b.triggerIndex;
    assert Step(w, Place(user, grouping, legs, headed), listing) == LinkHistory(w, LinkLegs(c, grouping, legs), grouping, legs);
    InvParts(w);
    hide Inv, Step, Layered, Cliques, OneFill, Attached, Indexed, Grows, Links, PlaceLegs;
    PlaceGrows(b, user, legs);
    GrowFacts(b, c, user, Oids(legs));
    GrowKeeps(w, c, user, Oids(legs));
    if grouping == Na || |legs| <= 1 {
      assert LinkHistory(w, LinkLegs(c, grouping, legs), grouping, legs) == w1;
    } else {
      assert forall l :: l in legs ==> l.oid in Oids(legs);
      CliqueFacts(b, c, grouping, legs);
      LinkLegsBook(c, grouping, legs);
      LinkLegsLinks(w1, LinkLegs(c, grouping, legs), grouping, legs, ParentOid(grouping, legs));
      BatchMayLink(w, c, user, grouping, legs);
      hide MayLink, LinkHistory, LinkLegs;
      LinkKeeps(w1, LinkHistory(w, LinkLegs(c, grouping, legs), grouping, legs), ParentOid(grouping, legs),
                Oids(Clique(grouping, legs)), Standing(Clique(grouping, legs)), legs[0].oid);
      assert LinkHistory(w, LinkLegs(c, grouping, legs), grouping, legs)
          == LinkHistory(w1, LinkLegs(c, grouping, legs), grouping, legs) by {
        HistoryOnly(w, w1, LinkLegs(c, grouping, legs), grouping, legs);
      }
    }
  }

  lemma HistoryOnly(w: World, v: World, c: Book, grouping: Grouping, legs: seq<Leg>)
    requires v.group == w.group && v.entry == w.entry
    ensures LinkHistory(w, c, grouping, legs) == LinkHistory(v, c, grouping, legs)
  {
  }

  lemma BatchMayLink(w: World, c: Book, user: int, grouping: Grouping, legs: seq<Leg>)
    requires Known(w) && FreshLegs(w.book, legs) && |legs| > 1
    requires c.parent == w.book.parent && c.children == w.book.children && c.bracket == w.book.bracket
    requires c.orders.Keys == w.book.orders.Keys + Oids(legs)
    requires forall o :: o in Oids(legs) ==> c.orders[o].user == user
    requires Oids(Clique(grouping, legs)) <= Oids(legs) && legs[0].oid in Oids(legs)
    requires grouping == NormalTpsl ==> legs[0].oid !in Oids(Clique(grouping, legs))
    ensures MayLink(w.(book := c), ParentOid(grouping, legs), Oids(Clique(grouping, legs)), legs[0].oid)
  {
    forall o | o in Oids(legs) ensures IsLoose(w.(book := c), o) {
      NewIsLoose(w, c, o);
    }
    hide IsLoose, Clique, Oids;
  }

  lemma GrowFacts(b: Book, c: Book, user: int, added: set<int>)
    requires Grows(b, c, user, added)
    ensures c.parent == b.parent && c.children == b.children && c.bracket == b.bracket
    ensures c.orders.Keys == b.orders.Keys + added
    ensures forall o :: o in added ==> c.orders[o].user == user && c.orders[o].status != Cancelled
  {
  }

  /** c is b without the links of one order. */
  ghost predicate Unlinks(b: Book, c: Book, o: int) {
    && c.orders == b.orders && c.openIndex == b.openIndex && c.triggerIndex == b.triggerIndex
    && (forall k, m :: IsChild(c, k, m) ==> IsChild(b, k, m))
    && (forall k, m :: IsChild(b, k, m) && m != o ==> IsChild(c, k, m))
    && (forall x, y :: IsSibling(c, x, y) ==> IsSibling(b, x, y))
    && (forall x, y :: IsSibling(b, x, y) && x != o && y != o ==> IsSibling(c, x, y))
    && (forall i :: i in c.parent <==> i in b.parent && i != o)
    && (forall i :: i in c.parent ==> c.parent[i] == b.parent[i])
  }

  lemma UnlinkShrinks(w: World, c: Book, o: int)
    requires Layered(w) && Indexed(w) && Unlinks(w.book, c, o) && !IsOpen(w.book, o)
    ensures Shrinks(w, w.(book := c))
  {
    hide IsChild, IsSibling;
  }

  /** Carrying the links of an order whose replacement did not rest drops them. */
  lemma CarryUnlinks(b: Book, user: int, was: int, r: Replacement, listing: Listing)
    requires Members(b.children, was) == {} && !r.Rests?
    ensures Unlinks(b, CarryBracketLinks(b, user, was, r, listing), was)
  {
    hide CancelChildren;
    var c := CarryBracketLinks(b, user, was, r, listing);
    assert forall x, y :: IsSibling(c, x, y) ==> IsSibling(b, x, y);
    assert forall x, y :: IsSibling(b, x, y) && x != was && y != was ==> IsSibling(c, x, y);
    assert forall k, m :: IsChild(c, k, m) ==> IsChild(b, k, m);
    assert forall k, m :: IsChild(b, k, m) && m != was ==> IsChild(c, k, m);
    hide IsChild, IsSibling, Members;
  }

  /** Carrying the links of a closed parent cancels its children and changes nothing else. */
  lemma CarryFromParent(b: Book, user: int, was: int, r: Replacement, listing: Listing)
    requires Members(b.children, was) != {} && Members(b.bracket, was) == {} && was !in b.parent
    requires r.Rests? ==> r.oid != was
    ensures var c := CancelChildren(b, user, was, listing);
      ChildrenFelled(b, c, user, was) ==> Unlinks(c, CarryBracketLinks(b, user, was, r, listing), was)
  {
    hide CancelChildren;
    var c := CancelChildren(b, user, was, listing);
    var d := CarryBracketLinks(b, user, was, r, listing);
    if ChildrenFelled(b, c, user, was) {
      assert was !in c.parent;
      assert forall y :: !IsSibling(b, was, y);
      assert forall y :: !IsSibling(c, was, y);
      assert d.parent == c.parent;
      assert forall x, y :: IsSibling(d, x, y) <==> IsSibling(c, x, y);
      assert forall k, m :: IsChild(d, k, m) <==> IsChild(c, k, m);
      hide IsChild, IsSibling, Members, ChildrenFelled;
    }
  }

  lemma SiblinglessIsEmpty(b: Book, o: int)
    requires forall n :: !IsSibling(b, o, n)
    ensures Members(b.bracket, o) == {}
  {
    if Members(b.bracket, o) != {} {
      assert IsSibling(b, o, AnyOf(Members(b.bracket, o)));
    }
  }

  lemma SwapMembers(bracket: map<int, set<int>>, was: int, n: int)
    requires n != was && was !in Members(bracket, was) && n !in Members(bracket, was) && Members(bracket, n) == {}
    ensures var sibs := Members(bracket, was);
      var after := SwapSibling(bracket - {was}, sibs, was, {n});
      forall k :: Members(after, k) ==
        (if k == n then sibs
         else if k in sibs then Members(bracket, k) - {was} + {n}
         else if k == was then {} else Members(bracket, k))
  {
  }

  lemma CarrySiblings(b: Book, user: int, was: int, r: Replacement, listing: Listing)
    requires Members(b.children, was) == {} && r.Rests? && r.oid != was
    requires !IsSibling(b, was, was) && !IsSibling(b, was, r.oid) && forall y :: !IsSibling(b, r.oid, y)
    ensures var c := CarryBracketLinks(b, user, was, r, listing);
      forall x, y :: IsSibling(c, x, y) <==>
        (if x == r.oid then IsSibling(b, was, y)
         else if IsSibling(b, was, x) then (IsSibling(b, x, y) && y != was) || y == r.oid
         else x != was && IsSibling(b, x, y))
  {
    hide CancelChildren;
    var c := CarryBracketLinks(b, user, was, r, listing);
    SiblinglessIsEmpty(b, r.oid);
    assert c.bracket == SwapSibling(b.bracket - {was}, Members(b.bracket, was), was, {r.oid});
    SwapMembers(b.bracket, was, r.oid);
    hide SwapSibling, CarryBracketLinks;
  }

  lemma CarryReplaces(w: World, user: int, was: int, r: Replacement, listing: Listing)
    requires Members(w.book.children, was) == {} && r.Rests? && Known(w) && IsLoose(w, r.oid) && r.oid != was
    ensures Replaces(
      w,
      World(CarryBracketLinks(w.book, user, was, r, listing),
            if was in w.group then w.group[r.oid := w.group[was]] else w.group,
            if was in w.entry then w.entry[r.oid := w.entry[was]] else w.entry),
      was, r.oid)
  {
    hide CancelChildren, SwapSibling;
    var b, n := w.book, r.oid;
    var c := CarryBracketLinks(b, user, was, r, listing);
    CarrySiblings(b, user, was, r, listing);
    assert forall k, m :: IsChild(c, k, m) <==>
      (if was in b.parent && k == b.parent[was] then (IsChild(b, k, m) && m != was) || m == n else IsChild(b, k, m));
    hide IsChild, IsSibling, Members, Known;
  }

  /** The world after the modified order is closed and its replacement placed. */
  function Swapped(w: World, user: int, oid: int, r: Replacement): World {
    w.(book := PlaceReplacement(WithStatus(w.book, {oid}, Cancelled), user, r))
  }

  function ReplacementOid(r: Replacement): set<int> {
    if r.Rejected? then {} else {r.oid}
  }

  lemma ReplacementGrows(b: Book, user: int, r: Replacement)
    requires IsFresh(b, r)
    requires !r.Rejected? ==> r.oid !in b.openIndex && r.oid !in b.triggerIndex
    ensures Grows(b, PlaceReplacement(b, user, r), user, ReplacementOid(r))
    ensures r.Rests? ==> IsOpen(PlaceReplacement(b, user, r), r.oid)
  {
    if !r.Rejected? {
      var l := ReplacementLeg(r);
      PlaceGrows(b, user, [l]);
      assert Oids([l]) == {r.oid};
      assert l in [l];
    }
  }

  lemma SwappedKeeps(w: World, user: int, oid: int, r: Replacement, listing: Listing)
    requires Inv(w) && IsOpen(w.book, oid) && IsFresh(w.book, r)
    ensures Inv(Swapped(w, user, oid, r))
    ensures Grows(WithStatus(w.book, {oid}, Cancelled), Swapped(w, user, oid, r).book, user, ReplacementOid(r))
    ensures r.Rests? ==> IsOpen(Swapped(w, user, oid, r).book, r.oid)
  {
    var b1 := WithStatus(w.book, {oid}, Cancelled);
    var w1 := w.(book := b1);
    ExpireKeeps(w, oid, listing);
    assert Step(w, Expire(oid), listing) == w1;
    WithStatusEffect(w.book, {oid}, Cancelled);
    assert !r.Rejected? ==> r.oid !in b1.openIndex && r.oid !in b1.triggerIndex by {
      InvParts(w);
      hide Known, Layered, Cliques, OneFill, Attached;
    }
    hide WithStatus, Inv, Step, Grows, PlaceReplacement;
    ReplacementGrows(b1, user, r);
    GrowKeeps(w1, Swapped(w, user, oid, r).book, user, ReplacementOid(r));
  }

  lemma ParentIsTop(w: World, oid: int)
    requires Layered(w) && IsOpen(w.book, oid) && Members(w.book.children, oid) != {}
    ensures oid !in w.group && oid !in w.entry && oid !in w.book.parent && Members(w.book.bracket, oid) == {}
  {
    var kid := AnyOf(Members(w.book.children, oid));
    assert IsChild(w.book, oid, kid);
    if Members(w.book.bracket, oid) != {} {
      assert IsSibling(w.book, oid, AnyOf(Members(w.book.bracket, oid)));
    }
  }

  lemma ClosedByModify(w: World, v: World, user: int, was: int, n: int)
    requires Inv(w) && IsOpen(w.book, was) && w.book.orders[was].user == user && n !in w.book.orders
    requires Members(w.book.children, was) == {}
    requires v.group == w.group && v.entry == w.entry
    requires Grows(WithStatus(w.book, {was}, Cancelled), v.book, user, {n}) && IsOpen(v.book, n)
    ensures JustClosed(v, was, n)
  {
    var b1 := WithStatus(w.book, {was}, Cancelled);
    WithStatusEffect(w.book, {was}, Cancelled);
    GrowExtends(w.(book := b1), v.book, user, {n});
    assert Extends(w.(book := b1), v);
    InvParts(w);
    GrowFacts(b1, v.book, user, {n});
    assert forall m :: !IsChild(w.book, was, m);
    hide Inv, IsChild, IsSibling, WithStatus, Grows, Indexed;
    LooseAfter(w, v, n);
    forall y | IsOpen(v.book, y) && y != n ensures IsSibling(v.book, was, y) <==> SameGroup(v, was, y) {
      assert y != was && IsOpen(w.book, y);
      assert IsSibling(w.book, was, y) <==> SameGroup(w, was, y);
    }
    forall y | SameGroup(v, was, y) && y != was ensures HasStatus(v.book, y, Open) || HasStatus(v.book, y, Cancelled) {
      GroupMembersExist(w, was, y);
      assert SameGroup(w, y, was);
      assert HasStatus(w.book, y, Filled) ==> HasStatus(w.book, was, Cancelled);
    }
  }

  lemma LooseAfter(w: World, v: World, n: int)
    requires Known(w) && n !in w.book.orders && n in v.book.orders
    requires v.group == w.group && v.entry == w.entry && v.book.parent == w.book.parent
    requires forall k, m :: IsChild(v.book, k, m) <==> IsChild(w.book, k, m)
    requires forall x, y :: IsSibling(v.book, x, y) <==> IsSibling(w.book, x, y)
    ensures IsLoose(v, n)
  {
    hide IsChild, IsSibling;
  }

  /** A modify that goes through, in two stages. */
  lemma ModifyStages(w: World, user: int, oid: int, r: Replacement, listing: Listing)
    requires IsOpen(w.book, oid) && w.book.orders[oid].user == user && IsFresh(w.book, r)
    ensures var w2 := Swapped(w, user, oid, r);
      var c := CarryBracketLinks(w2.book, user, oid, r, listing);
      && w2.group == w.group && w2.entry == w.entry
      && Step(w, Modify(user, oid, r), listing) ==
         (if r.Rests? then
            World(c,
                  if oid in w.group then w.group[r.oid := w.group[oid]] else w.group,
                  if oid in w.entry then w.entry[r.oid := w.entry[oid]] else w.entry)
          else w2.(book := c))
  {
    hide CarryBracketLinks, PlaceReplacement, WithStatus;
  }

  /** What is known of the modified order between the two stages. */
  lemma {:induction false} BetweenStages(w: World, user: int, oid: int, r: Replacement, listing: Listing)
    requires Inv(w) && IsOpen(w.book, oid) && w.book.orders[oid].user == user && IsFresh(w.book, r)
    ensures var w2 := Swapped(w, user, oid, r); var b, c := w.book, w2.book;
      && Inv(w2)
      && oid in c.orders && c.orders[oid].user == user && !IsOpen(c, oid)
      && c.parent == b.parent && c.children == b.children && c.bracket == b.bracket
      && (r.Rests? ==> IsOpen(c, r.oid) && r.oid != oid)
  {
    var b1 := WithStatus(w.book, {oid}, Cancelled);
    var w2 := Swapped(w, user, oid, r);
    WithStatusEffect(w.book, {oid}, Cancelled);
    hide Inv, WithStatus, Swapped, Grows;
    SwappedKeeps(w, user, oid, r, listing);
    GrowFacts(b1, w2.book, user, ReplacementOid(r));
    GrowRecord(b1, w2.book, user, ReplacementOid(r), oid);
  }

  lemma {:induction false} ModifyParentKeeps(w: World, user: int, oid: int, r: Replacement, listing: Listing)
    requires Inv(w) && IsListing(listing) && IsFresh(w.book, r)
    requires IsOpen(w.book, oid) && w.book.orders[oid].user == user && Members(w.book.children, oid) != {}
    ensures Inv(Step(w, Modify(user, oid, r), listing))
  {
    hide Inv, Step, Swapped, IsListing, Known, Layered, Cliques, OneFill, Attached, Indexed, IsChild;
    hide CancelChildren, CarryBracketLinks, ChildrenFelled, Unlinks, Shrinks;
    InvParts(w);
    ParentIsTop(w, oid);
    ModifyStages(w, user, oid, r, listing);
    BetweenStages(w, user, oid, r, listing);
    var w2 := Swapped(w, user, oid, r);
    InvParts(w2);
    LayersAreTwo(w2, oid);
    var c := CancelChildren(w2.book, user, oid, listing);
    CancelChildrenEffect(w2.book, user, oid, listing);
    ChildrenFelledShrinks(w2, c, user, oid);
    var w3 := w2.(book := c);
    ShrinkKeeps(w2, w3);
    CarryFromParent(w2.book, user, oid, r, listing);
    InvParts(w3);
    ChildrenFelledClosed(w2.book, c, user, oid, oid);
    var d := CarryBracketLinks(w2.book, user, oid, r, listing);
    UnlinkShrinks(w3, d, oid);
    ShrinkKeeps(w3, w3.(book := d));
    assert Step(w, Modify(user, oid, r), listing) == w3.(book := d);
  }

  lemma LayersAreTwo(w: World, p: int)
    requires Layered(w)
    ensures forall m, n :: IsChild(w.book, p, m) && IsChild(w.book, m, n) ==> false
  {
  }

  lemma GrowRecord(b: Book, c: Book, user: int, added: set<int>, o: int)
    requires Grows(b, c, user, added) && o in b.orders && o !in added
    ensures o in c.orders && c.orders[o] == b.orders[o]
  {
  }

  lemma ChildrenFelledClosed(b: Book, c: Book, user: int, p: int, o: int)
    requires ChildrenFelled(b, c, user, p) && !IsOpen(b, o)
    ensures !IsOpen(c, o)
  {
  }

  lemma {:induction false} ModifyLeafKeeps(w: World, user: int, oid: int, r: Replacement, listing: Listing)
    requires Inv(w) && IsListing(listing) && IsFresh(w.book, r)
    requires IsOpen(w.book, oid) && w.book.orders[oid].user == user && Members(w.book.children, oid) == {}
    ensures Inv(Step(w, Modify(user, oid, r), listing))
  {
    hide Inv, Step, Swapped, IsListing, Known, Layered, Cliques, OneFill, Attached, Indexed;
    hide CarryBracketLinks, Unlinks, Shrinks, Replaces, JustClosed, IsLoose;
    ModifyStages(w, user, oid, r, listing);
    BetweenStages(w, user, oid, r, listing);
    var w2 := Swapped(w, user, oid, r);
    InvParts(w2);
    var c := CarryBracketLinks(w2.book, user, oid, r, listing);
    if r.Rests? {
      SwappedKeeps(w, user, oid, r, listing);
      ClosedByModify(w, w2, user, oid, r.oid);
      JustClosedLoose(w2, oid, r.oid);
      CarryReplaces(w2, user, oid, r, listing);
      ReplaceKeeps(w2, Step(w, Modify(user, oid, r), listing), oid, r.oid);
    } else {
      CarryUnlinks(w2.book, user, oid, r, listing);
      UnlinkShrinks(w2, c, oid);
      ShrinkKeeps(w2, w2.(book := c));
    }
  }

  lemma JustClosedLoose(w: World, was: int, n: int)
    requires JustClosed(w, was, n)
    ensures IsLoose(w, n)
  {
  }

  lemma {:induction false} ModifyKeeps(w: World, user: int, oid: int, r: Replacement, listing: Listing)
    requires Inv(w) && IsListing(listing) && IsFresh(w.book, r)
    ensures Inv(Step(w, Modify(user, oid, r), listing))
  {
    if IsOpen(w.book, oid) && w.book.orders[oid].user == user {
      hide Inv, Step;
      if Members(w.book.children, oid) != {} {
        ModifyParentKeeps(w, user, oid, r, listing);
      } else {
        ModifyLeafKeeps(w, user, oid, r, listing);
      }
    } else {
      assert Step(w, Modify(user, oid, r), listing) == w;
    }
  }

  // ---- An entry takes its exits along ----

  lemma OpenExitIsChild(w: World, entry: int, exit: int)
    requires Inv(w) && exit in w.entry && w.entry[exit] == entry && IsOpen(w.book, entry) && IsOpen(w.book, exit)
    ensures IsChild(w.book, entry, exit) && w.book.orders[exit].user == w.book.orders[entry].user && exit != entry
  {
    InvParts(w);
    hide Inv, IsChild, IsSibling;
    assert w.book.parent[exit] == entry;
    assert IsChild(w.book, entry, exit);
    assert !(IsChild(w.book, entry, exit) && IsChild(w.book, exit, exit));
  }

  /** Cancelling the children of a closed parent closes a child that is open. */
  lemma ChildFalls(b: Book, user: int, p: int, kid: int, listing: Listing)
    requires IsListing(listing) && IsChild(b, p, kid) && IsOpen(b, kid) && b.orders[kid].user == user
    requires forall m, n :: IsChild(b, p, m) && IsChild(b, m, n) ==> false
    ensures !IsOpen(CancelChildren(b, user, p, listing), kid)
  {
    CancelChildrenEffect(b, user, p, listing);
    assert Falls(b, user, Members(b.children, p), kid);
    hide CancelChildren, IsListing;
  }

  lemma CancelTakesExit(w: World, listing: Listing, entry: int, user: int, exit: int)
    requires Inv(w) && IsListing(listing) && IsOpen(w.book, entry) && w.book.orders[entry].user == user
    requires exit in w.entry && w.entry[exit] == entry
    ensures !IsOpen(CancelOne(w.book, user, entry, listing), exit)
  {
    var b1 := WithStatus(w.book, {entry}, Cancelled);
    if IsOpen(w.book, exit) {
      OpenExitIsChild(w, entry, exit);
      InvParts(w);
      LayersAreTwo(w, entry);
      WithStatusEffect(w.book, {entry}, Cancelled);
      assert CancelOne(w.book, user, entry, listing) == CancelChildren(b1, user, entry, listing);
      hide Inv, Known, Layered, Cliques, OneFill, Attached, Indexed, CancelOne, WithStatus;
      ChildFalls(b1, user, entry, exit, listing);
    } else {
      assert exit !in OpenOrders(w.book);
    }
  }

  lemma ModifyTakesExit(w: World, listing: Listing, entry: int, user: int, r: Replacement, exit: int)
    requires Inv(w) && IsListing(listing) && IsOpen(w.book, entry) && w.book.orders[entry].user == user
    requires exit in w.entry && w.entry[exit] == entry && IsFresh(w.book, r)
    ensures !IsOpen(ModifyOrder(w.book, user, entry, r, listing), exit)
  {
    InvParts(w);
    var b1 := WithStatus(w.book, {entry}, Cancelled);
    var w2 := Swapped(w, user, entry, r);
    SwappedKeeps(w, user, entry, r, listing);
    WithStatusEffect(w.book, {entry}, Cancelled);
    GrowRecord(b1, w2.book, user, ReplacementOid(r), exit);
    GrowFacts(b1, w2.book, user, ReplacementOid(r));
    var c := CarryBracketLinks(w2.book, user, entry, r, listing);
    assert ModifyOrder(w.book, user, entry, r, listing) == c;
    if IsOpen(w.book, exit) {
      OpenExitIsChild(w, entry, exit);
      assert IsChild(w2.book, entry, exit);
      assert Members(w2.book.children, entry) != {};
      InvParts(w2);
      LayersAreTwo(w2, entry);
      assert c.orders == CancelChildren(w2.book, user, entry, listing).orders;
      hide Inv, Known, Layered, Cliques, OneFill, Attached, Indexed, WithStatus, ModifyOrder, CarryBracketLinks, CancelChildren, Grows, Swapped;
      ChildFalls(w2.book, user, entry, exit, listing);
    } else {
      hide Inv, Known, Layered, Cliques, OneFill, Attached, Indexed, WithStatus, Grows, Swapped;
      assert exit !in OpenOrders(w2.book);
      assert c.orders == w2.book.orders || c.orders == CancelChildren(w2.book, user, entry, listing).orders;
      assert OpenOrders(CancelChildren(w2.book, user, entry, listing)) <= OpenOrders(w2.book);
    }
  }

  // ---- Runs ----

  /** Every step keeps the invariant. */
  lemma {:induction false} StepKeeps(w: World, e: Event, listing: Listing)
    requires Inv(w) && IsListing(listing) && IsEnabled(w, e)
    ensures Inv(Step(w, e, listing))
  {
    hide Inv, Step, IsListing;
    match e
    case Place(user, grouping, legs, headed) => PlaceKeeps(w, user, grouping, legs, headed, listing);
    case Fill(oid) => FillKeeps(w, oid, listing);
    case Spend(oid) => SpendKeeps(w, oid, listing);
    case Cancel(user, oid) => CancelKeeps(w, user, oid, listing);
    case Expire(oid) => ExpireKeeps(w, oid, listing);
    case Modify(user, oid, r) => ModifyKeeps(w, user, oid, r, listing);
  }
}
