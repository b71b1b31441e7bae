/** Bracket (one-cancels-other) links between orders: how placement, fills, cancels, expiry and modify
    maintain the parent, children and sibling sets (src/engine/order.ts, src/worker/order-matcher.ts). */
module Brackets {

  datatype Status = Open | Filled | Cancelled

  datatype Kind = Limit | Trigger

  datatype OrderRec = OrderRec(user: int, kind: Kind, status: Status)

  /** The order hashes, the two matcher index sets, and the link keys. An absent link set is empty. */
  datatype Book = Book(
    orders: map<int, OrderRec>,
    openIndex: set<int>,
    triggerIndex: set<int>,
    parent: map<int, int>,
    children: map<int, set<int>>,
    bracket: map<int, set<int>>)

  function Members(m: map<int, set<int>>, k: int): set<int> {
    if k in m then m[k] else {}
  }

  predicate IsOpen(b: Book, o: int) {
    o in b.orders && b.orders[o].status == Open
  }

  function OpenOrders(b: Book): set<int> {
    set o | o in b.orders && b.orders[o].status == Open
  }

  /** The order in which the store lists a set. */
  type Listing = set<int> -> seq<int>

  ghost predicate Covers(oids: seq<int>, s: set<int>) {
    forall o :: o in oids <==> o in s
  }

  ghost predicate IsListing(listing: Listing) {
    forall s :: Covers(listing(s), s)
  }

  // ---- Status changes ----

  function WithStatus(b: Book, who: set<int>, status: Status): Book {
    b.(orders := map o | o in b.orders :: if o in who then b.orders[o].(status := status) else b.orders[o],
       openIndex := b.openIndex - who,
       triggerIndex := b.triggerIndex - who)
  }

  /** Removes members from one key's set. */
  function Without(m: map<int, set<int>>, k: int, who: set<int>): map<int, set<int>> {
    if k in m then m[k := m[k] - who] else m
  }

  // ---- A fill ----

  /** What a fill does to the links. A filled parent lets its children live; a filled child cancels its
      open siblings. */
  function CancelSiblings(b: Book, oid: int): Book {
    var kids := Members(b.children, oid);
    var sibs := Members(b.bracket, oid);
    if kids != {} then b.(children := b.children - {oid}, parent := b.parent - kids)
    else if sibs == {} then b.(parent := b.parent - {oid})
    else
      CancelSome(b, oid, set s | s in sibs && IsOpen(b, s))
  }

  /** Some siblings of a filled child cancelled, and its links and theirs dropped. */
  function CancelSome(b: Book, oid: int, hit: set<int>): Book {
    var gone := {oid} + hit;
    WithStatus(b, hit, Cancelled)
      .(bracket := b.bracket - gone,
        parent := b.parent - gone,
        children := if oid in b.parent then Without(b.children, b.parent[oid], gone) else b.children)
  }

  function FillOrder(b: Book, oid: int): Book {
    CancelSiblings(WithStatus(b, {oid}, Filled), oid)
  }

  /** A trigger order stays dormant while its parent rests. */
  predicate IsDormant(b: Book, oid: int) {
    oid in b.parent && IsOpen(b, b.parent[oid])
  }

  /** What the matcher may fill: a resting limit order, or a trigger order that is not dormant. */
  predicate MayFill(b: Book, oid: int) {
    && IsOpen(b, oid)
    && (if b.orders[oid].kind == Limit then oid in b.openIndex
        else oid in b.triggerIndex && !IsDormant(b, oid))
  }

  // ---- Cancels ----

  lemma SubsetIsSmaller(a: set<int>, b: set<int>)
    requires a <= b
    ensures |a| <= |b|
  {
    assert b == a + (b - a);
  }

  function OpenOf(b: Book, user: int, oids: seq<int>): seq<int> {
    if |oids| == 0 then []
    else
      (if IsOpen(b, oids[0]) && b.orders[oids[0]].user == user then [oids[0]] else [])
      + OpenOf(b, user, oids[1..])
  }

  /** Cancels one order and, if it is a parent, its open children, recursively. It terminates on any link
      graph: every cancel that goes through leaves one open order fewer. */
  function CancelOne(b: Book, user: int, oid: int, listing: Listing): (r: Book)
    ensures OpenOrders(r) <= OpenOrders(b) && r.orders.Keys == b.orders.Keys
    ensures r.openIndex <= b.openIndex && r.triggerIndex <= b.triggerIndex
    ensures b.openIndex * OpenOrders(r) <= r.openIndex && b.triggerIndex * OpenOrders(r) <= r.triggerIndex
    ensures oid in b.orders && b.orders[oid].user == user ==> !IsOpen(r, oid)
    decreases |OpenOrders(b)|, 0
  {
    if !IsOpen(b, oid) || b.orders[oid].user != user then b
    else
      var b1 := WithStatus(b, {oid}, Cancelled);
      assert OpenOrders(b1) == OpenOrders(b) - {oid};
      if Members(b.children, oid) != {} then CancelChildren(b1, user, oid, listing)
      else b1.(bracket := b1.bracket - {oid}, parent := b1.parent - {oid})
  }

  /** A parent without its child links. */
  function Cut(b: Book, parent: int): (r: Book)
    ensures OpenOrders(r) == OpenOrders(b)
  {
    var kids := Members(b.children, parent);
    b.(children := b.children - {parent}, parent := b.parent - kids, bracket := b.bracket - kids)
  }

  /** Drops a parent's child links and cancels the children that are open. */
  function CancelChildren(b: Book, user: int, parent: int, listing: Listing): (r: Book)
    ensures OpenOrders(r) <= OpenOrders(b) && r.orders.Keys == b.orders.Keys
    ensures r.openIndex <= b.openIndex && r.triggerIndex <= b.triggerIndex
    ensures b.openIndex * OpenOrders(r) <= r.openIndex && b.triggerIndex * OpenOrders(r) <= r.triggerIndex
    decreases |OpenOrders(b)|, |OpenOf(Cut(b, parent), user, listing(Members(b.children, parent)))| + 2
  {
    CancelMany(Cut(b, parent), user, OpenOf(Cut(b, parent), user, listing(Members(b.children, parent))), listing)
  }

  function CancelMany(b: Book, user: int, oids: seq<int>, listing: Listing): (r: Book)
    ensures OpenOrders(r) <= OpenOrders(b) && r.orders.Keys == b.orders.Keys
    ensures r.openIndex <= b.openIndex && r.triggerIndex <= b.triggerIndex
    ensures b.openIndex * OpenOrders(r) <= r.openIndex && b.triggerIndex * OpenOrders(r) <= r.triggerIndex
    decreases |OpenOrders(b)|, |oids| + 1
  {
    if |oids| == 0 then b
    else
      var next := CancelOne(b, user, oids[0], listing);
      SubsetIsSmaller(OpenOrders(next), OpenOrders(b));
      CancelMany(next, user, oids[1..], listing)
  }

  // ---- Placement ----

  datatype Grouping = Na | NormalTpsl | PositionTpsl

  /** How an order came in: resting, executed on arrival, or idle. A reduce-only order that crosses with nothing to
      reduce is answered like a fill, but its hash stays open, in neither index. */
  datatype Arrival = Resting | Executed | Idle

  /** One order of a batch that reached the book. */
  datatype Leg = Leg(oid: int, kind: Kind, arrival: Arrival)
  {
    predicate StaysOpen() { arrival != Executed }
  }

  function Oids(legs: seq<Leg>): set<int> {
    set l | l in legs :: l.oid
  }

  function PlaceLeg(b: Book, user: int, l: Leg): Book {
    b.(orders := b.orders[l.oid := OrderRec(user, l.kind, if l.StaysOpen() then Open else Filled)],
       openIndex := if l.arrival == Resting && l.kind == Limit then b.openIndex + {l.oid} else b.openIndex,
       triggerIndex := if l.arrival == Resting && l.kind == Trigger then b.triggerIndex + {l.oid} else b.triggerIndex)
  }

  function PlaceLegs(b: Book, user: int, legs: seq<Leg>): Book {
    if |legs| == 0 then b
    else
      var l := legs[|legs| - 1];
      PlaceLeg(PlaceLegs(b, user, legs[..|legs| - 1]), user, l)
  }

  /** Every member of the clique is linked to all the others. */
  function LinkClique(bracket: map<int, set<int>>, clique: set<int>): map<int, set<int>> {
    map k | k in bracket.Keys + clique :: if k in clique then Members(bracket, k) + (clique - {k}) else bracket[k]
  }

  function LinkLegs(b: Book, grouping: Grouping, legs: seq<Leg>): Book {
    if grouping == Na || |legs| <= 1 then b
    else if grouping == PositionTpsl then b.(bracket := LinkClique(b.bracket, Oids(legs)))
    else
      var kids := Oids(legs[1..]);
      b.(children := b.children[legs[0].oid := Members(b.children, legs[0].oid) + kids],
         parent := b.parent + map c | c in kids :: legs[0].oid,
         bracket := LinkClique(b.bracket, kids))
  }

  function PlaceOrders(b: Book, user: int, grouping: Grouping, legs: seq<Leg>): Book {
    LinkLegs(PlaceLegs(b, user, legs), grouping, legs)
  }

  // ---- Modify ----

  /** How the order replacing a modified one came out. One answered as filled may still be idle. */
  datatype Replacement = Rejected | Rests(oid: int, kind: Kind) | FillsAtOnce(oid: int, kind: Kind, executed: bool)

  function NewOid(r: Replacement): set<int> {
    if r.Rests? then {r.oid} else {}
  }

  function SwapSibling(bracket: map<int, set<int>>, sibs: set<int>, was: int, new_: set<int>): map<int, set<int>> {
    map k | k in bracket.Keys + sibs + new_ ::
      if k in new_ then Members(bracket, k) + sibs
      else if k in sibs then Members(bracket, k) - {was} + new_
      else bracket[k]
  }

  /** The links of a modified order move to a resting replacement; an order with children has them
      cancelled. */
  function CarryBracketLinks(b: Book, user: int, was: int, r: Replacement, listing: Listing): Book {
    var kids := Members(b.children, was);
    var sibs := Members(b.bracket, was);
    var b1 := if kids == {} then b else CancelChildren(b, user, was, listing);
    var new_ := NewOid(r);
    var b2 := b1.(bracket := SwapSibling(b1.bracket - {was}, sibs, was, new_), parent := b1.parent - {was});
    if was !in b.parent then b2
    else
      var p := b.parent[was];
      b2.(children := b2.children[p := Members(b2.children, p) - {was} + new_],
          parent := if r.Rests? then b2.parent[r.oid := p] else b2.parent)
  }

  function ReplacementLeg(r: Replacement): Leg
    requires !r.Rejected?
  {
    match r
    case Rests(oid, kind) => Leg(oid, kind, Resting)
    case FillsAtOnce(oid, kind, executed) => Leg(oid, kind, if executed then Executed else Idle)
  }

  function PlaceReplacement(b: Book, user: int, r: Replacement): Book {
    match r
    case Rejected => b
    case _ => PlaceLegs(b, user, [ReplacementLeg(r)])
  }

  function ModifyOrder(b: Book, user: int, oid: int, r: Replacement, listing: Listing): Book {
    if !IsOpen(b, oid) || b.orders[oid].user != user then b
    else CarryBracketLinks(PlaceReplacement(WithStatus(b, {oid}, Cancelled), user, r), user, oid, r, listing)
  }
}
