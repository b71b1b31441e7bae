/** The order hashes and link keys as the store holds them, and the methods of the order engine and the
    matcher that rewrite them in place. Each is tied to the function that specifies it. */
module OrderStore {
  import opened Prelude
  import opened Brackets

  class OrderStore {
    var orders: map<int, OrderRec>
    var openIndex: set<int>
    var triggerIndex: set<int>
    var parent: map<int, int>
    var children: map<int, set<int>>
    var bracket: map<int, set<int>>

    constructor ()
      ensures Book() == Brackets.Book(map[], {}, {}, map[], map[], map[])
    {
      orders, openIndex, triggerIndex, parent, children, bracket := map[], {}, {}, map[], map[], map[];
    }

    ghost function Book(): Book
      reads this
    {
      Brackets.Book(orders, openIndex, triggerIndex, parent, children, bracket)
    }

    /** Links the orders of a batch that reached the book. */
    method LinkBatch(grouping: Grouping, legs: seq<Leg>)
      modifies this`parent, this`children, this`bracket
      ensures Book() == LinkLegs(old(Book()), grouping, legs)
    {
      if grouping == Na || |legs| <= 1 {
        return;
      }
      hide LinkClique;
      if grouping == PositionTpsl {
        LinkSiblings(Oids(legs));
      } else {
        var kids := Oids(legs[1..]);
        children := children[legs[0].oid := Members(children, legs[0].oid) + kids];
        parent := parent + map c | c in kids :: legs[0].oid;
        LinkSiblings(kids);
      }
    }

    /** Every member of the clique gets all the others as siblings, one member at a time. */
    method LinkSiblings(clique: set<int>)
      modifies this`bracket
      ensures bracket == LinkClique(old(bracket), clique)
    {
      var rest := clique;
      ghost var was := bracket;
      assert LinkSome(was, clique, {}) == was;
      while rest != {}
        invariant rest <= clique
        invariant bracket == LinkSome(was, clique, clique - rest)
      {
        assert (forall y :: y !in rest) ==> rest == {};
        var o :| o in rest;
        LinkOneMore(was, clique, clique - rest, o);
        assert clique - (rest - {o}) == clique - rest + {o};
        bracket := bracket[o := Members(bracket, o) + (clique - {o})];
        rest := rest - {o};
      }
      assert clique - rest == clique;
    }

    method SetStatus(oid: int, status: Status)
      requires oid in orders
      modifies this`orders, this`openIndex, this`triggerIndex
      ensures Book() == WithStatus(old(Book()), {oid}, status)
    {
      orders := orders[oid := orders[oid].(status := status)];
      openIndex := openIndex - {oid};
      triggerIndex := triggerIndex - {oid};
      assert orders == WithStatus(old(Book()), {oid}, status).orders;
    }

    /** The cascade of a fill: a parent's children are set free, a child's open siblings are cancelled
        one by one, in whatever order the store lists them. */
    method CancelOrderSiblings(oid: int)
      modifies this
      ensures Book() == CancelSiblings(old(Book()), oid)
    {
      var kids := Members(children, oid);
      if kids != {} {
        children := children - {oid};
        parent := parent - kids;
        return;
      }
      var sibs := Members(bracket, oid);
      if sibs == {} {
        parent := parent - {oid};
        return;
      }
      ghost var b := Book();
      var parentOid := if oid in parent then Some(parent[oid]) else None;
      bracket := bracket - {oid};
      parent := parent - {oid};
      if parentOid.Some? {
        children := Without(children, parentOid.value, {oid});
      }
      ghost var hit: set<int> := {};
      var rest := sibs;
      CancelNone(b, oid);
      hide CancelSome;
      while rest != {}
        invariant rest <= sibs
        invariant hit == set s | s in sibs - rest && IsOpen(b, s)
        invariant Book() == CancelSome(b, oid, hit)
        invariant parentOid == if oid in b.parent then Some(b.parent[oid]) else None
      {
        assert (forall y :: y !in rest) ==> rest == {};
        var sib :| sib in rest;
        assert sib !in hit;
        if sib in orders && orders[sib].status == Open {
          SetStatus(sib, Cancelled);
          bracket := bracket - {sib};
          parent := parent - {sib};
          if parentOid.Some? {
            children := Without(children, parentOid.value, {sib});
          }
          CancelOneMore(b, oid, hit, sib);
          hit := hit + {sib};
        }
        rest := rest - {sib};
      }
      assert hit == set s | s in sibs && IsOpen(b, s);
    }

    method FillAndCascade(oid: int)
      requires oid in orders
      modifies this
      ensures Book() == FillOrder(old(Book()), oid)
    {
      SetStatus(oid, Filled);
      CancelOrderSiblings(oid);
    }

    /** Cancels each listed order that is open and the user's, cascading to the children of a parent. It
        terminates on any link graph: every nested call has fewer open orders to work on. */
    method CancelOrders(user: int, oids: seq<int>, listing: Listing)
      modifies this
      ensures Book() == CancelMany(old(Book()), user, oids, listing)
      decreases |OpenOrders(Book())|
    {
      hide CancelOne;
      var i := 0;
      while i < |oids|
        invariant 0 <= i <= |oids|
        invariant CancelMany(Book(), user, oids[i..], listing) == CancelMany(old(Book()), user, oids, listing)
        invariant OpenOrders(Book()) <= OpenOrders(old(Book()))
      {
        assert oids[i..][1..] == oids[i + 1..];
        SubsetIsSmaller(OpenOrders(Book()), OpenOrders(old(Book())));
        CancelListed(user, oids[i], listing);
        i := i + 1;
      }
      assert oids[i..] == [];
    }

    method CancelListed(user: int, oid: int, listing: Listing)
      modifies this
      ensures Book() == CancelOne(old(Book()), user, oid, listing)
      ensures OpenOrders(Book()) <= OpenOrders(old(Book()))
      decreases |OpenOrders(Book())|, 0
    {
      hide CancelMany;
      if oid !in orders || orders[oid].user != user || orders[oid].status != Open {
        return;
      }
      ghost var b := Book();
      SetStatus(oid, Cancelled);
      assert OpenOrders(Book()) == OpenOrders(b) - {oid};
      assert oid in OpenOrders(b);
      var kids := Members(children, oid);
      if kids != {} {
        children := children - {oid};
        parent := parent - kids;
        bracket := bracket - kids;
        assert Book() == Cut(WithStatus(b, {oid}, Cancelled), oid);
        var childCancels := OpenListed(user, listing(kids));
        CancelOrders(user, childCancels, listing);
      } else {
        bracket := bracket - {oid};
        parent := parent - {oid};
      }
    }

    method OpenListed(user: int, oids: seq<int>) returns (open: seq<int>)
      ensures open == OpenOf(Book(), user, oids)
    {
      open := [];
      ghost var b := Book();
      hide OpenOf;
      assert oids[0..] == oids;
      var i := 0;
      while i < |oids|
        invariant 0 <= i <= |oids|
        invariant open + OpenOf(b, user, oids[i..]) == OpenOf(b, user, oids)
      {
        OpenOfStep(b, user, oids, i);
        if oids[i] in orders && orders[oids[i]].status == Open && orders[oids[i]].user == user {
          open := open + [oids[i]];
        }
        i := i + 1;
      }
      OpenOfNone(b, user, oids[i..]);
    }

    /** The links of a modified order move to its replacement. */
    method CarryLinks(user: int, oid: int, r: Replacement, listing: Listing)
      modifies this
      ensures Book() == CarryBracketLinks(old(Book()), user, oid, r, listing)
    {
      hide CancelMany, CancelChildren, SwapSibling;
      ghost var placed := Book();
      var kids := Members(children, oid);
      var sibs := Members(bracket, oid);
      var parentOid := if oid in parent then Some(parent[oid]) else None;
      if kids != {} {
        children := children - {oid};
        parent := parent - kids;
        bracket := bracket - kids;
        assert Book() == Cut(placed, oid);
        var childCancels := OpenListed(user, listing(kids));
        CancelOrders(user, childCancels, listing);
        assert Book() == CancelChildren(placed, user, oid, listing) by {
          ChildrenCancelled(placed, user, oid, listing);
        }
      }
      var added := NewOid(r);
      bracket := SwapSibling(bracket - {oid}, sibs, oid, added);
      parent := parent - {oid};
      if parentOid.Some? {
        var p := parentOid.value;
        children := children[p := Members(children, p) - {oid} + added];
        if r.Rests? {
          parent := parent[r.oid := p];
        }
      }
    }

    /** An order's hash, and its place in the index of the matcher that is to watch it. */
    method SaveLeg(user: int, l: Leg)
      modifies this`orders, this`openIndex, this`triggerIndex
      ensures Book() == PlaceLeg(old(Book()), user, l)
    {
      orders := orders[l.oid := OrderRec(user, l.kind, if l.StaysOpen() then Open else Filled)];
      if l.arrival == Resting {
        if l.kind == Limit {
          openIndex := openIndex + {l.oid};
        } else {
          triggerIndex := triggerIndex + {l.oid};
        }
      }
    }
  }

  lemma OpenOfStep(b: Book, user: int, oids: seq<int>, i: nat)
    requires i < |oids|
    ensures OpenOf(b, user, oids[i..])
         == (if IsOpen(b, oids[i]) && b.orders[oids[i]].user == user then [oids[i]] else []) + OpenOf(b, user, oids[i + 1..])
  {
    assert oids[i..][1..] == oids[i + 1..];
  }

  lemma OpenOfNone(b: Book, user: int, oids: seq<int>)
    requires |oids| == 0
    ensures OpenOf(b, user, oids) == []
  {
  }

  /** The clique linked for some of its members. */
  function LinkSome(bracket: map<int, set<int>>, clique: set<int>, done: set<int>): map<int, set<int>> {
    map k | k in bracket.Keys + done :: if k in done then Members(bracket, k) + (clique - {k}) else bracket[k]
  }

  lemma LinkOneMore(bracket: map<int, set<int>>, clique: set<int>, done: set<int>, o: int)
    requires o !in done
    ensures
      var some := LinkSome(bracket, clique, done);
      LinkSome(bracket, clique, done + {o}) == some[o := Members(some, o) + (clique - {o})]
  {
  }

  lemma ChildrenCancelled(b: Book, user: int, p: int, listing: Listing)
    ensures CancelChildren(b, user, p, listing)
         == CancelMany(Cut(b, p), user, OpenOf(Cut(b, p), user, listing(Members(b.children, p))), listing)
  {
  }

  lemma CancelNone(b: Book, oid: int)
    ensures CancelSome(b, oid, {}) ==
      b.(bracket := b.bracket - {oid}, parent := b.parent - {oid},
         children := if oid in b.parent then Without(b.children, b.parent[oid], {oid}) else b.children)
  {
    assert {oid} + {} == {oid};
    var w := WithStatus(b, {}, Cancelled);
    assert w.orders == b.orders && w.openIndex == b.openIndex && w.triggerIndex == b.triggerIndex;
  }

  /** One more sibling cancelled extends the set of the cancelled by it. */
  lemma CancelOneMore(b: Book, oid: int, hit: set<int>, sib: int)
    requires sib in b.orders
    ensures
      var s := CancelSome(b, oid, hit);
      CancelSome(b, oid, hit + {sib}) ==
      WithStatus(s, {sib}, Cancelled)
        .(bracket := s.bracket - {sib}, parent := s.parent - {sib},
          children := if oid in b.parent then Without(s.children, b.parent[oid], {sib}) else s.children)
  {
    var s, t := CancelSome(b, oid, hit), CancelSome(b, oid, hit + {sib});
    assert {oid} + (hit + {sib}) == ({oid} + hit) + {sib};
    assert t.bracket == s.bracket - {sib};
    assert t.parent == s.parent - {sib};
    assert t.orders == WithStatus(s, {sib}, Cancelled).orders;
    assert t.openIndex == s.openIndex - {sib} && t.triggerIndex == s.triggerIndex - {sib};
    if oid in b.parent && b.parent[oid] in b.children {
      var c := b.children[b.parent[oid]];
      assert c - ({oid} + hit) - {sib} == c - ({oid} + (hit + {sib}));
    }
  }
}
