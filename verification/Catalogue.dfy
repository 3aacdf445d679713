/** The public catalogue: the sellability kept on every product, and why a page may be cut
    before the offers are joined. */
module Catalogue {
  import opened Sorting
  import opened Wrappers

  datatype Stock = Stock(active: bool, quantity: int)

  datatype Offer = Offer(productId: nat, sellerId: nat, active: bool, inventory: seq<Stock>, price: nat)

  /** `eligible` and `minPrice` are the projection; the rest is the product's own. */
  datatype Product = Product(id: nat, createdAt: int, eligible: bool, minPrice: Option<nat>)

  predicate InStock(o: Offer) {
    exists s :: s in o.inventory && s.active && s.quantity > 0
  }

  /** An offer that sells this product now. */
  predicate Sells(o: Offer, approved: set<nat>, id: nat) {
    o.productId == id && o.active && InStock(o) && o.sellerId in approved
  }

  /** `m` is the least price at which the product is sold, None if it is not sold. */
  ghost predicate IsLeastPrice(offers: seq<Offer>, approved: set<nat>, id: nat, m: Option<nat>) {
    && (m == None <==> forall o :: o in offers ==> !Sells(o, approved, id))
    && (m.Some? ==>
          && (exists o :: o in offers && Sells(o, approved, id) && o.price == m.value)
          && forall o :: o in offers && Sells(o, approved, id) ==> m.value <= o.price)
  }

  ghost predicate ProductFresh(p: Product, offers: seq<Offer>, approved: set<nat>) {
    IsLeastPrice(offers, approved, p.id, p.minPrice) && (p.eligible <==> p.minPrice.Some?)
  }

  // ---------------------------------------------------------------- keeping the projection

  class Store {
    var products: map<nat, Product>
    var offers: seq<Offer>
    var approved: set<nat>

    ghost predicate Valid()
      reads this
    {
      forall id :: id in products ==> products[id].id == id
    }

    ghost predicate Fresh()
      reads this
    {
      forall id :: id in products ==> ProductFresh(products[id], offers, approved)
    }

    /** Least price per listed product over the offers that sell it. */
    method GroupMinimum(ids: set<nat>) returns (minimum: map<nat, nat>)
      ensures minimum.Keys <= ids
      ensures forall id :: id in ids ==>
                IsLeastPrice(offers, approved, id, if id in minimum then Some(minimum[id]) else None)
    {
      minimum := map[];
      for i := 0 to |offers|
        invariant minimum.Keys <= ids
        invariant forall id :: id in ids ==>
                    IsLeastPrice(offers[..i], approved, id, if id in minimum then Some(minimum[id]) else None)
      {
        var o := offers[i];
        var id := o.productId;
        ghost var before := minimum;
        if id in ids && Sells(o, approved, id) {
          if id !in minimum || o.price < minimum[id] {
            minimum := minimum[id := o.price];
          }
        }
        forall x | x in ids
          ensures IsLeastPrice(offers[..i + 1], approved, x, if x in minimum then Some(minimum[x]) else None)
        {
          LeastPriceNext(offers, approved, i, x, if x in before then Some(before[x]) else None);
        }
      }
      assert offers[..|offers|] == offers;
    }

    /** Every listed product gets the projection it deserves; no other product is touched. */
    method Refresh(ids: seq<nat>)
      requires Valid()
      modifies this`products
      ensures Valid() && products.Keys == old(products).Keys
      ensures forall id :: id in products && id !in ids ==> products[id] == old(products)[id]
      ensures forall id :: id in products && id in ids ==>
                && ProductFresh(products[id], offers, approved)
                && products[id] ==
                   old(products)[id].(eligible := products[id].eligible, minPrice := products[id].minPrice)
    {
      var unique := set id | id in ids;
      var minimum := GroupMinimum(unique);
      var rest := unique;
      while rest != {}
        invariant rest <= unique && Valid() && products.Keys == old(products).Keys
        invariant forall id :: id in products && (id !in unique || id in rest) ==> products[id] == old(products)[id]
        invariant forall id :: id in products && id in unique && id !in rest ==>
                    && ProductFresh(products[id], offers, approved)
                    && products[id] ==
                       old(products)[id].(eligible := products[id].eligible, minPrice := products[id].minPrice)
        decreases rest
      {
        var id :| id in rest;
        rest := rest - {id};
        if id in products {
          if id in minimum {
            products := products[id := products[id].(eligible := true, minPrice := Some(minimum[id]))];
          } else {
            products := products[id := products[id].(eligible := false, minPrice := None)];
          }
        }
      }
    }

    /** An admin's decision about a seller, followed by a refresh of the products it has
        offers for, keeps the whole projection fresh. */
    method DecideSeller(sellerId: nat, approve: bool)
      requires Valid() && Fresh()
      modifies this
      ensures Valid() && Fresh() && products.Keys == old(products).Keys && offers == old(offers)
      ensures approved == if approve then old(approved) + {sellerId} else old(approved) - {sellerId}
    {
      approved := if approve then approved + {sellerId} else approved - {sellerId};
      var affected: seq<nat> := [];
      for i := 0 to |offers|
        invariant forall o :: o in offers[..i] && o.sellerId == sellerId ==> o.productId in affected
        invariant products == old(products) && offers == old(offers)
      {
        if offers[i].sellerId == sellerId && offers[i].productId !in affected {
          affected := affected + [offers[i].productId];
        }
      }
      assert offers[..|offers|] == offers;
      Refresh(affected);
      forall id | id in products && id !in affected
        ensures ProductFresh(products[id], offers, approved)
      {
        assert ProductFresh(products[id], old(offers), old(approved));
        SameSellers(offers, old(approved), approved, id, products[id].minPrice);
      }
    }
  }

  lemma LeastPriceNext(offers: seq<Offer>, approved: set<nat>, i: nat, id: nat, m: Option<nat>)
    requires i < |offers| && IsLeastPrice(offers[..i], approved, id, m)
    ensures var o := offers[i];
            IsLeastPrice(offers[..i + 1], approved, id,
                         if Sells(o, approved, id) && (m == None || o.price < m.value) then Some(o.price) else m)
  {
    assert forall o :: o in offers[..i + 1] <==> o in offers[..i] || o == offers[i];
  }

  lemma SameSellers(offers: seq<Offer>, approved: set<nat>, approved': set<nat>, id: nat, m: Option<nat>)
    requires IsLeastPrice(offers, approved, id, m)
    requires forall o :: o in offers && o.productId == id ==> (o.sellerId in approved <==> o.sellerId in approved')
    ensures IsLeastPrice(offers, approved', id, m)
  {
    assert forall o :: o in offers ==> (Sells(o, approved, id) <==> Sells(o, approved', id));
  }

  /** Line `s` of offer `o` is stock from which an approved seller sells product `id`. */
  predicate SoldFrom(o: Offer, s: Stock, approved: set<nat>, id: nat) {
    && o.productId == id && o.active && o.sellerId in approved
    && s in o.inventory && s.active && s.quantity > 0
  }

  /** A fresh product is eligible exactly if some active stock line of an active offer by an
      approved seller has a piece left, and its stored price is the least of such offers. */
  lemma FreshMeans(p: Product, offers: seq<Offer>, approved: set<nat>)
    requires ProductFresh(p, offers, approved)
    ensures p.eligible <==> p.minPrice.Some?
    ensures p.eligible <==> exists o, s :: o in offers && SoldFrom(o, s, approved, p.id)
    ensures p.eligible ==>
              && (exists o, s :: o in offers && SoldFrom(o, s, approved, p.id) && o.price == p.minPrice.value)
              && forall o, s :: o in offers && SoldFrom(o, s, approved, p.id) ==> p.minPrice.value <= o.price
  {
    forall o | o in offers
      ensures Sells(o, approved, p.id) <==> exists s :: SoldFrom(o, s, approved, p.id)
    {
      SellsMeans(o, approved, p.id);
    }
    hide Sells, SoldFrom;
    if p.eligible {
      var o :| o in offers && Sells(o, approved, p.id) && o.price == p.minPrice.value;
      var s :| SoldFrom(o, s, approved, p.id);
    }
  }

  lemma SellsMeans(o: Offer, approved: set<nat>, id: nat)
    ensures Sells(o, approved, id) <==> exists s :: SoldFrom(o, s, approved, id)
  {
    if Sells(o, approved, id) {
      var s :| s in o.inventory && s.active && s.quantity > 0;
      assert SoldFrom(o, s, approved, id);
    }
  }

  // ---------------------------------------------------------------- reading a page

  /** Offer-level constraints of a request. */
  datatype OfferFilter = NoFilter | Filtered(test: Offer -> bool) {
    predicate Passes(o: Offer) {
      NoFilter? || test(o)
    }
  }

  /** The sorts that end in a product id: both fields with their directions. */
  datatype Order = ByCreation(rising: bool) | ByNewest | ByPrice(rising: bool)

  /** A product with the offers a request may show, cheapest first. */
  datatype Joined = Joined(product: Product, offers: seq<Offer>)

  predicate CheaperFirst(a: Offer, b: Offer) {
    a.price <= b.price
  }

  function Matching(offers: seq<Offer>, approved: set<nat>, filter: OfferFilter, id: nat): seq<Offer> {
    if offers == [] then []
    else
      var rest := Matching(offers[1..], approved, filter, id);
      if Sells(offers[0], approved, id) && filter.Passes(offers[0]) then [offers[0]] + rest else rest
  }

  function Join(p: Product, offers: seq<Offer>, approved: set<nat>, filter: OfferFilter): Joined {
    Joined(p, Sort(Matching(offers, approved, filter, p.id), CheaperFirst))
  }

  function JoinAll(products: seq<Product>, offers: seq<Offer>, approved: set<nat>, filter: OfferFilter): seq<Joined> {
    Map(products, p => Join(p, offers, approved, filter))
  }

  function DropEmpty(joined: seq<Joined>): seq<Joined> {
    if joined == [] then []
    else (if joined[0].offers == [] then [] else [joined[0]]) + DropEmpty(joined[1..])
  }

  function Page<T>(s: seq<T>, page: nat, size: nat): seq<T>
    requires page >= 1
  {
    var skip := (page - 1) * size;
    if skip >= |s| then [] else if skip + size >= |s| then s[skip..] else s[skip..skip + size]
  }

  /** `a` may come before `b`: the main key in its direction, then the id in its own. */
  predicate Earlier(mainA: int, mainB: int, rising: bool, idA: nat, idB: nat, idRising: bool) {
    if mainA != mainB then (if rising then mainA < mainB else mainA > mainB)
    else (if idRising then idA <= idB else idA >= idB)
  }

  /** The order of the late sort, on joined products and their cheapest matching offer. */
  predicate JoinedEarlier(order: Order, a: Joined, b: Joined) {
    match order
    case ByCreation(r) => Earlier(a.product.createdAt, b.product.createdAt, r, a.product.id, b.product.id, r)
    case ByNewest => Earlier(a.product.createdAt, b.product.createdAt, false, a.product.id, b.product.id, false)
    case ByPrice(r) =>
      Earlier(if a.offers == [] then -1 else a.offers[0].price, if b.offers == [] then -1 else b.offers[0].price,
              r, a.product.id, b.product.id, false)
  }

  /** The order of the early sort, on products and their stored price. */
  predicate ProductEarlier(order: Order, a: Product, b: Product) {
    match order
    case ByCreation(r) => Earlier(a.createdAt, b.createdAt, r, a.id, b.id, r)
    case ByNewest => Earlier(a.createdAt, b.createdAt, false, a.id, b.id, false)
    case ByPrice(r) =>
      Earlier(if a.minPrice == None then -1 else a.minPrice.value, if b.minPrice == None then -1 else b.minPrice.value,
              r, a.id, b.id, false)
  }

  datatype Answer = Answer(items: seq<Joined>, total: nat)

  /** Join, drop products without offers, sort, cut. Any sort may have been used. */
  ghost predicate JoinedFirst(answer: Answer, matched: seq<Product>, offers: seq<Offer>, approved: set<nat>,
                              filter: OfferFilter, order: Order, page: nat, size: nat)
    requires page >= 1
  {
    var rows := DropEmpty(JoinAll(matched, offers, approved, filter));
    && answer.total == |rows|
    && exists sorted :: Arranged(sorted, rows, (a, b) => JoinedEarlier(order, a, b))
        && answer.items == Page(sorted, page, size)
  }

  /** Sort on the stored fields, cut, join, drop products without offers. */
  ghost predicate PagedFirst(answer: Answer, matched: seq<Product>, offers: seq<Offer>, approved: set<nat>,
                             filter: OfferFilter, order: Order, page: nat, size: nat)
    requires page >= 1
  {
    && answer.total == |matched|
    && exists sorted :: Arranged(sorted, matched, (a, b) => ProductEarlier(order, a, b))
                        && answer.items == DropEmpty(JoinAll(Page(sorted, page, size), offers, approved, filter))
  }

  /** When the code cuts the page first: never for a price order under offer filters. */
  predicate MayPageFirst(filter: OfferFilter, order: Order) {
    !(filter.Filtered? && order.ByPrice?)
  }

  /** What the catalogue query selects: eligible products, narrowed under offer filters to
      those with a matching offer. */
  ghost predicate Selected(matched: seq<Product>, offers: seq<Offer>, approved: set<nat>, filter: OfferFilter) {
    && DistinctBy(matched, (p: Product) => p.id)
    && forall p :: p in matched ==>
         p.eligible && (filter.Filtered? ==> exists o :: o in offers && Sells(o, approved, p.id) && filter.Passes(o))
  }

  // ---------------------------------------------------------------- why both reads agree

  /** Every matching offer as often as it is stored, and no other. */
  lemma {:induction false} MatchingCounts(offers: seq<Offer>, approved: set<nat>, filter: OfferFilter, id: nat,
      o: Offer)
    ensures multiset(Matching(offers, approved, filter, id))[o] ==
            if Sells(o, approved, id) && filter.Passes(o) then multiset(offers)[o] else 0
  {
    if offers != [] {
      MatchingCounts(offers[1..], approved, filter, id, o);
      assert offers == [offers[0]] + offers[1..];
    }
  }

  /** What a request shows of a product: each of its offers that can be bought and passes the
      filter, once, cheapest first. */
  lemma RowShows(p: Product, offers: seq<Offer>, approved: set<nat>, filter: OfferFilter)
    ensures var row := Join(p, offers, approved, filter);
            && row.product == p
            && (forall i, j :: 0 <= i < j < |row.offers| ==> row.offers[i].price <= row.offers[j].price)
            && forall o :: multiset(row.offers)[o] ==
                 if (exists s :: SoldFrom(o, s, approved, p.id)) && (filter.Filtered? ==> filter.test(o))
                 then multiset(offers)[o] else 0
  {
    var matching := Matching(offers, approved, filter, p.id);
    SortSorts(matching, CheaperFirst);
    SortPermutes(matching, CheaperFirst);
    forall o
      ensures multiset(matching)[o] ==
              if (exists s :: SoldFrom(o, s, approved, p.id)) && (filter.Filtered? ==> filter.test(o))
              then multiset(offers)[o] else 0
    {
      MatchingCounts(offers, approved, filter, p.id, o);
      SellsMeans(o, approved, p.id);
    }
  }

  lemma {:induction false} MatchingMembers(offers: seq<Offer>, approved: set<nat>, filter: OfferFilter, id: nat,
      o: Offer)
    ensures o in Matching(offers, approved, filter, id) <==> o in offers && Sells(o, approved, id) && filter.Passes(o)
  {
    if offers != [] {
      MatchingMembers(offers[1..], approved, filter, id, o);
    }
  }

  lemma JoinMembers(p: Product, offers: seq<Offer>, approved: set<nat>, filter: OfferFilter, o: Offer)
    ensures o in Join(p, offers, approved, filter).offers <==>
            o in offers && Sells(o, approved, p.id) && filter.Passes(o)
  {
    MatchingMembers(offers, approved, filter, p.id, o);
    SortSameElements(Matching(offers, approved, filter, p.id), CheaperFirst, o);
  }

  /** Without offer filters, the cheapest joined offer carries a fresh product's stored price. */
  lemma StoredPriceIsCheapest(p: Product, offers: seq<Offer>, approved: set<nat>)
    requires ProductFresh(p, offers, approved)
    ensures var joined := Join(p, offers, approved, NoFilter).offers;
            p.minPrice == if joined == [] then None else Some(joined[0].price)
  {
    var matching := Matching(offers, approved, NoFilter, p.id);
    var joined := Sort(matching, CheaperFirst);
    SortSorts(matching, CheaperFirst);
    forall o
      ensures o in joined <==> o in offers && Sells(o, approved, p.id)
    {
      JoinMembers(p, offers, approved, NoFilter, o);
    }
    if joined != [] {
      assert joined[0] in joined;
      var o :| o in offers && Sells(o, approved, p.id) && o.price == p.minPrice.value;
      HeadIsLeast(joined, o, CheaperFirst);
    }
  }

  /** Every product of a fresh selection has an offer to show. */
  lemma SelectedHaveOffers(p: Product, matched: seq<Product>, offers: seq<Offer>, approved: set<nat>,
      filter: OfferFilter)
    requires Selected(matched, offers, approved, filter) && p in matched
    requires filter.NoFilter? ==> ProductFresh(p, offers, approved)
    ensures Join(p, offers, approved, filter).offers != []
  {
    var o :| o in offers && Sells(o, approved, p.id) && filter.Passes(o);
    JoinMembers(p, offers, approved, filter, o);
  }

  lemma {:induction false} NothingDropped(joined: seq<Joined>)
    requires forall j :: j in joined ==> j.offers != []
    ensures DropEmpty(joined) == joined
  {
    if joined != [] {
      NothingDropped(joined[1..]);
    }
  }

  lemma {:induction false} DroppedAre(joined: seq<Joined>)
    ensures |DropEmpty(joined)| <= |joined|
    ensures |DropEmpty(joined)| == |joined| <==> forall j :: j in joined ==> j.offers != []
  {
    if joined != [] {
      DroppedAre(joined[1..]);
    }
  }

  lemma PageOfMap<T, U>(s: seq<T>, f: T -> U, page: nat, size: nat)
    requires page >= 1
    ensures Page(Map(s, f), page, size) == Map(Page(s, page, size), f)
    ensures forall x :: x in Page(s, page, size) ==> x in s
  {
  }

  ghost predicate AllFresh(matched: seq<Product>, offers: seq<Offer>, approved: set<nat>) {
    forall p :: p in matched ==> ProductFresh(p, offers, approved)
  }

  /** Both orders compare products alike; under offer filters no stored price is compared. */
  lemma OrdersAgree(a: Product, b: Product, offers: seq<Offer>, approved: set<nat>, filter: OfferFilter, order: Order)
    requires MayPageFirst(filter, order)
    requires filter.NoFilter? ==> ProductFresh(a, offers, approved) && ProductFresh(b, offers, approved)
    ensures ProductEarlier(order, a, b) <==>
            JoinedEarlier(order, Join(a, offers, approved, filter), Join(b, offers, approved, filter))
  {
    if order.ByPrice? {
      StoredPriceIsCheapest(a, offers, approved);
      StoredPriceIsCheapest(b, offers, approved);
    }
  }

  lemma SortedTogether(sorted: seq<Product>, offers: seq<Offer>, approved: set<nat>, filter: OfferFilter, order: Order)
    requires MayPageFirst(filter, order) && (filter.NoFilter? ==> AllFresh(sorted, offers, approved))
    ensures Sorted(sorted, (a, b) => ProductEarlier(order, a, b)) <==>
            Sorted(JoinAll(sorted, offers, approved, filter), (a, b) => JoinedEarlier(order, a, b))
  {
    var joined := JoinAll(sorted, offers, approved, filter);
    forall i, j | 0 <= i < j < |sorted|
      ensures ProductEarlier(order, sorted[i], sorted[j]) <==> JoinedEarlier(order, joined[i], joined[j])
    {
      OrdersAgree(sorted[i], sorted[j], offers, approved, filter, order);
    }
    hide ProductEarlier, JoinedEarlier, Join;
    if Sorted(joined, (a, b) => JoinedEarlier(order, a, b)) {
      forall i, j | 0 <= i < j < |sorted|
        ensures ProductEarlier(order, sorted[i], sorted[j])
      {
        assert JoinedEarlier(order, joined[i], joined[j]);
      }
    }
  }

  /** Cutting the page before the join answers exactly what joining first may answer:
      the same items, the same order, the same total. */
  lemma PagingFirstAgrees(answer: Answer, matched: seq<Product>, offers: seq<Offer>, approved: set<nat>,
                          filter: OfferFilter, order: Order, page: nat, size: nat)
    requires page >= 1 && MayPageFirst(filter, order)
    requires Selected(matched, offers, approved, filter) && (filter.NoFilter? ==> AllFresh(matched, offers, approved))
    ensures PagedFirst(answer, matched, offers, approved, filter, order, page, size) <==>
            JoinedFirst(answer, matched, offers, approved, filter, order, page, size)
  {
    var f := p => Join(p, offers, approved, filter);
    var le := (a, b) => ProductEarlier(order, a, b);
    var le' := (a, b) => JoinedEarlier(order, a, b);
    var rows := JoinAll(matched, offers, approved, filter);
    KeepsAllRows(matched, matched, offers, approved, filter);
    if PagedFirst(answer, matched, offers, approved, filter, order, page, size) {
      var sorted :| Arranged(sorted, matched, le)
                    && answer.items == DropEmpty(JoinAll(Page(sorted, page, size), offers, approved, filter));
      ArrangedMembers(sorted, matched, le);
      SortedTogether(sorted, offers, approved, filter, order);
      MapPermutes(sorted, matched, f);
      PageOfMap(sorted, f, page, size);
      KeepsAllRows(Page(sorted, page, size), matched, offers, approved, filter);
      assert Arranged(JoinAll(sorted, offers, approved, filter), rows, le');
    }
    if JoinedFirst(answer, matched, offers, approved, filter, order, page, size) {
      var joined :| Arranged(joined, rows, le') && answer.items == Page(joined, page, size);
      var sorted := Map(joined, (j: Joined) => j.product);
      RejoinedRows(joined, matched, offers, approved, filter, le');
      ArrangedMembers(sorted, matched, (a, b) => true);
      SortedTogether(sorted, offers, approved, filter, order);
      PageOfMap(sorted, f, page, size);
      KeepsAllRows(Page(sorted, page, size), matched, offers, approved, filter);
      assert Arranged(sorted, matched, le);
    }
  }

  lemma KeepsAllRows(some: seq<Product>, matched: seq<Product>, offers: seq<Offer>, approved: set<nat>,
      filter: OfferFilter)
    requires Selected(matched, offers, approved, filter) && (filter.NoFilter? ==> AllFresh(matched, offers, approved))
    requires forall p :: p in some ==> p in matched
    ensures DropEmpty(JoinAll(some, offers, approved, filter)) == JoinAll(some, offers, approved, filter)
  {
    var joined := JoinAll(some, offers, approved, filter);
    forall j | j in joined
      ensures j.offers != []
    {
      var i :| 0 <= i < |joined| && joined[i] == j;
      SelectedHaveOffers(some[i], matched, offers, approved, filter);
    }
    NothingDropped(joined);
  }

  /** Sorted rows are the joins of their own products. */
  lemma RejoinedRows(joined: seq<Joined>, matched: seq<Product>, offers: seq<Offer>, approved: set<nat>,
                     filter: OfferFilter, le: (Joined, Joined) -> bool)
    requires Arranged(joined, JoinAll(matched, offers, approved, filter), le)
    ensures var sorted := Map(joined, (j: Joined) => j.product);
            && JoinAll(sorted, offers, approved, filter) == joined
            && multiset(sorted) == multiset(matched)
  {
    var rows := JoinAll(matched, offers, approved, filter);
    var sorted := Map(joined, (j: Joined) => j.product);
    ArrangedMembers(joined, rows, le);
    forall i | 0 <= i < |joined|
      ensures Join(joined[i].product, offers, approved, filter) == joined[i]
    {
      assert joined[i] in rows;
      var k :| 0 <= k < |rows| && rows[k] == joined[i];
    }
    MapPermutes(joined, rows, (j: Joined) => j.product);
    assert Map(rows, (j: Joined) => j.product) == matched;
  }

  lemma JoinedEarlierOrders(order: Order)
    ensures TotalPreorder((a, b) => JoinedEarlier(order, a, b))
  {
  }

  lemma RowsHaveNoTies(matched: seq<Product>, offers: seq<Offer>, approved: set<nat>, filter: OfferFilter, order: Order,
                       x: Joined, y: Joined)
    requires DistinctBy(matched, (p: Product) => p.id)
    requires x in JoinAll(matched, offers, approved, filter) && y in JoinAll(matched, offers, approved, filter)
    requires JoinedEarlier(order, x, y) && JoinedEarlier(order, y, x)
    ensures x == y
  {
    var rows := JoinAll(matched, offers, approved, filter);
    var i :| 0 <= i < |rows| && rows[i] == x;
    var j :| 0 <= j < |rows| && rows[j] == y;
    hide Join, Map;
    assert matched[i].id == matched[j].id by {
      assert x.product == matched[i] && y.product == matched[j] by {
        JoinedProduct(matched, offers, approved, filter, i, j);
      }
    }
    JoinedProduct(matched, offers, approved, filter, i, j);
  }

  lemma JoinedProduct(matched: seq<Product>, offers: seq<Offer>, approved: set<nat>, filter: OfferFilter, i: nat,
      j: nat)
    requires i < |matched| && j < |matched|
    ensures var rows := JoinAll(matched, offers, approved, filter);
            && |rows| == |matched| && rows[i].product == matched[i] && rows[j].product == matched[j]
            && (matched[i] == matched[j] ==> rows[i] == rows[j])
  {
  }

  /** The product id breaks every tie between products, so a request has at most one answer,
      with the offers of a product that cost the same kept in one fixed order. */
  lemma AnswerIsUnique(a: Answer, b: Answer, matched: seq<Product>, offers: seq<Offer>, approved: set<nat>,
                       filter: OfferFilter, order: Order, page: nat, size: nat)
    requires page >= 1
    requires Selected(matched, offers, approved, filter) && (filter.NoFilter? ==> AllFresh(matched, offers, approved))
    requires JoinedFirst(a, matched, offers, approved, filter, order, page, size)
    requires JoinedFirst(b, matched, offers, approved, filter, order, page, size)
    ensures a == b
  {
    var le := (x, y) => JoinedEarlier(order, x, y);
    var rows := JoinAll(matched, offers, approved, filter);
    KeepsAllRows(matched, matched, offers, approved, filter);
    var s :| Arranged(s, rows, le) && a.items == Page(s, page, size);
    var t :| Arranged(t, rows, le) && b.items == Page(t, page, size);
    OneWholeList(s, t, matched, offers, approved, filter, order);
  }

  /** With a stale projection the early total is wrong exactly if some selected product has
      no offer left to show. */
  lemma TotalsAgreeIff(matched: seq<Product>, offers: seq<Offer>, approved: set<nat>, filter: OfferFilter)
    ensures |DropEmpty(JoinAll(matched, offers, approved, filter))| == |matched| <==>
            forall p :: p in matched ==> Join(p, offers, approved, filter).offers != []
  {
    var rows := JoinAll(matched, offers, approved, filter);
    DroppedAre(rows);
    assert forall i :: 0 <= i < |rows| ==> rows[i] == Join(matched[i], offers, approved, filter);
    if forall j :: j in rows ==> j.offers != [] {
      forall p | p in matched
        ensures Join(p, offers, approved, filter).offers != []
      {
        var i :| 0 <= i < |matched| && matched[i] == p;
        assert rows[i] in rows;
      }
    }
  }

  // ---------------------------------------------------------------- turning the pages

  lemma PageIs<T>(s: seq<T>, page: nat, size: nat)
    requires page >= 1
    ensures |Page(s, page, size)| <= size
    ensures forall i :: 0 <= i < |Page(s, page, size)| ==>
              (page - 1) * size + i < |s| && Page(s, page, size)[i] == s[(page - 1) * size + i]
    ensures |Page(s, page, size)| < size ==> |s| <= (page - 1) * size + |Page(s, page, size)|
  {
  }

  /** Item `i` of a list is found where page numbers from one and places from zero say. */
  lemma ItemOnPage<T>(s: seq<T>, i: nat, size: nat)
    requires i < |s| && size > 0
    ensures var page := Page(s, i / size + 1, size);
            i % size < |page| && page[i % size] == s[i]
  {
    PageIs(s, i / size + 1, size);
    assert i == (i / size) * size + i % size;
    hide Page;
  }

  /** The first `k` pages in a row. */
  function Pages<T>(s: seq<T>, k: nat, size: nat): seq<T> {
    if k == 0 then [] else Pages(s, k - 1, size) + Page(s, k, size)
  }

  lemma {:induction false} PagesInARow<T>(s: seq<T>, k: nat, size: nat)
    ensures Pages(s, k, size) == if k * size <= |s| then s[..k * size] else s
  {
    if k > 0 {
      PagesInARow(s, k - 1, size);
      assert k * size == (k - 1) * size + size;
      assert Page(s, k, size) ==
             if k * size <= |s| then s[(k - 1) * size..k * size]
             else if (k - 1) * size <= |s| then s[(k - 1) * size..] else [];
      hide Page;
    }
  }

  function ItemsOf(answers: seq<Answer>): seq<Joined> {
    if answers == [] then [] else ItemsOf(answers[..|answers| - 1]) + answers[|answers| - 1].items
  }

  /** What a sort promises of two rows: by creation or by the cheapest offer, with the
      product id to tell equal ones apart. */
  ghost predicate InOrder(order: Order, a: Joined, b: Joined) {
    var idsUp, idsDown := a.product.id <= b.product.id, a.product.id >= b.product.id;
    var older, newer := a.product.createdAt < b.product.createdAt, a.product.createdAt > b.product.createdAt;
    var sameAge := a.product.createdAt == b.product.createdAt;
    match order
    case ByCreation(true) => older || (sameAge && idsUp)
    case ByCreation(false) => newer || (sameAge && idsDown)
    case ByNewest => newer || (sameAge && idsDown)
    case ByPrice(rising) =>
      && a.offers != [] && b.offers != []
      && var p, q := a.offers[0].price, b.offers[0].price;
      (if rising then p < q else p > q) || (p == q && idsDown)
  }

  lemma EarlierIsInOrder(order: Order, a: Joined, b: Joined)
    requires a.offers != [] && b.offers != [] && JoinedEarlier(order, a, b)
    ensures InOrder(order, a, b)
  {
  }

  /** A request pages before it joins where that is allowed, and joins first elsewhere. */
  ghost predicate Answers(answer: Answer, matched: seq<Product>, offers: seq<Offer>, approved: set<nat>,
                          filter: OfferFilter, order: Order, page: nat, size: nat)
    requires page >= 1
  {
    if MayPageFirst(filter, order) then PagedFirst(answer, matched, offers, approved, filter, order, page, size)
    else JoinedFirst(answer, matched, offers, approved, filter, order, page, size)
  }

  /** Whichever way the code goes, it answers what joining first would. */
  lemma AnswersAgree(answer: Answer, matched: seq<Product>, offers: seq<Offer>, approved: set<nat>,
                     filter: OfferFilter, order: Order, page: nat, size: nat)
    requires page >= 1
    requires Selected(matched, offers, approved, filter) && (filter.NoFilter? ==> AllFresh(matched, offers, approved))
    ensures Answers(answer, matched, offers, approved, filter, order, page, size) <==>
            JoinedFirst(answer, matched, offers, approved, filter, order, page, size)
  {
    if MayPageFirst(filter, order) {
      PagingFirstAgrees(answer, matched, offers, approved, filter, order, page, size);
    }
  }

  /** It pages first but for a price order under offer filters. */
  lemma PagesFirstIff(filter: OfferFilter, order: Order)
    ensures MayPageFirst(filter, order) <==> filter == NoFilter || order.ByCreation? || order.ByNewest?
  {
  }

  const IN_STOCK := [Stock(true, 1)]
  const CHEAP := Offer(1, 7, true, IN_STOCK, 10)
  const DEAR := Offer(1, 7, true, IN_STOCK, 50)
  const MIDDLE := Offer(2, 7, true, IN_STOCK, 20)
  const ABOVE_TEN := Filtered((o: Offer) => o.price > 10)

  /** There it must not: of two products, the one that is cheapest over all its offers is not the
      one that is cheapest over the offers that pass the filter, and comes first. */
  lemma FilteredPricesDisagree() returns (matched: seq<Product>, offers: seq<Offer>, answer: Answer)
    ensures Selected(matched, offers, {7}, ABOVE_TEN) && AllFresh(matched, offers, {7})
    ensures PagedFirst(answer, matched, offers, {7}, ABOVE_TEN, ByPrice(true), 1, 1)
    ensures !JoinedFirst(answer, matched, offers, {7}, ABOVE_TEN, ByPrice(true), 1, 1)
  {
    var one, two := Product(1, 0, true, Some(10)), Product(2, 0, true, Some(20));
    matched, offers := [one, two], [CHEAP, DEAR, MIDDLE];
    TwoProducts(matched, offers);
    var first, second := Join(one, offers, {7}, ABOVE_TEN), Join(two, offers, {7}, ABOVE_TEN);
    PricesOfTwo(offers, one, two);
    answer := Answer([first], 2);
    var rows := JoinAll(matched, offers, {7}, ABOVE_TEN);
    assert rows == [first, second];
    assert DropEmpty(rows) == rows by { NothingDropped(rows); }
    assert DropEmpty([first]) == [first] by { NothingDropped([first]); }
    assert JoinAll([one], offers, {7}, ABOVE_TEN) == [first];
    assert Arranged(matched, matched, (a, b) => ProductEarlier(ByPrice(true), a, b));
    assert Page(matched, 1, 1) == [one];
    hide Join;
    forall sorted | Arranged(sorted, rows, (a, b) => JoinedEarlier(ByPrice(true), a, b))
      ensures Page(sorted, 1, 1) != [first]
    {
      SecondComesFirst(sorted, first, second);
    }
  }

  lemma SecondComesFirst(sorted: seq<Joined>, first: Joined, second: Joined)
    requires Arranged(sorted, [first, second], (a, b) => JoinedEarlier(ByPrice(true), a, b))
    requires first.offers != [] && second.offers != [] && second.offers[0].price < first.offers[0].price
    ensures Page(sorted, 1, 1) != [first]
  {
    assert |multiset(sorted)| == |multiset([first, second])| == 2;
    ArrangedMembers(sorted, [first, second], (a, b) => JoinedEarlier(ByPrice(true), a, b));
    assert second in [first, second] && !JoinedEarlier(ByPrice(true), first, second);
    HeadIsLeast(sorted, second, (a, b) => JoinedEarlier(ByPrice(true), a, b));
  }

  lemma TwoProducts(matched: seq<Product>, offers: seq<Offer>)
    requires matched == [Product(1, 0, true, Some(10)), Product(2, 0, true, Some(20))]
    requires offers == [CHEAP, DEAR, MIDDLE]
    ensures Selected(matched, offers, {7}, ABOVE_TEN) && AllFresh(matched, offers, {7})
  {
    assert IN_STOCK[0] in IN_STOCK;
    assert offers[0] == CHEAP && offers[1] == DEAR && offers[2] == MIDDLE;
    assert forall o :: o in offers ==> InStock(o);
    assert CHEAP in offers && DEAR in offers && MIDDLE in offers;
    assert Sells(DEAR, {7}, 1) && ABOVE_TEN.Passes(DEAR) && Sells(MIDDLE, {7}, 2) && ABOVE_TEN.Passes(MIDDLE);
    assert Sells(CHEAP, {7}, 1);
  }

  lemma PricesOfTwo(offers: seq<Offer>, one: Product, two: Product)
    requires offers == [CHEAP, DEAR, MIDDLE] && one.id == 1 && two.id == 2
    ensures var first, second := Join(one, offers, {7}, ABOVE_TEN), Join(two, offers, {7}, ABOVE_TEN);
            first.offers != [] && second.offers != [] && second.offers[0].price < first.offers[0].price
  {
    var first, second := Join(one, offers, {7}, ABOVE_TEN), Join(two, offers, {7}, ABOVE_TEN);
    assert IN_STOCK[0] in IN_STOCK;
    assert offers[0] == CHEAP && offers[1] == DEAR && offers[2] == MIDDLE;
    forall o
      ensures o in first.offers <==> o == DEAR
      ensures o in second.offers <==> o == MIDDLE
    {
      JoinMembers(one, offers, {7}, ABOVE_TEN, o);
      JoinMembers(two, offers, {7}, ABOVE_TEN, o);
    }
    hide Join;
    assert DEAR in first.offers && MIDDLE in second.offers;
    assert first.offers[0] in first.offers && second.offers[0] in second.offers;
  }

  /** `sorted` is the whole list that requests cut into pages. */
  ghost predicate WholeList(sorted: seq<Joined>, matched: seq<Product>, offers: seq<Offer>, approved: set<nat>,
                            filter: OfferFilter, order: Order)
  {
    Arranged(sorted, JoinAll(matched, offers, approved, filter), (a, b) => JoinedEarlier(order, a, b))
  }

  lemma OneWholeList(s: seq<Joined>, t: seq<Joined>, matched: seq<Product>, offers: seq<Offer>, approved: set<nat>,
                     filter: OfferFilter, order: Order)
    requires DistinctBy(matched, (p: Product) => p.id)
    requires WholeList(s, matched, offers, approved, filter, order)
    requires WholeList(t, matched, offers, approved, filter, order)
    ensures s == t
  {
    var le := (x, y) => JoinedEarlier(order, x, y);
    JoinedEarlierOrders(order);
    ArrangedMembers(s, JoinAll(matched, offers, approved, filter), le);
    hide JoinedEarlier, JoinAll, TotalPreorder;
    forall x, y | x in s && y in s && le(x, y) && le(y, x)
      ensures x == y
    {
      RowsHaveNoTies(matched, offers, approved, filter, order, x, y);
    }
    SortedUnique(s, t, le);
  }

  lemma AnswerCuts(answer: Answer, matched: seq<Product>, offers: seq<Offer>, approved: set<nat>,
                   filter: OfferFilter, order: Order, page: nat, size: nat) returns (sorted: seq<Joined>)
    requires page >= 1
    requires Selected(matched, offers, approved, filter) && (filter.NoFilter? ==> AllFresh(matched, offers, approved))
    requires Answers(answer, matched, offers, approved, filter, order, page, size)
    ensures WholeList(sorted, matched, offers, approved, filter, order)
    ensures answer.items == Page(sorted, page, size) && answer.total == |sorted| == |matched|
  {
    AnswersAgree(answer, matched, offers, approved, filter, order, page, size);
    KeepsAllRows(matched, matched, offers, approved, filter);
    var rows := JoinAll(matched, offers, approved, filter);
    sorted :| Arranged(sorted, rows, (a, b) => JoinedEarlier(order, a, b)) && answer.items == Page(sorted, page, size);
    assert |multiset(sorted)| == |multiset(rows)|;
  }

  lemma {:induction false} AnswersInARow(answers: seq<Answer>, sorted: seq<Joined>, matched: seq<Product>,
                                         offers: seq<Offer>, approved: set<nat>, filter: OfferFilter, order: Order,
                                         size: nat)
    requires Selected(matched, offers, approved, filter) && (filter.NoFilter? ==> AllFresh(matched, offers, approved))
    requires WholeList(sorted, matched, offers, approved, filter, order)
    requires forall i :: 0 <= i < |answers| ==>
               Answers(answers[i], matched, offers, approved, filter, order, i + 1, size)
    ensures ItemsOf(answers) == Pages(sorted, |answers|, size)
    ensures forall i :: 0 <= i < |answers| ==> answers[i].total == |matched|
  {
    hide Answers, Selected, AllFresh, WholeList, Page;
    if answers != [] {
      var n := |answers| - 1;
      AnswersInARow(answers[..n], sorted, matched, offers, approved, filter, order, size);
      var s := AnswerCuts(answers[n], matched, offers, approved, filter, order, n + 1, size);
      assert DistinctBy(matched, (p: Product) => p.id) by { SelectedOnce(matched, offers, approved, filter); }
      OneWholeList(s, sorted, matched, offers, approved, filter, order);
    }
  }

  lemma SelectedOnce(matched: seq<Product>, offers: seq<Offer>, approved: set<nat>, filter: OfferFilter)
    requires Selected(matched, offers, approved, filter)
    ensures DistinctBy(matched, (p: Product) => p.id)
  {
  }

  /** The answers to pages 1, 2, ... and so on to the end show every selected product once, with
      all that its row shows, in the order asked for; and each of them says how many there are. */
  lemma AllPagesTogether(answers: seq<Answer>, matched: seq<Product>, offers: seq<Offer>, approved: set<nat>,
                         filter: OfferFilter, order: Order, size: nat)
    requires Selected(matched, offers, approved, filter) && (filter.NoFilter? ==> AllFresh(matched, offers, approved))
    requires forall i :: 0 <= i < |answers| ==>
               Answers(answers[i], matched, offers, approved, filter, order, i + 1, size)
    requires answers != [] && |answers| * size >= |matched|
    ensures var items := ItemsOf(answers);
            && multiset(Map(items, (j: Joined) => j.product)) == multiset(matched)
            && (forall j :: j in items ==> j == Join(j.product, offers, approved, filter) && j.offers != [])
            && (forall i, j :: 0 <= i < j < |items| ==> InOrder(order, items[i], items[j]))
    ensures forall i :: 0 <= i < |answers| ==> answers[i].total == |matched| && |answers[i].items| <= size
  {
    hide Answers, Selected, AllFresh, Page, Join, InOrder, WholeList;
    var sorted := AnswerCuts(answers[0], matched, offers, approved, filter, order, 1, size);
    WholeListShows(sorted, matched, offers, approved, filter, order);
    assert ItemsOf(answers) == sorted by {
      AnswersInARow(answers, sorted, matched, offers, approved, filter, order, size);
      PagesInARow(sorted, |answers|, size);
      hide ItemsOf, Pages;
    }
    hide ItemsOf;
    forall i | 0 <= i < |answers|
      ensures answers[i].total == |matched| && |answers[i].items| <= size
    {
      var s := AnswerCuts(answers[i], matched, offers, approved, filter, order, i + 1, size);
      PageIs(s, i + 1, size);
    }
  }

  lemma WholeListShows(sorted: seq<Joined>, matched: seq<Product>, offers: seq<Offer>, approved: set<nat>,
                       filter: OfferFilter, order: Order)
    requires Selected(matched, offers, approved, filter) && (filter.NoFilter? ==> AllFresh(matched, offers, approved))
    requires WholeList(sorted, matched, offers, approved, filter, order)
    ensures multiset(Map(sorted, (j: Joined) => j.product)) == multiset(matched)
    ensures forall j :: j in sorted ==> j == Join(j.product, offers, approved, filter) && j.offers != []
    ensures forall i, j :: 0 <= i < j < |sorted| ==> InOrder(order, sorted[i], sorted[j])
  {
    var le := (a, b) => JoinedEarlier(order, a, b);
    var rows := JoinAll(matched, offers, approved, filter);
    RejoinedRows(sorted, matched, offers, approved, filter, le);
    ArrangedMembers(sorted, rows, le);
    forall j | j in sorted
      ensures j == Join(j.product, offers, approved, filter) && j.offers != []
    {
      var i :| 0 <= i < |rows| && rows[i] == j;
      SelectedHaveOffers(matched[i], matched, offers, approved, filter);
    }
    hide Selected, AllFresh, Join, JoinAll;
    forall i, j | 0 <= i < j < |sorted|
      ensures InOrder(order, sorted[i], sorted[j])
    {
      assert le(sorted[i], sorted[j]);
      EarlierIsInOrder(order, sorted[i], sorted[j]);
    }
  }
}
