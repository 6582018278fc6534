/** Order placement, payment marking and the seller's view of orders
    (`backend/app/services/order_service.py`). */
module Orders {
  import opened Wrappers
  import opened Store
  import Seqs
  import Money
  import Referral

  /** One requested line of `POST /orders`: a product id and a quantity (any integer; the
      request schema does not bound it). */
  datatype ItemRequest = ItemRequest(productId: int, quantity: int)

  /** The product `find_many(where={"id": {"in": ids}, "isActive": True})` returns for `id`. */
  function ActiveProduct(db: Db, id: int): (r: Option<Product>)
    ensures r.Some? ==> r.value in db.products && r.value.id == id && r.value.isActive
    ensures r.None? <==> forall k :: 0 <= k < |db.products| ==> !(db.products[k].id == id && db.products[k].isActive)
  {
    Seqs.First(db.products, (p: Product) => p.id == id && p.isActive)
  }

  function ProductIds(items: seq<ItemRequest>): (ids: seq<int>)
    ensures |ids| == |items|
    ensures forall k :: 0 <= k < |items| ==> ids[k] == items[k].productId
  {
    seq(|items|, k requires 0 <= k < |items| => items[k].productId)
  }

  /** The keys of `products_map`: the requested ids that name an active product. */
  function FoundIds(db: Db, ids: seq<int>): set<int> {
    set id | id in ids && ActiveProduct(db, id).Some?
  }

  predicate AllAvailable(db: Db, items: seq<ItemRequest>) {
    forall k :: 0 <= k < |items| ==> ActiveProduct(db, items[k].productId).Some?
  }

  /** The size comparison of `products_map` against the id list succeeds exactly when every
      requested product is active and no product id is requested twice. */
  lemma AvailabilityCheck(db: Db, items: seq<ItemRequest>)
    ensures |FoundIds(db, ProductIds(items))| == |items|
        <==> Seqs.Distinct(ProductIds(items)) && AllAvailable(db, items)
  {
    var ids := ProductIds(items);
    var found := FoundIds(db, ids);
    assert found <= Seqs.Elements(ids);
    Seqs.SubsetCard(found, ids);
    if AllAvailable(db, items) {
      forall x | x in Seqs.Elements(ids) ensures x in found {
        var k :| 0 <= k < |ids| && ids[k] == x;
      }
    }
    if found == Seqs.Elements(ids) {
      forall k | 0 <= k < |items| ensures ActiveProduct(db, items[k].productId).Some? {
        assert ids[k] in Seqs.Elements(ids);
      }
    }
  }

  /** The price one unit sells at: the discount price whenever one is set (zero included),
      otherwise the base price. */
  function UnitPrice(p: Product): (u: real)
    ensures p.discountPrice.Some? ==> u == p.discountPrice.value
    ensures p.discountPrice.None? ==> u == p.basePrice
  {
    match p.discountPrice
    case Some(d) => d
    case None => p.basePrice
  }

  /** `unit_price * item.quantity`. */
  function LineTotal(unit: real, quantity: int): real {
    unit * quantity as real
  }

  /** Sum of `totalPrice` over rows, accumulated left to right as `+=` does. */
  function ItemsTotal(rows: seq<OrderItem>): real {
    if rows == [] then 0.0 else ItemsTotal(rows[..|rows| - 1]) + rows[|rows| - 1].totalPrice
  }

  /** The order-item rows written for an accepted request: one per requested line, in
      request order, priced from the product. */
  function OrderRows(db: Db, items: seq<ItemRequest>, orderId: int, firstId: int): (rows: seq<OrderItem>)
    requires AllAvailable(db, items)
    ensures |rows| == |items|
    ensures forall k :: 0 <= k < |items| ==>
      var p := ActiveProduct(db, items[k].productId).value;
      && rows[k].id == firstId + k && rows[k].orderId == orderId
      && rows[k].productId == items[k].productId && rows[k].quantity == items[k].quantity
      && rows[k].unitPrice == UnitPrice(p)
      && rows[k].totalPrice == LineTotal(UnitPrice(p), items[k].quantity)
  {
    seq(|items|, k requires 0 <= k < |items| =>
      var p := ActiveProduct(db, items[k].productId).value;
      OrderItem(firstId + k, orderId, p.id, items[k].quantity, UnitPrice(p), LineTotal(UnitPrice(p), items[k].quantity)))
  }

  /** An independent statement of what a request costs: Σ unit price × quantity over the
      requested lines. */
  function RequestTotal(db: Db, items: seq<ItemRequest>): real
    requires AllAvailable(db, items)
  {
    if items == [] then 0.0
    else
      var last := items[|items| - 1];
      RequestTotal(db, items[..|items| - 1]) + LineTotal(UnitPrice(ActiveProduct(db, last.productId).value), last.quantity)
  }

  datatype Placed = Placed(db: Db, order: Order, items: seq<OrderItem>)

  /** The writes of an accepted request. The order starts PENDING and UNPAID for its
      customer, under an id above every existing order id; it is appended to the order
      table and its rows to the item table, one row per requested line, in request order,
      each pointing at the new order. */
  function Accept(db: Db, customerId: int, items: seq<ItemRequest>, today: CalendarDate): (p: Placed)
    requires AllAvailable(db, items)
    ensures var o := p.order;
      && o.customerId == customerId && o.status == Pending && o.paymentStatus == Unpaid
      && o.authority.None? && o.paymentAmount.None?
      && (forall k :: 0 <= k < |db.orders| ==> db.orders[k].id < o.id)
      && o.totalAmount == ItemsTotal(p.items)
      && p.db == db.(orders := db.orders + [o], orderItems := db.orderItems + p.items)
      && |p.items| == |items|
      && (forall k :: 0 <= k < |items| ==>
            p.items[k].orderId == o.id && p.items[k].productId == items[k].productId
            && p.items[k].quantity == items[k].quantity)
  {
    var orderId := Seqs.NextId(db.orders, (o: Order) => o.id);
    var rows := OrderRows(db, items, orderId, Seqs.NextId(db.orderItems, (it: OrderItem) => it.id));
    var order := Order(orderId, customerId, ItemsTotal(rows), Pending, Unpaid, Some(today),
      None, None, None, None, None, None, None, None);
    Placed(db.(orders := db.orders + [order], orderItems := db.orderItems + rows), order, rows)
  }

  /** `create_order`. */
  function CreateOrder(db: Db, customerId: int, items: seq<ItemRequest>, today: CalendarDate): (r: Result<Placed, HttpError>)
    // An empty request is refused first.
    ensures items == [] ==> r == Failure(HttpError(400, CartEmpty))
    ensures items != [] && r.Failure? ==> r.error == HttpError(400, ProductsUnavailable)
    // Accepted exactly when every product is active and none is repeated.
    ensures r.Success? <==> items != [] && Seqs.Distinct(ProductIds(items)) && AllAvailable(db, items)
    ensures r.Success? ==> AllAvailable(db, items) && r.value == Accept(db, customerId, items, today)
  {
    if items == [] then Failure(HttpError(400, CartEmpty))
    else
      AvailabilityCheck(db, items);
      if |FoundIds(db, ProductIds(items))| != |items| then Failure(HttpError(400, ProductsUnavailable))
      else Success(Accept(db, customerId, items, today))
  }

  /** The total of an accepted order is Σ unit price × quantity over the request, the sum
      of its rows' totals, and each row carries the product's current unit price. */
  lemma CreatedOrderTotal(db: Db, customerId: int, items: seq<ItemRequest>, today: CalendarDate)
    requires AllAvailable(db, items)
    ensures var p := Accept(db, customerId, items, today);
      && p.order.totalAmount == ItemsTotal(p.items) == RequestTotal(db, items)
      && forall k :: 0 <= k < |items| ==>
           p.items[k].unitPrice == UnitPrice(ActiveProduct(db, items[k].productId).value)
           && p.items[k].totalPrice == LineTotal(p.items[k].unitPrice, items[k].quantity)
  {
    var p := Accept(db, customerId, items, today);
    var firstId := Seqs.NextId(db.orderItems, (it: OrderItem) => it.id);
    assert p.items == OrderRows(db, items, p.order.id, firstId);
    RowsTotal(db, items, p.order.id, firstId);
    forall k | 0 <= k < |items|
      ensures p.items[k].unitPrice == UnitPrice(ActiveProduct(db, items[k].productId).value)
      ensures p.items[k].totalPrice == LineTotal(p.items[k].unitPrice, items[k].quantity)
    {
      RowAt(db, items, p.order.id, firstId, k);
    }
  }

  lemma {:induction false} RowsTotal(db: Db, items: seq<ItemRequest>, orderId: int, firstId: int)
    requires AllAvailable(db, items)
    ensures ItemsTotal(OrderRows(db, items, orderId, firstId)) == RequestTotal(db, items)
  {
    if items != [] {
      var n := |items| - 1;
      var rows := OrderRows(db, items, orderId, firstId);
      var line := LineTotal(UnitPrice(ActiveProduct(db, items[n].productId).value), items[n].quantity);
      assert ItemsTotal(rows[..n]) == RequestTotal(db, items[..n]) by {
        RowsTotal(db, items[..n], orderId, firstId);
        RowsPrefix(db, items, orderId, firstId);
      }
      assert rows[n].totalPrice == line;
      assert ItemsTotal(rows) == ItemsTotal(rows[..n]) + rows[n].totalPrice;
      assert RequestTotal(db, items) == RequestTotal(db, items[..n]) + line;
    }
  }

  lemma RowAt(db: Db, items: seq<ItemRequest>, orderId: int, firstId: int, k: nat)
    requires AllAvailable(db, items) && k < |items|
    ensures var row := OrderRows(db, items, orderId, firstId)[k];
      && row.unitPrice == UnitPrice(ActiveProduct(db, items[k].productId).value)
      && row.totalPrice == LineTotal(row.unitPrice, items[k].quantity)
  {
  }

  lemma RowsPrefix(db: Db, items: seq<ItemRequest>, orderId: int, firstId: int)
    requires AllAvailable(db, items) && items != []
    ensures OrderRows(db, items, orderId, firstId)[..|items| - 1] == OrderRows(db, items[..|items| - 1], orderId, firstId)
  {
    var n := |items| - 1;
    var rows := OrderRows(db, items, orderId, firstId);
    var prefix := OrderRows(db, items[..n], orderId, firstId);
    forall k | 0 <= k < n ensures rows[k] == prefix[k] {
      assert items[..n][k] == items[k];
    }
  }

  /** Existing order-item rows all point at existing orders. */
  ghost predicate ItemsReferenceOrders(db: Db) {
    forall k :: 0 <= k < |db.orderItems| ==> OrderById(db, db.orderItems[k].orderId).Some?
  }

  function RowsOf(rows: seq<OrderItem>, orderId: int): seq<OrderItem> {
    Seqs.Filter(rows, (it: OrderItem) => it.orderId == orderId)
  }

  /** Read back from the stored item table, a new order's rows add up to its total. */
  lemma StoredRowsMatchTotal(db: Db, customerId: int, items: seq<ItemRequest>, today: CalendarDate)
    requires ItemsReferenceOrders(db)
    requires CreateOrder(db, customerId, items, today).Success?
    ensures var p := CreateOrder(db, customerId, items, today).value;
      RowsOf(p.db.orderItems, p.order.id) == p.items &&
      ItemsTotal(RowsOf(p.db.orderItems, p.order.id)) == p.order.totalAmount
  {
    var p := CreateOrder(db, customerId, items, today).value;
    forall k | 0 <= k < |db.orderItems| ensures db.orderItems[k].orderId != p.order.id {
      var o := OrderById(db, db.orderItems[k].orderId).value;
      assert o in db.orders;
    }
    RowsOfAppended(db.orderItems, p.items, p.order.id);
  }

  /** The rows of an order whose rows were all appended at once are exactly those rows. */
  lemma RowsOfAppended(before: seq<OrderItem>, rows: seq<OrderItem>, id: int)
    requires forall k :: 0 <= k < |before| ==> before[k].orderId != id
    requires forall k :: 0 <= k < |rows| ==> rows[k].orderId == id
    ensures RowsOf(before + rows, id) == rows
  {
    var f := (it: OrderItem) => it.orderId == id;
    Seqs.FilterAppend(before, rows, f);
    assert Seqs.Filter(before, f) == [];
    Seqs.FilterAll(rows, f);
    assert [] + rows == rows;
  }

  /** `mark_order_paid`: the owner (or an admin) moves the order to PAID once, and the
      referral commissions are written on that transition. */
  function MarkOrderPaid(db: Db, orderId: int, requestedBy: int, isAdmin: bool): (r: Result<(Db, Order), HttpError>)
    ensures OrderById(db, orderId).None? ==> r == Failure(HttpError(404, OrderNotFound))
    ensures OrderById(db, orderId).Some? && !isAdmin && OrderById(db, orderId).value.customerId != requestedBy
      ==> r == Failure(HttpError(403, NotOrderOwner))
    ensures r.Success? <==> OrderById(db, orderId).Some? && (isAdmin || OrderById(db, orderId).value.customerId == requestedBy)
    // An order that is already paid comes back unchanged, and nothing is written.
    ensures r.Success? && OrderById(db, orderId).value.paymentStatus == Paid
      ==> r.value == (db, OrderById(db, orderId).value)
    ensures r.Success? ==> r.value.1.paymentStatus == Paid && r.value.1.id == orderId
  {
    match OrderById(db, orderId)
    case None => Failure(HttpError(404, OrderNotFound))
    case Some(o) =>
      if !isAdmin && o.customerId != requestedBy then Failure(HttpError(403, NotOrderOwner))
      else if o.paymentStatus == Paid then Success((db, o))
      else
        var updated := o.(paymentStatus := Paid, status := Paid);
        var afterCommissions := Referral.CreateCommissions(UpdateOrder(db, updated), o.customerId, o.id, o.totalAmount);
        Success((afterCommissions.0, updated))
  }

  /** On the transition to PAID only the order's two status fields change, and the commission
      table grows by exactly the referral chain's rows; every other order row, the users,
      products, order rows and refresh tokens are untouched. */
  lemma MarkPaidEffects(db: Db, orderId: int, requestedBy: int, isAdmin: bool)
    requires MarkOrderPaid(db, orderId, requestedBy, isAdmin).Success?
    requires OrderById(db, orderId).value.paymentStatus != Paid
    ensures var o := OrderById(db, orderId).value;
      var (db2, updated) := MarkOrderPaid(db, orderId, requestedBy, isAdmin).value;
      && updated == o.(status := Paid, paymentStatus := Paid)
      && OrderById(db2, orderId) == Some(updated)
      && db2.users == db.users && db2.products == db.products && db2.orderItems == db.orderItems
      && db2.refreshTokens == db.refreshTokens
      && |db2.orders| == |db.orders|
      && (forall k :: 0 <= k < |db.orders| && db.orders[k].id != orderId ==> db2.orders[k] == db.orders[k])
      && db2.commissions == db.commissions + Referral.CreateCommissions(db, o.customerId, o.id, o.totalAmount).1
  {
    var o := OrderById(db, orderId).value;
    var updated := o.(paymentStatus := Paid, status := Paid);
    UpdateThenFind(db, updated);
    CommissionsIgnoreOrders(UpdateOrder(db, updated), db, o.customerId, o.id, o.totalAmount);
  }

  /** The commission chain reads only the user table and the commission ids. */
  lemma CommissionsIgnoreOrders(a: Db, b: Db, buyerId: int, orderId: int, amount: real)
    requires a.users == b.users && a.commissions == b.commissions
    ensures Referral.CreateCommissions(a, buyerId, orderId, amount).1 == Referral.CreateCommissions(b, buyerId, orderId, amount).1
  {
    assert forall id :: UserById(a, id) == UserById(b, id);
    assert Referral.Plan(a, buyerId, orderId, amount) == Referral.Plan(b, buyerId, orderId, amount);
  }

  /** Marking an order paid twice is the same as marking it once: the second call returns
      the paid order and writes nothing, so no commission is paid twice. */
  lemma MarkPaidIdempotent(db: Db, orderId: int, requestedBy: int, isAdmin: bool)
    requires MarkOrderPaid(db, orderId, requestedBy, isAdmin).Success?
    ensures var (db1, o1) := MarkOrderPaid(db, orderId, requestedBy, isAdmin).value;
      MarkOrderPaid(db1, orderId, requestedBy, isAdmin) == Success((db1, o1))
  {
    var o := OrderById(db, orderId).value;
    if o.paymentStatus != Paid {
      MarkPaidEffects(db, orderId, requestedBy, isAdmin);
    }
  }

  // ---- The seller's view of orders ----

  /** One entry of `orders_map`: the order, the seller's rows in it, and their running total. */
  datatype Bucket = Bucket(orderId: int, order: Order, items: seq<OrderItem>, total: real)

  predicate SoldBy(db: Db, sellerId: int, it: OrderItem) {
    ProductById(db, it.productId).Some? && ProductById(db, it.productId).value.sellerId == sellerId
  }

  /** The rows `find_many(where={"product": {"sellerId": ...}})` yields, in table order,
      less those whose order row is missing, which the loop skips. */
  function SellerItems(db: Db, sellerId: int): (r: seq<OrderItem>)
    ensures forall k :: 0 <= k < |r| ==> OrderById(db, r[k].orderId).Some?
  {
    Seqs.Filter(db.orderItems, (it: OrderItem) => SoldBy(db, sellerId, it) && OrderById(db, it.orderId).Some?)
  }

  function OrderIds(rows: seq<OrderItem>): (r: seq<int>)
    ensures |r| == |rows| && forall k :: 0 <= k < |rows| ==> r[k] == rows[k].orderId
  {
    seq(|rows|, k requires 0 <= k < |rows| => rows[k].orderId)
  }

  lemma OrderIdsSnoc(xs: seq<OrderItem>)
    requires xs != []
    ensures OrderIds(xs) == OrderIds(xs[..|xs| - 1]) + [xs[|xs| - 1].orderId]
  {
    var n := |xs| - 1;
    assert forall k :: 0 <= k < n ==> xs[..n][k] == xs[k];
  }

  function Keys(bs: seq<Bucket>): (r: seq<int>)
    ensures |r| == |bs| && forall k :: 0 <= k < |bs| ==> r[k] == bs[k].orderId
  {
    seq(|bs|, k requires 0 <= k < |bs| => bs[k].orderId)
  }

  function BucketsTotal(bs: seq<Bucket>): real {
    if bs == [] then 0.0 else BucketsTotal(bs[..|bs| - 1]) + bs[|bs| - 1].total
  }

  function ItemCount(bs: seq<Bucket>): nat {
    if bs == [] then 0 else ItemCount(bs[..|bs| - 1]) + |bs[|bs| - 1].items|
  }

  /** What the grouping keeps true: one bucket per order id, every bucket non-empty, its rows
      all of its order, and its running total their sum. */
  ghost predicate GroupOk(bs: seq<Bucket>) {
    && Seqs.Distinct(Keys(bs))
    && forall k :: 0 <= k < |bs| ==>
         && bs[k].items != []
         && bs[k].total == ItemsTotal(bs[k].items)
         && forall j :: 0 <= j < |bs[k].items| ==> bs[k].items[j].orderId == bs[k].orderId
  }

  /** One iteration of the loop: `setdefault` then append and add. */
  function Place(bs: seq<Bucket>, it: OrderItem, o: Order): (r: seq<Bucket>)
    requires GroupOk(bs)
    ensures GroupOk(r)
    ensures Seqs.Elements(Keys(r)) == Seqs.Elements(Keys(bs)) + {it.orderId}
    ensures BucketsTotal(r) == BucketsTotal(bs) + it.totalPrice
    ensures ItemCount(r) == ItemCount(bs) + 1
  {
    match Seqs.FirstIndex(bs, (b: Bucket) => b.orderId == it.orderId)
    case Some(i) =>
      GrownOk(bs, i, it);
      bs[i := Grown(bs[i], it)]
    case None =>
      NewBucketOk(bs, it, o);
      bs + [Bucket(it.orderId, o, [it], 0.0 + it.totalPrice)]
  }

  /** The bucket of an order already met, with one more of its rows. */
  function Grown(b: Bucket, it: OrderItem): Bucket {
    b.(items := b.items + [it], total := b.total + it.totalPrice)
  }

  lemma GrownOk(bs: seq<Bucket>, i: nat, it: OrderItem)
    requires GroupOk(bs) && i < |bs| && bs[i].orderId == it.orderId
    ensures var r := bs[i := Grown(bs[i], it)];
      && GroupOk(r) && Seqs.Elements(Keys(r)) == Seqs.Elements(Keys(bs)) + {it.orderId}
      && BucketsTotal(r) == BucketsTotal(bs) + it.totalPrice
      && ItemCount(r) == ItemCount(bs) + 1
  {
    var b := Grown(bs[i], it);
    assert (bs[i].items + [it])[..|bs[i].items|] == bs[i].items;
    assert Keys(bs[i := b]) == Keys(bs);
    assert Keys(bs)[i] == it.orderId;
    UpdateTotals(bs, i, b);
  }

  lemma NewBucketOk(bs: seq<Bucket>, it: OrderItem, o: Order)
    requires GroupOk(bs) && forall k :: 0 <= k < |bs| ==> bs[k].orderId != it.orderId
    ensures var r := bs + [Bucket(it.orderId, o, [it], 0.0 + it.totalPrice)];
      && GroupOk(r) && Seqs.Elements(Keys(r)) == Seqs.Elements(Keys(bs)) + {it.orderId}
      && BucketsTotal(r) == BucketsTotal(bs) + it.totalPrice
      && ItemCount(r) == ItemCount(bs) + 1
  {
    var r := bs + [Bucket(it.orderId, o, [it], 0.0 + it.totalPrice)];
    assert [it][..0] == [];
    assert r[..|bs|] == bs;
    assert Keys(r) == Keys(bs) + [it.orderId];
    assert it.orderId !in Keys(bs);
  }

  /** Totals and counts after one bucket of the list is replaced. */
  lemma {:induction false} UpdateTotals(bs: seq<Bucket>, i: nat, b: Bucket)
    requires i < |bs|
    ensures BucketsTotal(bs[i := b]) == BucketsTotal(bs) - bs[i].total + b.total
    ensures ItemCount(bs[i := b]) == ItemCount(bs) - |bs[i].items| + |b.items|
  {
    var n := |bs| - 1;
    var r := bs[i := b];
    if i < n {
      UpdateTotals(bs[..n], i, b);
      assert r[..n] == bs[..n][i := b];
    } else {
      assert r[..n] == bs[..n];
    }
  }

  /** `list_orders_for_seller`'s loop: the buckets in the order their first row was met. */
  function Group(db: Db, xs: seq<OrderItem>): (bs: seq<Bucket>)
    requires forall it :: it in xs ==> OrderById(db, it.orderId).Some?
    ensures GroupOk(bs)
    ensures Seqs.Elements(Keys(bs)) == Seqs.Elements(OrderIds(xs))
    ensures BucketsTotal(bs) == ItemsTotal(xs)
    ensures ItemCount(bs) == |xs|
    ensures HoldsRows(db, bs, xs)
  {
    if xs == [] then []
    else
      var n := |xs| - 1;
      var prev := Group(db, xs[..n]);
      GroupStep(xs, prev, OrderById(db, xs[n].orderId).value);
      PlaceHoldsRows(db, xs, prev);
      Place(prev, xs[n], OrderById(db, xs[n].orderId).value)
  }

  /** Each bucket holds exactly the rows of `xs` that belong to its order, in the order they
      were met, together with that order's stored row. */
  ghost predicate HoldsRows(db: Db, bs: seq<Bucket>, xs: seq<OrderItem>) {
    forall k :: 0 <= k < |bs| ==>
      bs[k].items == RowsOf(xs, bs[k].orderId) && OrderById(db, bs[k].orderId) == Some(bs[k].order)
  }

  /** The rows of an order among `xs`, one row longer. */
  lemma RowsOfSnoc(xs: seq<OrderItem>, id: int)
    requires xs != []
    ensures var n := |xs| - 1;
      RowsOf(xs, id) == RowsOf(xs[..n], id) + (if xs[n].orderId == id then [xs[n]] else [])
  {
    var n := |xs| - 1;
    var f := (it: OrderItem) => it.orderId == id;
    assert xs == xs[..n] + [xs[n]];
    Seqs.FilterAppend(xs[..n], [xs[n]], f);
    assert [xs[n]][1..] == [];
  }

  /** An order none of whose rows is among `xs` has no rows there. */
  lemma RowsOfAbsent(xs: seq<OrderItem>, id: int)
    requires forall k :: 0 <= k < |xs| ==> xs[k].orderId != id
    ensures RowsOf(xs, id) == []
  {
  }

  /** Placing the last row keeps every bucket holding exactly its order's rows. */
  lemma PlaceHoldsRows(db: Db, xs: seq<OrderItem>, prev: seq<Bucket>)
    requires xs != [] && GroupOk(prev)
    requires OrderById(db, xs[|xs| - 1].orderId).Some?
    requires Seqs.Elements(Keys(prev)) == Seqs.Elements(OrderIds(xs[..|xs| - 1]))
    requires HoldsRows(db, prev, xs[..|xs| - 1])
    ensures HoldsRows(db, Place(prev, xs[|xs| - 1], OrderById(db, xs[|xs| - 1].orderId).value), xs)
  {
    var it := xs[|xs| - 1];
    match Seqs.FirstIndex(prev, (b: Bucket) => b.orderId == it.orderId)
    case Some(i) => GrownHoldsRows(db, xs, prev, i);
    case None => NewBucketHoldsRows(db, xs, prev);
  }

  lemma GrownHoldsRows(db: Db, xs: seq<OrderItem>, prev: seq<Bucket>, i: nat)
    requires xs != [] && Seqs.Distinct(Keys(prev))
    requires i < |prev| && prev[i].orderId == xs[|xs| - 1].orderId
    requires HoldsRows(db, prev, xs[..|xs| - 1])
    ensures HoldsRows(db, prev[i := Grown(prev[i], xs[|xs| - 1])], xs)
  {
    var r := prev[i := Grown(prev[i], xs[|xs| - 1])];
    forall k | 0 <= k < |r| ensures r[k].items == RowsOf(xs, r[k].orderId) && OrderById(db, r[k].orderId) == Some(r[k].order) {
      RowsOfSnoc(xs, r[k].orderId);
      if k != i {
        assert Keys(prev)[k] != Keys(prev)[i];
      }
    }
  }

  lemma NewBucketHoldsRows(db: Db, xs: seq<OrderItem>, prev: seq<Bucket>)
    requires xs != [] && OrderById(db, xs[|xs| - 1].orderId).Some?
    requires forall k :: 0 <= k < |prev| ==> prev[k].orderId != xs[|xs| - 1].orderId
    requires Seqs.Elements(Keys(prev)) == Seqs.Elements(OrderIds(xs[..|xs| - 1]))
    requires HoldsRows(db, prev, xs[..|xs| - 1])
    ensures var it := xs[|xs| - 1];
      HoldsRows(db, prev + [Bucket(it.orderId, OrderById(db, it.orderId).value, [it], 0.0 + it.totalPrice)], xs)
  {
    var n := |xs| - 1;
    var it := xs[n];
    var r := prev + [Bucket(it.orderId, OrderById(db, it.orderId).value, [it], 0.0 + it.totalPrice)];
    KeyAbsentFromRows(xs[..n], prev, it.orderId);
    RowsOfAbsent(xs[..n], it.orderId);
    RowsOfSnoc(xs, it.orderId);
    assert r[|prev|].items == RowsOf(xs, it.orderId);
    forall k | 0 <= k < |prev| ensures r[k].items == RowsOf(xs, r[k].orderId) && OrderById(db, r[k].orderId) == Some(r[k].order) {
      assert r[k] == prev[k];
      RowsOfSnoc(xs, r[k].orderId);
    }
  }

  /** An id that is no bucket's key is the order of none of the rows grouped so far. */
  lemma KeyAbsentFromRows(ys: seq<OrderItem>, prev: seq<Bucket>, id: int)
    requires forall k :: 0 <= k < |prev| ==> prev[k].orderId != id
    requires Seqs.Elements(Keys(prev)) == Seqs.Elements(OrderIds(ys))
    ensures forall j :: 0 <= j < |ys| ==> ys[j].orderId != id
  {
    forall j | 0 <= j < |ys| ensures ys[j].orderId != id {
      assert OrderIds(ys)[j] in Seqs.Elements(OrderIds(ys));
      var k :| 0 <= k < |Keys(prev)| && Keys(prev)[k] == ys[j].orderId;
    }
  }

  /** Placing the last row into the buckets of the rows before it groups all of them. */
  lemma GroupStep(xs: seq<OrderItem>, prev: seq<Bucket>, o: Order)
    requires xs != [] && GroupOk(prev)
    requires Seqs.Elements(Keys(prev)) == Seqs.Elements(OrderIds(xs[..|xs| - 1]))
    requires BucketsTotal(prev) == ItemsTotal(xs[..|xs| - 1]) && ItemCount(prev) == |xs| - 1
    ensures var r := Place(prev, xs[|xs| - 1], o);
      && GroupOk(r) && Seqs.Elements(Keys(r)) == Seqs.Elements(OrderIds(xs))
      && BucketsTotal(r) == ItemsTotal(xs) && ItemCount(r) == |xs|
  {
    var n := |xs| - 1;
    OrderIdsSnoc(xs);
    Seqs.ElementsSnoc(OrderIds(xs[..n]), xs[n].orderId);
  }

  function ListOrdersForSeller(db: Db, sellerId: int): seq<Bucket> {
    Group(db, SellerItems(db, sellerId))
  }

  datatype Stats = Stats(revenue: real, monthlyOrders: int, totalOrders: int)

  /** `created and created.month == now.month and created.year == now.year`. */
  predicate InMonth(o: Order, now: CalendarDate) {
    o.createdAt.Some? && o.createdAt.value.month == now.month && o.createdAt.value.year == now.year
  }

  /** The ids of the orders among the rows `xs` that were placed in `now`'s calendar month. */
  ghost function MonthlyOrderIds(db: Db, xs: seq<OrderItem>, now: CalendarDate): set<int> {
    set id | id in Seqs.Elements(OrderIds(xs)) && OrderById(db, id).Some? && InMonth(OrderById(db, id).value, now)
  }

  /** The keys of the buckets whose order was placed in `now`'s calendar month. */
  ghost function MonthKeys(bs: seq<Bucket>, now: CalendarDate): set<int> {
    set k | 0 <= k < |bs| && InMonth(bs[k].order, now) :: bs[k].orderId
  }

  /** The second loop of `seller_stats`. */
  function CountInMonth(bs: seq<Bucket>, now: CalendarDate): (n: nat)
    ensures n <= |bs|
  {
    if bs == [] then 0
    else CountInMonth(bs[..|bs| - 1], now) + (if InMonth(bs[|bs| - 1].order, now) then 1 else 0)
  }

  /** With one bucket per order, the loop counts the distinct orders of the month. */
  lemma {:induction false} CountIsMonthKeys(bs: seq<Bucket>, now: CalendarDate)
    requires Seqs.Distinct(Keys(bs))
    ensures CountInMonth(bs, now) == |MonthKeys(bs, now)|
  {
    if bs != [] {
      var n := |bs| - 1;
      DistinctKeysPrefix(bs);
      CountIsMonthKeys(bs[..n], now);
      MonthKeysSnoc(bs, now);
    }
  }

  /** The keys of a prefix stay distinct, and the last key is none of the prefix's keys. */
  lemma DistinctKeysPrefix(bs: seq<Bucket>)
    requires bs != [] && Seqs.Distinct(Keys(bs))
    ensures Seqs.Distinct(Keys(bs[..|bs| - 1]))
    ensures forall k :: 0 <= k < |bs| - 1 ==> bs[k].orderId != bs[|bs| - 1].orderId
  {
    var n := |bs| - 1;
    forall i, j | 0 <= i < j < n ensures Keys(bs[..n])[i] != Keys(bs[..n])[j] {
      assert Keys(bs)[i] != Keys(bs)[j];
    }
    forall k | 0 <= k < n ensures bs[k].orderId != bs[n].orderId {
      assert Keys(bs)[k] != Keys(bs)[n];
    }
  }

  /** The month's keys, one bucket longer. */
  lemma MonthKeysSnoc(bs: seq<Bucket>, now: CalendarDate)
    requires bs != []
    requires forall k :: 0 <= k < |bs| - 1 ==> bs[k].orderId != bs[|bs| - 1].orderId
    ensures var n := |bs| - 1;
      && bs[n].orderId !in MonthKeys(bs[..n], now)
      && MonthKeys(bs, now) == MonthKeys(bs[..n], now) + (if InMonth(bs[n].order, now) then {bs[n].orderId} else {})
  {
    var n := |bs| - 1;
    var last := bs[n];
    var before := MonthKeys(bs[..n], now);
    forall id | id in MonthKeys(bs, now) ensures id in before || (InMonth(last.order, now) && id == last.orderId) {
      var k :| 0 <= k < |bs| && InMonth(bs[k].order, now) && bs[k].orderId == id;
      if k < n {
        assert bs[..n][k] == bs[k];
      }
    }
    forall id | id in before ensures id in MonthKeys(bs, now) && id != last.orderId {
      var k :| 0 <= k < n && InMonth(bs[..n][k].order, now) && bs[..n][k].orderId == id;
      assert bs[k] == bs[..n][k];
    }
  }

  /** The buckets of the month are the month's orders among the grouped rows. */
  lemma MonthKeysAreMonthlyIds(db: Db, bs: seq<Bucket>, xs: seq<OrderItem>, now: CalendarDate)
    requires HoldsRows(db, bs, xs)
    requires Seqs.Elements(Keys(bs)) == Seqs.Elements(OrderIds(xs))
    ensures MonthKeys(bs, now) == MonthlyOrderIds(db, xs, now)
  {
    forall id | id in MonthKeys(bs, now) ensures id in MonthlyOrderIds(db, xs, now) {
      var k :| 0 <= k < |bs| && InMonth(bs[k].order, now) && bs[k].orderId == id;
      assert Keys(bs)[k] in Seqs.Elements(Keys(bs));
    }
    forall id | id in MonthlyOrderIds(db, xs, now) ensures id in MonthKeys(bs, now) {
      assert id in Seqs.Elements(Keys(bs));
      var k :| 0 <= k < |Keys(bs)| && Keys(bs)[k] == id;
      assert OrderById(db, bs[k].orderId) == Some(bs[k].order);
    }
  }

  /** `seller_stats`: revenue rounded to two decimals, orders placed in the current calendar
      month, and all orders holding at least one of the seller's rows. */
  function SellerStats(db: Db, sellerId: int, now: CalendarDate): (s: Stats)
    ensures s.totalOrders == |Seqs.Elements(OrderIds(SellerItems(db, sellerId)))|
    ensures ItemsTotal(SellerItems(db, sellerId)) - 0.005 <= s.revenue
    ensures s.revenue <= ItemsTotal(SellerItems(db, sellerId)) + 0.005
    ensures s.monthlyOrders == |MonthlyOrderIds(db, SellerItems(db, sellerId), now)|
    ensures 0 <= s.monthlyOrders <= s.totalOrders
  {
    var bs := ListOrdersForSeller(db, sellerId);
    Seqs.ElementsCard(Keys(bs));
    CountIsMonthKeys(bs, now);
    MonthKeysAreMonthlyIds(db, bs, SellerItems(db, sellerId), now);
    Stats(Money.PyRound2(BucketsTotal(bs)), CountInMonth(bs, now), |bs|)
  }
}
