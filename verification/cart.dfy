/** The client cart store (`frontend/context/CartContext.tsx`): an ordered list of
    line items keyed by product id, its mutations, its derived totals, and its
    write-through persistence in the browser slot `stylino_cart`. */
module Cart {
  import opened Wrappers
  import opened Json
  import Seqs
  import Storage

  datatype CartItem = CartItem(productId: int, name: string, price: real, quantity: int, image: Option<string>)

  /** What a caller hands to `addItem`: a product without a quantity. */
  datatype ProductInput = ProductInput(productId: int, name: string, price: real, image: Option<string>)

  /** The optional `quantity` argument of `addItem` as JavaScript sees it:
      left out (the default `1` applies), not a number, or an integer. */
  datatype QuantityArg = Omitted | NotANumber | Amount(n: int)

  type Cart = seq<CartItem>

  const CartKey: string := "stylino_cart"

  /** `quantity > 0 ? quantity : 1`; `NaN > 0` is false. */
  function SafeQuantity(q: QuantityArg): (k: int)
    ensures k >= 1
    ensures q.Amount? && q.n > 0 ==> k == q.n
  {
    match q
    case Amount(n) => if n > 0 then n else 1
    case _ => 1
  }

  predicate Has(items: Cart, id: int) {
    exists i :: 0 <= i < |items| && items[i].productId == id
  }

  /** No two entries share a product id. */
  ghost predicate UniqueIds(items: Cart) {
    forall i, j :: 0 <= i < j < |items| ==> items[i].productId != items[j].productId
  }

  ghost predicate PositiveQuantities(items: Cart) {
    forall i :: 0 <= i < |items| ==> items[i].quantity >= 1
  }

  /** The invariant every cart built by the store's own operations keeps. */
  ghost predicate Wellformed(items: Cart) {
    UniqueIds(items) && PositiveQuantities(items)
  }

  /** `items.find(p => p.productId === id)`: the first entry with that id. */
  function Find(items: Cart, id: int): (r: Option<CartItem>)
    ensures r.Some? <==> Has(items, id)
    ensures r.Some? ==> r.value in items && r.value.productId == id
  {
    if items == [] then None
    else if items[0].productId == id then Some(items[0])
    else
      var r := Find(items[1..], id);
      assert Has(items[1..], id) ==> Has(items, id) by {
        if Has(items[1..], id) {
          var i :| 0 <= i < |items[1..]| && items[1..][i].productId == id;
          assert items[i + 1].productId == id;
        }
      }
      r
  }

  /** In a cart with unique ids the entry `find` returns is the one at the id's position. */
  lemma {:induction false} FindUnique(items: Cart, i: int)
    requires UniqueIds(items) && 0 <= i < |items|
    ensures Find(items, items[i].productId) == Some(items[i])
  {
    if i > 0 {
      assert items[0].productId != items[i].productId;
      assert items[1..][i - 1] == items[i];
      FindUnique(items[1..], i - 1);
    }
  }

  /** Adds `k` to the quantity of every entry with product id `id`
      (`prev.map(p => p.productId === id ? {...p, quantity: p.quantity + k} : p)`). */
  function Bump(items: Cart, id: int, k: int): (r: Cart)
    ensures |r| == |items|
    ensures forall i :: 0 <= i < |items| ==>
      r[i] == (if items[i].productId == id then items[i].(quantity := items[i].quantity + k) else items[i])
  {
    if items == [] then []
    else [if items[0].productId == id then items[0].(quantity := items[0].quantity + k) else items[0]]
         + Bump(items[1..], id, k)
  }

  lemma HasAfterBump(items: Cart, id: int, k: int)
    requires Find(items, id).Some?
    ensures Has(Bump(items, id, k), id)
  {
    var i :| 0 <= i < |items| && items[i].productId == id;
    assert Bump(items, id, k)[i].productId == id;
  }

  /** `addItem(product, quantity)`: the product is in the cart afterwards, under one
      more entry only when it was not there before. */
  function AddItem(items: Cart, p: ProductInput, q: QuantityArg): (r: Cart)
    ensures Has(r, p.productId)
    ensures |r| == |items| + (if Has(items, p.productId) then 0 else 1)
    ensures !Has(items, p.productId) ==>
      r == items + [CartItem(p.productId, p.name, p.price, SafeQuantity(q), p.image)]
  {
    var k := SafeQuantity(q);
    if Find(items, p.productId).Some? then
      HasAfterBump(items, p.productId, k);
      Bump(items, p.productId, k)
    else
      var r := items + [CartItem(p.productId, p.name, p.price, k, p.image)];
      assert r[|items|].productId == p.productId;
      r
  }

  /** On a product already in the cart `addItem` raises that product's quantity by the
      clamped amount and changes nothing else, in place. */
  lemma AddExisting(items: Cart, p: ProductInput, q: QuantityArg)
    requires Has(items, p.productId)
    ensures var r := AddItem(items, p, q);
      && |r| == |items|
      && forall i :: 0 <= i < |items| ==>
        && r[i].productId == items[i].productId
        && r[i].name == items[i].name
        && r[i].price == items[i].price
        && r[i].image == items[i].image
        && r[i].quantity == items[i].quantity + (if items[i].productId == p.productId then SafeQuantity(q) else 0)
  {
    AddExistingBumps(items, p, q);
  }

  /** `removeItem(productId)`: every entry with that id goes; the rest keep their order. */
  function RemoveItem(items: Cart, id: int): (r: Cart)
    ensures !Has(r, id)
    ensures forall i :: 0 <= i < |items| && items[i].productId != id ==> items[i] in r
    ensures forall i :: 0 <= i < |r| ==> r[i] in items
    ensures Seqs.IsSubsequence(r, items)
  {
    Seqs.Filter(items, (x: CartItem) => x.productId != id)
  }

  /** `decrementItem(productId)`. */
  function DecrementItem(items: Cart, id: int): (r: Cart)
    ensures !Has(items, id) ==> r == items
    ensures Has(items, id) && Find(items, id).value.quantity <= 1 ==> r == RemoveItem(items, id)
    ensures Has(items, id) && Find(items, id).value.quantity > 1 ==>
      && |r| == |items|
      && forall i :: 0 <= i < |items| ==>
        r[i] == (if items[i].productId == id then items[i].(quantity := items[i].quantity - 1) else items[i])
  {
    match Find(items, id)
    case None => items
    case Some(existing) =>
      if existing.quantity <= 1 then RemoveItem(items, id) else Bump(items, id, -1)
  }

  /** `clearCart()`. */
  function ClearCart(items: Cart): (r: Cart)
    ensures |r| == 0
  {
    []
  }

  /** `isEmpty`. */
  function IsEmpty(items: Cart): (b: bool)
    ensures b <==> forall id :: !Has(items, id)
  {
    assert items != [] ==> Has(items, items[0].productId);
    |items| == 0
  }

  /** Reference definitions of the derived totals: Σ quantity and Σ price × quantity. */
  function QuantitySum(items: Cart): int {
    if items == [] then 0 else items[0].quantity + QuantitySum(items[1..])
  }

  function PriceSum(items: Cart): real {
    if items == [] then 0.0 else LineTotal(items[0]) + PriceSum(items[1..])
  }

  /** `item.price * item.quantity`. */
  function LineTotal(it: CartItem): real {
    it.price * it.quantity as real
  }

  /** `items.reduce((sum, item) => sum + item.price * item.quantity, 0)`. */
  method TotalPrice(items: Cart) returns (total: real)
    ensures total == PriceSum(items)
  {
    total := 0.0;
    var i := 0;
    while i < |items|
      invariant 0 <= i <= |items|
      invariant total + PriceSum(items[i..]) == PriceSum(items)
    {
      assert items[i..][1..] == items[i + 1..];
      total := total + items[i].price * items[i].quantity as real;
      i := i + 1;
    }
  }

  /** `items.reduce((sum, item) => sum + item.quantity, 0)`. */
  method TotalCount(items: Cart) returns (count: int)
    ensures count == QuantitySum(items)
  {
    count := 0;
    var i := 0;
    while i < |items|
      invariant 0 <= i <= |items|
      invariant count + QuantitySum(items[i..]) == QuantitySum(items)
    {
      assert items[i..][1..] == items[i + 1..];
      count := count + items[i].quantity;
      i := i + 1;
    }
  }

  /** In a well-formed cart the count is positive exactly when there is an entry,
      so `isEmpty` agrees with a zero count. */
  lemma {:induction false} EmptyIffZeroCount(items: Cart)
    requires PositiveQuantities(items)
    ensures IsEmpty(items) <==> QuantitySum(items) == 0
    ensures QuantitySum(items) >= |items|
  {
    if items != [] {
      assert PositiveQuantities(items[1..]) by {
        forall i | 0 <= i < |items[1..]| ensures items[1..][i].quantity >= 1 {
          assert items[1..][i] == items[i + 1];
        }
      }
      EmptyIffZeroCount(items[1..]);
    }
  }

  // ---------------------------------------------------------------------------
  // The invariant is kept by every operation.

  lemma AddKeepsWellformed(items: Cart, p: ProductInput, q: QuantityArg)
    requires Wellformed(items)
    ensures Wellformed(AddItem(items, p, q))
  {
  }

  lemma RemoveKeepsWellformed(items: Cart, id: int)
    requires Wellformed(items)
    ensures Wellformed(RemoveItem(items, id))
  {
    SubsequenceKeepsWellformed(RemoveItem(items, id), items);
  }

  lemma DecrementKeepsWellformed(items: Cart, id: int)
    requires Wellformed(items)
    ensures Wellformed(DecrementItem(items, id))
  {
    if Has(items, id) {
      var e := Find(items, id).value;
      if e.quantity <= 1 {
        RemoveKeepsWellformed(items, id);
      } else {
        var r := DecrementItem(items, id);
        forall i | 0 <= i < |items| && items[i].productId == id
          ensures r[i].quantity >= 1
        {
          FindUnique(items, i);
        }
      }
    }
  }

  /** Deleting entries cannot break uniqueness or positivity. */
  lemma {:induction false} SubsequenceKeepsWellformed(a: Cart, b: Cart)
    requires Seqs.IsSubsequence(a, b) && Wellformed(b)
    ensures Wellformed(a)
    decreases |b|
  {
    if a != [] {
      assert Wellformed(b[1..]) by {
        forall i, j | 0 <= i < j < |b[1..]| ensures b[1..][i].productId != b[1..][j].productId {
          assert b[1..][i] == b[i + 1] && b[1..][j] == b[j + 1];
        }
        forall i | 0 <= i < |b[1..]| ensures b[1..][i].quantity >= 1 {
          assert b[1..][i] == b[i + 1];
        }
      }
      if a[0] == b[0] && Seqs.IsSubsequence(a[1..], b[1..]) {
        SubsequenceKeepsWellformed(a[1..], b[1..]);
        Seqs.SubsequenceMembers(a[1..], b[1..]);
        forall j | 0 < j < |a| ensures a[0].productId != a[j].productId {
          assert a[j] == a[1..][j - 1];
          var k :| 0 <= k < |b[1..]| && b[1..][k] == a[1..][j - 1];
          assert b[k + 1] == a[j];
        }
        forall i, j | 0 <= i < j < |a| ensures a[i].productId != a[j].productId {
          if i > 0 { assert a[i] == a[1..][i - 1] && a[j] == a[1..][j - 1]; }
        }
        forall i | 0 <= i < |a| ensures a[i].quantity >= 1 {
          if i > 0 { assert a[i] == a[1..][i - 1]; }
        }
      } else {
        SubsequenceKeepsWellformed(a, b[1..]);
      }
    }
  }

  // ---------------------------------------------------------------------------
  // How the operations move the totals.

  /** Σ quantity and Σ price × quantity over the entries with product id `id`. */
  function QuantityOf(items: Cart, id: int): int {
    if items == [] then 0
    else (if items[0].productId == id then items[0].quantity else 0) + QuantityOf(items[1..], id)
  }

  function UnitPriceOf(items: Cart, id: int): real {
    if items == [] then 0.0
    else (if items[0].productId == id then items[0].price else 0.0) + UnitPriceOf(items[1..], id)
  }

  /** One step of `Bump` at the head of the list. */
  lemma BumpCons(items: Cart, id: int, k: int)
    requires items != []
    ensures Bump(items, id, k) == [BumpOne(items[0], id, k)] + Bump(items[1..], id, k)
  {
  }

  function BumpOne(x: CartItem, id: int, k: int): CartItem {
    if x.productId == id then x.(quantity := x.quantity + k) else x
  }

  lemma {:induction false} BumpQuantity(items: Cart, id: int, k: int)
    ensures QuantitySum(Bump(items, id, k)) == QuantitySum(items) + k * Occurrences(items, id)
  {
    if items != [] {
      var rest := Bump(items[1..], id, k);
      BumpCons(items, id, k);
      assert ([BumpOne(items[0], id, k)] + rest)[1..] == rest;
      BumpQuantity(items[1..], id, k);
    }
  }

  lemma {:induction false} BumpPrice(items: Cart, id: int, k: int)
    ensures PriceSum(Bump(items, id, k)) == PriceSum(items) + Scale(k, UnitPriceOf(items, id))
  {
    if items == [] {
      assert Scale(k, 0.0) == 0.0 by { ScaleIsProduct(k, 0.0); }
    } else {
      var x := items[0];
      var rest := Bump(items[1..], id, k);
      BumpCons(items, id, k);
      assert ([BumpOne(x, id, k)] + rest)[1..] == rest;
      BumpPrice(items[1..], id, k);
      var u := UnitPriceOf(items[1..], id);
      assert PriceSum(Bump(items, id, k)) == LineTotal(BumpOne(x, id, k)) + PriceSum(rest);
      if x.productId == id {
        LineDistributes(x, k);
        ScaleAdd(k, x.price, u);
      } else {
        assert UnitPriceOf(items, id) == u;
      }
    }
  }

  lemma BumpSums(items: Cart, id: int, k: int)
    ensures QuantitySum(Bump(items, id, k)) == QuantitySum(items) + k * Occurrences(items, id)
    ensures PriceSum(Bump(items, id, k)) == PriceSum(items) + Scale(k, UnitPriceOf(items, id))
  {
    BumpQuantity(items, id, k);
    BumpPrice(items, id, k);
  }

  /** Raising a line's quantity by `k` raises its total by `k` unit prices. */
  lemma LineDistributes(x: CartItem, k: int)
    ensures LineTotal(x.(quantity := x.quantity + k)) == LineTotal(x) + Scale(k, x.price)
  {
    ScaleIsProduct(k, x.price);
  }

  /** `k` copies of `x` added up (or taken away, for negative `k`); equal to `k * x`
      by `ScaleIsProduct`, but free of multiplication, which keeps the totals lemmas
      in linear arithmetic. */
  function Scale(k: int, x: real): real
    decreases if k >= 0 then k else -k
  {
    if k == 0 then 0.0 else if k > 0 then Scale(k - 1, x) + x else Scale(k + 1, x) - x
  }

  lemma {:induction false} ScaleAdd(k: int, a: real, b: real)
    ensures Scale(k, a + b) == Scale(k, a) + Scale(k, b)
    decreases if k >= 0 then k else -k
  {
    if k > 0 {
      ScaleAdd(k - 1, a, b);
    } else if k < 0 {
      ScaleAdd(k + 1, a, b);
    }
  }

  lemma {:induction false} ScaleIsProduct(k: int, x: real)
    ensures Scale(k, x) == k as real * x
    decreases if k >= 0 then k else -k
  {
    if k > 0 {
      ScaleIsProduct(k - 1, x);
    } else if k < 0 {
      ScaleIsProduct(k + 1, x);
    }
  }

  function Occurrences(items: Cart, id: int): nat {
    if items == [] then 0 else (if items[0].productId == id then 1 else 0) + Occurrences(items[1..], id)
  }

  /** One step of `removeItem` at the head of the list. */
  lemma RemoveCons(items: Cart, id: int)
    requires items != []
    ensures items[0].productId != id ==> RemoveItem(items, id) == [items[0]] + RemoveItem(items[1..], id)
    ensures items[0].productId == id ==> RemoveItem(items, id) == RemoveItem(items[1..], id)
  {
  }

  lemma {:induction false} RemoveSums(items: Cart, id: int)
    ensures QuantitySum(RemoveItem(items, id)) == QuantitySum(items) - QuantityOf(items, id)
    ensures PriceSum(RemoveItem(items, id)) == PriceSum(items) - PriceOfEntries(items, id)
  {
    if items != [] {
      var rest := RemoveItem(items[1..], id);
      RemoveSums(items[1..], id);
      RemoveCons(items, id);
      if items[0].productId != id {
        assert ([items[0]] + rest)[1..] == rest;
      }
    }
  }

  function PriceOfEntries(items: Cart, id: int): real {
    if items == [] then 0.0
    else (if items[0].productId == id then LineTotal(items[0]) else 0.0)
         + PriceOfEntries(items[1..], id)
  }

  /** With unique ids an id present in the cart has exactly one entry, and the
      per-id sums read that entry. */
  lemma {:induction false} UniqueEntrySums(items: Cart, i: int)
    requires UniqueIds(items) && 0 <= i < |items|
    ensures Occurrences(items, items[i].productId) == 1
    ensures QuantityOf(items, items[i].productId) == items[i].quantity
    ensures UnitPriceOf(items, items[i].productId) == items[i].price
    ensures PriceOfEntries(items, items[i].productId) == LineTotal(items[i])
  {
    var id := items[i].productId;
    if i == 0 {
      AbsentSums(items[1..], id);
    } else {
      assert items[1..][i - 1] == items[i];
      UniqueEntrySums(items[1..], i - 1);
    }
  }

  lemma {:induction false} AbsentSums(items: Cart, id: int)
    requires forall j :: 0 <= j < |items| ==> items[j].productId != id
    ensures Occurrences(items, id) == 0 && QuantityOf(items, id) == 0
    ensures UnitPriceOf(items, id) == 0.0 && PriceOfEntries(items, id) == 0.0
  {
    if items != [] {
      AbsentSums(items[1..], id);
    }
  }

  lemma {:induction false} SumsAppend(items: Cart, e: CartItem)
    ensures QuantitySum(items + [e]) == QuantitySum(items) + e.quantity
    ensures PriceSum(items + [e]) == PriceSum(items) + LineTotal(e)
  {
    if items == [] {
      assert [] + [e] == [e];
    } else {
      assert (items + [e])[1..] == items[1..] + [e];
      SumsAppend(items[1..], e);
    }
  }

  /** `addItem` raises the count by the clamped quantity and the total price by that
      many units at the price already in the cart (or the given price for a new entry). */
  lemma AddTotals(items: Cart, p: ProductInput, q: QuantityArg)
    requires UniqueIds(items)
    ensures QuantitySum(AddItem(items, p, q)) == QuantitySum(items) + SafeQuantity(q)
    ensures PriceSum(AddItem(items, p, q)) ==
      PriceSum(items) + Scale(SafeQuantity(q), if Has(items, p.productId) then Find(items, p.productId).value.price else p.price)
  {
    if Has(items, p.productId) {
      AddExistingTotals(items, p, q);
    } else {
      AddNewTotals(items, p, q);
    }
  }

  lemma AddExistingTotals(items: Cart, p: ProductInput, q: QuantityArg)
    requires UniqueIds(items) && Has(items, p.productId)
    ensures QuantitySum(AddItem(items, p, q)) == QuantitySum(items) + SafeQuantity(q)
    ensures PriceSum(AddItem(items, p, q)) == PriceSum(items) + Scale(SafeQuantity(q), Find(items, p.productId).value.price)
  {
    var i :| 0 <= i < |items| && items[i].productId == p.productId;
    AddExistingBumps(items, p, q);
    UniqueEntrySums(items, i);
    FindUnique(items, i);
    BumpSums(items, p.productId, SafeQuantity(q));
  }

  lemma AddExistingBumps(items: Cart, p: ProductInput, q: QuantityArg)
    requires Has(items, p.productId)
    ensures AddItem(items, p, q) == Bump(items, p.productId, SafeQuantity(q))
  {
  }

  lemma AddNewTotals(items: Cart, p: ProductInput, q: QuantityArg)
    requires !Has(items, p.productId)
    ensures QuantitySum(AddItem(items, p, q)) == QuantitySum(items) + SafeQuantity(q)
    ensures PriceSum(AddItem(items, p, q)) == PriceSum(items) + Scale(SafeQuantity(q), p.price)
  {
    var e := CartItem(p.productId, p.name, p.price, SafeQuantity(q), p.image);
    AddNewAppends(items, p, q);
    SumsAppend(items, e);
  }

  lemma AddNewAppends(items: Cart, p: ProductInput, q: QuantityArg)
    requires !Has(items, p.productId)
    ensures AddItem(items, p, q) == items + [CartItem(p.productId, p.name, p.price, SafeQuantity(q), p.image)]
    ensures LineTotal(CartItem(p.productId, p.name, p.price, SafeQuantity(q), p.image)) == Scale(SafeQuantity(q), p.price)
  {
    ScaleIsProduct(SafeQuantity(q), p.price);
  }

  /** `removeItem` takes away exactly the removed entry's share of both totals. */
  lemma RemoveTotals(items: Cart, id: int)
    requires UniqueIds(items)
    ensures !Has(items, id) ==> RemoveItem(items, id) == items
    ensures Has(items, id) ==>
      && QuantitySum(RemoveItem(items, id)) == QuantitySum(items) - Find(items, id).value.quantity
      && PriceSum(RemoveItem(items, id)) == PriceSum(items) - LineTotal(Find(items, id).value)
  {
    RemoveSums(items, id);
    if Has(items, id) {
      var i :| 0 <= i < |items| && items[i].productId == id;
      UniqueEntrySums(items, i);
      FindUnique(items, i);
    } else {
      Seqs.FilterAll(items, (x: CartItem) => x.productId != id);
    }
  }

  /** In a well-formed cart `decrementItem` of a present id lowers the count by exactly one
      and the total by one unit price; it leaves an absent id's cart alone. */
  lemma DecrementTotals(items: Cart, id: int)
    requires Wellformed(items)
    ensures Has(items, id) ==>
      && QuantitySum(DecrementItem(items, id)) == QuantitySum(items) - 1
      && PriceSum(DecrementItem(items, id)) == PriceSum(items) - Find(items, id).value.price
  {
    if Has(items, id) {
      var i :| 0 <= i < |items| && items[i].productId == id;
      FindUnique(items, i);
      DecrementCases(items, id);
      if items[i].quantity <= 1 {
        DecrementLastTotals(items, i);
      } else {
        DecrementOneTotals(items, i);
      }
    }
  }

  lemma DecrementLastTotals(items: Cart, i: int)
    requires UniqueIds(items) && 0 <= i < |items| && items[i].quantity == 1
    ensures QuantitySum(RemoveItem(items, items[i].productId)) == QuantitySum(items) - 1
    ensures PriceSum(RemoveItem(items, items[i].productId)) == PriceSum(items) - items[i].price
  {
    UniqueEntrySums(items, i);
    RemoveSums(items, items[i].productId);
    assert LineTotal(items[i]) == items[i].price;
  }

  lemma DecrementOneTotals(items: Cart, i: int)
    requires UniqueIds(items) && 0 <= i < |items|
    ensures QuantitySum(Bump(items, items[i].productId, -1)) == QuantitySum(items) - 1
    ensures PriceSum(Bump(items, items[i].productId, -1)) == PriceSum(items) - items[i].price
  {
    UniqueEntrySums(items, i);
    BumpSums(items, items[i].productId, -1);
    assert Scale(-1, items[i].price) == -items[i].price;
  }

  /** `decrementItem` of a present id is a removal or a bump by minus one. */
  lemma DecrementCases(items: Cart, id: int)
    requires Has(items, id)
    ensures Find(items, id).value.quantity <= 1 ==> DecrementItem(items, id) == RemoveItem(items, id)
    ensures Find(items, id).value.quantity > 1 ==> DecrementItem(items, id) == Bump(items, id, -1)
  {
  }

  // ---------------------------------------------------------------------------
  // Merging and decrementing to zero.

  datatype AddCall = AddCall(product: ProductInput, quantity: QuantityArg)

  /** The cart after the given `addItem` calls, in order. */
  function AddAll(items: Cart, calls: seq<AddCall>): Cart
    decreases |calls|
  {
    if calls == [] then items
    else
      var last := calls[|calls| - 1];
      AddItem(AddAll(items, calls[..|calls| - 1]), last.product, last.quantity)
  }

  /** Σ of the clamped quantities of the calls. */
  function ClampedSum(calls: seq<AddCall>): int
    decreases |calls|
  {
    if calls == [] then 0 else ClampedSum(calls[..|calls| - 1]) + SafeQuantity(calls[|calls| - 1].quantity)
  }

  /** Adding to the product of the last entry, when no earlier entry has it, bumps that entry only. */
  lemma AddToLast(items: Cart, e: CartItem, p: ProductInput, q: QuantityArg, total: int)
    requires !Has(items, e.productId) && p.productId == e.productId
    requires total == e.quantity + SafeQuantity(q)
    ensures AddItem(items + [e], p, q) == items + [e.(quantity := total)]
  {
    BumpLast(items, e, SafeQuantity(q), total);
    AddAfterLast(items, e, p, q);
  }

  lemma AddAfterLast(items: Cart, e: CartItem, p: ProductInput, q: QuantityArg)
    requires p.productId == e.productId
    ensures AddItem(items + [e], p, q) == Bump(items + [e], e.productId, SafeQuantity(q))
  {
    HasLast(items, e);
    AddExistingBumps(items + [e], p, q);
  }

  lemma HasLast(items: Cart, e: CartItem)
    ensures Has(items + [e], e.productId)
  {
    assert (items + [e])[|items|] == e;
  }

  lemma BumpLast(items: Cart, e: CartItem, k: int, total: int)
    requires !Has(items, e.productId) && total == e.quantity + k
    ensures Bump(items + [e], e.productId, k) == items + [e.(quantity := total)]
  {
    var cart := items + [e];
    var e' := e.(quantity := total);
    var r := Bump(cart, e.productId, k);
    forall j | 0 <= j < |r| ensures r[j] == (items + [e'])[j] {
      if j < |items| {
        assert cart[j] == items[j] && items[j].productId != e.productId;
      }
    }
    assert r == items + [e'];
  }

  /** One more call for the product of the last entry folds into that entry. */
  lemma MergeStep(items: Cart, calls: seq<AddCall>, e: CartItem, total: int)
    requires |calls| >= 2 && !Has(items, e.productId)
    requires calls[|calls| - 1].product.productId == e.productId
    requires AddAll(items, calls[..|calls| - 1]) == items + [e]
    requires total == e.quantity + SafeQuantity(calls[|calls| - 1].quantity)
    ensures AddAll(items, calls) == items + [e.(quantity := total)]
  {
    var last := calls[|calls| - 1];
    AddToLast(items, e, last.product, last.quantity, total);
    AddAllLast(items, calls, items + [e]);
  }

  lemma AddAllLast(items: Cart, calls: seq<AddCall>, before: Cart)
    requires calls != [] && AddAll(items, calls[..|calls| - 1]) == before
    ensures AddAll(items, calls) == AddItem(before, calls[|calls| - 1].product, calls[|calls| - 1].quantity)
  {
  }

  /** Repeated `addItem` calls for one product that is not yet in the cart leave exactly one
      entry for it, at the end, whose quantity is the sum of the clamped quantities and
      whose name, price and image are those of the first call. */
  lemma {:induction false} MergeInvariant(items: Cart, calls: seq<AddCall>)
    requires |calls| >= 1
    requires forall j :: 0 <= j < |calls| ==> calls[j].product.productId == calls[0].product.productId
    requires !Has(items, calls[0].product.productId)
    ensures var p := calls[0].product;
      AddAll(items, calls) == items + [CartItem(p.productId, p.name, p.price, ClampedSum(calls), p.image)]
    decreases |calls|
  {
    var p := calls[0].product;
    var n := |calls|;
    var prefix := calls[..n - 1];
    if n == 1 {
      assert prefix == [];
    } else {
      assert prefix[0] == calls[0];
      assert forall j :: 0 <= j < |prefix| ==> prefix[j] == calls[j];
      MergeInvariant(items, prefix);
      var e := CartItem(p.productId, p.name, p.price, ClampedSum(prefix), p.image);
      MergeStep(items, calls, e, ClampedSum(calls));
    }
  }

  function DecrementTimes(items: Cart, id: int, n: nat): Cart
    decreases n
  {
    if n == 0 then items else DecrementTimes(DecrementItem(items, id), id, n - 1)
  }

  lemma {:induction false} RemoveAfterBump(items: Cart, id: int, k: int)
    ensures RemoveItem(Bump(items, id, k), id) == RemoveItem(items, id)
  {
    if items != [] {
      RemoveAfterBump(items[1..], id, k);
      assert Bump(items, id, k)[1..] == Bump(items[1..], id, k);
    }
  }

  /** Decrementing an entry of quantity `n` exactly `n` times removes it and leaves
      every other entry as it was. */
  lemma {:induction false} DecrementToZero(items: Cart, i: int)
    requires Wellformed(items) && 0 <= i < |items|
    ensures DecrementTimes(items, items[i].productId, items[i].quantity) == RemoveItem(items, items[i].productId)
    decreases items[i].quantity
  {
    var id := items[i].productId;
    FindUnique(items, i);
    if items[i].quantity > 1 {
      var next := DecrementItem(items, id);
      DecrementKeepsWellformed(items, id);
      assert next[i].quantity == items[i].quantity - 1 && next[i].productId == id;
      DecrementToZero(next, i);
      RemoveAfterBump(items, id, -1);
    } else {
      RemoveKeepsWellformed(items, id);
      assert DecrementTimes(items, id, 1) == DecrementTimes(RemoveItem(items, id), id, 0);
    }
  }

  /** The worked example: quantity 2 at 1000, add one, decrement twice, decrement once more. */
  lemma ExampleScenario()
    ensures var a := [CartItem(1, "A", 1000.0, 2, None)];
      var b := AddItem(a, ProductInput(1, "A", 1000.0, None), Amount(1));
      var c := DecrementItem(DecrementItem(b, 1), 1);
      var d := DecrementItem(c, 1);
      && b == [CartItem(1, "A", 1000.0, 3, None)] && PriceSum(b) == 3000.0
      && c == [CartItem(1, "A", 1000.0, 1, None)] && PriceSum(c) == 1000.0
      && d == [] && IsEmpty(d) && PriceSum(d) == 0.0
  {
    var a := [CartItem(1, "A", 1000.0, 2, None)];
    var b := AddItem(a, ProductInput(1, "A", 1000.0, None), Amount(1));
    assert Has(a, 1) by { assert a[0].productId == 1; }
    assert b == [CartItem(1, "A", 1000.0, 3, None)];
    var b1 := DecrementItem(b, 1);
    assert Has(b, 1) by { assert b[0].productId == 1; }
    assert b1 == [CartItem(1, "A", 1000.0, 2, None)];
    var c := DecrementItem(b1, 1);
    assert Has(b1, 1) by { assert b1[0].productId == 1; }
    assert c == [CartItem(1, "A", 1000.0, 1, None)];
    assert Has(c, 1) by { assert c[0].productId == 1; }
    assert !Has(DecrementItem(c, 1), 1);
  }

  // ---------------------------------------------------------------------------
  // Persistence: `JSON.stringify(items)` written to `stylino_cart`, and the reload.

  function ItemToJson(it: CartItem): Json {
    var base := map["productId" := JNum(it.productId as real), "name" := JStr(it.name),
                    "price" := JNum(it.price), "quantity" := JNum(it.quantity as real)];
    JObj(if it.image.Some? then base["image" := JStr(it.image.value)] else base)
  }

  /** Reads one stored entry back; `None` when the value does not have the entry's shape. */
  function ItemFromJson(j: Json): Option<CartItem> {
    if !j.JObj? then None
    else
      var f := j.fields;
      var id := AsInt(Get(f, "productId"));
      var name := AsString(Get(f, "name"));
      var price := Get(f, "price");
      var qty := AsInt(Get(f, "quantity"));
      var image := if "image" in f then AsString(f["image"]) else None;
      if id.None? || name.None? || !price.JNum? || qty.None? || ("image" in f && image.None?) then None
      else Some(CartItem(id.value, name.value, price.n, qty.value, image))
  }

  lemma ItemRoundTrip(it: CartItem)
    ensures ItemFromJson(ItemToJson(it)) == Some(it)
  {
    assert (it.productId as real).Floor == it.productId;
    assert (it.quantity as real).Floor == it.quantity;
  }

  /** The value written to the slot after every mutation. */
  function Serialize(items: Cart): Json {
    Storage.Serialize(items, ItemToJson)
  }

  /** The cart installed at start-up from the slot's text (see `Storage.Load`). */
  function Load(slot: Option<string>, parse: string -> Option<Json>): Cart {
    Storage.Load(slot, parse, ItemFromJson)
  }

  /** Reloading a slot whose text parses back to what was saved restores the cart
      item for item, so the cart's invariant survives a page reload. */
  lemma LoadAfterSave(items: Cart, text: string, parse: string -> Option<Json>)
    requires Wellformed(items)
    requires text != "" && parse(text) == Some(Serialize(items))
    ensures Load(Some(text), parse) == items && Wellformed(Load(Some(text), parse))
  {
    forall it: CartItem ensures ItemFromJson(ItemToJson(it)) == Some(it) {
      ItemRoundTrip(it);
    }
    Storage.LoadAfterSave(items, text, parse, ItemToJson, ItemFromJson);
  }
}
