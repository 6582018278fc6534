/** The catalogue page (`frontend/app/products/page.tsx`): the products the API lists,
    narrowed to one category, ordered by the chosen sort, and mapped to the cards the
    product grid shows. */
module Catalog {
  import opened Wrappers
  import Store
  import Seqs
  import Orders

  type Product = Store.Product

  /** `priceOf`: the discount price whenever there is one (`??`, so a zero discount counts). */
  function PriceOf(p: Product): real {
    if p.discountPrice.Some? then p.discountPrice.value else p.basePrice
  }

  /** The price a shopper sees in the catalogue is the unit price an order charges. */
  lemma PriceAgreesWithOrder(p: Product)
    ensures PriceOf(p) == Orders.UnitPrice(p)
  {
  }

  /** The category buttons: "all", or one category id. */
  datatype CategoryChoice = AllCategories | OnlyCategory(id: int)

  datatype SortOption = Newest | PriceAsc | PriceDesc | ByName

  function InCategory(id: int): Product -> bool {
    (p: Product) => p.categoryId == id
  }

  /** The category filter. */
  function Selected(products: seq<Product>, choice: CategoryChoice): (r: seq<Product>)
    ensures choice == AllCategories ==> r == products
    ensures choice.OnlyCategory? ==>
      && (forall k :: 0 <= k < |r| ==> r[k].categoryId == choice.id && r[k] in products)
      && (forall k :: 0 <= k < |products| && products[k].categoryId == choice.id ==> products[k] in r)
      && Seqs.IsSubsequence(r, products)
  {
    match choice
    case AllCategories => products
    case OnlyCategory(id) => Seqs.Filter(products, InCategory(id))
  }

  /** The comparator handed to `sort`; `collate` is `localeCompare(·, "fa")`. */
  function Compare(order: SortOption, collate: (string, string) -> int): (Product, Product) -> real {
    match order
    case PriceAsc => (a: Product, b: Product) => PriceOf(a) - PriceOf(b)
    case PriceDesc => (a: Product, b: Product) => PriceOf(b) - PriceOf(a)
    case ByName => (a: Product, b: Product) => collate(a.name, b.name) as real
    case Newest => (a: Product, b: Product) => (b.id - a.id) as real
  }

  /** Places `x` in front of the first element it does not have to follow; `x` came before
      every element of `s`, so ties keep their original order. */
  function Insert(x: Product, s: seq<Product>, cmp: (Product, Product) -> real): (r: seq<Product>)
    ensures multiset(r) == multiset(s) + multiset{x}
  {
    if s == [] || cmp(x, s[0]) <= 0.0 then [x] + s
    else
      var rest := Insert(x, s[1..], cmp);
      assert s == [s[0]] + s[1..];
      [s[0]] + rest
  }

  /** A stable sort with comparator `cmp` (what `Array.prototype.sort` is). */
  function SortBy(s: seq<Product>, cmp: (Product, Product) -> real): (r: seq<Product>)
    ensures multiset(r) == multiset(s)
  {
    if s == [] then []
    else
      assert s == [s[0]] + s[1..];
      Insert(s[0], SortBy(s[1..], cmp), cmp)
  }

  /** `filteredProducts`: a sorted copy of the selected products. */
  function FilteredProducts(products: seq<Product>, choice: CategoryChoice, order: SortOption,
                            collate: (string, string) -> int): (r: seq<Product>)
    // A permutation of the category's products.
    ensures multiset(r) == multiset(Selected(products, choice))
    ensures |r| == |Selected(products, choice)|
  {
    var r := SortBy(Selected(products, choice), Compare(order, collate));
    assert |r| == |multiset(r)|;
    r
  }

  ghost predicate SortedBy(s: seq<Product>, key: Product -> real) {
    forall i, j :: 0 <= i < j < |s| ==> key(s[i]) <= key(s[j])
  }

  /** A comparator that subtracts keys sorts by that key. */
  ghost predicate ComparesKeys(cmp: (Product, Product) -> real, key: Product -> real) {
    forall a, b :: cmp(a, b) == key(a) - key(b)
  }

  lemma {:induction false} InsertSorted(x: Product, s: seq<Product>, cmp: (Product, Product) -> real, key: Product -> real)
    requires ComparesKeys(cmp, key) && SortedBy(s, key)
    ensures SortedBy(Insert(x, s, cmp), key)
  {
    if s == [] || cmp(x, s[0]) <= 0.0 {
      if s != [] {
        assert key(x) <= key(s[0]);
      }
      ConsSorted(x, s, key);
    } else {
      var rest := Insert(x, s[1..], cmp);
      TailSorted(s, key);
      InsertSorted(x, s[1..], cmp, key);
      var lo := key(s[0]);
      assert forall k :: 0 <= k < |[x] + s[1..]| ==> lo <= key(([x] + s[1..])[k]) by {
        assert lo < key(x);
        forall k | 0 <= k < |[x] + s[1..]| ensures lo <= key(([x] + s[1..])[k]) {
          if k > 0 { assert ([x] + s[1..])[k] == s[k]; }
        }
      }
      Seqs.AllOfPermutation(rest, [x] + s[1..], (y: Product) => lo <= key(y));
      ConsSorted(s[0], rest, key);
    }
  }

  lemma TailSorted(s: seq<Product>, key: Product -> real)
    requires s != [] && SortedBy(s, key)
    ensures SortedBy(s[1..], key)
  {
    forall i, j | 0 <= i < j < |s| - 1 ensures key(s[1..][i]) <= key(s[1..][j]) {
      assert s[1..][i] == s[i + 1] && s[1..][j] == s[j + 1];
    }
  }

  /** A sorted list stays sorted behind an element no greater than its first. */
  lemma ConsSorted(y: Product, t: seq<Product>, key: Product -> real)
    requires SortedBy(t, key)
    requires t != [] ==> key(y) <= key(t[0])
    ensures SortedBy([y] + t, key)
  {
    var r := [y] + t;
    forall i, j | 0 <= i < j < |r| ensures key(r[i]) <= key(r[j]) {
      assert r[j] == t[j - 1];
      if i > 0 {
        assert r[i] == t[i - 1];
      } else if j > 1 {
        assert key(t[0]) <= key(t[j - 1]);
      }
    }
  }

  lemma {:induction false} SortSorted(s: seq<Product>, cmp: (Product, Product) -> real, key: Product -> real)
    requires ComparesKeys(cmp, key)
    ensures SortedBy(SortBy(s, cmp), key)
  {
    if s != [] {
      SortSorted(s[1..], cmp, key);
      InsertSorted(s[0], SortBy(s[1..], cmp), cmp, key);
    }
  }

  function PriceKey(p: Product): real { PriceOf(p) }
  function NegatedPriceKey(p: Product): real { -PriceOf(p) }
  function NegatedIdKey(p: Product): real { -(p.id as real) }

  /** "Cheapest first" lists prices in non-decreasing order, "most expensive first" in
      non-increasing order, and "newest" lists ids in non-increasing order. */
  lemma SortOrders(products: seq<Product>, choice: CategoryChoice, collate: (string, string) -> int)
    ensures var r := FilteredProducts(products, choice, PriceAsc, collate);
      forall i, j :: 0 <= i < j < |r| ==> PriceOf(r[i]) <= PriceOf(r[j])
    ensures var r := FilteredProducts(products, choice, PriceDesc, collate);
      forall i, j :: 0 <= i < j < |r| ==> PriceOf(r[i]) >= PriceOf(r[j])
    ensures var r := FilteredProducts(products, choice, Newest, collate);
      forall i, j :: 0 <= i < j < |r| ==> r[i].id >= r[j].id
  {
    assert ComparesKeys(Compare(PriceAsc, collate), PriceKey);
    FilteredSorted(products, choice, PriceAsc, collate, PriceKey);
    assert ComparesKeys(Compare(PriceDesc, collate), NegatedPriceKey);
    FilteredSorted(products, choice, PriceDesc, collate, NegatedPriceKey);
    assert ComparesKeys(Compare(Newest, collate), NegatedIdKey);
    FilteredSorted(products, choice, Newest, collate, NegatedIdKey);
  }

  /** The sorted copy is in key order whenever the chosen comparator subtracts keys. */
  lemma FilteredSorted(products: seq<Product>, choice: CategoryChoice, order: SortOption,
                       collate: (string, string) -> int, key: Product -> real)
    requires ComparesKeys(Compare(order, collate), key)
    ensures SortedBy(FilteredProducts(products, choice, order, collate), key)
  {
    SortSorted(Selected(products, choice), Compare(order, collate), key);
  }

  /** No two products share an id (the primary key the API serves). */
  ghost predicate IdsDistinct(s: seq<Product>) {
    forall i, j :: 0 <= i < j < |s| ==> s[i].id != s[j].id
  }

  lemma {:induction false} FilterKeepsIdsDistinct(s: seq<Product>, p: Product -> bool)
    requires IdsDistinct(s)
    ensures IdsDistinct(Seqs.Filter(s, p))
  {
    if s != [] {
      var rest := Seqs.Filter(s[1..], p);
      TailIdsDistinct(s);
      FilterKeepsIdsDistinct(s[1..], p);
      if p(s[0]) {
        forall k | 0 <= k < |rest| ensures rest[k].id != s[0].id {
          var m :| 0 <= m < |s[1..]| && s[1..][m] == rest[k];
          assert s[m + 1] == rest[k];
        }
        ConsIdsDistinct(s[0], rest);
      }
    }
  }

  lemma {:induction false} SortKeepsIdsDistinct(s: seq<Product>, cmp: (Product, Product) -> real)
    requires IdsDistinct(s)
    ensures IdsDistinct(SortBy(s, cmp))
  {
    if s != [] {
      var t := SortBy(s[1..], cmp);
      TailIdsDistinct(s);
      SortKeepsIdsDistinct(s[1..], cmp);
      OthersKeepId(s);
      Seqs.AllOfPermutation(t, s[1..], (y: Product) => y.id != s[0].id);
      InsertKeepsIdsDistinct(s[0], t, cmp);
    }
  }

  lemma {:induction false} InsertKeepsIdsDistinct(x: Product, s: seq<Product>, cmp: (Product, Product) -> real)
    requires IdsDistinct(s)
    requires forall k :: 0 <= k < |s| ==> s[k].id != x.id
    ensures IdsDistinct(Insert(x, s, cmp))
  {
    if s == [] || cmp(x, s[0]) <= 0.0 {
      ConsIdsDistinct(x, s);
    } else {
      var rest := Insert(x, s[1..], cmp);
      TailIdsDistinct(s);
      InsertKeepsIdsDistinct(x, s[1..], cmp);
      var t := [x] + s[1..];
      OthersKeepId(s);
      forall k | 0 <= k < |t| ensures t[k].id != s[0].id {
        if k > 0 { assert t[k] == s[1..][k - 1]; }
      }
      Seqs.AllOfPermutation(rest, t, (y: Product) => y.id != s[0].id);
      ConsIdsDistinct(s[0], rest);
    }
  }

  lemma TailIdsDistinct(s: seq<Product>)
    requires s != [] && IdsDistinct(s)
    ensures IdsDistinct(s[1..])
  {
    forall i, j | 0 <= i < j < |s| - 1 ensures s[1..][i].id != s[1..][j].id {
      assert s[1..][i] == s[i + 1] && s[1..][j] == s[j + 1];
    }
  }

  /** With distinct ids, no later product has the first one's id. */
  lemma OthersKeepId(s: seq<Product>)
    requires s != [] && IdsDistinct(s)
    ensures forall k :: 0 <= k < |s| - 1 ==> s[1..][k].id != s[0].id
  {
    forall k | 0 <= k < |s| - 1 ensures s[1..][k].id != s[0].id {
      assert s[1..][k] == s[k + 1];
    }
  }

  lemma ConsIdsDistinct(y: Product, t: seq<Product>)
    requires IdsDistinct(t) && forall k :: 0 <= k < |t| ==> t[k].id != y.id
    ensures IdsDistinct([y] + t)
  {
    var r := [y] + t;
    forall i, j | 0 <= i < j < |r| ensures r[i].id != r[j].id {
      assert r[j] == t[j - 1];
      if i > 0 {
        assert r[i] == t[i - 1];
      }
    }
  }

  /** With distinct ids, "newest" lists ids in strictly decreasing order. */
  lemma NewestStrictlyDescending(products: seq<Product>, choice: CategoryChoice, collate: (string, string) -> int)
    requires IdsDistinct(products)
    ensures var r := FilteredProducts(products, choice, Newest, collate);
      forall i, j :: 0 <= i < j < |r| ==> r[i].id > r[j].id
  {
    SortOrders(products, choice, collate);
    if choice.OnlyCategory? {
      FilterKeepsIdsDistinct(products, InCategory(choice.id));
    }
    SortKeepsIdsDistinct(Selected(products, choice), Compare(Newest, collate));
  }

  const DiscountTag := "% \U{062A}\U{062E}\U{0641}\U{06CC}\U{0641}"

  /** A product card's data (`DisplayProduct`). */
  datatype DisplayProduct = DisplayProduct(
    id: int, name: string, price: real, oldPrice: Option<real>, image: Option<string>, tag: Option<string>)

  /** JavaScript truthiness of the discount price: present and non-zero. */
  predicate HasDiscountPrice(p: Product) {
    p.discountPrice.Some? && p.discountPrice.value != 0.0
  }

  /** The mapping shared by the catalogue and search pages. */
  function Display(p: Product): (d: DisplayProduct)
    ensures d.id == p.id && d.name == p.name && d.price == PriceOf(p)
    // The struck-through price and the tag appear together, exactly for a truthy discount.
    ensures d.oldPrice.Some? <==> HasDiscountPrice(p)
    ensures d.tag.Some? <==> HasDiscountPrice(p)
    ensures d.oldPrice.Some? ==> d.oldPrice.value == p.basePrice && d.tag == Some(DiscountTag)
    ensures d.image.Some? <==> |p.images| > 0
    ensures d.image.Some? ==> d.image.value == p.images[0]
  {
    DisplayProduct(
      p.id, p.name, PriceOf(p),
      if HasDiscountPrice(p) then Some(p.basePrice) else None,
      if |p.images| > 0 then Some(p.images[0]) else None,
      if HasDiscountPrice(p) then Some(DiscountTag) else None)
  }

  function DisplayAll(s: seq<Product>): (r: seq<DisplayProduct>)
    ensures |r| == |s| && forall k :: 0 <= k < |s| ==> r[k] == Display(s[k])
  {
    seq(|s|, k requires 0 <= k < |s| => Display(s[k]))
  }

  /** `displayProducts`. */
  function CatalogPage(products: seq<Product>, choice: CategoryChoice, order: SortOption,
                       collate: (string, string) -> int): (r: seq<DisplayProduct>)
    ensures |r| == |Selected(products, choice)|
    ensures forall k :: 0 <= k < |r| ==> exists p :: p in Selected(products, choice) && r[k] == Display(p)
  {
    var sorted := FilteredProducts(products, choice, order, collate);
    forall k | 0 <= k < |sorted| ensures sorted[k] in Selected(products, choice) {
      assert sorted[k] in multiset(sorted);
    }
    DisplayAll(sorted)
  }
}
