/** The seller-facing product operations (`backend/app/services/product_service.py`):
    a seller may only change or delete its own products, and shoppers only see active ones. */
module Products {
  import opened Wrappers
  import opened Store
  import Seqs

  /** The body of a create request (`ProductCreate`). */
  datatype ProductCreate = ProductCreate(
    name: string, description: string, basePrice: real, discountPrice: Option<real>, categoryId: int,
    brand: string, colors: seq<string>, sizes: seq<string>, images: seq<string>, isActive: bool)

  /** One field of an update request: absent from the body (`exclude_unset` drops it), or
      sent, possibly as `null`. */
  datatype Patch<T> = Keep | Write(v: T)

  /** The body of an update request (`ProductUpdate`): every field optional and nullable. */
  datatype ProductUpdate = ProductUpdate(
    name: Patch<Option<string>>, description: Patch<Option<string>>, basePrice: Patch<Option<real>>,
    discountPrice: Patch<Option<real>>, categoryId: Patch<Option<int>>, brand: Patch<Option<string>>,
    colors: Patch<Option<seq<string>>>, sizes: Patch<Option<seq<string>>>, images: Patch<Option<seq<string>>>,
    isActive: Patch<Option<bool>>)

  const NoChange := ProductUpdate(Keep, Keep, Keep, Keep, Keep, Keep, Keep, Keep, Keep, Keep)

  /** `create_product`: the caller becomes the seller; the row gets the next id. */
  function CreateProduct(db: Db, sellerId: int, data: ProductCreate): (r: (Db, Product))
    ensures r.0 == db.(products := db.products + [r.1])
    ensures r.1.sellerId == sellerId
    ensures forall k :: 0 <= k < |db.products| ==> db.products[k].id < r.1.id
    // Every submitted field is stored as sent.
    ensures r.1 == Product(r.1.id, sellerId, data.name, data.description, data.basePrice, data.discountPrice,
      data.categoryId, data.brand, data.colors, data.sizes, data.images, data.isActive)
  {
    var p := Product(Seqs.NextId(db.products, (p: Product) => p.id), sellerId, data.name, data.description,
      data.basePrice, data.discountPrice, data.categoryId, data.brand, data.colors, data.sizes, data.images, data.isActive);
    (db.(products := db.products + [p]), p)
  }

  /** A required column: an absent field keeps the value, `null` cannot be stored. */
  function Required<T>(current: T, f: Patch<Option<T>>): (r: Option<T>)
    ensures f == Keep ==> r == Some(current)
    ensures f.Write? ==> r == f.v
  {
    match f
    case Keep => Some(current)
    case Write(v) => v
  }

  /** A required column after the update: unchanged when the field is absent, the sent
      value when it is present. */
  predicate Applied<T(==)>(current: T, f: Patch<Option<T>>, updated: T) {
    && (f == Keep ==> updated == current)
    && (f.Write? ==> Some(updated) == f.v)
  }

  /** The row after the update, or `None` when the body writes `null` to a required column
      (the database refuses it). `discountPrice` is nullable, so `null` clears the discount. */
  function Patched(p: Product, u: ProductUpdate): (r: Option<Product>)
    ensures r.Some? ==> r.value.id == p.id && r.value.sellerId == p.sellerId
    ensures r.Some? ==> r.value.discountPrice == (if u.discountPrice.Write? then u.discountPrice.v else p.discountPrice)
    // Every required column keeps its value when absent from the body and takes the sent one
    // otherwise.
    ensures r.Some? ==>
      && Applied(p.name, u.name, r.value.name)
      && Applied(p.description, u.description, r.value.description)
      && Applied(p.basePrice, u.basePrice, r.value.basePrice)
      && Applied(p.categoryId, u.categoryId, r.value.categoryId)
      && Applied(p.brand, u.brand, r.value.brand)
      && Applied(p.colors, u.colors, r.value.colors)
      && Applied(p.sizes, u.sizes, r.value.sizes)
      && Applied(p.images, u.images, r.value.images)
      && Applied(p.isActive, u.isActive, r.value.isActive)
    // Only a `null` written to a column that is not nullable makes the update fail.
    ensures r.None? <==>
      || Write(None) in [u.name, u.description, u.brand] || u.basePrice == Write(None)
      || u.categoryId == Write(None) || Write(None) in [u.colors, u.sizes, u.images] || u.isActive == Write(None)
  {
    var name := Required(p.name, u.name);
    var description := Required(p.description, u.description);
    var basePrice := Required(p.basePrice, u.basePrice);
    var categoryId := Required(p.categoryId, u.categoryId);
    var brand := Required(p.brand, u.brand);
    var colors := Required(p.colors, u.colors);
    var sizes := Required(p.sizes, u.sizes);
    var images := Required(p.images, u.images);
    var isActive := Required(p.isActive, u.isActive);
    if name.None? || description.None? || basePrice.None? || categoryId.None? || brand.None?
       || colors.None? || sizes.None? || images.None? || isActive.None? then None
    else
      Some(Product(p.id, p.sellerId, name.value, description.value, basePrice.value,
        if u.discountPrice.Write? then u.discountPrice.v else p.discountPrice,
        categoryId.value, brand.value, colors.value, sizes.value, images.value, isActive.value))
  }

  /** `find_unique` followed by the ownership test shared by update and delete. */
  predicate OwnedBy(db: Db, productId: int, sellerId: int) {
    ProductById(db, productId).Some? && ProductById(db, productId).value.sellerId == sellerId
  }

  /** `update_product`. */
  function UpdateProduct(db: Db, productId: int, sellerId: int, u: ProductUpdate): (r: Result<(Db, Product), HttpError>)
    // A missing product and another seller's product are the same 404.
    ensures !OwnedBy(db, productId, sellerId) <==> r == Failure(HttpError(404, ProductNotFound))
    ensures r.Success? ==>
      && OwnedBy(db, productId, sellerId)
      && Some(r.value.1) == Patched(ProductById(db, productId).value, u)
      && r.value.0 == db.(products := Seqs.Replace(db.products, ProductHasId(productId), r.value.1))
    // The seller's own product is patched, unless the body writes `null` to a required
    // column, which the database refuses with a server error.
    ensures OwnedBy(db, productId, sellerId) && Patched(ProductById(db, productId).value, u).Some? ==> r.Success?
    ensures OwnedBy(db, productId, sellerId) && Patched(ProductById(db, productId).value, u).None? ==>
      r == Failure(HttpError(500, Unhandled))
  {
    match ProductById(db, productId)
    case None => Failure(HttpError(404, ProductNotFound))
    case Some(p) =>
      if p.sellerId != sellerId then Failure(HttpError(404, ProductNotFound))
      else match Patched(p, u)
        case None => Failure(HttpError(500, Unhandled))
        case Some(q) => Success((db.(products := Seqs.Replace(db.products, ProductHasId(productId), q)), q))
  }

  /** An update that sets nothing writes the row back unchanged. */
  lemma EmptyUpdateKeepsProduct(p: Product)
    ensures Patched(p, NoChange) == Some(p)
  {
  }

  /** Sending the same update twice leaves the row as sending it once did. */
  lemma UpdateIdempotent(p: Product, u: ProductUpdate)
    requires Patched(p, u).Some?
    ensures Patched(Patched(p, u).value, u) == Patched(p, u)
  {
  }

  /** Every other row, and every other table, is untouched by an update. */
  lemma UpdateTouchesOneProduct(db: Db, productId: int, sellerId: int, u: ProductUpdate)
    requires UpdateProduct(db, productId, sellerId, u).Success?
    ensures var db2 := UpdateProduct(db, productId, sellerId, u).value.0;
      && |db2.products| == |db.products|
      && (forall k :: 0 <= k < |db.products| && db.products[k].id != productId ==> db2.products[k] == db.products[k])
      && db2.users == db.users && db2.orders == db.orders && db2.orderItems == db.orderItems
  {
  }

  /** `delete_product`. */
  function DeleteProduct(db: Db, productId: int, sellerId: int): (r: Result<Db, HttpError>)
    ensures !OwnedBy(db, productId, sellerId) <==> r == Failure(HttpError(404, ProductNotFound))
    // The seller's own product is always deleted.
    ensures OwnedBy(db, productId, sellerId) ==> r.Success?
    ensures r.Success? ==> r.value == db.(products := r.value.products)
    ensures r.Success? ==> r.value.products == Seqs.Filter(db.products, OtherThan(productId))
    // The product's row is gone and every other row stays.
    ensures r.Success? ==> forall k :: 0 <= k < |r.value.products| ==> r.value.products[k].id != productId
    ensures r.Success? ==> forall k :: 0 <= k < |db.products| && db.products[k].id != productId ==>
      db.products[k] in r.value.products
  {
    if !OwnedBy(db, productId, sellerId) then Failure(HttpError(404, ProductNotFound))
    else Success(db.(products := Seqs.Filter(db.products, OtherThan(productId))))
  }

  /** The rows `delete(where={"id": productId})` leaves. */
  function OtherThan(productId: int): Product -> bool {
    (p: Product) => p.id != productId
  }

  /** `list_active_products`: the active products, in table order. */
  function ListActiveProducts(db: Db): (r: seq<Product>)
    ensures forall k :: 0 <= k < |r| ==> r[k].isActive && r[k] in db.products
    ensures forall k :: 0 <= k < |db.products| && db.products[k].isActive ==> db.products[k] in r
  {
    Seqs.Filter(db.products, (p: Product) => p.isActive)
  }

  /** `get_product_detail`: missing and inactive products are the same 404. */
  function GetProductDetail(db: Db, productId: int): (r: Result<Product, HttpError>)
    ensures r.Success? <==> ProductById(db, productId).Some? && ProductById(db, productId).value.isActive
    ensures r.Success? ==> r.value.id == productId && r.value.isActive && r.value in db.products
    ensures r.Failure? ==> r.error == HttpError(404, ProductNotFound)
  {
    match ProductById(db, productId)
    case Some(p) => if p.isActive then Success(p) else Failure(HttpError(404, ProductNotFound))
    case None => Failure(HttpError(404, ProductNotFound))
  }

  /** A product a seller has just created active is what its detail page shows. */
  lemma CreateThenDetail(db: Db, sellerId: int, data: ProductCreate)
    requires data.isActive
    ensures var (db2, p) := CreateProduct(db, sellerId, data);
      GetProductDetail(db2, p.id) == Success(p)
  {
    var (db2, p) := CreateProduct(db, sellerId, data);
    var i := |db.products|;
    assert ProductHasId(p.id)(db2.products[i]);
  }

  /** A deleted product has no detail page any more. */
  lemma DeleteThenDetail(db: Db, productId: int, sellerId: int)
    requires DeleteProduct(db, productId, sellerId).Success?
    ensures GetProductDetail(DeleteProduct(db, productId, sellerId).value, productId) == Failure(HttpError(404, ProductNotFound))
  {
  }

  /** Another seller can neither change nor delete a product. */
  lemma OtherSellerLockedOut(db: Db, productId: int, owner: int, other: int, u: ProductUpdate)
    requires ProductById(db, productId).Some? && ProductById(db, productId).value.sellerId == owner && other != owner
    ensures UpdateProduct(db, productId, other, u) == Failure(HttpError(404, ProductNotFound))
    ensures DeleteProduct(db, productId, other) == Failure(HttpError(404, ProductNotFound))
  {
  }
}
