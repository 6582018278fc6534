/** The seller dashboard (`frontend/app/seller/page.tsx`): who may see it, how the product
    forms become request bodies, and the local product list after a delete. */
module SellerPage {
  import opened Wrappers
  import Text
  import Seqs
  import Store
  import Products
  import PaymentResult

  type JsNumber = PaymentResult.JsNumber

  /** Where a visitor who may not use the dashboard is sent: the sign-in page, which returns
      to the dashboard afterwards. */
  const DashboardPath := "/seller"
  const SignInPath := "/auth?redirect=" + DashboardPath

  datatype Gate = Wait | RedirectTo(path: string) | Load

  /** The mount effect: wait for the session, then load the dashboard for a seller holding a
      token and send everyone else to sign in. */
  function Admit(loading: bool, role: Option<string>, token: Option<string>): (g: Gate)
    ensures loading <==> g == Wait
    ensures g == Load <==> !loading && role == Some(Store.SellerRole) && Text.Given(token)
    ensures g.RedirectTo? ==> g.path == SignInPath
  {
    if loading then Wait
    else if role != Some(Store.SellerRole) || !Text.Given(token) then RedirectTo(SignInPath)
    else Load
  }

  // ---- comma-separated list fields ----

  function NonEmpty(): string -> bool {
    (s: string) => s != ""
  }

  function TrimAll(parts: seq<string>): (r: seq<string>)
    ensures |r| == |parts| && forall k :: 0 <= k < |r| ==> r[k] == Text.Trim(parts[k])
  {
    seq(|parts|, k requires 0 <= k < |parts| => Text.Trim(parts[k]))
  }

  /** `text.split(",").map((s) => s.trim()).filter(Boolean)`: the colours, sizes and images. */
  function ListField(text: string): (r: seq<string>)
    ensures forall k :: 0 <= k < |r| ==> r[k] != "" && Text.IsTrimmed(r[k]) && ',' !in r[k]
    ensures Seqs.IsSubsequence(r, TrimAll(Text.Split(text, ',')))
  {
    var pieces := TrimAll(Text.Split(text, ','));
    assert forall k :: 0 <= k < |pieces| ==> ',' !in pieces[k] by {
      forall k | 0 <= k < |pieces| ensures ',' !in pieces[k] {
        var whole := Text.Split(text, ',')[k];
        assert ',' !in whole;
        assert Text.Trim(whole) == whole[|whole| - |Text.TrimStart(whole)|..][..|pieces[k]|];
      }
    }
    Seqs.Filter(pieces, NonEmpty())
  }

  lemma TrimmedIsFixed(s: string)
    requires Text.IsTrimmed(s)
    ensures Text.Trim(s) == s
  {
    assert s[..0] == [] && s[|s|..] == [] && s[0..|s|] == s;
    Text.TrimIsUnique(s, 0, |s|);
  }

  /** Writing a list back as comma-separated text and reading the field again gives the list. */
  lemma {:induction false} ListFieldRoundTrip(items: seq<string>)
    requires |items| >= 1
    requires forall k :: 0 <= k < |items| ==> items[k] != "" && Text.IsTrimmed(items[k]) && ',' !in items[k]
    ensures ListField(Text.Join(items, ',')) == items
  {
    Text.SplitJoin(items, ',');
    forall k | 0 <= k < |items| ensures Text.Trim(items[k]) == items[k] {
      TrimmedIsFixed(items[k]);
    }
    assert TrimAll(items) == items;
    Seqs.FilterAll(items, NonEmpty());
  }

  // ---- the create form ----

  datatype CreateForm = CreateForm(
    name: string, description: string, basePrice: string, discountPrice: string, categoryId: string,
    brand: string, colors: string, sizes: string, images: string)

  /** The form as first shown, and as reset after a successful create. */
  const EmptyCreateForm := CreateForm("", "", "", "", "", "Stylino", "", "", "")

  /** The body `handleCreateProduct` posts; `discountPrice` is `None` for `null`. */
  datatype CreateBody = CreateBody(
    name: string, description: string, basePrice: JsNumber, discountPrice: Option<JsNumber>,
    categoryId: JsNumber, brand: string, colors: seq<string>, sizes: seq<string>, images: seq<string>,
    isActive: bool)

  /** `value ? Number(value) : fallback`: an empty field is not converted. */
  function OptionalNumber(text: string, other: string -> JsNumber): (r: Option<JsNumber>)
    ensures r.None? <==> text == ""
    ensures r.Some? ==> r.value == PaymentResult.Number(text, other)
  {
    if text == "" then None else Some(PaymentResult.Number(text, other))
  }

  /** The body for the form, or nothing at all without a token. */
  function CreateRequest(token: Option<string>, form: CreateForm, other: string -> JsNumber): (r: Option<CreateBody>)
    ensures r.Some? <==> Text.Given(token)
    ensures r.Some? ==>
      && r.value.name == form.name && r.value.brand == form.brand && r.value.isActive
      && r.value.basePrice == PaymentResult.Number(form.basePrice, other)
      && (r.value.discountPrice.None? <==> form.discountPrice == "")
      && r.value.colors == ListField(form.colors) && r.value.sizes == ListField(form.sizes)
      && r.value.images == ListField(form.images)
  {
    if !Text.Given(token) then None
    else Some(CreateBody(
      form.name, form.description, PaymentResult.Number(form.basePrice, other),
      OptionalNumber(form.discountPrice, other), PaymentResult.Number(form.categoryId, other), form.brand,
      ListField(form.colors), ListField(form.sizes), ListField(form.images), true))
  }

  // ---- the update form ----

  datatype UpdateForm = UpdateForm(productId: string, basePrice: string, discountPrice: string, isActive: string)

  /** The body `handleUpdateProduct` sends; `None` is `undefined`, which `JSON.stringify` leaves out. */
  datatype UpdateBody = UpdateBody(basePrice: Option<JsNumber>, discountPrice: Option<JsNumber>, isActive: bool)

  datatype UpdateRequest = UpdateRequest(path: string, body: UpdateBody)

  /** Nothing is sent without a token or a chosen product. */
  function RequestUpdate(token: Option<string>, form: UpdateForm, other: string -> JsNumber): (r: Option<UpdateRequest>)
    ensures r.Some? <==> Text.Given(token) && form.productId != ""
    ensures r.Some? ==>
      && r.value.path == "/seller/products/" + form.productId
      && (r.value.body.basePrice.None? <==> form.basePrice == "")
      && (r.value.body.discountPrice.None? <==> form.discountPrice == "")
      && (r.value.body.isActive <==> form.isActive == "true")
  {
    if !Text.Given(token) || form.productId == "" then None
    else Some(UpdateRequest(
      "/seller/products/" + form.productId,
      UpdateBody(OptionalNumber(form.basePrice, other), OptionalNumber(form.discountPrice, other),
                 form.isActive == "true")))
  }

  /** `JSON.stringify` writes `NaN` as `null`. */
  function Serialized(n: JsNumber): Option<real> {
    if n.Finite? then Some(n.v) else None
  }

  function AsField(v: Option<JsNumber>): Products.Patch<Option<real>> {
    if v.None? then Products.Keep else Products.Write(Serialized(v.value))
  }

  /** The body as the server reads it. */
  function AsUpdate(b: UpdateBody): Products.ProductUpdate {
    Products.NoChange.(basePrice := AsField(b.basePrice), discountPrice := AsField(b.discountPrice),
                       isActive := Products.Write(Some(b.isActive)))
  }

  /** Through the update form, an empty price field leaves that price as stored, and the
      selected status is written. A discount therefore cannot be cleared by emptying its field. */
  lemma EmptyFieldsKeepPrices(p: Store.Product, form: UpdateForm, other: string -> JsNumber, token: string)
    requires token != "" && form.productId != ""
    requires Products.Patched(p, AsUpdate(RequestUpdate(Some(token), form, other).value.body)).Some?
    ensures var q := Products.Patched(p, AsUpdate(RequestUpdate(Some(token), form, other).value.body)).value;
      && (form.basePrice == "" ==> q.basePrice == p.basePrice)
      && (form.discountPrice == "" ==> q.discountPrice == p.discountPrice)
      && (q.isActive <==> form.isActive == "true")
      && q.name == p.name
  {
  }

  // ---- delete ----

  function IdIsNot(id: int): Store.Product -> bool {
    (p: Store.Product) => p.id != id
  }

  /** The list after a successful delete: `prev.filter((p) => p.id !== productId)`. */
  function AfterDelete(products: seq<Store.Product>, productId: int): (r: seq<Store.Product>)
    ensures forall p :: p in r <==> p in products && p.id != productId
    ensures Seqs.IsSubsequence(r, products)
  {
    var r := Seqs.Filter(products, IdIsNot(productId));
    assert forall p :: p in products && p.id != productId ==> p in r by {
      forall p | p in products && p.id != productId ensures p in r {
        var k :| 0 <= k < |products| && products[k] == p;
      }
    }
    r
  }

  /** When the page held exactly the seller's products, the list after a delete the server
      accepted holds exactly the seller's products in the updated table. */
  lemma DeleteKeepsListInSync(db: Store.Db, shown: seq<Store.Product>, productId: int, sellerId: int)
    requires forall p :: p in shown <==> p in db.products && p.sellerId == sellerId
    requires Products.DeleteProduct(db, productId, sellerId).Success?
    ensures var after := Products.DeleteProduct(db, productId, sellerId).value;
      forall p :: p in AfterDelete(shown, productId) <==> p in after.products && p.sellerId == sellerId
  {
    var after := Products.DeleteProduct(db, productId, sellerId).value;
    forall p | p in after.products
      ensures p in db.products && p.id != productId
    {
      var k :| 0 <= k < |after.products| && after.products[k] == p;
      assert after.products == Seqs.Filter(db.products, (q: Store.Product) => q.id != productId);
    }
    forall p | p in db.products && p.id != productId
      ensures p in after.products
    {
      var k :| 0 <= k < |db.products| && db.products[k] == p;
    }
  }
}
