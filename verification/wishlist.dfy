/** The client wishlist store (`frontend/context/WishlistContext.tsx`): an ordered list of
    saved products keyed by product id, with add (first write wins), remove, toggle and
    clear, its count, and its write-through persistence in the browser slot
    `stylino_wishlist`. */
module Wishlist {
  import opened Wrappers
  import opened Json
  import Seqs
  import Storage

  /** Only the product id is required; the other fields are optional display hints. */
  datatype WishlistItem = WishlistItem(productId: int, name: Option<string>, image: Option<string>, price: Option<real>)

  type Wishlist = seq<WishlistItem>

  const WishlistKey: string := "stylino_wishlist"

  /** `exists(productId)`, i.e. `items.some(w => w.productId === productId)`. */
  predicate Exists(items: Wishlist, id: int) {
    exists i :: 0 <= i < |items| && items[i].productId == id
  }

  ghost predicate UniqueIds(items: Wishlist) {
    forall i, j :: 0 <= i < j < |items| ==> items[i].productId != items[j].productId
  }

  /** `addItem(item)`: a product already saved keeps its first entry; a new one goes last. */
  function AddItem(items: Wishlist, item: WishlistItem): (r: Wishlist)
    ensures Exists(r, item.productId)
    ensures Exists(items, item.productId) ==> r == items
    ensures !Exists(items, item.productId) ==> r == items + [item]
  {
    if Exists(items, item.productId) then items
    else
      assert (items + [item])[|items|] == item;
      items + [item]
  }

  /** `removeItem(productId)`. */
  function RemoveItem(items: Wishlist, id: int): (r: Wishlist)
    ensures !Exists(r, id)
    ensures forall i :: 0 <= i < |items| && items[i].productId != id ==> items[i] in r
    ensures forall i :: 0 <= i < |r| ==> r[i] in items
    ensures Seqs.IsSubsequence(r, items)
  {
    Seqs.Filter(items, (w: WishlistItem) => w.productId != id)
  }

  /** `toggleItem(item)`: removes every entry of a saved product, appends an unsaved one. */
  function ToggleItem(items: Wishlist, item: WishlistItem): (r: Wishlist)
    ensures Exists(r, item.productId) <==> !Exists(items, item.productId)
  {
    if Exists(items, item.productId) then RemoveItem(items, item.productId)
    else AddItem(items, item)
  }

  /** `clear()`. */
  function Clear(items: Wishlist): (r: Wishlist)
    ensures forall id :: !Exists(r, id)
  {
    []
  }

  /** `count`. */
  function Count(items: Wishlist): (n: nat)
    ensures n == 0 <==> forall id :: !Exists(items, id)
  {
    assert items != [] ==> Exists(items, items[0].productId);
    |items|
  }

  // ---------------------------------------------------------------------------
  // Properties of the operations.

  /** Adding a product that is already saved changes nothing, so adding twice is adding once. */
  lemma AddIdempotent(items: Wishlist, item: WishlistItem)
    ensures AddItem(AddItem(items, item), item) == AddItem(items, item)
  {
  }

  /** A removal keeps only entries of other products; it drops none of them. */
  lemma {:induction false} RemoveExact(items: Wishlist, id: int)
    ensures RemoveItem(items, id) == items <==> !Exists(items, id)
  {
    var keep := (w: WishlistItem) => w.productId != id;
    if !Exists(items, id) {
      Seqs.FilterAll(items, keep);
    } else {
      var i :| 0 <= i < |items| && items[i].productId == id;
      assert !Exists(RemoveItem(items, id), id);
      assert Exists(items, id);
    }
  }

  /** Toggling an unsaved product twice restores the list exactly. */
  lemma ToggleTwice(items: Wishlist, item: WishlistItem)
    requires !Exists(items, item.productId)
    ensures ToggleItem(ToggleItem(items, item), item) == items
  {
    var id := item.productId;
    var keep := (w: WishlistItem) => w.productId != id;
    assert ToggleItem(items, item) == items + [item];
    assert Exists(items + [item], id) by { assert (items + [item])[|items|] == item; }
    Seqs.FilterAppend(items, [item], keep);
    Seqs.FilterAll(items, keep);
    assert Seqs.Filter([item], keep) == [];
  }

  /** The invariant that no product is saved twice survives every operation. */
  lemma AddKeepsUnique(items: Wishlist, item: WishlistItem)
    requires UniqueIds(items)
    ensures UniqueIds(AddItem(items, item))
  {
  }

  lemma RemoveKeepsUnique(items: Wishlist, id: int)
    requires UniqueIds(items)
    ensures UniqueIds(RemoveItem(items, id))
  {
    SubsequenceKeepsUnique(RemoveItem(items, id), items);
  }

  lemma ToggleKeepsUnique(items: Wishlist, item: WishlistItem)
    requires UniqueIds(items)
    ensures UniqueIds(ToggleItem(items, item))
  {
    if Exists(items, item.productId) {
      RemoveKeepsUnique(items, item.productId);
    } else {
      AddKeepsUnique(items, item);
    }
  }

  lemma {:induction false} SubsequenceKeepsUnique(a: Wishlist, b: Wishlist)
    requires Seqs.IsSubsequence(a, b) && UniqueIds(b)
    ensures UniqueIds(a)
    decreases |b|
  {
    if a != [] {
      assert UniqueIds(b[1..]) by {
        forall i, j | 0 <= i < j < |b[1..]| ensures b[1..][i].productId != b[1..][j].productId {
          assert b[1..][i] == b[i + 1] && b[1..][j] == b[j + 1];
        }
      }
      if a[0] == b[0] && Seqs.IsSubsequence(a[1..], b[1..]) {
        SubsequenceKeepsUnique(a[1..], b[1..]);
        Seqs.SubsequenceMembers(a[1..], b[1..]);
        forall j | 0 < j < |a| ensures a[0].productId != a[j].productId {
          assert a[j] == a[1..][j - 1];
          var k :| 0 <= k < |b[1..]| && b[1..][k] == a[1..][j - 1];
          assert b[k + 1] == a[j];
        }
        forall i, j | 0 <= i < j < |a| ensures a[i].productId != a[j].productId {
          if i > 0 { assert a[i] == a[1..][i - 1] && a[j] == a[1..][j - 1]; }
        }
      } else {
        SubsequenceKeepsUnique(a, b[1..]);
      }
    }
  }


  /** How `count` moves: add raises it by one exactly for a new product, clear zeroes it,
      and in a list without duplicates a removal lowers it by one exactly for a saved product. */
  lemma CountAfterAdd(items: Wishlist, item: WishlistItem)
    ensures Count(AddItem(items, item)) == Count(items) + (if Exists(items, item.productId) then 0 else 1)
  {
  }

  lemma CountAfterClear(items: Wishlist)
    ensures Count(Clear(items)) == 0
  {
  }

  lemma {:induction false} CountAfterRemove(items: Wishlist, id: int)
    requires UniqueIds(items)
    ensures Count(RemoveItem(items, id)) == Count(items) - (if Exists(items, id) then 1 else 0)
  {
    if items != [] {
      var keep := (w: WishlistItem) => w.productId != id;
      assert UniqueIds(items[1..]) by {
        forall i, j | 0 <= i < j < |items[1..]| ensures items[1..][i].productId != items[1..][j].productId {
          assert items[1..][i] == items[i + 1] && items[1..][j] == items[j + 1];
        }
      }
      CountAfterRemove(items[1..], id);
      assert Seqs.Filter(items, keep) == (if keep(items[0]) then [items[0]] else []) + Seqs.Filter(items[1..], keep);
      if items[0].productId == id {
        assert Exists(items, id);
        assert !Exists(items[1..], id) by {
          forall k | 0 <= k < |items[1..]| ensures items[1..][k].productId != id {
            assert items[1..][k] == items[k + 1];
          }
        }
      } else {
        assert Exists(items, id) <==> Exists(items[1..], id) by {
          if Exists(items, id) {
            var k :| 0 <= k < |items| && items[k].productId == id;
            assert items[1..][k - 1] == items[k];
          }
          if Exists(items[1..], id) {
            var k :| 0 <= k < |items[1..]| && items[1..][k].productId == id;
            assert items[k + 1] == items[1..][k];
          }
        }
      }
    }
  }

  // ---------------------------------------------------------------------------
  // Persistence: `JSON.stringify(items)` written to `stylino_wishlist`, and the reload.
  // `JSON.stringify` leaves out fields whose value is `undefined`.

  function ItemToJson(w: WishlistItem): Json {
    var f0 := map["productId" := JNum(w.productId as real)];
    var f1 := if w.name.Some? then f0["name" := JStr(w.name.value)] else f0;
    var f2 := if w.image.Some? then f1["image" := JStr(w.image.value)] else f1;
    var f3 := if w.price.Some? then f2["price" := JNum(w.price.value)] else f2;
    JObj(f3)
  }

  /** An optional string field: absent is `None`; present with another type is malformed. */
  function OptString(f: map<string, Json>, key: string): Option<Option<string>> {
    if key !in f then Some(None)
    else if f[key].JStr? then Some(Some(f[key].s))
    else None
  }

  function OptNumber(f: map<string, Json>, key: string): Option<Option<real>> {
    if key !in f then Some(None)
    else if f[key].JNum? then Some(Some(f[key].n))
    else None
  }

  function ItemFromJson(j: Json): Option<WishlistItem> {
    if !j.JObj? then None
    else
      var f := j.fields;
      var id := AsInt(Get(f, "productId"));
      var name := OptString(f, "name");
      var image := OptString(f, "image");
      var price := OptNumber(f, "price");
      if id.None? || name.None? || image.None? || price.None? then None
      else Some(WishlistItem(id.value, name.value, image.value, price.value))
  }

  lemma ItemRoundTrip(w: WishlistItem)
    ensures ItemFromJson(ItemToJson(w)) == Some(w)
  {
    assert (w.productId as real).Floor == w.productId;
  }

  function Serialize(items: Wishlist): Json {
    Storage.Serialize(items, ItemToJson)
  }

  /** The wishlist installed at start-up (see `Storage.Load`). */
  function Load(slot: Option<string>, parse: string -> Option<Json>): Wishlist {
    Storage.Load(slot, parse, ItemFromJson)
  }

  /** Reloading a slot whose text parses back to what was saved restores the list, optional
      fields absent or present as saved, and keeps it free of duplicates. */
  lemma LoadAfterSave(items: Wishlist, text: string, parse: string -> Option<Json>)
    requires UniqueIds(items)
    requires text != "" && parse(text) == Some(Serialize(items))
    ensures Load(Some(text), parse) == items && UniqueIds(Load(Some(text), parse))
  {
    forall w: WishlistItem ensures ItemFromJson(ItemToJson(w)) == Some(w) {
      ItemRoundTrip(w);
    }
    Storage.LoadAfterSave(items, text, parse, ItemToJson, ItemFromJson);
  }
}
