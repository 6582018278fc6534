/** The write-through browser storage both client stores use
    (`frontend/context/CartContext.tsx`, `frontend/context/WishlistContext.tsx`): after every
    mutation the list is saved as `JSON.stringify` of its entries, and at start-up the
    slot's text is parsed back. Each store supplies its own entry codec. */
module Storage {
  import opened Wrappers
  import opened Json

  /** The value written to the slot: a JSON array with one element per entry, in order. */
  function Serialize<T>(items: seq<T>, enc: T -> Json): (j: Json)
    ensures j.JArr? && |j.elems| == |items|
    ensures forall k :: 0 <= k < |items| ==> j.elems[k] == enc(items[k])
  {
    JArr(seq(|items|, i requires 0 <= i < |items| => enc(items[i])))
  }

  /** Decodes every element, or fails as a whole when one of them does not decode. */
  function DecodeAll<T>(elems: seq<Json>, dec: Json -> Option<T>): (r: Option<seq<T>>)
    ensures r.Some? <==> forall k :: 0 <= k < |elems| ==> dec(elems[k]).Some?
    ensures r.Some? ==> |r.value| == |elems| && forall k :: 0 <= k < |elems| ==> dec(elems[k]) == Some(r.value[k])
  {
    if elems == [] then Some([])
    else
      var head := dec(elems[0]);
      var rest := DecodeAll(elems[1..], dec);
      if head.Some? && rest.Some? then Some([head.value] + rest.value) else None
  }

  /** A stored value that is not an array of decodable entries gives `None`. */
  function Deserialize<T>(j: Json, dec: Json -> Option<T>): (r: Option<seq<T>>)
    ensures !j.JArr? ==> r.None?
    ensures r.Some? ==> j.JArr? && |r.value| == |j.elems|
  {
    if j.JArr? then DecodeAll(j.elems, dec) else None
  }

  /** With an entry codec that reads back what it wrote, reading back the saved value gives
      the same entries in the same order. */
  lemma DeserializeSerialize<T>(items: seq<T>, enc: T -> Json, dec: Json -> Option<T>)
    requires forall x :: dec(enc(x)) == Some(x)
    ensures Deserialize(Serialize(items, enc), dec) == Some(items)
  {
    var elems := Serialize(items, enc).elems;
    assert forall k :: 0 <= k < |elems| ==> dec(elems[k]) == Some(items[k]);
    var r := DecodeAll(elems, dec);
    assert r.Some? && |r.value| == |items|;
    assert forall k :: 0 <= k < |items| ==> r.value[k] == items[k];
    assert r.value == items;
  }

  /** The list installed at start-up from the slot's text. `parse` is `JSON.parse`, `None`
      where it throws. A missing or empty slot leaves the list empty; so does text that does
      not parse or does not decode to a list of entries. */
  function Load<T>(slot: Option<string>, parse: string -> Option<Json>, dec: Json -> Option<T>): (r: seq<T>)
    ensures slot.None? || slot == Some("") ==> r == []
    ensures slot.Some? && slot.value != "" && parse(slot.value).None? ==> r == []
  {
    if slot.None? || slot.value == "" then []
    else match parse(slot.value)
      case None => []
      case Some(j) => Deserialize(j, dec).GetOr([])
  }

  /** Reloading a slot whose text parses back to what was saved restores the list. */
  lemma LoadAfterSave<T>(items: seq<T>, text: string, parse: string -> Option<Json>,
                         enc: T -> Json, dec: Json -> Option<T>)
    requires forall x :: dec(enc(x)) == Some(x)
    requires text != "" && parse(text) == Some(Serialize(items, enc))
    ensures Load(Some(text), parse, dec) == items
  {
    DeserializeSerialize(items, enc, dec);
  }
}
