/** The search page (`frontend/app/search/page.tsx`): the products whose name or
    description contains the query, ignoring case. */
module Search {
  import opened Wrappers
  import Text
  import Seqs
  import Catalog

  /** `searchParams.get("query")?.trim() ?? ""`. */
  function QueryText(param: Option<string>): (q: string)
    ensures Text.IsTrimmed(q)
    ensures param.None? ==> q == ""
  {
    if param.Some? then Text.Trim(param.value) else ""
  }

  /** The match test; `lower` is `toLowerCase`. */
  function Matches(lower: string -> string, q: string): Catalog.Product -> bool {
    (p: Catalog.Product) => Text.Includes(lower(p.name), lower(q)) || Text.Includes(lower(p.description), lower(q))
  }

  /** `results`. */
  function Results(products: seq<Catalog.Product>, param: Option<string>, lower: string -> string): (r: seq<Catalog.DisplayProduct>)
    // No query, no results (and no request).
    ensures QueryText(param) == "" ==> r == []
    // Otherwise the cards of an order-preserving selection of the products ...
    ensures QueryText(param) != "" ==> exists hits: seq<Catalog.Product> ::
      && Seqs.IsSubsequence(hits, products) && r == Catalog.DisplayAll(hits)
      // ... each of which contains the query in its name or description ...
      && (forall k :: 0 <= k < |hits| ==>
            Text.HasInfix(lower(hits[k].name), lower(QueryText(param)))
            || Text.HasInfix(lower(hits[k].description), lower(QueryText(param))))
      // ... and which leaves none of the matching products out.
      && (forall k :: 0 <= k < |products| && Matches(lower, QueryText(param))(products[k]) ==> products[k] in hits)
  {
    var q := QueryText(param);
    if q == "" then []
    else
      var hits := Seqs.Filter(products, Matches(lower, q));
      FilterFinds(products, lower, q);
      Catalog.DisplayAll(hits)
  }

  /** The filter keeps exactly the matching products, in order. */
  lemma FilterFinds(products: seq<Catalog.Product>, lower: string -> string, q: string)
    ensures var hits := Seqs.Filter(products, Matches(lower, q));
      && Seqs.IsSubsequence(hits, products)
      && (forall k :: 0 <= k < |hits| ==>
            Text.HasInfix(lower(hits[k].name), lower(q)) || Text.HasInfix(lower(hits[k].description), lower(q)))
      && (forall k :: 0 <= k < |products| && Matches(lower, q)(products[k]) ==> products[k] in hits)
  {
    var hits := Seqs.Filter(products, Matches(lower, q));
    forall k | 0 <= k < |hits|
      ensures Text.HasInfix(lower(hits[k].name), lower(q)) || Text.HasInfix(lower(hits[k].description), lower(q))
    {
      assert Matches(lower, q)(hits[k]);
    }
  }

  /** Surrounding white space in the query changes nothing. */
  lemma QueryTrimmed(products: seq<Catalog.Product>, param: string, lower: string -> string)
    ensures Results(products, Some(param), lower) == Results(products, Some(Text.Trim(param)), lower)
  {
    Text.TrimIdempotent(param);
  }

  /** A query that is only white space finds nothing. */
  lemma BlankQueryFindsNothing(products: seq<Catalog.Product>, param: string, lower: string -> string)
    requires Text.IsBlank(param)
    ensures Results(products, Some(param), lower) == []
  {
    Text.BlankTrim(param);
  }
}
