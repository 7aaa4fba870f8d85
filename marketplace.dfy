/**
 * The listing search of the marketplace view (marketplace_app/views.py): the
 * three query parameters are stripped, each non-empty one narrows the listings,
 * and the result is ordered newest first.
 */
module Marketplace {
  import opened Text
  import opened Listings
  import opened QuerySets

  /** The type parameter only filters when it is one of the three type keys. */
  predicate IsTypeKey(t: string)
  {
    t in ["sale", "swap", "buy"]
  }

  /** Whether listing l passes the stripped filters q (title search), c (category key) and t (type key). */
  predicate Selected(l: Listing, q: string, c: string, t: string)
  {
    && (q != "" ==> ContainsIgnoreCase(l.title, q))
    && (c != "" ==> CategoryKey(l.category) == c)
    && (IsTypeKey(t) ==> ListingTypeKey(l.listingType) == t)
  }

  function CreatedAt(l: Listing): int
  {
    l.createdAt
  }

  /** marketplace: filter by the stripped q, category and type parameters in turn, then order by -created_at. */
  function Search(listings: seq<Listing>, rawQuery: string, rawCategory: string, rawType: string): (r: seq<Listing>)
    ensures Descending(r, CreatedAt)
    ensures forall l :: multiset(r)[l] ==
                        if Selected(l, Strip(rawQuery, Python), Strip(rawCategory, Python), Strip(rawType, Python))
                        then multiset(listings)[l] else 0
  {
    var q := Strip(rawQuery, Python);
    var c := Strip(rawCategory, Python);
    var t := Strip(rawType, Python);
    var all := listings;
    var byQuery := if q != "" then Where(all, (l: Listing) => ContainsIgnoreCase(l.title, q)) else all;
    var byCategory := if c != "" then Where(byQuery, (l: Listing) => CategoryKey(l.category) == c) else byQuery;
    var byType := if t in ["sale", "swap", "buy"] then Where(byCategory, (l: Listing) => ListingTypeKey(l.listingType) == t) else byCategory;
    SortDescending(byType, CreatedAt)
  }

  /** Every listing shown passes every filter given, and every listing that passes them is shown. */
  lemma {:induction false} SearchIsExact(listings: seq<Listing>, rawQuery: string, rawCategory: string, rawType: string, l: Listing)
    ensures l in Search(listings, rawQuery, rawCategory, rawType) <==>
      l in listings && Selected(l, Strip(rawQuery, Python), Strip(rawCategory, Python), Strip(rawType, Python))
  {
    var r := Search(listings, rawQuery, rawCategory, rawType);
    assert l in r <==> multiset(r)[l] > 0;
    assert l in listings <==> multiset(listings)[l] > 0;
  }

  /** With no query, no category and no recognised type, every listing is shown, newest first. */
  lemma {:induction false} NoFilterShowsAll(listings: seq<Listing>, rawQuery: string, rawCategory: string, rawType: string)
    requires AllSpace(rawQuery, Python) && AllSpace(rawCategory, Python) && !IsTypeKey(Strip(rawType, Python))
    ensures multiset(Search(listings, rawQuery, rawCategory, rawType)) == multiset(listings)
  {
    var r := Search(listings, rawQuery, rawCategory, rawType);
    forall l ensures multiset(r)[l] == multiset(listings)[l] {
    }
  }
}
