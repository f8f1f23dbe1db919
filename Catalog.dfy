/**
 * The catalogue entities (travels and their tours) and the two store queries
 * the tour listing is built from: a `where` over stored rows, and the
 * route-model binding that resolves a travel from its slug.
 */
module Catalog {
  import opened Wrappers

  /** A calendar date or timestamp; only its order matters here. */
  type Date = int

  datatype Travel = Travel(
    id: nat,
    slug: string,
    name: string,
    description: string,
    isPublic: bool,
    numberOfDays: nat)

  /** A scheduled tour; its price is stored in minor currency units. */
  datatype Tour = Tour(
    id: nat,
    travelId: nat,
    name: string,
    startingDate: Date,
    endingDate: Date,
    priceInCents: nat)

  /** A store `where`: the rows of `s` that satisfy `p`, in stored order. */
  function Where(s: seq<Tour>, p: Tour -> bool): (r: seq<Tour>)
    ensures |r| <= |s|
    ensures forall t :: t in r <==> t in s && p(t)
    ensures forall t :: multiset(r)[t] == if p(t) then multiset(s)[t] else 0
    ensures (forall t :: t in s ==> p(t)) ==> r == s
  {
    if s == [] then []
    else
      var rest := Where(s[1..], p);
      assert s == [s[0]] + s[1..];
      if p(s[0]) then [s[0]] + rest else rest
  }

  /** `$travel->tours()`: the tours owned by `travel`. */
  function ToursOf(travel: Travel, tours: seq<Tour>): (r: seq<Tour>)
    ensures forall t :: t in r <==> t in tours && t.travelId == travel.id
  {
    Where(tours, (t: Tour) => t.travelId == travel.id)
  }

  /**
   * Route-model binding on `{travel:slug}`: the first stored travel whose
   * slug is `slug`, or nothing (the router then answers 404).
   */
  function TravelBySlug(travels: seq<Travel>, slug: string): (r: Option<Travel>)
    ensures r.None? <==> forall t :: t in travels ==> t.slug != slug
    ensures r.Some? ==> r.value in travels && r.value.slug == slug
  {
    if travels == [] then None
    else if travels[0].slug == slug then Some(travels[0])
    else TravelBySlug(travels[1..], slug)
  }
}
