/**
 * The public tour listing of one travel: resolve the travel from its slug,
 * keep the tours that satisfy every supplied price and date bound, order
 * them by the optional price key and then by starting date, and return the
 * requested page.
 */
module TourListing {
  import opened Wrappers
  import opened Catalog
  import opened Pagination

  /** The only column the listing may be sorted by. */
  datatype SortColumn = Price

  datatype SortOrder = Asc | Desc

  /**
   * A query-string parameter: absent, or sent with its raw text and the value
   * the request validation parsed from it.
   */
  datatype Param<T> = Absent | Sent(raw: string, value: T)

  /** The query parameters of the listing request. */
  datatype TourQuery = TourQuery(
    priceFrom: Param<real>,
    priceTo: Param<real>,
    dateFrom: Param<Date>,
    dateTo: Param<Date>,
    sortBy: Option<SortColumn>,
    sortOrder: Option<SortOrder>)

  const NoParameters: TourQuery := TourQuery(Absent, Absent, Absent, Absent, None, None)

  datatype ListError = NotFound

  /** HTTP status of a failed listing. */
  function ErrorStatus(e: ListError): nat
  {
    match e
    case NotFound => 404
  }

  /** PHP truthiness of a query string: only "" and "0" are falsy. */
  predicate Truthy(raw: string)
  {
    raw != "" && raw != "0"
  }

  /** A conditional clause is added only for a sent, truthy parameter. */
  predicate Applies<T>(p: Param<T>)
  {
    p.Sent? && Truthy(p.raw)
  }

  /** The bound a price parameter in major units sets on `price_in_cents`. */
  function CentsBound(major: real): real
  {
    major * 100.0
  }

  // The four optional bounds, each as the comparison its `where` clause makes.

  predicate AbovePriceFrom(t: Tour, q: TourQuery)
  {
    Applies(q.priceFrom) ==> t.priceInCents as real >= CentsBound(q.priceFrom.value)
  }

  predicate BelowPriceTo(t: Tour, q: TourQuery)
  {
    Applies(q.priceTo) ==> t.priceInCents as real <= CentsBound(q.priceTo.value)
  }

  predicate AfterDateFrom(t: Tour, q: TourQuery)
  {
    Applies(q.dateFrom) ==> t.startingDate >= q.dateFrom.value
  }

  predicate BeforeDateTo(t: Tour, q: TourQuery)
  {
    Applies(q.dateTo) ==> t.startingDate <= q.dateTo.value
  }

  /** A tour is listed exactly when it satisfies every supplied bound. */
  predicate Matches(t: Tour, q: TourQuery)
  {
    AbovePriceFrom(t, q) && BelowPriceTo(t, q) && AfterDateFrom(t, q) && BeforeDateTo(t, q)
  }

  // The four `->when(...)` clauses: each adds its `where` only when its parameter applies.

  function WhenPriceFrom(s: seq<Tour>, q: TourQuery): (r: seq<Tour>)
    ensures forall t :: multiset(r)[t] == if AbovePriceFrom(t, q) then multiset(s)[t] else 0
  {
    if Applies(q.priceFrom) then
      var cents := CentsBound(q.priceFrom.value);
      Where(s, (t: Tour) => t.priceInCents as real >= cents)
    else s
  }

  function WhenPriceTo(s: seq<Tour>, q: TourQuery): (r: seq<Tour>)
    ensures forall t :: multiset(r)[t] == if BelowPriceTo(t, q) then multiset(s)[t] else 0
  {
    if Applies(q.priceTo) then
      var cents := CentsBound(q.priceTo.value);
      Where(s, (t: Tour) => t.priceInCents as real <= cents)
    else s
  }

  function WhenDateFrom(s: seq<Tour>, q: TourQuery): (r: seq<Tour>)
    ensures forall t :: multiset(r)[t] == if AfterDateFrom(t, q) then multiset(s)[t] else 0
  {
    if Applies(q.dateFrom) then
      var date := q.dateFrom.value;
      Where(s, (t: Tour) => t.startingDate >= date)
    else s
  }

  function WhenDateTo(s: seq<Tour>, q: TourQuery): (r: seq<Tour>)
    ensures forall t :: multiset(r)[t] == if BeforeDateTo(t, q) then multiset(s)[t] else 0
  {
    if Applies(q.dateTo) then
      var date := q.dateTo.value;
      Where(s, (t: Tour) => t.startingDate <= date)
    else s
  }

  /** The chain of four conditional `where` clauses, in the controller's order. */
  function Filtered(tours: seq<Tour>, q: TourQuery): seq<Tour>
  {
    WhenDateTo(WhenDateFrom(WhenPriceTo(WhenPriceFrom(tours, q), q), q), q)
  }

  /** The filter chain keeps exactly the stored tours that satisfy every supplied bound, each as often as stored. */
  lemma FilteredExactly(tours: seq<Tour>, q: TourQuery)
    ensures forall t :: multiset(Filtered(tours, q))[t] == if Matches(t, q) then multiset(tours)[t] else 0
    ensures forall t :: t in Filtered(tours, q) <==> t in tours && Matches(t, q)
  {
    var s1 := WhenPriceFrom(tours, q);
    var s2 := WhenPriceTo(s1, q);
    var s3 := WhenDateFrom(s2, q);
    var r := WhenDateTo(s3, q);
    forall t ensures multiset(r)[t] == if Matches(t, q) then multiset(tours)[t] else 0 {
      assert multiset(s1)[t] == if AbovePriceFrom(t, q) then multiset(tours)[t] else 0;
      assert multiset(s2)[t] == if BelowPriceTo(t, q) then multiset(s1)[t] else 0;
      assert multiset(s3)[t] == if AfterDateFrom(t, q) then multiset(s2)[t] else 0;
      assert multiset(r)[t] == if BeforeDateTo(t, q) then multiset(s3)[t] else 0;
    }
    forall t ensures t in r <==> t in tours && Matches(t, q) {
      assert t in r <==> t in multiset(r);
      assert t in tours <==> t in multiset(tours);
    }
  }

  /** The custom primary order: used only when both sortBy and sortOrder are given. */
  function PrimaryOrder(q: TourQuery): Option<(SortColumn, SortOrder)>
  {
    if q.sortBy.Some? && q.sortOrder.Some? then Some((q.sortBy.value, q.sortOrder.value)) else None
  }

  function SortKey(t: Tour, c: SortColumn): int
  {
    match c
    case Price => t.priceInCents
  }

  /**
   * The ORDER BY list: the optional primary key in its direction, then
   * `starting_date` ascending. `a` may precede `b`.
   */
  predicate InOrder(a: Tour, b: Tour, primary: Option<(SortColumn, SortOrder)>)
  {
    match primary
    case None => a.startingDate <= b.startingDate
    case Some((c, Asc)) =>
      SortKey(a, c) < SortKey(b, c) || (SortKey(a, c) == SortKey(b, c) && a.startingDate <= b.startingDate)
    case Some((c, Desc)) =>
      SortKey(a, c) > SortKey(b, c) || (SortKey(a, c) == SortKey(b, c) && a.startingDate <= b.startingDate)
  }

  predicate SortedBy(s: seq<Tour>, primary: Option<(SortColumn, SortOrder)>)
  {
    forall i, j :: 0 <= i < j < |s| ==> InOrder(s[i], s[j], primary)
  }

  lemma InOrderTotal(a: Tour, b: Tour, primary: Option<(SortColumn, SortOrder)>)
    ensures InOrder(a, b, primary) || InOrder(b, a, primary)
  {
  }

  lemma InOrderTransitive(a: Tour, b: Tour, c: Tour, primary: Option<(SortColumn, SortOrder)>)
    requires InOrder(a, b, primary) && InOrder(b, c, primary)
    ensures InOrder(a, c, primary)
  {
  }

  /** A row that may precede the head of a sorted sequence may precede all of it. */
  lemma PrecedesAll(x: Tour, s: seq<Tour>, primary: Option<(SortColumn, SortOrder)>)
    requires SortedBy(s, primary)
    requires s != [] ==> InOrder(x, s[0], primary)
    ensures SortedBy([x] + s, primary)
  {
    var r := [x] + s;
    forall i, j | 0 <= i < j < |r| ensures InOrder(r[i], r[j], primary) {
      if i == 0 && j > 1 {
        InOrderTransitive(x, s[0], s[j - 1], primary);
      }
    }
  }

  /** Inserts `x` before the first row it may precede. */
  function Insert(x: Tour, s: seq<Tour>, primary: Option<(SortColumn, SortOrder)>): (r: seq<Tour>)
    requires SortedBy(s, primary)
    ensures SortedBy(r, primary)
    ensures multiset(r) == multiset(s) + multiset{x}
  {
    if s == [] || InOrder(x, s[0], primary) then
      PrecedesAll(x, s, primary);
      [x] + s
    else
      assert s == [s[0]] + s[1..];
      var rest := Insert(x, s[1..], primary);
      InsertKeepsHeadFirst(x, s, rest, primary);
      [s[0]] + rest
  }

  lemma InsertKeepsHeadFirst(x: Tour, s: seq<Tour>, rest: seq<Tour>, primary: Option<(SortColumn, SortOrder)>)
    requires s != [] && SortedBy(s, primary) && !InOrder(x, s[0], primary)
    requires SortedBy(rest, primary) && multiset(rest) == multiset(s[1..]) + multiset{x}
    ensures SortedBy([s[0]] + rest, primary)
  {
    InOrderTotal(x, s[0], primary);
    if rest != [] {
      assert rest[0] in multiset(rest);
      if rest[0] != x {
        assert rest[0] in multiset(s[1..]);
        var k :| 0 <= k < |s[1..]| && s[1..][k] == rest[0];
        assert s[k + 1] == rest[0];
      }
    }
    PrecedesAll(s[0], rest, primary);
  }

  /** Orders the rows by the ORDER BY list; rows equal on every key keep their stored order. */
  function OrderBy(s: seq<Tour>, primary: Option<(SortColumn, SortOrder)>): (r: seq<Tour>)
    ensures SortedBy(r, primary)
    ensures multiset(r) == multiset(s)
  {
    if s == [] then []
    else
      assert s == [s[0]] + s[1..];
      Insert(s[0], OrderBy(s[1..], primary), primary)
  }

  /** No two different rows are equal on every key of the ORDER BY list. */
  predicate NoTies(s: seq<Tour>, primary: Option<(SortColumn, SortOrder)>)
  {
    forall x, y :: x in s && y in s && InOrder(x, y, primary) && InOrder(y, x, primary) ==> x == y
  }

  /** Without ties the ORDER BY list leaves no choice: two sorted permutations are the same sequence. */
  lemma {:induction false} SortedWithoutTiesIsUnique(a: seq<Tour>, b: seq<Tour>, primary: Option<(SortColumn, SortOrder)>)
    requires SortedBy(a, primary) && SortedBy(b, primary)
    requires multiset(a) == multiset(b)
    requires NoTies(a, primary)
    ensures a == b
    decreases |a|
  {
    assert |a| == |b| by {
      assert |multiset(a)| == |multiset(b)|;
    }
    if a != [] {
      HeadsAgree(a, b, primary);
      assert a == [a[0]] + a[1..];
      assert b == [b[0]] + b[1..];
      assert multiset(a) == multiset{a[0]} + multiset(a[1..]);
      assert multiset(b) == multiset{b[0]} + multiset(b[1..]);
      assert multiset(a[1..]) == multiset(a) - multiset{a[0]} == multiset(b) - multiset{b[0]} == multiset(b[1..]);
      SortedTail(a, primary);
      SortedTail(b, primary);
      NoTiesTail(a, primary);
      SortedWithoutTiesIsUnique(a[1..], b[1..], primary);
    }
  }

  lemma HeadsAgree(a: seq<Tour>, b: seq<Tour>, primary: Option<(SortColumn, SortOrder)>)
    requires a != [] && |a| == |b|
    requires SortedBy(a, primary) && SortedBy(b, primary)
    requires multiset(a) == multiset(b)
    requires NoTies(a, primary)
    ensures a[0] == b[0]
  {
    HeadPrecedes(b, a[0], primary);
    HeadPrecedes(a, b[0], primary);
  }

  /** The head of a sorted sequence may precede each of its rows. */
  lemma HeadPrecedes(s: seq<Tour>, x: Tour, primary: Option<(SortColumn, SortOrder)>)
    requires SortedBy(s, primary) && x in multiset(s)
    ensures s != [] && x in s && InOrder(s[0], x, primary)
  {
    var k :| 0 <= k < |s| && s[k] == x;
    if k > 0 {
      assert InOrder(s[0], s[k], primary);
    }
  }

  lemma SortedTail(s: seq<Tour>, primary: Option<(SortColumn, SortOrder)>)
    requires s != [] && SortedBy(s, primary)
    ensures SortedBy(s[1..], primary)
  {
    forall i, j | 0 <= i < j < |s[1..]| ensures InOrder(s[1..][i], s[1..][j], primary) {
      assert s[1..][i] == s[i + 1] && s[1..][j] == s[j + 1];
    }
  }

  lemma NoTiesTail(s: seq<Tour>, primary: Option<(SortColumn, SortOrder)>)
    requires s != [] && NoTies(s, primary)
    ensures NoTies(s[1..], primary)
  {
    forall x | x in s[1..] ensures x in s {
      var i :| 0 <= i < |s[1..]| && s[1..][i] == x;
      assert s[i + 1] == x;
    }
  }

  /** The ordered rows of a travel's tours before pagination. */
  function Listing(tours: seq<Tour>, q: TourQuery): seq<Tour>
  {
    OrderBy(Filtered(tours, q), PrimaryOrder(q))
  }

  /** `TourController::index`: the requested page of the listing of the travel with that slug. */
  function Index(travels: seq<Travel>, tours: seq<Tour>, slug: string, q: TourQuery,
                 page: PageNumber, perPage: PageSize): (r: Result<Paginated<Tour>, ListError>)
    ensures r.Failure? <==> forall tr :: tr in travels ==> tr.slug != slug
    ensures r.Failure? ==> r.error == NotFound
  {
    match TravelBySlug(travels, slug)
    case None => Failure(NotFound)
    case Some(travel) => Success(Paginate(Listing(ToursOf(travel, tours), q), page, perPage))
  }

  // Properties of the listing.

  /** The listing holds exactly the tours satisfying every supplied bound, each as often as stored. */
  lemma ListingIsExactlyTheMatches(tours: seq<Tour>, q: TourQuery)
    ensures forall t :: t in Listing(tours, q) <==> t in tours && Matches(t, q)
    ensures forall t :: multiset(Listing(tours, q))[t] == if Matches(t, q) then multiset(tours)[t] else 0
  {
    var f := Filtered(tours, q);
    FilteredExactly(tours, q);
    assert multiset(Listing(tours, q)) == multiset(f);
    forall t ensures t in Listing(tours, q) <==> t in f {
      assert t in Listing(tours, q) <==> t in multiset(Listing(tours, q));
      assert t in f <==> t in multiset(f);
    }
  }

  /** Without parameters every tour is listed, ordered by starting date. */
  lemma NoParametersListsEverything(tours: seq<Tour>)
    ensures multiset(Listing(tours, NoParameters)) == multiset(tours)
    ensures forall i, j :: 0 <= i < j < |Listing(tours, NoParameters)| ==>
      Listing(tours, NoParameters)[i].startingDate <= Listing(tours, NoParameters)[j].startingDate
  {
    assert Filtered(tours, NoParameters) == tours;
  }

  /** A `priceFrom` sent as "0" is falsy and adds no lower bound. */
  lemma FalsyPriceFromIsIgnored(tours: seq<Tour>, q: TourQuery, v: real)
    requires q.priceFrom == Sent("0", v)
    ensures Listing(tours, q) == Listing(tours, q.(priceFrom := Absent))
  {
  }

  /** A `priceTo` sent as "0" is falsy and adds no upper bound: `priceTo=0` lists every price. */
  lemma FalsyPriceToIsIgnored(tours: seq<Tour>, q: TourQuery, w: real)
    requires q.priceTo == Sent("0", w)
    ensures Listing(tours, q) == Listing(tours, q.(priceTo := Absent))
  {
  }

  /** Both price bounds sent as "0" add no constraint at all. */
  lemma FalsyPriceBoundIsIgnored(tours: seq<Tour>, q: TourQuery, v: real, w: real)
    requires q.priceFrom == Sent("0", v) && q.priceTo == Sent("0", w)
    ensures Listing(tours, q) == Listing(tours, q.(priceFrom := Absent, priceTo := Absent))
  {
    FalsyPriceFromIsIgnored(tours, q, v);
    FalsyPriceToIsIgnored(tours, q.(priceFrom := Absent), w);
  }

  /** Without both sortBy and sortOrder the listing is ordered by starting date alone. */
  lemma DefaultOrderIsStartingDate(tours: seq<Tour>, q: TourQuery)
    requires q.sortBy.None? || q.sortOrder.None?
    ensures forall i, j :: 0 <= i < j < |Listing(tours, q)| ==>
      Listing(tours, q)[i].startingDate <= Listing(tours, q)[j].startingDate
  {
  }

  /** sortBy=price, sortOrder=asc: prices never decrease, and equal prices go by starting date. */
  lemma PriceAscendingOrder(tours: seq<Tour>, q: TourQuery)
    requires q.sortBy == Some(Price) && q.sortOrder == Some(Asc)
    ensures forall i, j :: 0 <= i < j < |Listing(tours, q)| ==>
      var a, b := Listing(tours, q)[i], Listing(tours, q)[j];
      a.priceInCents <= b.priceInCents &&
      (a.priceInCents == b.priceInCents ==> a.startingDate <= b.startingDate)
  {
    var s := Listing(tours, q);
    assert SortedBy(s, Some((Price, Asc)));
  }

  /** sortBy=price, sortOrder=desc: prices never increase, and equal prices go by starting date. */
  lemma PriceDescendingOrder(tours: seq<Tour>, q: TourQuery)
    requires q.sortBy == Some(Price) && q.sortOrder == Some(Desc)
    ensures forall i, j :: 0 <= i < j < |Listing(tours, q)| ==>
      var a, b := Listing(tours, q)[i], Listing(tours, q)[j];
      a.priceInCents >= b.priceInCents &&
      (a.priceInCents == b.priceInCents ==> a.startingDate <= b.startingDate)
  {
    var s := Listing(tours, q);
    assert SortedBy(s, Some((Price, Desc)));
  }

  /**
   * Each page is a query of its own, and the database may order rows that tie
   * on every ORDER BY key differently each time. When no two different
   * matching tours tie, every order the database may choose is the listing.
   */
  lemma AnyDatabaseOrderIsTheListing(tours: seq<Tour>, q: TourQuery, rows: seq<Tour>)
    requires multiset(rows) == multiset(Filtered(tours, q))
    requires SortedBy(rows, PrimaryOrder(q))
    requires NoTies(Filtered(tours, q), PrimaryOrder(q))
    ensures rows == Listing(tours, q)
  {
    forall x | x in rows ensures x in Filtered(tours, q) {
      assert x in multiset(rows);
    }
    SortedWithoutTiesIsUnique(rows, Listing(tours, q), PrimaryOrder(q));
  }

  /** An unknown slug is answered with 404, and only an unknown slug is. */
  lemma UnknownSlugIsNotFound(travels: seq<Travel>, tours: seq<Tour>, slug: string, q: TourQuery,
                              page: PageNumber, perPage: PageSize)
    ensures Index(travels, tours, slug, q, page, perPage).Failure? <==> forall tr :: tr in travels ==> tr.slug != slug
    ensures Index(travels, tours, slug, q, page, perPage).Failure? ==>
      ErrorStatus(Index(travels, tours, slug, q, page, perPage).error) == 404
  {
  }

  /** Every listed tour is one of the stored tours of the travel resolved from the slug, and satisfies every bound. */
  lemma ListedToursBelongToTheTravel(travels: seq<Travel>, tours: seq<Tour>, slug: string, q: TourQuery,
                                     page: PageNumber, perPage: PageSize)
    requires TravelBySlug(travels, slug).Some?
    ensures Index(travels, tours, slug, q, page, perPage).Success?
    ensures forall t :: t in Index(travels, tours, slug, q, page, perPage).value.data ==>
      t in tours && t.travelId == TravelBySlug(travels, slug).value.id && Matches(t, q)
  {
    var travel := TravelBySlug(travels, slug).value;
    IndexOfKnownSlug(travels, tours, slug, q, page, perPage);
    ListingIsExactlyTheMatches(ToursOf(travel, tours), q);
  }

  /** A tour of the travel that satisfies every supplied bound is on some page up to the last. */
  lemma MatchingTourIsNeverDropped(travels: seq<Travel>, tours: seq<Tour>, slug: string, q: TourQuery,
                                   perPage: PageSize, t: Tour)
    requires TravelBySlug(travels, slug).Some?
    requires t in tours && t.travelId == TravelBySlug(travels, slug).value.id && Matches(t, q)
    ensures exists page: PageNumber :: (page <= Index(travels, tours, slug, q, 1, perPage).value.lastPage &&
      t in Index(travels, tours, slug, q, page, perPage).value.data)
  {
    var travel := TravelBySlug(travels, slug).value;
    var items := Listing(ToursOf(travel, tours), q);
    ListingIsExactlyTheMatches(ToursOf(travel, tours), q);
    EveryRowIsOnSomePage(items, perPage, t);
    var page: PageNumber :| page <= LastPage(|items|, perPage) && t in Slice(items, page, perPage);
    IndexOfKnownSlug(travels, tours, slug, q, 1, perPage);
    IndexOfKnownSlug(travels, tours, slug, q, page, perPage);
  }

  lemma IndexOfKnownSlug(travels: seq<Travel>, tours: seq<Tour>, slug: string, q: TourQuery,
                         page: PageNumber, perPage: PageSize)
    requires TravelBySlug(travels, slug).Some?
    ensures Index(travels, tours, slug, q, page, perPage) ==
      Success(Paginate(Listing(ToursOf(TravelBySlug(travels, slug).value, tours), q), page, perPage))
  {
  }

  /**
   * Page 1 holds min(perPage, total) tours, the total counts every matching
   * tour of the travel, and the last page is LastPage(total, perPage), the
   * ceiling of total / perPage.
   */
  lemma FirstPageOfListing(travels: seq<Travel>, tours: seq<Tour>, slug: string, q: TourQuery, perPage: PageSize)
    requires TravelBySlug(travels, slug).Some?
    ensures Index(travels, tours, slug, q, 1, perPage).Success?
    ensures Index(travels, tours, slug, q, 1, perPage).value.total ==
      |Filtered(ToursOf(TravelBySlug(travels, slug).value, tours), q)|
    ensures |Index(travels, tours, slug, q, 1, perPage).value.data| ==
      if Index(travels, tours, slug, q, 1, perPage).value.total < perPage
      then Index(travels, tours, slug, q, 1, perPage).value.total else perPage
    ensures Index(travels, tours, slug, q, 1, perPage).value.lastPage ==
      LastPage(Index(travels, tours, slug, q, 1, perPage).value.total, perPage)
  {
    var travel := TravelBySlug(travels, slug).value;
    var items := Listing(ToursOf(travel, tours), q);
    IndexOfKnownSlug(travels, tours, slug, q, 1, perPage);
    FirstPageSize(items, perPage);
    ListingLength(ToursOf(travel, tours), q);
  }

  lemma ListingLength(tours: seq<Tour>, q: TourQuery)
    ensures |Listing(tours, q)| == |Filtered(tours, q)|
  {
    assert |multiset(Listing(tours, q))| == |multiset(Filtered(tours, q))|;
  }

  /** The scenario of the price-filter feature test: 100.00 and 200.00 tours, priceFrom=150. */
  lemma PriceFromScenario(cheap: Tour, expensive: Tour)
    requires cheap.priceInCents == 10000 && expensive.priceInCents == 20000
    ensures var q := NoParameters.(priceFrom := Sent("150", 150.0));
      Listing([expensive, cheap], q) == [expensive]
  {
    var q := NoParameters.(priceFrom := Sent("150", 150.0));
    var cents := CentsBound(150.0);
    var above := (t: Tour) => t.priceInCents as real >= cents;
    assert Where([cheap], above) == [] by {
      assert [cheap][1..] == [];
    }
    assert Where([expensive, cheap], above) == [expensive] by {
      assert [expensive, cheap][1..] == [cheap];
    }
    assert Filtered([expensive, cheap], q) == [expensive];
    assert OrderBy([expensive], None) == [expensive] by {
      assert [expensive][1..] == [];
    }
  }

  /** Every bound is inclusive: a tour sits exactly on priceFrom, priceTo, dateFrom and dateTo and still matches. */
  lemma InclusiveBoundsScenario(t: Tour)
    requires t.priceInCents == 10000
    ensures Matches(t, NoParameters.(priceFrom := Sent("100", 100.0), priceTo := Sent("100", 100.0),
                                     dateFrom := Sent("d", t.startingDate), dateTo := Sent("d", t.startingDate)))
  {
  }
}
