/**
 * Length-aware pagination as the tour listing's `paginate()` performs it:
 * a fixed page size, 1-based page numbers, the total count and the last
 * page number, and the slice of rows for the requested page.
 */
module Pagination {

  /** A page size; the paginator never works with an empty page size. */
  type PageSize = n: nat | n >= 1 witness 1

  /** A page number as the paginator resolves it from the request. */
  type PageNumber = n: nat | n >= 1 witness 1

  datatype Paginated<T> = Paginated(
    data: seq<T>,
    currentPage: PageNumber,
    perPage: PageSize,
    total: nat,
    lastPage: PageNumber)

  /** The last page number: the ceiling of total / perPage, and 1 when there is nothing. */
  function LastPage(total: nat, perPage: PageSize): (r: PageNumber)
    ensures total == 0 ==> r == 1
    ensures total > 0 ==> (r - 1) * perPage < total <= r * perPage
  {
    if total == 0 then 1
    else
      var q := (total + perPage - 1) / perPage;
      assert q * perPage <= total + perPage - 1 < (q + 1) * perPage;
      q
  }

  /** The index of the first row on `page`. */
  function Offset(page: PageNumber, perPage: PageSize): nat
  {
    (page - 1) * perPage
  }

  /** The rows of `items` shown on `page`: at most `perPage` of them, in order. */
  function Slice<T>(items: seq<T>, page: PageNumber, perPage: PageSize): (r: seq<T>)
    ensures |r| <= perPage
    ensures |r| == if Offset(page, perPage) >= |items| then 0
                   else if |items| - Offset(page, perPage) < perPage then |items| - Offset(page, perPage)
                   else perPage
    ensures forall k :: 0 <= k < |r| ==> r[k] == items[Offset(page, perPage) + k]
    ensures forall x :: x in r ==> x in items
  {
    var from := Offset(page, perPage);
    if from >= |items| then []
    else if |items| - from < perPage then items[from..]
    else items[from..from + perPage]
  }

  /** `paginate()`: the requested page of `items` with its metadata. */
  function Paginate<T>(items: seq<T>, page: PageNumber, perPage: PageSize): Paginated<T>
  {
    Paginated(Slice(items, page, perPage), page, perPage, |items|, LastPage(|items|, perPage))
  }

  /** The rows of pages 1 .. n, one page after the other. */
  function Pages<T>(items: seq<T>, perPage: PageSize, n: nat): seq<T>
  {
    if n == 0 then [] else Pages(items, perPage, n - 1) + Slice(items, n, perPage)
  }

  /** Page 1 holds min(perPage, total) rows, and the last page is the ceiling of total / perPage. */
  lemma FirstPageSize<T>(items: seq<T>, perPage: PageSize)
    ensures var p := Paginate(items, 1, perPage);
      |p.data| == (if p.total < perPage then p.total else perPage) &&
      (p.total > 0 ==> (p.lastPage - 1) * perPage < p.total <= p.lastPage * perPage)
  {
  }

  /** A page past the last one is empty; its metadata still describes the whole listing. */
  lemma PageBeyondLastIsEmpty<T>(items: seq<T>, page: PageNumber, perPage: PageSize)
    requires page > LastPage(|items|, perPage)
    ensures Paginate(items, page, perPage).data == []
    ensures Paginate(items, page, perPage).total == |items|
  {
    var last := LastPage(|items|, perPage);
    assert last <= page - 1;
    assert last * perPage <= (page - 1) * perPage by { MulMonotone(last, page - 1, perPage); }
  }

  /** Every page up to the last one that is not the last is full. */
  lemma PagesBeforeLastAreFull<T>(items: seq<T>, page: PageNumber, perPage: PageSize)
    requires page < LastPage(|items|, perPage)
    ensures |Paginate(items, page, perPage).data| == perPage
  {
    var last := LastPage(|items|, perPage);
    assert page * perPage <= (last - 1) * perPage by { MulMonotone(page, last - 1, perPage); }
  }

  /** Pages 1 .. n together are the first n * perPage rows (or all of them). */
  lemma {:induction false} PagesArePrefix<T>(items: seq<T>, perPage: PageSize, n: nat)
    ensures Pages(items, perPage, n) == items[..if n * perPage < |items| then n * perPage else |items|]
  {
    if n > 0 {
      PagesArePrefix(items, perPage, n - 1);
      var before := if (n - 1) * perPage < |items| then (n - 1) * perPage else |items|;
      var after := if n * perPage < |items| then n * perPage else |items|;
      assert Offset(n, perPage) == (n - 1) * perPage;
      assert n * perPage == (n - 1) * perPage + perPage;
      assert items[..after] == items[..before] + items[before..after];
    }
  }

  /** The pages 1 .. lastPage partition the listing: together, in order, they are exactly `items`. */
  lemma PagesPartition<T>(items: seq<T>, perPage: PageSize)
    ensures Pages(items, perPage, LastPage(|items|, perPage)) == items
  {
    var last := LastPage(|items|, perPage);
    PagesArePrefix(items, perPage, last);
    assert |items| <= last * perPage;
  }

  /** Row i sits on page i / perPage + 1, at position i % perPage, and that page exists. */
  lemma RowOnItsPage<T>(items: seq<T>, perPage: PageSize, i: nat)
    requires i < |items|
    ensures i / perPage + 1 <= LastPage(|items|, perPage)
    ensures i % perPage < |Slice(items, i / perPage + 1, perPage)|
    ensures Slice(items, i / perPage + 1, perPage)[i % perPage] == items[i]
  {
    var page: PageNumber := i / perPage + 1;
    var pos := i % perPage;
    DivModSplit(i, perPage);
    RowAtOffset(items, perPage, page, pos);
  }

  /** The row at position `pos` of page `page`, when it exists, is row Offset(page) + pos, and the page is not past the last. */
  lemma RowAtOffset<T>(items: seq<T>, perPage: PageSize, page: PageNumber, pos: nat)
    requires pos < perPage && Offset(page, perPage) + pos < |items|
    ensures page <= LastPage(|items|, perPage)
    ensures pos < |Slice(items, page, perPage)|
    ensures Slice(items, page, perPage)[pos] == items[Offset(page, perPage) + pos]
  {
    var last := LastPage(|items|, perPage);
    assert (page - 1) * perPage < last * perPage;
    MulMonotoneConverse(page - 1, last, perPage);
  }

  /** Every row of the listing is on some page up to the last one. */
  lemma EveryRowIsOnSomePage<T>(items: seq<T>, perPage: PageSize, x: T)
    requires x in items
    ensures exists page: PageNumber :: page <= LastPage(|items|, perPage) && x in Slice(items, page, perPage)
  {
    var i :| 0 <= i < |items| && items[i] == x;
    var page: PageNumber := i / perPage + 1;
    var pos := i % perPage;
    DivModSplit(i, perPage);
    RowAtOffset(items, perPage, page, pos);
    var onPage := Slice(items, page, perPage);
    assert onPage[pos] == x;
  }

  lemma DivModSplit(i: nat, n: PageSize)
    ensures i % n < n
    ensures Offset(i / n + 1, n) + i % n == i
  {
  }

  lemma MulMonotoneConverse(a: nat, b: nat, c: nat)
    requires a * c < b * c
    ensures a < b
  {
    if a >= b {
      MulMonotone(b, a, c);
    }
  }

  lemma MulMonotone(a: nat, b: nat, c: nat)
    requires a <= b
    ensures a * c <= b * c
  {
  }
}
