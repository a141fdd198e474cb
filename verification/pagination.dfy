/** The generic paginator of the merge-request task: request pages 1, 2, 3, ...
    of a listing endpoint until the page number passes the total that the
    server last reported in its X-Total-Pages header. */
module Pagination {
  import opened Wrappers
  import opened Decimal

  /** One page as a listing endpoint answers it: the items of the page and the
      raw X-Total-Pages header, "" when the header is absent (Go's
      `Header.Get` answers "" for a missing header too). */
  datatype Page<T> = Page(items: seq<T>, totalPages: string)

  /** A listing endpoint: page number to page, or the transport error. */
  type Fetch<T> = int -> Result<Page<T>, string>

  datatype PageError =
    | FetchFailed(cause: string)       // the error the endpoint returned, passed on as is
    | InvalidTotalPages(header: string) // X-Total-Pages present but not an integer

  /** The running total after a page whose header is `h`: unchanged when the
      header is absent, the header's value when it is an integer. */
  function NextTotal(h: string, total: int): (r: Result<int, PageError>)
    requires total <= MaxInt
    ensures r.Ok? ==> r.value <= MaxInt
    ensures r.Err? <==> h != "" && Atoi(h).None?
    ensures h == "" ==> r == Ok(total)
    ensures h != "" && Atoi(h).Some? ==> r == Ok(Atoi(h).value)
  {
    if h == "" then Ok(total)
    else match Atoi(h)
      case Some(t) => Ok(t)
      case None => Err(InvalidTotalPages(h))
  }

  /** The outcome of draining an endpoint: all items or the error, and how many
      pages were requested on the way. */
  datatype Run<T> = Run(result: Result<seq<T>, PageError>, calls: nat)

  /** `items` fetched by `calls` earlier requests, followed by `run`. */
  function Combine<T>(items: seq<T>, calls: nat, run: Run<T>): Run<T>
  {
    Run(match run.result
        case Ok(xs) => Ok(items + xs)
        case Err(e) => Err(e),
        calls + run.calls)
  }

  lemma CombineNothing<T>(run: Run<T>)
    ensures Combine([], 0, run) == run
  {
    if run.result.Ok? {
      assert [] + run.result.value == run.result.value;
    }
  }

  lemma CombineCombine<T>(a: seq<T>, i: nat, b: seq<T>, j: nat, run: Run<T>)
    ensures Combine(a, i, Combine(b, j, run)) == Combine(a + b, i + j, run)
  {
    if run.result.Ok? {
      assert a + (b + run.result.value) == (a + b) + run.result.value;
    }
  }

  /** What the loop of `getAllPages` does from page `page` with running total
      `total` onwards. Totals come from `Atoi`, so they never exceed 2^63 - 1,
      and that bounds the number of pages. */
  function Drain<T>(f: Fetch<T>, page: int, total: int): Run<T>
    requires total <= MaxInt
    decreases MaxInt + 1 - page
  {
    if page > total then Run(Ok([]), 0)
    else match f(page)
      case Err(e) => Run(Err(FetchFailed(e)), 1)
      case Ok(pg) =>
        match NextTotal(pg.totalPages, total)
        case Err(e) => Run(Err(e), 1)
        case Ok(t) => Combine(pg.items, 1, Drain(f, page + 1, t))
  }

  /** `getAllPages`: requests pages 1, 2, 3, ... in turn (`requested` is the
      log of page numbers passed to `f`), stops at the first error, and
      otherwise returns every page's items in page order. */
  method GetAllPages<T>(f: Fetch<T>) returns (r: Result<seq<T>, PageError>, requested: seq<int>)
    ensures r == Drain(f, 1, 1).result
    ensures |requested| == Drain(f, 1, 1).calls
    ensures forall i :: 0 <= i < |requested| ==> requested[i] == i + 1
  {
    var items: seq<T> := [];
    requested := [];
    var currentPage, totalPages := 1, 1;
    CombineNothing(Drain(f, 1, 1));
    while currentPage <= totalPages
      invariant totalPages <= MaxInt
      invariant currentPage == |requested| + 1
      invariant forall i :: 0 <= i < |requested| ==> requested[i] == i + 1
      invariant Drain(f, 1, 1) == Combine(items, |requested|, Drain(f, currentPage, totalPages))
      decreases MaxInt + 1 - currentPage
    {
      var res := f(currentPage);
      requested := requested + [currentPage];
      if res.Err? {
        return Err(FetchFailed(res.error)), requested;
      }
      var header := res.value.totalPages;
      if header != "" {
        var t := Atoi(header);
        if t.None? {
          return Err(InvalidTotalPages(header)), requested;
        }
        totalPages := t.value;
      }
      CombineCombine(items, |requested| - 1, res.value.items, 1, Drain(f, currentPage + 1, totalPages));
      items := items + res.value.items;
      currentPage := currentPage + 1;
    }
    assert items + [] == items;
    r := Ok(items);
  }

  /** The error that page `p` stops the paginator with, if any. */
  function PageFailure<T>(f: Fetch<T>, p: int): (r: Option<PageError>)
    ensures r.None? <==> f(p).Ok? && NextTotal(f(p).value.totalPages, 0).Ok?
  {
    match f(p)
    case Err(e) => Some(FetchFailed(e))
    case Ok(pg) =>
      if pg.totalPages != "" && Atoi(pg.totalPages).None? then Some(InvalidTotalPages(pg.totalPages))
      else None
  }

  /** The items of pages lo, lo + 1, ..., lo + n - 1, in that order. */
  function PagesFrom<T>(f: Fetch<T>, lo: int, n: nat): seq<T>
    decreases n
  {
    if n == 0 then []
    else (match f(lo) case Ok(pg) => pg.items case Err(_) => []) + PagesFrom(f, lo + 1, n - 1)
  }

  /** Every run of the paginator requests consecutive pages of which all but the
      last succeeded; it either returns the concatenation of all requested
      pages, or fails with exactly the error of the last page requested (so
      nothing is requested after the first failure). */
  lemma {:induction false} DrainOutcome<T>(f: Fetch<T>, page: int, total: int)
    requires total <= MaxInt
    ensures var d := Drain(f, page, total);
      && (forall q :: page <= q < page + d.calls - 1 ==> PageFailure(f, q).None?)
      && (d.result.Ok? ==>
            (forall q :: page <= q < page + d.calls ==> PageFailure(f, q).None?) &&
            d.result.value == PagesFrom(f, page, d.calls))
      && (d.result.Err? ==> d.calls >= 1 && PageFailure(f, page + d.calls - 1) == Some(d.result.error))
    decreases MaxInt + 1 - page
  {
    if page <= total && f(page).Ok? {
      var pg := f(page).value;
      var next := NextTotal(pg.totalPages, total);
      if next.Ok? {
        DrainOutcome(f, page + 1, next.value);
      }
    }
  }

  /** A first page whose header is absent, or reports at most one page, makes
      the paginator request that page only. */
  lemma DrainSinglePage<T>(f: Fetch<T>)
    requires f(1).Ok?
    requires var h := f(1).value.totalPages; h == "" || (Atoi(h).Some? && Atoi(h).value <= 1)
    ensures Drain(f, 1, 1) == Run(Ok(f(1).value.items), 1)
  {
    var t := NextTotal(f(1).value.totalPages, 1);
    assert Drain(f, 2, t.value) == Run(Ok([]), 0);
    assert f(1).value.items + [] == f(1).value.items;
  }

  lemma {:induction false} DrainFixedTotal<T>(f: Fetch<T>, n: int, k: int)
    requires 1 <= k <= n + 1 && n <= MaxInt
    requires forall p :: k <= p <= n ==> f(p).Ok? && Atoi(f(p).value.totalPages) == Some(n)
    ensures Drain(f, k, n) == Run(Ok(PagesFrom(f, k, n - k + 1)), n - k + 1)
    decreases n - k + 1
  {
    if k <= n {
      DrainFixedTotal(f, n, k + 1);
    }
  }

  /** When every page reports the same total n >= 1, the paginator requests
      exactly n pages and returns their items in page order. */
  lemma DrainAllPages<T>(f: Fetch<T>, n: int)
    requires 1 <= n <= MaxInt
    requires forall p :: 1 <= p <= n ==> f(p).Ok? && Atoi(f(p).value.totalPages) == Some(n)
    ensures Drain(f, 1, 1) == Run(Ok(PagesFrom(f, 1, n)), n)
  {
    DrainFixedTotal(f, n, 2);
  }
}
