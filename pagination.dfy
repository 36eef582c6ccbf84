/** src/utils/pagination.ts: the response envelope of a page of results, with links to the
    next and the previous page. `BASE_URL`, read from the environment, is a parameter. */
module Pagination {
  import opened Outcomes
  import opened Text
  import opened Store

  datatype Page<T> = Page(data: seq<T>, limit: int, pageNumber: int, next: string, previous: string)

  const PAGE_QUERY: string := "?page="

  /** `${BASE_URL}${path}?page=${n}`. */
  function Link(baseUrl: string, path: string, n: int): (r: string)
    ensures |r| > |baseUrl + path + PAGE_QUERY|
    ensures r[..|baseUrl + path + PAGE_QUERY|] == baseUrl + path + PAGE_QUERY
  {
    baseUrl + path + PAGE_QUERY + IntToString(n)
  }

  /** The page number a link names, read back from the text after `?page=`. */
  function LinkedPage(baseUrl: string, path: string, link: string): int
  {
    var k := |baseUrl + path + PAGE_QUERY|;
    if k <= |link| then ParseInt(link[k..]) else 0
  }

  /** `paginate(documents, limit, pageNumber, path)`. */
  function Paginate<T>(documents: seq<T>, limit: int, pageNumber: int, path: string, baseUrl: string): (r: Page<T>)
    ensures r.data == documents && r.limit == limit && r.pageNumber == pageNumber
    ensures r.next == "" <==> |documents| < limit
    ensures r.previous == "" <==> pageNumber <= 1
  {
    Page(documents, limit, pageNumber,
         if |documents| < limit then "" else Link(baseUrl, path, pageNumber + 1),
         if pageNumber > 1 then Link(baseUrl, path, pageNumber - 1) else "")
  }

  /** A link names the page it was built for. */
  lemma LinkNamesItsPage(baseUrl: string, path: string, n: int)
    ensures LinkedPage(baseUrl, path, Link(baseUrl, path, n)) == n
  {
    var pre := baseUrl + path + PAGE_QUERY;
    assert Link(baseUrl, path, n)[|pre|..] == IntToString(n);
    ParseIntToString(n);
  }

  /** `next`, when present, leads to page `pageNumber + 1` and `previous`, when present,
      to page `pageNumber - 1`, both under the same base URL and path. */
  lemma LinksNameAdjacentPages<T>(documents: seq<T>, limit: int, pageNumber: int, path: string, baseUrl: string)
    ensures var r := Paginate(documents, limit, pageNumber, path, baseUrl);
      (r.next != "" ==> r.next[..|baseUrl + path + PAGE_QUERY|] == baseUrl + path + PAGE_QUERY
                        && LinkedPage(baseUrl, path, r.next) == pageNumber + 1)
      && (r.previous != "" ==> r.previous[..|baseUrl + path + PAGE_QUERY|] == baseUrl + path + PAGE_QUERY
                               && LinkedPage(baseUrl, path, r.previous) == pageNumber - 1)
  {
    LinkNamesItsPage(baseUrl, path, pageNumber + 1);
    LinkNamesItsPage(baseUrl, path, pageNumber - 1);
  }

  /** Over the repositories' window, an empty `next` is never wrong: a short page means no
      match lies beyond it. */
  lemma {:induction false} NoNextMeansNothingLeft<T>(s: seq<T>, limit: int, page: int, path: string, baseUrl: string)
    requires limit > 0 && page >= 1
    ensures page * limit >= 0
    ensures Paginate(Paged(s, limit, page).value, limit, page, path, baseUrl).next == "" ==>
      Paged(s, limit, page + 1) == Ok([])
  {
    PagedIsSlice(s, limit, page);
    PagedIsSlice(s, limit, page + 1);
    MulNonNeg(page, limit);
    assert (page + 1 - 1) * limit == page * limit;
    assert (page + 1) * limit == page * limit + limit;
  }

  /** The converse does not hold: when the matches run out exactly at the end of a full
      page, `next` is still given, and it leads to an empty page. */
  lemma {:induction false} FullLastPageStillLinksNext<T>(s: seq<T>, limit: int, page: int, path: string, baseUrl: string)
    requires limit > 0 && page >= 1 && |s| == page * limit
    ensures Paginate(Paged(s, limit, page).value, limit, page, path, baseUrl).next
            == Link(baseUrl, path, page + 1)
    ensures Paged(s, limit, page + 1) == Ok([])
  {
    PagedIsSlice(s, limit, page);
    PagedIsSlice(s, limit, page + 1);
    assert (page - 1) * limit == page * limit - limit;
    assert (page + 1 - 1) * limit == page * limit;
  }
}
