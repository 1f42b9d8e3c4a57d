/**
 * The listing value objects of `App\Domain\Common`: the criteria a listing
 * is asked with and the page of results it answers with. Both are
 * immutable; the PHP getters are the datatype fields.
 */
module DomainCommon {
  import opened Wrappers
  import opened Sequences
  import opened PhpArrays
  import opened Strings

  /** column => 'asc' | 'desc', in precedence order. */
  type SortMap = OMap<string, string>

  /** column => value, compared for equality. */
  type FilterMap = OMap<string, string>

  /**
   * `ListCriteria`. The constructor checks nothing: the parser is what
   * keeps `page >= 1` and the columns whitelisted.
   */
  datatype ListCriteria = ListCriteria(
    page: int,
    perPage: int,
    search: string,
    sort: SortMap,
    filter: FilterMap)

  /**
   * `getOffset()`: the number of matching rows on the pages before this
   * one, `(page - 1) * perPage`. When `page - 1` or the product leaves the
   * `int` range PHP turns it into a float, which the `int` return type
   * refuses under strict types with a `TypeError`: then there is no
   * offset (None).
   */
  function Offset(c: ListCriteria): (r: Option<int>)
    ensures r.Some? <==> IsPhpInt(c.page - 1) && IsPhpInt((c.page - 1) * c.perPage)
    ensures r.Some? ==> IsPhpInt(r.value)
    ensures r.Some? && c.page >= 1 && c.perPage >= 0 ==> r.value >= 0
    ensures r.Some? && c.perPage > 0 ==> r.value % c.perPage == 0 && r.value / c.perPage == c.page - 1
  {
    OffsetIsMultiple(c.page - 1, c.perPage);
    if IsPhpInt(c.page - 1) && IsPhpInt((c.page - 1) * c.perPage) then Some((c.page - 1) * c.perPage) else None
  }

  /** A page far enough out makes the offset overflow: page 5 * 10^16 of 200 rows. */
  lemma OffsetOverflows()
    ensures Offset(ListCriteria(50_000_000_000_000_000, 200, "", [], [])).None?
  {
  }

  lemma OffsetIsMultiple(k: int, n: int)
    ensures n > 0 ==> (k * n) % n == 0 && (k * n) / n == k
  {
    if n > 0 {
      var m := k * n;
      var q, r := m / n, m % n;
      assert m == q * n + r && 0 <= r < n;
      var d := k - q;
      assert d * n == k * n - q * n;
      assert d * n == r;
    }
  }

  /** `hasSearch()`. */
  predicate HasSearch(c: ListCriteria) {
    c.search != ""
  }

  /** `hasFilter()`. */
  predicate HasFilter(c: ListCriteria) {
    c.filter != []
  }

  /**
   * `ListResult`. The constructor checks neither `|items| <= perPage` nor
   * `total >= |items|`: the repositories are what guarantee them.
   */
  datatype ListResult<T> = ListResult(items: seq<T>, total: int, page: int, perPage: int)

  /** A value of the array `ListResult::toArray` builds. */
  datatype ResultValue<T> = ItemList(list: seq<T>) | Number(n: int)

  /** `toArray()`: the four fields under their response names (`perPage` becomes `per_page`). */
  function ResultToArray<T>(r: ListResult<T>): (a: OMap<string, ResultValue<T>>)
    ensures Keys(a) == ["items", "total", "page", "per_page"]
    ensures Get(a, "per_page") == Some(Number(r.perPage))
  {
    var a := [("items", ItemList(r.items)), ("total", Number(r.total)),
              ("page", Number(r.page)), ("per_page", Number(r.perPage))];
    assert Keys(a)[3] == "per_page";
    a
  }

  /** Reads a result back from its array form. */
  function ResultFromArray<T>(a: OMap<string, ResultValue<T>>): Option<ListResult<T>> {
    var items, total, page, perPage := Get(a, "items"), Get(a, "total"), Get(a, "page"), Get(a, "per_page");
    if items.Some? && items.value.ItemList? && total.Some? && total.value.Number?
       && page.Some? && page.value.Number? && perPage.Some? && perPage.value.Number?
    then Some(ListResult(items.value.list, total.value.n, page.value.n, perPage.value.n))
    else None
  }

  /** `toArray` loses nothing: every field can be read back from it. */
  lemma ResultToArrayRoundTrip<T>(r: ListResult<T>)
    ensures ResultFromArray(ResultToArray(r)) == Some(r)
  {
    var a := ResultToArray(r);
    assert Keys(a) == ["items", "total", "page", "per_page"];
    assert IndexOf(Keys(a), "items") == 0;
    assert IndexOf(Keys(a), "total") == 1;
    assert IndexOf(Keys(a), "page") == 2;
    assert IndexOf(Keys(a), "per_page") == 3;
  }
}
