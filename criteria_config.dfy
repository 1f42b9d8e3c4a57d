/**
 * `ListCriteriaConfig`: the per-resource whitelists and limits a listing is
 * parsed against. It is a read-only value; its getters are the datatype
 * fields and `isSortable` / `isFilterable` are strict membership tests.
 */
module CriteriaConfig {
  import opened Wrappers
  import opened PhpArrays
  import opened DomainCommon

  datatype ListCriteriaConfig = ListCriteriaConfig(
    searchableColumns: seq<string>,
    sortableColumns: seq<string>,
    filterableColumns: seq<string>,
    maxPerPage: int,
    defaultPerPage: int,
    defaultSort: SortMap)

  /** Default of the `maxPerPage` constructor argument. */
  const DEFAULT_MAX_PER_PAGE: int := 200

  /** Default of the `defaultPerPage` constructor argument. */
  const DEFAULT_PER_PAGE: int := 10

  /** Default of the `defaultSort` constructor argument. */
  const DEFAULT_SORT: SortMap := [("id", "asc")]

  /** The constructor called with the three whitelists only. */
  function WithDefaults(searchable: seq<string>, sortable: seq<string>, filterable: seq<string>): (c: ListCriteriaConfig)
    ensures c.maxPerPage == 200 && c.defaultPerPage == 10
    ensures Keys(c.defaultSort) == ["id"] && Get(c.defaultSort, "id") == Some("asc")
  {
    ListCriteriaConfig(searchable, sortable, filterable, DEFAULT_MAX_PER_PAGE, DEFAULT_PER_PAGE, DEFAULT_SORT)
  }

  /** `isSortable($column)`: `in_array` with strict comparison, so case matters. */
  predicate IsSortable(c: ListCriteriaConfig, column: string) {
    column in c.sortableColumns
  }

  /** `isFilterable($column)`, strict as well. */
  predicate IsFilterable(c: ListCriteriaConfig, column: string) {
    column in c.filterableColumns
  }

  /** A sort direction the parser produces. */
  predicate IsDirection(d: string) {
    d == "asc" || d == "desc"
  }

  /** A sort map the parser could have produced under `c`. */
  predicate SortableMap(c: ListCriteriaConfig, sort: SortMap) {
    IsMap(sort) &&
    (forall i :: 0 <= i < |sort| ==> IsSortable(c, sort[i].0) && IsDirection(sort[i].1))
  }

  /**
   * What a sensible configuration satisfies. The constructor checks none
   * of it: it stores whatever it is given.
   */
  predicate Consistent(c: ListCriteriaConfig) {
    1 <= c.defaultPerPage <= c.maxPerPage && SortableMap(c, c.defaultSort)
  }

  /** The constructor accepts a default page size above the maximum, and an unsortable default sort. */
  lemma ConstructorChecksNothing()
    ensures !Consistent(ListCriteriaConfig([], [], [], 5, DEFAULT_PER_PAGE, DEFAULT_SORT))
    ensures !Consistent(WithDefaults([], [], []))
  {
    assert !IsSortable(WithDefaults([], [], []), DEFAULT_SORT[0].0);
  }
}
