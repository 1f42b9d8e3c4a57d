/**
 * The query text and bound parameters `MySQLClientRepository::findAll`
 * builds from a `ListCriteria`: a `WHERE` clause of conditions joined by
 * ` AND `, an `ORDER BY` list, a count query and a page query sharing
 * that `WHERE` text, and the parameter lists bound to their `?`s.
 */
module MySqlClientQuery {
  import opened Wrappers
  import opened Sequences
  import opened Strings
  import opened PhpArrays
  import opened DomainCommon

  /** A value bound to a `?` placeholder. */
  datatype SqlParam = TextParam(s: string) | IntParam(i: int)

  const SEARCH_COLUMNS: seq<string> := ["name", "document", "phone"]

  /** The placeholder a bound parameter fills. */
  const PLACEHOLDER: string := "?"

  /** The columns the page query selects, in order. */
  const SELECT_COLUMNS: seq<string> :=
    ["id", "name", "phone", "type", "document", "created_at", "updated_at", "deleted_at"]

  const FROM_CLIENTS: string := " FROM clients WHERE "
  const COUNT_PREFIX: string := "SELECT COUNT(*)" + FROM_CLIENTS
  const SELECT_PREFIX: string := "SELECT " + Implode(", ", SELECT_COLUMNS) + FROM_CLIENTS

  /** The statements of one `findAll`, with what is bound to them. */
  datatype Query = Query(
    whereSql: string,
    whereParams: seq<SqlParam>,
    orderSql: string,
    countSql: string,
    pageSql: string,
    pageParams: seq<SqlParam>)

  function Quoted(col: string): string {
    "`" + col + "`"
  }

  /** The `LIKE` conditions of the search, one per search column. */
  function SearchConditions(): seq<string> {
    seq(|SEARCH_COLUMNS|, i requires 0 <= i < |SEARCH_COLUMNS| => Quoted(SEARCH_COLUMNS[i]) + " LIKE " + PLACEHOLDER)
  }

  /** The search group: its conditions joined by ` OR `, in parentheses. */
  function SearchGroup(): string {
    "(" + Implode(" OR ", SearchConditions()) + ")"
  }

  /** One `` `col` = ? `` condition per filter entry, in filter order. */
  function FilterConditions(filter: FilterMap): (cs: seq<string>)
    ensures |cs| == |filter|
  {
    seq(|filter|, i requires 0 <= i < |filter| => Quoted(filter[i].0) + " = " + PLACEHOLDER)
  }

  function FilterParams(filter: FilterMap): (ps: seq<SqlParam>)
    ensures |ps| == |filter|
  {
    seq(|filter|, i requires 0 <= i < |filter| => TextParam(filter[i].1))
  }

  /** The conditions of the `WHERE` clause, in order. */
  function WhereConditions(c: ListCriteria): seq<string> {
    ["deleted_at IS NULL"] + (if HasSearch(c) then [SearchGroup()] else []) +
      (if HasFilter(c) then FilterConditions(c.filter) else [])
  }

  /** The `LIKE` pattern of a search: the term, unescaped, between two `%`. */
  function LikePattern(term: string): string {
    "%" + term + "%"
  }

  /** The search pattern once per search column. */
  function SearchParams(term: string): (ps: seq<SqlParam>)
    ensures |ps| == |SEARCH_COLUMNS|
  {
    seq(|SEARCH_COLUMNS|, _ => TextParam(LikePattern(term)))
  }

  /** The parameters of the `WHERE` clause: the search patterns, then the filter values. */
  function WhereParams(c: ListCriteria): seq<SqlParam> {
    (if HasSearch(c) then SearchParams(c.search) else []) +
      (if HasFilter(c) then FilterParams(c.filter) else [])
  }

  /** One `` `col` ASC|DESC `` part per sort entry; only exactly `desc` gives `DESC`. */
  function OrderParts(sort: SortMap): (ps: seq<string>)
    ensures |ps| == |sort|
  {
    seq(|sort|, i requires 0 <= i < |sort| => Quoted(sort[i].0) + " " + (if sort[i].1 == "desc" then "DESC" else "ASC"))
  }

  /** The `ORDER BY` list: `id ASC` when the sort map is empty. */
  function OrderSql(sort: SortMap): string {
    if sort == [] then "id ASC" else Implode(", ", OrderParts(sort))
  }

  /** The conditions and parameters of the `WHERE` clause, collected as `findAll` does. */
  method WhereClause(c: ListCriteria) returns (where: seq<string>, params: seq<SqlParam>)
    ensures where == WhereConditions(c)
    ensures params == WhereParams(c)
  {
    where := ["deleted_at IS NULL"];
    params := [];

    if HasSearch(c) {
      var conditions: seq<string> := [];
      for i := 0 to |SEARCH_COLUMNS|
        invariant conditions == SearchConditions()[..i]
        invariant params == SearchParams(c.search)[..i]
      {
        conditions := conditions + [Quoted(SEARCH_COLUMNS[i]) + " LIKE " + PLACEHOLDER];
        params := params + [TextParam("%" + c.search + "%")];
      }
      assert SearchConditions()[..|SEARCH_COLUMNS|] == SearchConditions();
      assert SearchParams(c.search)[..|SEARCH_COLUMNS|] == SearchParams(c.search);
      where := where + ["(" + Implode(" OR ", conditions) + ")"];
    }

    if HasFilter(c) {
      ghost var where0, params0 := where, params;
      for i := 0 to |c.filter|
        invariant where == where0 + FilterConditions(c.filter)[..i]
        invariant params == params0 + FilterParams(c.filter)[..i]
      {
        assert FilterConditions(c.filter)[..i + 1] == FilterConditions(c.filter)[..i] + [Quoted(c.filter[i].0) + " = " + PLACEHOLDER];
        assert FilterParams(c.filter)[..i + 1] == FilterParams(c.filter)[..i] + [TextParam(c.filter[i].1)];
        where := where + [Quoted(c.filter[i].0) + " = " + PLACEHOLDER];
        params := params + [TextParam(c.filter[i].1)];
      }
      assert FilterConditions(c.filter)[..|c.filter|] == FilterConditions(c.filter);
      assert FilterParams(c.filter)[..|c.filter|] == FilterParams(c.filter);
    }
  }

  /** The `ORDER BY` list, built as `findAll` does. */
  method OrderClause(sort: SortMap) returns (orderSql: string)
    ensures orderSql == OrderSql(sort)
  {
    var orderParts: seq<string> := [];
    for i := 0 to |sort|
      invariant orderParts == OrderParts(sort)[..i]
    {
      orderParts := orderParts + [Quoted(sort[i].0) + " " + (if sort[i].1 == "desc" then "DESC" else "ASC")];
    }
    assert OrderParts(sort)[..|sort|] == OrderParts(sort);
    orderSql := if orderParts == [] then "id ASC" else Implode(", ", orderParts);
  }

  /**
   * The statements `findAll` prepares and the parameters it executes them
   * with; None where `getOffset()` throws because the offset leaves the
   * `int` range.
   */
  method BuildQuery(c: ListCriteria) returns (r: Option<Query>)
    ensures r.Some? <==> Offset(c).Some?
    ensures r.Some? ==> var q := r.value;
              q.whereSql == Implode(" AND ", WhereConditions(c)) &&
              q.whereParams == WhereParams(c) &&
              q.orderSql == OrderSql(c.sort) &&
              q.countSql == COUNT_PREFIX + q.whereSql &&
              q.pageSql == SELECT_PREFIX + q.whereSql + " ORDER BY " + q.orderSql + " LIMIT " + PLACEHOLDER + " OFFSET " + PLACEHOLDER &&
              q.pageParams == q.whereParams + [IntParam(c.perPage), IntParam(Offset(c).value)]
  {
    var where, params := WhereClause(c);
    var whereSql := Implode(" AND ", where);
    var countSql := COUNT_PREFIX + whereSql;
    var orderSql := OrderClause(c.sort);
    var whereParams := params;
    var offset := Offset(c);
    if offset.None? {
      return None;
    }
    params := params + [IntParam(c.perPage), IntParam(offset.value)];
    var pageSql := SELECT_PREFIX + whereSql + " ORDER BY " + orderSql + " LIMIT " + PLACEHOLDER + " OFFSET " + PLACEHOLDER;
    r := Some(Query(whereSql, whereParams, orderSql, countSql, pageSql, params));
  }

  // ------------------------------------------------------------ properties

  /** The `WHERE` text always starts with the soft-delete condition. */
  lemma WhereStartsWithNotDeleted(c: ListCriteria)
    ensures var w := Implode(" AND ", WhereConditions(c));
            |w| >= 18 && w[..18] == "deleted_at IS NULL"
  {
    var cs := WhereConditions(c);
    if |cs| > 1 {
      assert Implode(" AND ", cs) == cs[0] + " AND " + Implode(" AND ", cs[1..]);
    }
  }

  /** Occurrences of `c` across a list of strings add up over concatenation. */
  lemma {:induction false} CountInPartsAppend(a: seq<string>, b: seq<string>, c: char)
    ensures CountInParts(a + b, c) == CountInParts(a, c) + CountInParts(b, c)
  {
    if a == [] {
      assert a + b == b;
    } else {
      assert (a + b)[1..] == a[1..] + b;
      CountInPartsAppend(a[1..], b, c);
    }
  }

  lemma {:induction false} CountInPartsOnes(parts: seq<string>, c: char)
    requires forall i :: 0 <= i < |parts| ==> CountChar(parts[i], c) == 1
    ensures CountInParts(parts, c) == |parts|
  {
    if parts != [] {
      CountInPartsOnes(parts[1..], c);
    }
  }

  lemma {:induction false} CountInPartsZeros(parts: seq<string>, c: char)
    requires forall i :: 0 <= i < |parts| ==> CountChar(parts[i], c) == 0
    ensures CountInParts(parts, c) == 0
  {
    if parts != [] {
      CountInPartsZeros(parts[1..], c);
    }
  }

  lemma NoPlaceholder(s: string)
    requires '?' !in s
    ensures CountChar(s, '?') == 0
  {
  }

  /** A quoted column, an operator and a placeholder: one `?` when neither the column nor the operator has one. */
  lemma ConditionCount(col: string, op: string)
    requires '?' !in col && '?' !in op
    ensures CountChar(Quoted(col) + op + PLACEHOLDER, '?') == 1
  {
    var q := Quoted(col);
    assert '?' !in q;
    NoPlaceholder(q + op);
    CountAppend(q + op, PLACEHOLDER, '?');
  }

  lemma FilterConditionsCount(filter: FilterMap)
    requires forall i :: 0 <= i < |filter| ==> '?' !in filter[i].0
    ensures CountInParts(FilterConditions(filter), '?') == |filter|
  {
    var cs := FilterConditions(filter);
    forall i | 0 <= i < |cs| ensures CountChar(cs[i], '?') == 1 {
      ConditionCount(filter[i].0, " = ");
    }
    CountInPartsOnes(cs, '?');
  }

  lemma SearchGroupCount()
    ensures CountChar(SearchGroup(), '?') == |SEARCH_COLUMNS|
  {
    var cs := SearchConditions();
    forall i | 0 <= i < |cs| ensures CountChar(cs[i], '?') == 1 {
      ConditionCount(SEARCH_COLUMNS[i], " LIKE ");
    }
    CountInPartsOnes(cs, '?');
    var body := Implode(" OR ", cs);
    CountImplode(" OR ", cs, '?');
    NoPlaceholder("(");
    NoPlaceholder(")");
    CountAppend("(", body, '?');
    CountAppend("(" + body, ")", '?');
  }

  lemma SearchPartCount(c: ListCriteria)
    ensures CountInParts(if HasSearch(c) then [SearchGroup()] else [], '?') == |if HasSearch(c) then SearchParams(c.search) else []|
  {
    if HasSearch(c) {
      SearchGroupCount();
      assert [SearchGroup()][1..] == [];
    }
  }

  lemma FilterPartCount(c: ListCriteria)
    requires forall i :: 0 <= i < |c.filter| ==> '?' !in c.filter[i].0
    ensures CountInParts(if HasFilter(c) then FilterConditions(c.filter) else [], '?') == |if HasFilter(c) then FilterParams(c.filter) else []|
  {
    if HasFilter(c) {
      FilterConditionsCount(c.filter);
    }
  }

  lemma NotDeletedCount()
    ensures CountInParts(["deleted_at IS NULL"], '?') == 0
  {
    NotDeletedClean();
    NoPlaceholder("deleted_at IS NULL");
    CountInPartsSingle("deleted_at IS NULL", '?');
  }

  lemma CountInPartsSingle(s: string, c: char)
    ensures CountInParts([s], c) == CountChar(s, c)
  {
    assert [s][1..] == [];
  }

  /** The `WHERE` text has one `?` per `WHERE` parameter, provided no filter column contains `?`. */
  lemma WherePlaceholders(c: ListCriteria)
    requires forall i :: 0 <= i < |c.filter| ==> '?' !in c.filter[i].0
    ensures CountChar(Implode(" AND ", WhereConditions(c)), '?') == |WhereParams(c)|
  {
    NotDeletedCount();
    SearchPartCount(c);
    FilterPartCount(c);
    JoinedCount(["deleted_at IS NULL"], if HasSearch(c) then [SearchGroup()] else [],
                if HasFilter(c) then FilterConditions(c.filter) else [],
                if HasSearch(c) then SearchParams(c.search) else [],
                if HasFilter(c) then FilterParams(c.filter) else []);
  }

  /** Conditions joined with ` AND `: a group without `?` followed by two groups with one `?` per parameter. */
  lemma JoinedCount(head: seq<string>, search: seq<string>, filter: seq<string>, sp: seq<SqlParam>, fp: seq<SqlParam>)
    requires CountInParts(head, '?') == 0
    requires CountInParts(search, '?') == |sp| && CountInParts(filter, '?') == |fp|
    ensures CountChar(Implode(" AND ", head + search + filter), '?') == |sp + fp|
  {
    CountImplode(" AND ", head + search + filter, '?');
    CountInPartsAppend(head + search, filter, '?');
    CountInPartsAppend(head, search, '?');
  }

  lemma OrderPlaceholders(sort: SortMap)
    requires forall i :: 0 <= i < |sort| ==> '?' !in sort[i].0
    ensures CountChar(OrderSql(sort), '?') == 0
  {
    if sort == [] {
      DefaultOrderClean();
      NoPlaceholder("id ASC");
    } else {
      var ps := OrderParts(sort);
      forall i | 0 <= i < |ps| ensures CountChar(ps[i], '?') == 0 {
        assert '?' !in Quoted(sort[i].0);
      }
      CountImplode(", ", ps, '?');
      CountInPartsZeros(ps, '?');
    }
  }

  // The fixed pieces of text hold no placeholder; each is checked on its own.
  lemma CountHeadClean() ensures '?' !in "SELECT COUNT(*)" {}
  lemma SelectHeadClean() ensures '?' !in "SELECT " {}
  lemma FromClientsClean() ensures '?' !in FROM_CLIENTS {}
  lemma OrderByClean() ensures '?' !in " ORDER BY " {}
  lemma LimitClean() ensures '?' !in " LIMIT " {}
  lemma OffsetClean() ensures '?' !in " OFFSET " {}
  lemma NotDeletedClean() ensures '?' !in "deleted_at IS NULL" {}
  lemma DefaultOrderClean() ensures '?' !in "id ASC" {}
  lemma SelectColumnsClean() ensures forall i :: 0 <= i < |SELECT_COLUMNS| ==> '?' !in SELECT_COLUMNS[i] {}

  lemma SelectPrefixCount()
    ensures CountChar(COUNT_PREFIX, '?') == 0
    ensures CountChar(SELECT_PREFIX, '?') == 0
  {
    CountHeadClean();
    SelectHeadClean();
    FromClientsClean();
    SelectColumnsClean();
    NoPlaceholder("SELECT COUNT(*)" + FROM_CLIENTS);
    forall i | 0 <= i < |SELECT_COLUMNS| ensures CountChar(SELECT_COLUMNS[i], '?') == 0 {
      NoPlaceholder(SELECT_COLUMNS[i]);
    }
    CountInPartsZeros(SELECT_COLUMNS, '?');
    var columns := Implode(", ", SELECT_COLUMNS);
    CountImplode(", ", SELECT_COLUMNS, '?');
    NoPlaceholder("SELECT ");
    NoPlaceholder(FROM_CLIENTS);
    CountAppend("SELECT ", columns, '?');
    CountAppend("SELECT " + columns, FROM_CLIENTS, '?');
  }

  /**
   * Both statements match their parameters: the count query has one `?`
   * per `WHERE` parameter, and the page query one per page parameter (the
   * `WHERE` ones, then `perPage` and the offset for `LIMIT ? OFFSET ?`),
   * provided no filter or sort column contains `?`.
   */
  lemma QueryPlaceholders(c: ListCriteria, q: Query)
    requires forall i :: 0 <= i < |c.filter| ==> '?' !in c.filter[i].0
    requires forall i :: 0 <= i < |c.sort| ==> '?' !in c.sort[i].0
    requires q.whereSql == Implode(" AND ", WhereConditions(c)) && q.whereParams == WhereParams(c)
    requires q.orderSql == OrderSql(c.sort)
    requires q.countSql == COUNT_PREFIX + q.whereSql
    requires q.pageSql == SELECT_PREFIX + q.whereSql + " ORDER BY " + q.orderSql + " LIMIT " + PLACEHOLDER + " OFFSET " + PLACEHOLDER
    requires Offset(c).Some? && q.pageParams == q.whereParams + [IntParam(c.perPage), IntParam(Offset(c).value)]
    ensures CountChar(q.countSql, '?') == |q.whereParams|
    ensures CountChar(q.pageSql, '?') == |q.pageParams|
  {
    WherePlaceholders(c);
    OrderPlaceholders(c.sort);
    StatementCounts(q.whereSql, q.orderSql);
  }

  /** The two statements around a `WHERE` text and an `ORDER BY` list add no `?` but the two of `LIMIT ? OFFSET ?`. */
  lemma StatementCounts(w: string, o: string)
    ensures CountChar(COUNT_PREFIX + w, '?') == CountChar(w, '?')
    ensures CountChar(SELECT_PREFIX + w + " ORDER BY " + o + " LIMIT " + PLACEHOLDER + " OFFSET " + PLACEHOLDER, '?')
         == CountChar(w, '?') + CountChar(o, '?') + 2
  {
    SelectPrefixCount();
    CountAppend(COUNT_PREFIX, w, '?');
    PageCount(SELECT_PREFIX, w, o);
  }

  /** The page statement's `?`s: those of the `WHERE` text and the `ORDER BY` list, then `LIMIT ? OFFSET ?`. */
  lemma PageCount(prefix: string, w: string, o: string)
    ensures CountChar(prefix + w + " ORDER BY " + o + " LIMIT " + PLACEHOLDER + " OFFSET " + PLACEHOLDER, '?')
         == CountChar(prefix, '?') + CountChar(w, '?') + CountChar(o, '?') + 2
  {
    OrderByClean();
    LimitClean();
    OffsetClean();
    NoPlaceholder(" ORDER BY ");
    NoPlaceholder(" LIMIT ");
    NoPlaceholder(" OFFSET ");
    var s1 := prefix + w;
    CountAppend(prefix, w, '?');
    var s2 := s1 + " ORDER BY ";
    CountAppend(s1, " ORDER BY ", '?');
    var s3 := s2 + o;
    CountAppend(s2, o, '?');
    var s4 := s3 + " LIMIT ";
    CountAppend(s3, " LIMIT ", '?');
    var s5 := s4 + PLACEHOLDER;
    CountAppend(s4, PLACEHOLDER, '?');
    var s6 := s5 + " OFFSET ";
    CountAppend(s5, " OFFSET ", '?');
    CountAppend(s6, PLACEHOLDER, '?');
  }
}
