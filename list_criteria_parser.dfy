/**
 * `ListCriteriaParser`: turns the untyped query parameters of a listing
 * request into a `ListCriteria` under a `ListCriteriaConfig`. It never
 * fails: bad values are clamped, skipped or replaced by defaults.
 */
module ListCriteriaParser {
  import opened Wrappers
  import opened Sequences
  import opened Strings
  import opened PhpArrays
  import opened DomainCommon
  import opened CriteriaConfig

  /** A query-parameter key: PHP stores a decimal-integer key as an integer. */
  datatype Key = Named(name: string) | Indexed(index: int)

  /** A decoded query-parameter value: a string, or a nested array (`filter[type]=PF`). */
  datatype QueryValue = Text(s: string) | Group(entries: seq<(Key, QueryValue)>)

  type QueryParams = OMap<Key, QueryValue>

  /** The query parameters that are never read as flat filters. */
  const RESERVED: seq<string> := ["page", "perPage", "search", "sort", "filter"]

  /** `$params[$name]`, when it is set. */
  function Param(params: QueryParams, name: string): Option<QueryValue> {
    Get(params, Named(name))
  }

  /** `(int) $v`: an array casts to 0 when empty and to 1 otherwise. */
  function IntOf(v: QueryValue): int {
    match v
    case Text(s) => IntCast(s)
    case Group(es) => if es == [] then 0 else 1
  }

  /** `(string) $v`: an array converts to the string "Array". */
  function StringOf(v: QueryValue): string {
    match v
    case Text(s) => s
    case Group(_) => "Array"
  }

  // ------------------------------------------------------------------ sort

  /**
   * One comma-separated token of the sort parameter, already trimmed: a
   * blank token is skipped, `col:dir` is split at the first colon with both
   * halves trimmed, and any direction other than `desc` (in any letter case)
   * is read as `asc`.
   */
  function SortToken(t: string): (r: Option<(string, string)>)
    ensures r.Some? ==> IsDirection(r.value.1)
    ensures r.None? <==> t == ""
    ensures t != "" && ':' !in t ==> r == Some((t, "asc"))
  {
    if t == "" then None
    else if ':' in t then
      var k := IndexOf(t, ':');
      Some((Trim(t[..k]), Direction(Trim(t[k + 1..]))))
    else Some((t, "asc"))
  }

  /** A token with a colon is split at its first colon, both halves trimmed. */
  lemma SortTokenSplit(t: string, k: nat)
    requires k < |t| && t[k] == ':' && ':' !in t[..k]
    ensures SortToken(t) == Some((Trim(t[..k]), Direction(Trim(t[k + 1..]))))
  {
    assert ':' in t;
  }

  /** `strtolower($dir) === 'desc' ? 'desc' : 'asc'`. */
  function Direction(dir: string): (d: string)
    ensures IsDirection(d)
    ensures d == "desc" <==> ToLower(dir) == "desc"
  {
    if ToLower(dir) == "desc" then "desc" else "asc"
  }

  /** The pair a trimmed token yields when its column is sortable. */
  predicate SortHit(part: string, config: ListCriteriaConfig) {
    SortToken(Trim(part)).Some? && IsSortable(config, SortToken(Trim(part)).value.0)
  }

  /**
   * The (column, direction) pairs of `parts` whose column is sortable, in
   * token order (`SortPairsMembers` states which pairs, `SortPairsAppend`
   * their order).
   */
  function SortPairs(parts: seq<string>, config: ListCriteriaConfig): (ps: seq<(string, string)>)
    ensures forall i :: 0 <= i < |ps| ==> IsSortable(config, ps[i].0) && IsDirection(ps[i].1)
    ensures |ps| <= |parts|
  {
    if parts == [] then []
    else
      var n := |parts| - 1;
      SortPairs(parts[..n], config) + (if SortHit(parts[n], config) then [SortToken(Trim(parts[n])).value] else [])
  }

  /** The pairs are exactly those of the surviving tokens with a sortable column. */
  lemma {:induction false} SortPairsMembers(parts: seq<string>, config: ListCriteriaConfig)
    ensures forall i :: 0 <= i < |parts| && SortHit(parts[i], config) ==> SortToken(Trim(parts[i])).value in SortPairs(parts, config)
    ensures forall p :: p in SortPairs(parts, config) ==>
              exists i :: 0 <= i < |parts| && SortHit(parts[i], config) && SortToken(Trim(parts[i])).value == p
  {
    if parts != [] {
      var n := |parts| - 1;
      SortPairsMembers(parts[..n], config);
      assert parts == parts[..n] + [parts[n]];
      SortPairsSnoc(parts[..n], parts[n], SortPairs(parts[..n], config), config);
    }
  }

  /** The pairs of all tokens but the last, extended by the last token's pair. */
  lemma SortPairsSnoc(init: seq<string>, last: string, prev: seq<(string, string)>, config: ListCriteriaConfig)
    requires forall i :: 0 <= i < |init| && SortHit(init[i], config) ==> SortToken(Trim(init[i])).value in prev
    requires forall p :: p in prev ==> exists i :: 0 <= i < |init| && SortHit(init[i], config) && SortToken(Trim(init[i])).value == p
    ensures var parts := init + [last];
            var ps := prev + (if SortHit(last, config) then [SortToken(Trim(last)).value] else []);
            (forall i :: 0 <= i < |parts| && SortHit(parts[i], config) ==> SortToken(Trim(parts[i])).value in ps) &&
            (forall p :: p in ps ==> exists i :: 0 <= i < |parts| && SortHit(parts[i], config) && SortToken(Trim(parts[i])).value == p)
  {
    var parts := init + [last];
    assert forall i :: 0 <= i < |init| ==> parts[i] == init[i];
    assert parts[|init|] == last;
  }

  /** The pairs of a run of tokens are those of its first part followed by those of the rest. */
  lemma {:induction false} SortPairsAppend(a: seq<string>, b: seq<string>, config: ListCriteriaConfig)
    ensures SortPairs(a + b, config) == SortPairs(a, config) + SortPairs(b, config)
  {
    if b == [] {
      assert a + b == a;
    } else {
      var n := |b| - 1;
      assert (a + b)[..|a + b| - 1] == a + b[..n];
      assert (a + b)[|a + b| - 1] == b[n];
      SortPairsAppend(a, b[..n], config);
    }
  }

  /** One token yields its pair exactly when it survives with a sortable column. */
  lemma SortPairsOne(part: string, config: ListCriteriaConfig)
    ensures SortPairs([part], config) == if SortHit(part, config) then [SortToken(Trim(part)).value] else []
  {
    assert [part][..0] == [];
  }

  /** What `parseSort` returns: the surviving pairs assigned one by one to an empty array. */
  function SortSpec(sortParam: string, config: ListCriteriaConfig): SortMap {
    if sortParam == "" then [] else PutAll([], SortPairs(Explode(',', sortParam), config))
  }

  /** `parseSort`. */
  method ParseSort(sortParam: string, config: ListCriteriaConfig) returns (result: SortMap)
    ensures result == SortSpec(sortParam, config)
  {
    if sortParam == "" {
      return [];
    }
    var parts := Explode(',', sortParam);
    result := [];
    for i := 0 to |parts|
      invariant result == PutAll([], SortPairs(parts[..i], config))
    {
      ghost var before := result;
      result := SortEntry(result, parts[i], config);
      SortEntryStep(parts, i, config, before, result);
    }
    assert parts[..|parts|] == parts;
  }

  /** After one pass the map is the assignment of the pairs of one more token. */
  lemma SortEntryStep(parts: seq<string>, i: nat, config: ListCriteriaConfig, before: SortMap, after: SortMap)
    requires i < |parts|
    requires before == PutAll([], SortPairs(parts[..i], config))
    requires SortHit(parts[i], config) ==> after == Put(before, SortToken(Trim(parts[i])).value.0, SortToken(Trim(parts[i])).value.1)
    requires !SortHit(parts[i], config) ==> after == before
    ensures after == PutAll([], SortPairs(parts[..i + 1], config))
  {
    var done := SortPairs(parts[..i], config);
    SortPairsStep(parts, i, config);
    if SortHit(parts[i], config) {
      var (col, dir) := SortToken(Trim(parts[i])).value;
      PutAllSnoc([], done, col, dir);
    } else {
      assert done + [] == done;
    }
  }

  /** One pass of `parseSort`'s loop: a surviving token with a sortable column is assigned. */
  method SortEntry(result: SortMap, raw: string, config: ListCriteriaConfig) returns (r: SortMap)
    ensures SortHit(raw, config) ==> r == Put(result, SortToken(Trim(raw)).value.0, SortToken(Trim(raw)).value.1)
    ensures !SortHit(raw, config) ==> r == result
  {
    r := result;
    var part := Trim(raw);
    if part == "" {
      return;
    }
    var col, dir := SplitToken(part);
    if IsSortable(config, col) {
      r := Put(r, col, dir);
    }
  }

  /** The column and direction of a trimmed, non-blank sort token. */
  method SplitToken(part: string) returns (col: string, dir: string)
    requires part != ""
    ensures SortToken(part) == Some((col, dir))
  {
    dir := "asc";
    if ':' in part {
      var k := IndexOf(part, ':');
      col, dir := Trim(part[..k]), Trim(part[k + 1..]);
      dir := if ToLower(dir) == "desc" then "desc" else "asc";
      SortTokenSplit(part, k);
    } else {
      col := part;
    }
  }

  lemma SortPairsStep(parts: seq<string>, i: nat, config: ListCriteriaConfig)
    requires i < |parts|
    ensures SortPairs(parts[..i + 1], config) ==
              SortPairs(parts[..i], config) + (if SortHit(parts[i], config) then [SortToken(Trim(parts[i])).value] else [])
  {
    assert parts[..i + 1][..i] == parts[..i];
  }

  /** The sort map lists sortable columns only, each once, each with `asc` or `desc`. */
  lemma SortSpecSortable(sortParam: string, config: ListCriteriaConfig)
    ensures SortableMap(config, SortSpec(sortParam, config))
  {
    if sortParam != "" {
      var ps := SortPairs(Explode(',', sortParam), config);
      PutAllIsMap([], ps);
      PutAllEntries([], ps);
    }
  }

  /**
   * The sort map keeps token order: every surviving column appears once, at
   * the position of its FIRST token, with the direction of its LAST token.
   */
  lemma SortSpecOrder(sortParam: string, config: ListCriteriaConfig, col: string)
    requires sortParam != ""
    ensures Keys(SortSpec(sortParam, config)) == Dedup(Keys(SortPairs(Explode(',', sortParam), config)))
    ensures Get(SortSpec(sortParam, config), col) == LastGet(SortPairs(Explode(',', sortParam), config), col)
  {
    var ps := SortPairs(Explode(',', sortParam), config);
    PutAllKeys(ps);
    PutAllGet([], ps, col);
  }

  /** The sort map is empty exactly when no token survives. */
  lemma SortSpecEmpty(sortParam: string, config: ListCriteriaConfig)
    ensures SortSpec(sortParam, config) == [] <==>
              sortParam == "" || SortPairs(Explode(',', sortParam), config) == []
  {
    if sortParam != "" {
      var ps := SortPairs(Explode(',', sortParam), config);
      PutAllKeys(ps);
      if ps != [] {
        assert Keys(ps)[0] in Dedup(Keys(ps));
      }
    }
  }

  // ---------------------------------------------------------------- filter

  /** The entries of the nested `filter` array, when it is an array. */
  function FilterEntries(params: QueryParams): seq<(Key, QueryValue)> {
    match Param(params, "filter")
    case Some(Group(es)) => es
    case _ => []
  }

  /** A nested entry `parseFilter` keeps: a string key naming a filterable column, with a scalar value. */
  predicate NestedHit(e: (Key, QueryValue), config: ListCriteriaConfig) {
    e.0.Named? && IsFilterable(config, e.0.name) && e.1.Text?
  }

  /**
   * The nested entries kept, as (column, value) pairs in entry order
   * (`NestedPairsMembers` states which entries, `NestedPairsAppend` their
   * order).
   */
  function NestedPairs(entries: seq<(Key, QueryValue)>, config: ListCriteriaConfig): (ps: seq<(string, string)>)
    ensures forall i :: 0 <= i < |ps| ==> IsFilterable(config, ps[i].0)
    ensures |ps| <= |entries|
  {
    if entries == [] then []
    else
      var n := |entries| - 1;
      var e := entries[n];
      NestedPairs(entries[..n], config) + (if NestedHit(e, config) then [(e.0.name, e.1.s)] else [])
  }

  /** The pairs are exactly those of the entries `NestedHit` accepts. */
  lemma {:induction false} NestedPairsMembers(entries: seq<(Key, QueryValue)>, config: ListCriteriaConfig)
    ensures forall i :: 0 <= i < |entries| && NestedHit(entries[i], config) ==> (entries[i].0.name, entries[i].1.s) in NestedPairs(entries, config)
    ensures forall p :: p in NestedPairs(entries, config) ==>
              exists i :: 0 <= i < |entries| && NestedHit(entries[i], config) && (entries[i].0.name, entries[i].1.s) == p
  {
    if entries != [] {
      var n := |entries| - 1;
      NestedPairsMembers(entries[..n], config);
      assert entries == entries[..n] + [entries[n]];
      NestedPairsSnoc(entries[..n], entries[n], NestedPairs(entries[..n], config), config);
    }
  }

  /** The pairs of all entries but the last, extended by the last entry's pair. */
  lemma NestedPairsSnoc(init: seq<(Key, QueryValue)>, last: (Key, QueryValue), prev: seq<(string, string)>, config: ListCriteriaConfig)
    requires forall i :: 0 <= i < |init| && NestedHit(init[i], config) ==> (init[i].0.name, init[i].1.s) in prev
    requires forall p :: p in prev ==> exists i :: 0 <= i < |init| && NestedHit(init[i], config) && (init[i].0.name, init[i].1.s) == p
    ensures var entries := init + [last];
            var ps := prev + (if NestedHit(last, config) then [(last.0.name, last.1.s)] else []);
            (forall i :: 0 <= i < |entries| && NestedHit(entries[i], config) ==> (entries[i].0.name, entries[i].1.s) in ps) &&
            (forall p :: p in ps ==> exists i :: 0 <= i < |entries| && NestedHit(entries[i], config) && (entries[i].0.name, entries[i].1.s) == p)
  {
    var entries := init + [last];
    assert forall i :: 0 <= i < |init| ==> entries[i] == init[i];
    assert entries[|init|] == last;
  }

  /** The kept pairs of a run of entries are those of its first part followed by those of the rest. */
  lemma {:induction false} NestedPairsAppend(a: seq<(Key, QueryValue)>, b: seq<(Key, QueryValue)>, config: ListCriteriaConfig)
    ensures NestedPairs(a + b, config) == NestedPairs(a, config) + NestedPairs(b, config)
  {
    if b == [] {
      assert a + b == a;
    } else {
      var n := |b| - 1;
      assert (a + b)[..|a + b| - 1] == a + b[..n];
      assert (a + b)[|a + b| - 1] == b[n];
      NestedPairsAppend(a, b[..n], config);
    }
  }

  /** The filter map built from the nested `filter[...]` parameters alone. */
  function NestedFilter(params: QueryParams, config: ListCriteriaConfig): FilterMap {
    PutAll([], NestedPairs(FilterEntries(params), config))
  }

  /**
   * The flat pass over `columns`: a column that is not reserved, is set as
   * a scalar top-level parameter and is not in the map yet is added.
   */
  function FlatFold(filter: FilterMap, columns: seq<string>, params: QueryParams): FilterMap {
    if columns == [] then filter
    else
      var n := |columns| - 1;
      var f := FlatFold(filter, columns[..n], params);
      var col := columns[n];
      var v := Param(params, col);
      if col !in RESERVED && v.Some? && v.value.Text? && col !in Keys(f) then Put(f, col, v.value.s) else f
  }

  /** What `parseFilter` returns. */
  function FilterSpec(params: QueryParams, config: ListCriteriaConfig): FilterMap {
    FlatFold(NestedFilter(params, config), config.filterableColumns, params)
  }

  /** A flat parameter that the flat pass takes for `col`. */
  predicate FlatCandidate(params: QueryParams, columns: seq<string>, col: string) {
    col in columns && col !in RESERVED && Param(params, col).Some? && Param(params, col).value.Text?
  }

  lemma {:induction false} FlatFoldGet(filter: FilterMap, columns: seq<string>, params: QueryParams, col: string)
    ensures Get(FlatFold(filter, columns, params), col) ==
              if col in Keys(filter) then Get(filter, col)
              else if FlatCandidate(params, columns, col) then Some(Param(params, col).value.s)
              else None
  {
    if columns != [] {
      var n := |columns| - 1;
      assert columns == columns[..n] + [columns[n]];
      FlatFoldGet(filter, columns[..n], params, col);
      if col == columns[n] {
        FlatFoldGet(filter, columns[..n], params, columns[n]);
      }
    }
  }

  /**
   * How the filter map answers for a column: a nested `filter[col]` entry
   * wins (its last occurrence); otherwise a flat `col=` parameter is used
   * when the column is filterable and not reserved; otherwise it is absent.
   * So a reserved name can only ever come from the nested array.
   */
  lemma FilterLookup(params: QueryParams, config: ListCriteriaConfig, col: string)
    ensures Get(FilterSpec(params, config), col) ==
              var nested := NestedPairs(FilterEntries(params), config);
              if col in Keys(nested) then LastGet(nested, col)
              else if FlatCandidate(params, config.filterableColumns, col) then Some(Param(params, col).value.s)
              else None
    ensures col in RESERVED ==> Get(FilterSpec(params, config), col) == Get(NestedFilter(params, config), col)
  {
    var nested := NestedPairs(FilterEntries(params), config);
    PutAllGet([], nested, col);
    FlatFoldGet(NestedFilter(params, config), config.filterableColumns, params, col);
  }

  /** Every key of the filter map is a filterable column. */
  lemma FilterKeysFilterable(params: QueryParams, config: ListCriteriaConfig)
    ensures IsMap(FilterSpec(params, config))
    ensures forall i :: 0 <= i < |FilterSpec(params, config)| ==> IsFilterable(config, FilterSpec(params, config)[i].0)
  {
    var f := FilterSpec(params, config);
    var nested := NestedPairs(FilterEntries(params), config);
    var nf := NestedFilter(params, config);
    PutAllIsMap([], nested);
    FlatFoldIsMap(nf, config.filterableColumns, params);
    PutAllEntries([], nested);
    assert forall j :: 0 <= j < |nf| ==> IsFilterable(config, nf[j].0) by {
      forall j | 0 <= j < |nf| ensures IsFilterable(config, nf[j].0) {
        var k :| 0 <= k < |nested| && nested[k] == nf[j];
      }
    }
    forall i | 0 <= i < |f| ensures IsFilterable(config, f[i].0) {
      FlatFoldKeys(nf, config.filterableColumns, params, i);
      if f[i].0 in Keys(nf) {
        var j :| 0 <= j < |nf| && Keys(nf)[j] == f[i].0;
      }
    }
  }

  /** The flat pass only adds keys named in `columns`. */
  lemma {:induction false} FlatFoldKeys(filter: FilterMap, columns: seq<string>, params: QueryParams, i: nat)
    requires i < |FlatFold(filter, columns, params)|
    ensures FlatFold(filter, columns, params)[i].0 in Keys(filter) + columns
  {
    if columns != [] {
      var n := |columns| - 1;
      var g := FlatFold(filter, columns[..n], params);
      var k := FlatFold(filter, columns, params)[i].0;
      assert k in Keys(FlatFold(filter, columns, params));
      if k != columns[n] {
        assert k in Keys(g);
        var j := IndexOf(Keys(g), k);
        FlatFoldKeys(filter, columns[..n], params, j);
      }
    }
  }

  lemma {:induction false} FlatFoldIsMap(filter: FilterMap, columns: seq<string>, params: QueryParams)
    requires IsMap(filter)
    ensures IsMap(FlatFold(filter, columns, params))
  {
    if columns != [] {
      FlatFoldIsMap(filter, columns[..|columns| - 1], params);
    }
  }

  /** `parseFilter`: the nested pass, then the flat pass. */
  method ParseFilter(params: QueryParams, config: ListCriteriaConfig) returns (filter: FilterMap)
    ensures filter == FilterSpec(params, config)
  {
    filter := [];
    var filterParams := Param(params, "filter");
    if filterParams.Some? && filterParams.value.Group? {
      var entries := filterParams.value.entries;
      for i := 0 to |entries|
        invariant filter == PutAll([], NestedPairs(entries[..i], config))
      {
        ghost var done := NestedPairs(entries[..i], config);
        NestedPairsStep(entries, i, config);
        var column, value := entries[i].0, entries[i].1;
        if column.Named? && IsFilterable(config, column.name) && value.Text? {
          PutAllSnoc([], done, column.name, value.s);
          filter := Put(filter, column.name, value.s);
        } else {
          assert done + [] == done;
        }
      }
      assert entries[..|entries|] == entries;
    }
    assert filter == NestedFilter(params, config);
    ghost var nested := filter;
    var columns := config.filterableColumns;
    for i := 0 to |columns|
      invariant filter == FlatFold(nested, columns[..i], params)
    {
      FlatFoldStep(nested, columns, params, i);
      var column := columns[i];
      if column in RESERVED {
        continue;
      }
      var v := Param(params, column);
      if v.Some? && v.value.Text? && column !in Keys(filter) {
        filter := Put(filter, column, v.value.s);
      }
    }
    assert columns[..|columns|] == columns;
  }

  lemma FlatFoldStep(filter: FilterMap, columns: seq<string>, params: QueryParams, i: nat)
    requires i < |columns|
    ensures FlatFold(filter, columns[..i + 1], params) ==
              var f := FlatFold(filter, columns[..i], params);
              var col := columns[i];
              var v := Param(params, col);
              if col !in RESERVED && v.Some? && v.value.Text? && col !in Keys(f) then Put(f, col, v.value.s) else f
  {
    assert columns[..i + 1][..i] == columns[..i];
  }

  lemma NestedPairsStep(entries: seq<(Key, QueryValue)>, i: nat, config: ListCriteriaConfig)
    requires i < |entries|
    ensures NestedPairs(entries[..i + 1], config) ==
              var e := entries[i];
              NestedPairs(entries[..i], config) + (if NestedHit(e, config) then [(e.0.name, e.1.s)] else [])
  {
    assert entries[..i + 1][..i] == entries[..i];
  }

  // ---------------------------------------------------------------- whole

  /** The trimmed text of a string parameter, `''` when it is not set. */
  function TextParam(params: QueryParams, name: string): string {
    if Param(params, name).Some? then Trim(StringOf(Param(params, name).value)) else ""
  }

  /** What `__invoke` returns. */
  function Parsed(params: QueryParams, config: ListCriteriaConfig): (c: ListCriteria)
    ensures c.page >= 1 && c.perPage <= config.maxPerPage
    ensures c.filter == FilterSpec(params, config)
  {
    var page := if Param(params, "page").Some? then Max(1, IntOf(Param(params, "page").value)) else 1;
    var requested := if Param(params, "perPage").Some? then IntOf(Param(params, "perPage").value) else config.defaultPerPage;
    var perPage := Min(Max(1, requested), config.maxPerPage);
    var sort := SortSpec(TextParam(params, "sort"), config);
    ListCriteria(page, perPage, TextParam(params, "search"), if sort == [] then config.defaultSort else sort, FilterSpec(params, config))
  }

  /** `__invoke`. */
  method Parse(params: QueryParams, config: ListCriteriaConfig) returns (c: ListCriteria)
    ensures c == Parsed(params, config)
  {
    var page := if Param(params, "page").Some? then Max(1, IntOf(Param(params, "page").value)) else 1;
    var perPage := if Param(params, "perPage").Some? then IntOf(Param(params, "perPage").value) else config.defaultPerPage;
    perPage := Min(Max(1, perPage), config.maxPerPage);
    var search := if Param(params, "search").Some? then Trim(StringOf(Param(params, "search").value)) else "";
    var sortParam := if Param(params, "sort").Some? then Trim(StringOf(Param(params, "sort").value)) else "";
    var sort := ParseSort(sortParam, config);
    if sort == [] {
      sort := config.defaultSort;
    }
    var filter := ParseFilter(params, config);
    c := ListCriteria(page, perPage, search, sort, filter);
  }

  /**
   * The page is at least 1: a missing parameter gives 1, a value below 1
   * (including one that does not parse and casts to 0) gives 1.
   */
  lemma ParsedPage(params: QueryParams, config: ListCriteriaConfig)
    ensures Parsed(params, config).page >= 1
    ensures Param(params, "page").None? ==> Parsed(params, config).page == 1
    ensures Param(params, "page").Some? && IntOf(Param(params, "page").value) >= 1 ==>
              Parsed(params, config).page == IntOf(Param(params, "page").value)
    ensures Param(params, "page").Some? && IntOf(Param(params, "page").value) <= 0 ==> Parsed(params, config).page == 1
    ensures Parsed(params, config).page <= PHP_INT_MAX
  {
  }

  /**
   * The page size never exceeds the maximum and is at least 1 when the
   * maximum is. A missing parameter gives the default; a parameter that
   * casts to 0 or less gives 1, not the default.
   */
  lemma ParsedPerPage(params: QueryParams, config: ListCriteriaConfig)
    ensures Parsed(params, config).perPage <= config.maxPerPage
    ensures config.maxPerPage >= 1 ==> Parsed(params, config).perPage >= 1
    ensures Param(params, "perPage").None? && Consistent(config) ==>
              Parsed(params, config).perPage == config.defaultPerPage
    ensures Param(params, "perPage").Some? && IntOf(Param(params, "perPage").value) <= 0 && config.maxPerPage >= 1 ==>
              Parsed(params, config).perPage == 1
    ensures Param(params, "perPage").Some? && 1 <= IntOf(Param(params, "perPage").value) <= config.maxPerPage ==>
              Parsed(params, config).perPage == IntOf(Param(params, "perPage").value)
    ensures Param(params, "perPage").Some? && IntOf(Param(params, "perPage").value) > config.maxPerPage ==>
              Parsed(params, config).perPage == config.maxPerPage
  {
  }

  /** An unparseable page size is clamped to 1 rather than replaced by the default. */
  lemma UnparseablePerPage(params: QueryParams, config: ListCriteriaConfig)
    requires Param(params, "perPage") == Some(Text("abc")) && config.maxPerPage >= 1
    ensures Parsed(params, config).perPage == 1
  {
    NonNumericCastsToZero();
    ParsedPerPage(params, config);
  }

  lemma NonNumericCastsToZero()
    ensures IntCast("abc") == 0
  {
    assert LeadingSpace("abc") == 0;
    assert DigitPrefix("abc") == 0;
  }

  /**
   * The search term is the trimmed parameter (an array reads as "Array"),
   * empty when absent, and carries no surrounding whitespace.
   */
  lemma ParsedSearch(params: QueryParams, config: ListCriteriaConfig)
    ensures Param(params, "search").None? ==> Parsed(params, config).search == ""
    ensures Param(params, "search").Some? && Param(params, "search").value.Group? ==> Parsed(params, config).search == "Array"
    ensures forall s :: Param(params, "search") == Some(Text(s)) ==> Parsed(params, config).search == Trim(s)
    ensures Trim(Parsed(params, config).search) == Parsed(params, config).search
  {
    if Param(params, "search").Some? {
      TrimIdempotent(StringOf(Param(params, "search").value));
      ArrayWordTrimmed();
    }
  }

  /**
   * The sort map is the one read from the trimmed `sort` parameter when a
   * token survives there, and the default sort otherwise; it is either the
   * default or a non-empty map of sortable columns with `asc`/`desc`
   * directions, and under a consistent configuration always sortable.
   */
  lemma ParsedSort(params: QueryParams, config: ListCriteriaConfig)
    ensures var read := SortSpec(TextParam(params, "sort"), config);
            Parsed(params, config).sort == if read == [] then config.defaultSort else read
    ensures Param(params, "sort").None? ==> Parsed(params, config).sort == config.defaultSort
    ensures Parsed(params, config).sort == config.defaultSort ||
              (Parsed(params, config).sort != [] && SortableMap(config, Parsed(params, config).sort))
    ensures Consistent(config) ==> SortableMap(config, Parsed(params, config).sort)
  {
    SortSpecSortable(TextParam(params, "sort"), config);
  }

  lemma ArrayWordTrimmed()
    ensures Trim("Array") == "Array"
  {
    assert LeadingTrimmable("Array") == 0;
    assert TrailingTrimmable("Array") == 0;
  }

  /** Every filter key is filterable, once, with a string value. */
  lemma ParsedFilter(params: QueryParams, config: ListCriteriaConfig)
    ensures IsMap(Parsed(params, config).filter)
    ensures forall i :: 0 <= i < |Parsed(params, config).filter| ==> IsFilterable(config, Parsed(params, config).filter[i].0)
  {
    FilterKeysFilterable(params, config);
  }
}
