/**
 * `JsonClientRepository`: the client store kept as a JSON list of rows.
 * The decoded store is an ordered id => row map; the class keeps it in a
 * field where the source re-reads and rewrites the file on every call.
 *
 * Listing filters out soft-deleted rows, applies the case-insensitive
 * search (OR over name, document, phone) and the equality filters (AND),
 * counts, sorts by the sort keys in order and slices out one page.
 * Saving assigns `max(id) + 1` or overwrites in place; deleting is soft.
 */
module JsonClientRepo {
  import opened Wrappers
  import opened Sequences
  import opened Strings
  import opened PhpArrays
  import opened DomainCommon
  import opened DomainModels
  import opened JsonStore

  /** A stored row, without its id (the id is the key it is stored under). */
  datatype Row = Row(
    name: string,
    phone: string,
    clientType: string,
    document: string,
    createdAt: Option<string>,
    updatedAt: Option<string>,
    deletedAt: Option<string>)

  /** The decoded store: id => row, in file order. */
  type Table = OMap<int, Row>

  /** A stored row with its id. */
  type Entry = (int, Row)

  /** The value of a set column: the id is an integer, the rest are strings. */
  datatype Cell = IntCell(i: int) | TextCell(s: string)

  /** `$row[$col]`, None when the column is absent or null. */
  function Column(e: Entry, col: string): (r: Option<Cell>)
    ensures col == "id" ==> r == Some(IntCell(e.0))
    ensures col == "deleted_at" ==> (r.None? <==> e.1.deletedAt.None?)
  {
    var row := e.1;
    if col == "id" then Some(IntCell(e.0))
    else if col == "name" then Some(TextCell(row.name))
    else if col == "phone" then Some(TextCell(row.phone))
    else if col == "type" then Some(TextCell(row.clientType))
    else if col == "document" then Some(TextCell(row.document))
    else if col == "created_at" then TextCellOf(row.createdAt)
    else if col == "updated_at" then TextCellOf(row.updatedAt)
    else if col == "deleted_at" then TextCellOf(row.deletedAt)
    else None
  }

  function TextCellOf(o: Option<string>): (r: Option<Cell>)
    ensures r.None? <==> o.None?
  {
    if o.Some? then Some(TextCell(o.value)) else None
  }

  /** `(string) $value`. */
  function CellString(c: Cell): string {
    match c
    case IntCell(i) => IntToString(i)
    case TextCell(s) => s
  }

  /** `empty($v)` for a nullable string: null, '' and '0' are empty. */
  predicate IsEmpty(o: Option<string>) {
    o.None? || IsFalsy(o.value)
  }

  /** A row that is not soft-deleted. */
  predicate Active(row: Row) {
    IsEmpty(row.deletedAt)
  }

  /** `rowToClient`. A `deleted_at` that is empty reads as null. */
  function RowToClient(e: Entry): (c: Client)
    ensures c.id == Some(e.0)
    ensures c.deletedAt.None? <==> Active(e.1)
  {
    Client(Some(e.0), e.1.name, e.1.phone, e.1.clientType, e.1.document,
           e.1.createdAt, e.1.updatedAt, if IsEmpty(e.1.deletedAt) then None else e.1.deletedAt)
  }

  /** The shape of the clock's `format('Y-m-d H:i:s')`. */
  predicate IsTimestamp(s: string) {
    |s| == 19 && s[4] == '-' && s[7] == '-' && s[10] == ' ' && s[13] == ':' && s[16] == ':' &&
    forall i :: 0 <= i < 19 && i !in {4, 7, 10, 13, 16} ==> IsDigit(s[i])
  }

  // ------------------------------------------------------------ lookups

  /** What `findById` returns. */
  function Lookup(t: Table, id: int): (r: Option<Client>)
    ensures r.Some? <==> Get(t, id).Some? && Active(Get(t, id).value)
    ensures r.Some? ==> r.value == RowToClient((id, Get(t, id).value)) && r.value.deletedAt.None?
  {
    var row := Get(t, id);
    if row.None? || !IsEmpty(row.value.deletedAt) then None else Some(RowToClient((id, row.value)))
  }

  /** A row that `findByDocument($document, $excludeId)` accepts. */
  predicate DocumentHit(e: Entry, document: string, excludeId: Option<int>) {
    Active(e.1) && e.1.document == document && excludeId != Some(e.0)
  }

  /** What `findByDocument` returns: the first accepted row in store order. */
  function DocumentOwner(t: Table, document: string, excludeId: Option<int>): (r: Option<Client>)
    ensures r.None? <==> forall i :: 0 <= i < |t| ==> !DocumentHit(t[i], document, excludeId)
    ensures r.Some? ==> exists i :: 0 <= i < |t| && DocumentHit(t[i], document, excludeId) && r.value == RowToClient(t[i]) &&
                                   forall j :: 0 <= j < i ==> !DocumentHit(t[j], document, excludeId)
  {
    if t == [] then None
    else if DocumentHit(t[0], document, excludeId) then Some(RowToClient(t[0]))
    else
      var r := DocumentOwner(t[1..], document, excludeId);
      assert forall i :: 1 <= i < |t| ==> t[i] == t[1..][i - 1];
      r
  }

  // ------------------------------------------------------------ filtering

  /** The row tests `findAll` applies with `array_filter`. */
  datatype Test = NotDeleted | SearchFor(term: string) | Equals(column: string, value: string)

  /** `isset($row[$col]) && mb_strpos(mb_strtolower((string) $row[$col]), $term) !== false`. */
  predicate CellContains(c: Option<Cell>, term: string) {
    c.Some? && Contains(ToLower(CellString(c.value)), term)
  }

  /** The search matches when one of the search columns contains the term. */
  predicate SearchHit(e: Entry, term: string) {
    CellContains(Column(e, "name"), term) || CellContains(Column(e, "document"), term) ||
    CellContains(Column(e, "phone"), term)
  }

  predicate Passes(t: Test, e: Entry) {
    match t
    case NotDeleted => Active(e.1)
    case SearchFor(term) => SearchHit(e, term)
    case Equals(col, v) => Column(e, col).Some? && CellString(Column(e, col).value) == v
  }

  /**
   * `array_filter` followed by `array_values`: the passing entries, in
   * order; `SelectAppend` shows that the order is kept.
   */
  function Select(es: seq<Entry>, t: Test): (r: seq<Entry>)
    ensures |r| <= |es|
    ensures forall x :: x in r <==> x in es && Passes(t, x)
  {
    if es == [] then []
    else
      var n := |es| - 1;
      assert es == es[..n] + [es[n]];
      Select(es[..n], t) + (if Passes(t, es[n]) then [es[n]] else [])
  }

  /** Filtering a concatenation filters each part: the kept entries stay in input order. */
  lemma {:induction false} SelectAppend(a: seq<Entry>, b: seq<Entry>, t: Test)
    ensures Select(a + b, t) == Select(a, t) + Select(b, t)
  {
    if b == [] {
      assert a + b == a;
    } else {
      var n := |b| - 1;
      var last := if Passes(t, b[n]) then [b[n]] else [];
      assert (a + b)[..|a + b| - 1] == a + b[..n];
      assert (a + b)[|a + b| - 1] == b[n];
      assert Select(a + b, t) == Select(a + b[..n], t) + last;
      SelectAppend(a, b[..n], t);
      assert Select(b, t) == Select(b[..n], t) + last;
      SeqAssoc(Select(a, t), Select(b[..n], t), last);
    }
  }

  /** Concatenation regrouped, on opaque operands so that the solver does not unfold them. */
  lemma SeqAssoc<T>(x: seq<T>, y: seq<T>, z: seq<T>)
    ensures x + (y + z) == (x + y) + z
  {
  }

  /** The filter entries applied one after the other. */
  function FilterAll(es: seq<Entry>, filter: FilterMap): (r: seq<Entry>)
    ensures |r| <= |es|
    ensures forall x :: x in r ==> x in es
  {
    if filter == [] then es
    else
      var n := |filter| - 1;
      Select(FilterAll(es, filter[..n]), Equals(filter[n].0, filter[n].1))
  }

  /** A row passes every filter entry. */
  predicate PassesFilter(e: Entry, filter: FilterMap) {
    forall i :: 0 <= i < |filter| ==> Passes(Equals(filter[i].0, filter[i].1), e)
  }

  lemma {:induction false} FilterAllMembers(es: seq<Entry>, filter: FilterMap, x: Entry)
    ensures x in FilterAll(es, filter) <==> x in es && PassesFilter(x, filter)
  {
    if filter != [] {
      var n := |filter| - 1;
      FilterAllMembers(es, filter[..n], x);
      PassesFilterSnoc(x, filter);
    }
  }

  lemma PassesFilterSnoc(x: Entry, filter: FilterMap)
    requires filter != []
    ensures var n := |filter| - 1;
            PassesFilter(x, filter) <==> PassesFilter(x, filter[..n]) && Passes(Equals(filter[n].0, filter[n].1), x)
  {
    var n := |filter| - 1;
    assert forall i :: 0 <= i < n ==> filter[..n][i] == filter[i];
  }

  /** The rows `findAll` counts: active, matching the search, matching every filter. */
  function Matching(t: Table, c: ListCriteria): (r: seq<Entry>)
    ensures |r| <= |t|
    ensures forall e :: e in r ==> e in t && Active(e.1)
  {
    var active := Select(t, NotDeleted);
    var searched := if HasSearch(c) then Select(active, SearchFor(ToLower(c.search))) else active;
    if HasFilter(c) then FilterAll(searched, c.filter) else searched
  }

  /**
   * A stored row is counted iff it is not soft-deleted, one of its search
   * columns contains the lowercased term (when there is one), and every
   * filter column is set and string-equal to its value.
   */
  lemma MatchingMembers(t: Table, c: ListCriteria, e: Entry)
    ensures e in Matching(t, c) <==>
              e in t && Active(e.1) && (HasSearch(c) ==> SearchHit(e, ToLower(c.search))) && PassesFilter(e, c.filter)
  {
    var active := Select(t, NotDeleted);
    var searched := if HasSearch(c) then Select(active, SearchFor(ToLower(c.search))) else active;
    FilterAllMembers(searched, c.filter, e);
  }

  // ------------------------------------------------------------ ordering

  /** `$row[$col] ?? ''`: a missing column sorts as the empty string. */
  function SortValue(e: Entry, col: string): (r: Cell)
    ensures Column(e, col).None? ==> r == TextCell("")
    ensures Column(e, col).Some? ==> r == Column(e, col).value
  {
    Column(e, col).GetOr(TextCell(""))
  }

  /** `is_numeric`, for integers and strings of ASCII digits. */
  predicate IsNumeric(c: Cell) {
    c.IntCell? || (c.s != "" && AllDigits(c.s))
  }

  function NumericValue(c: Cell): int
    requires IsNumeric(c)
  {
    if c.IntCell? then c.i else DecimalValue(c.s)
  }

  /** `$a <=> $b` on integers. */
  function Spaceship(a: int, b: int): (r: int)
    ensures r == 0 <==> a == b
    ensures r < 0 <==> a < b
  {
    if a < b then -1 else if a > b then 1 else 0
  }

  /** One column's comparison: numeric when both sides are numeric, `strcmp` otherwise. */
  function CompareValues(a: Cell, b: Cell): (r: int)
    ensures -1 <= r <= 1
    ensures IsNumeric(a) && IsNumeric(b) ==>
              (r < 0 <==> NumericValue(a) < NumericValue(b)) && (r == 0 <==> NumericValue(a) == NumericValue(b))
    ensures !(IsNumeric(a) && IsNumeric(b)) ==> r == Strcmp(CellString(a), CellString(b))
  {
    if IsNumeric(a) && IsNumeric(b) then Spaceship(NumericValue(a), NumericValue(b))
    else Strcmp(CellString(a), CellString(b))
  }

  function ColumnCompare(a: Entry, b: Entry, col: string): int {
    CompareValues(SortValue(a, col), SortValue(b, col))
  }

  /** The `usort` comparator: the first sort key whose columns differ decides; `desc` negates it. */
  function CompareBy(a: Entry, b: Entry, sort: SortMap): (r: int)
    ensures -1 <= r <= 1
  {
    if sort == [] then 0
    else
      var cmp := ColumnCompare(a, b, sort[0].0);
      if cmp != 0 then (if sort[0].1 == "desc" then -cmp else cmp)
      else CompareBy(a, b, sort[1..])
  }

  lemma CompareValuesAntisymmetric(a: Cell, b: Cell)
    ensures CompareValues(a, b) == -CompareValues(b, a)
  {
    StrcmpAntisymmetric(CellString(a), CellString(b));
  }

  /** Swapping the two rows negates the comparison. */
  lemma {:induction false} CompareByAntisymmetric(a: Entry, b: Entry, sort: SortMap)
    ensures CompareBy(a, b, sort) == -CompareBy(b, a, sort)
  {
    if sort != [] {
      CompareValuesAntisymmetric(SortValue(a, sort[0].0), SortValue(b, sort[0].0));
      CompareByAntisymmetric(a, b, sort[1..]);
    }
  }

  /**
   * The order is lexicographic over the sort keys: when the first `k` keys
   * compare equal and key `k` does not, key `k` decides, negated for `desc`.
   */
  lemma {:induction false} CompareByFirstDifference(a: Entry, b: Entry, sort: SortMap, k: nat)
    requires k < |sort|
    requires forall i :: 0 <= i < k ==> ColumnCompare(a, b, sort[i].0) == 0
    requires ColumnCompare(a, b, sort[k].0) != 0
    ensures CompareBy(a, b, sort) ==
              if sort[k].1 == "desc" then -ColumnCompare(a, b, sort[k].0) else ColumnCompare(a, b, sort[k].0)
  {
    if k > 0 {
      assert ColumnCompare(a, b, sort[0].0) == 0;
      CompareByFirstDifference(a, b, sort[1..], k - 1);
    }
  }

  /** Two rows tie iff every sort key compares equal. */
  lemma {:induction false} CompareByTie(a: Entry, b: Entry, sort: SortMap)
    ensures CompareBy(a, b, sort) == 0 <==> forall i :: 0 <= i < |sort| ==> ColumnCompare(a, b, sort[i].0) == 0
  {
    if sort != [] {
      CompareByTie(a, b, sort[1..]);
      assert forall i :: 1 <= i < |sort| ==> sort[i] == sort[1..][i - 1];
    }
  }

  /**
   * The comparison of one column is not transitive when the column mixes
   * numeric and non-numeric strings: `9` is below `10` as numbers, `10` is
   * below `1a` and `1a` below `9` by `strcmp`. Rows with such values have
   * no order consistent with the comparator, which is why only the order of
   * neighbouring rows is stated about the sort.
   */
  lemma ComparisonCycle()
    ensures CompareValues(TextCell("9"), TextCell("10")) < 0
    ensures CompareValues(TextCell("10"), TextCell("1a")) < 0
    ensures CompareValues(TextCell("1a"), TextCell("9")) < 0
  {
    assert "10"[..1] == "1";
    assert DecimalValue("10") == 10;
    assert !IsDigit("1a"[1]);
    assert Strcmp("10"[1..], "1a"[1..]) < 0;
  }

  /**
   * Insert `x` into `s`, after every element that does not compare above
   * it (so equal rows keep their order).
   */
  function Insert(x: Entry, s: seq<Entry>, sort: SortMap): (r: seq<Entry>)
    ensures |r| == |s| + 1
    ensures multiset(r) == multiset(s) + multiset{x}
    ensures r[|r| - 1] == x || (s != [] && r[|r| - 1] == s[|s| - 1])
  {
    if s == [] then [x]
    else
      var n := |s| - 1;
      if CompareBy(s[n], x, sort) > 0 then
        assert s == s[..n] + [s[n]];
        Insert(x, s[..n], sort) + [s[n]]
      else s + [x]
  }

  /** `usort` with the comparator: a stable insertion sort. */
  function SortRows(es: seq<Entry>, sort: SortMap): (r: seq<Entry>)
    ensures |r| == |es|
    ensures multiset(r) == multiset(es)
  {
    if es == [] then []
    else
      var n := |es| - 1;
      assert es == es[..n] + [es[n]];
      Insert(es[n], SortRows(es[..n], sort), sort)
  }

  /** Every row compares at most equal to the one after it. */
  predicate Ordered(s: seq<Entry>, sort: SortMap) {
    forall i :: 0 <= i < |s| - 1 ==> CompareBy(s[i], s[i + 1], sort) <= 0
  }

  lemma {:induction false} InsertOrdered(x: Entry, s: seq<Entry>, sort: SortMap)
    requires Ordered(s, sort)
    ensures Ordered(Insert(x, s, sort), sort)
  {
    if s != [] {
      var n := |s| - 1;
      if CompareBy(s[n], x, sort) > 0 {
        var r' := Insert(x, s[..n], sort);
        OrderedPrefix(s, sort, n);
        InsertOrdered(x, s[..n], sort);
        assert CompareBy(r'[|r'| - 1], s[n], sort) <= 0 by {
          if r'[|r'| - 1] == x {
            CompareByAntisymmetric(s[n], x, sort);
          } else {
            assert r'[|r'| - 1] == s[n - 1];
          }
        }
        OrderedSnoc(r', s[n], sort);
      } else {
        OrderedSnoc(s, x, sort);
      }
    }
  }

  lemma OrderedPrefix(s: seq<Entry>, sort: SortMap, n: nat)
    requires Ordered(s, sort) && n <= |s|
    ensures Ordered(s[..n], sort)
  {
    forall i | 0 <= i < n - 1 ensures CompareBy(s[..n][i], s[..n][i + 1], sort) <= 0 {
      assert s[..n][i] == s[i] && s[..n][i + 1] == s[i + 1];
    }
  }

  lemma OrderedSnoc(s: seq<Entry>, y: Entry, sort: SortMap)
    requires Ordered(s, sort)
    requires s != [] ==> CompareBy(s[|s| - 1], y, sort) <= 0
    ensures Ordered(s + [y], sort)
  {
    var r := s + [y];
    forall i | 0 <= i < |r| - 1 ensures CompareBy(r[i], r[i + 1], sort) <= 0 {
      assert r[i] == s[i];
      if i < |s| - 1 {
        assert r[i + 1] == s[i + 1];
      } else {
        assert r[i + 1] == y;
      }
    }
  }

  /** The sorted rows are a permutation of the input in which each row compares at most equal to the next. */
  lemma {:induction false} SortRowsOrdered(es: seq<Entry>, sort: SortMap)
    ensures Ordered(SortRows(es, sort), sort)
    ensures multiset(SortRows(es, sort)) == multiset(es)
  {
    if es != [] {
      var n := |es| - 1;
      SortRowsOrdered(es[..n], sort);
      InsertOrdered(es[n], SortRows(es[..n], sort), sort);
    }
  }

  // ------------------------------------------------------------ the page

  /** The counted rows in the order the page is cut from: sorted unless the sort map is empty. */
  function Sorted(t: Table, c: ListCriteria): seq<Entry> {
    if c.sort == [] then Matching(t, c) else SortRows(Matching(t, c), c.sort)
  }

  function ToClients(es: seq<Entry>): (cs: seq<Client>)
    ensures |cs| == |es|
    ensures forall i :: 0 <= i < |es| ==> cs[i] == RowToClient(es[i])
  {
    seq(|es|, i requires 0 <= i < |es| => RowToClient(es[i]))
  }

  /**
   * What `findAll` returns. The slice starts at `(page - 1) * perPage`,
   * which is `Offset(c)`; when that leaves the `int` range, `array_slice`
   * refuses the float it becomes with a `TypeError` (None).
   */
  function FindAllSpec(t: Table, c: ListCriteria): (r: Option<ListResult<Client>>)
    ensures r.Some? <==> Offset(c).Some?
    ensures r.Some? ==> r.value.total == |Matching(t, c)| && r.value.page == c.page && r.value.perPage == c.perPage
  {
    if Offset(c).None? then None
    else
      var slice := Slice(Sorted(t, c), Offset(c).value, c.perPage);
      Some(ListResult(ToClients(slice), |Matching(t, c)|, c.page, c.perPage))
  }

  lemma FindAllSpecIs(t: Table, c: ListCriteria, sorted: seq<Entry>, total: int)
    requires Offset(c).Some? && sorted == Sorted(t, c) && total == |Matching(t, c)|
    ensures FindAllSpec(t, c) == Some(ListResult(ToClients(Slice(sorted, Offset(c).value, c.perPage)), total, c.page, c.perPage))
  {
  }

  /** The total does not depend on the page asked for, as long as the page can be cut. */
  lemma TotalIgnoresPage(t: Table, c: ListCriteria, page: int, perPage: int)
    requires Offset(c).Some? && Offset(c.(page := page, perPage := perPage)).Some?
    ensures FindAllSpec(t, c.(page := page, perPage := perPage)).value.total == FindAllSpec(t, c).value.total
    ensures FindAllSpec(t, c).value.total == |Matching(t, c)|
  {
  }

  /** The page out of range for an `int` offset fails whatever the store holds. */
  lemma OverflowingPageFails(t: Table, c: ListCriteria)
    requires c.page == 50_000_000_000_000_000 && c.perPage == 200
    ensures FindAllSpec(t, c).None?
  {
  }

  /**
   * For a page of at least 1 and a non-negative page size, the page holds
   * `min(perPage, max(0, total - offset))` clients, taken in order from
   * position `offset` of the sorted rows; a page past the end is empty.
   */
  lemma PageLength(t: Table, c: ListCriteria)
    requires c.page >= 1 && c.perPage >= 0 && Offset(c).Some?
    ensures |FindAllSpec(t, c).value.items| == Min(c.perPage, Max(0, FindAllSpec(t, c).value.total - Offset(c).value))
    ensures forall i :: 0 <= i < |FindAllSpec(t, c).value.items| ==>
              FindAllSpec(t, c).value.items[i] == RowToClient(Sorted(t, c)[Offset(c).value + i])
  {
    var s := Sorted(t, c);
    var o := Offset(c).value;
    assert |s| == |Matching(t, c)|;
    var slice := Slice(s, o, c.perPage);
    assert FindAllSpec(t, c).value.items == ToClients(slice);
    assert o >= 0;
    assert slice == s[Min(o, |s|)..Min(o + c.perPage, |s|)];
    if o >= |s| {
      assert |slice| == 0;
    } else {
      assert |slice| == Min(o + c.perPage, |s|) - o;
    }
  }

  /** Every listed client is a counted, active row, so it has an id and no deletion time. */
  lemma PageItemsCounted(t: Table, c: ListCriteria, i: nat)
    requires FindAllSpec(t, c).Some? && i < |FindAllSpec(t, c).value.items|
    ensures exists e :: e in Matching(t, c) && FindAllSpec(t, c).value.items[i] == RowToClient(e)
    ensures FindAllSpec(t, c).value.items[i].id.Some? && FindAllSpec(t, c).value.items[i].deletedAt.None?
  {
    var m := Matching(t, c);
    var s := Sorted(t, c);
    var slice := Slice(s, Offset(c).value, c.perPage);
    assert multiset(s) == multiset(m) by {
      if c.sort != [] {
        SortRowsOrdered(m, c.sort);
      }
    }
    var e := slice[i];
    SliceMember(s, Offset(c).value, c.perPage, i);
    assert e in multiset(s);
    assert e in m;
    MatchingMembers(t, c, e);
  }

  /** An element of a slice is an element of the sliced sequence. */
  lemma SliceMember<T>(xs: seq<T>, offset: int, length: int, i: nat)
    requires i < |Slice(xs, offset, length)|
    ensures Slice(xs, offset, length)[i] in xs
  {
  }

  // ------------------------------------------------------------ saving

  /** The id an insert takes: one more than the largest id, soft-deleted rows included; 1 for an empty store. */
  function NextId(t: Table): (id: int)
    ensures id !in Keys(t)
    ensures forall i :: 0 <= i < |t| ==> t[i].0 < id
    ensures t == [] ==> id == 1
    ensures t != [] ==> id - 1 in Keys(t)
  {
    if t == [] then 1 else MaxOf(Keys(t)) + 1
  }

  /** The id a save writes under. */
  function SavedId(t: Table, client: Client): int {
    if client.id.None? then NextId(t) else client.id.value
  }

  /**
   * The row a save writes: the client's fields, `updated_at = now`, no
   * deletion time, and `created_at` kept from the stored row on update
   * (`now` when there is none).
   */
  function SavedRow(t: Table, client: Client, now: string): Row {
    var created :=
      if client.id.None? then Some(now)
      else
        var existing := Get(t, client.id.value);
        if existing.Some? && existing.value.createdAt.Some? then existing.value.createdAt else Some(now);
    Row(client.name, client.phone, client.clientType, client.document, created, Some(now), None)
  }

  /** The store after `save`. */
  function AfterSave(t: Table, client: Client, now: string): (r: Table)
    ensures IsMap(t) ==> IsMap(r)
    ensures Get(r, SavedId(t, client)) == Some(SavedRow(t, client, now))
  {
    Put(t, SavedId(t, client), SavedRow(t, client, now))
  }

  /**
   * An insert adds one row under a fresh id greater than every stored id
   * (ids are never reused), with both timestamps `now`; nothing else changes.
   */
  lemma SaveInsert(t: Table, client: Client, now: string)
    requires client.id.None?
    ensures Keys(AfterSave(t, client, now)) == Keys(t) + [NextId(t)]
    ensures Get(AfterSave(t, client, now), NextId(t)) ==
              Some(Row(client.name, client.phone, client.clientType, client.document, Some(now), Some(now), None))
    ensures forall k :: k != NextId(t) ==> Get(AfterSave(t, client, now), k) == Get(t, k)
  {
  }

  /**
   * An update overwrites the row under the client's id in place (or adds
   * it when absent), keeps the stored creation time, refreshes the update
   * time and clears the deletion time; nothing else changes.
   */
  lemma SaveUpdate(t: Table, client: Client, now: string)
    requires client.id.Some?
    ensures var id := client.id.value;
            Keys(AfterSave(t, client, now)) == (if id in Keys(t) then Keys(t) else Keys(t) + [id])
    ensures var id := client.id.value;
            var r := Get(AfterSave(t, client, now), id).value;
            r.name == client.name && r.phone == client.phone && r.clientType == client.clientType &&
            r.document == client.document && r.updatedAt == Some(now) && r.deletedAt.None? &&
            (Get(t, id).Some? && Get(t, id).value.createdAt.Some? ==> r.createdAt == Get(t, id).value.createdAt) &&
            (Get(t, id).None? || Get(t, id).value.createdAt.None? ==> r.createdAt == Some(now))
    ensures forall k :: k != client.id.value ==> Get(AfterSave(t, client, now), k) == Get(t, k)
  {
  }

  /** After a save the row can be found by its id, even if it had been soft-deleted. */
  lemma SaveThenFind(t: Table, client: Client, now: string)
    ensures Lookup(AfterSave(t, client, now), SavedId(t, client)) ==
              Some(RowToClient((SavedId(t, client), SavedRow(t, client, now))))
  {
  }

  // ------------------------------------------------------------ deleting

  /** `delete` acts only on a stored row that is not deleted yet. */
  predicate Deletable(t: Table, id: int) {
    Get(t, id).Some? && Active(Get(t, id).value)
  }

  /** The store after `delete`: the row stays, with `deleted_at = now`. */
  function AfterDelete(t: Table, id: int, now: string): (r: Table)
    ensures Keys(r) == Keys(t)
    ensures !Deletable(t, id) ==> r == t
  {
    if Deletable(t, id) then Put(t, id, Get(t, id).value.(deletedAt := Some(now))) else t
  }

  lemma TimestampNotEmpty(now: string)
    requires IsTimestamp(now)
    ensures !IsFalsy(now)
  {
    assert now[0] != '0' || |now| != 1;
  }

  /**
   * A delete keeps every id and every other row, and afterwards the row is
   * no longer found, so a second delete of it is refused.
   */
  lemma DeleteEffect(t: Table, id: int, now: string)
    requires IsTimestamp(now)
    requires Deletable(t, id)
    ensures Keys(AfterDelete(t, id, now)) == Keys(t)
    ensures forall k :: k != id ==> Get(AfterDelete(t, id, now), k) == Get(t, k)
    ensures Get(AfterDelete(t, id, now), id) == Some(Get(t, id).value.(deletedAt := Some(now)))
    ensures Lookup(AfterDelete(t, id, now), id).None?
    ensures !Deletable(AfterDelete(t, id, now), id)
  {
    TimestampNotEmpty(now);
  }

  // ------------------------------------------------------------ the interface

  /** The methods `ClientRepositoryInterface` declares. */
  const INTERFACE_METHODS: seq<string> := ["findById", "findByDocument", "findAll", "save", "delete"]

  /** The public methods `JsonClientRepository` defines (`MySQLClientRepository` defines the same four). */
  const DEFINED_METHODS: seq<string> := ["findById", "findAll", "save", "delete"]

  /** A class can be declared as implementing an interface only if it defines every declared method. */
  predicate Implements(defined: seq<string>, declared: seq<string>) {
    forall m :: m in declared ==> m in defined
  }

  /**
   * As written, the repository classes lack `findByDocument`, so PHP
   * refuses to declare them and the service's document checks cannot run.
   */
  lemma DefinedMethodsMissFindByDocument()
    ensures !Implements(DEFINED_METHODS, INTERFACE_METHODS)
    ensures "findByDocument" !in DEFINED_METHODS
  {
    assert INTERFACE_METHODS[1] == "findByDocument";
    assert "findByDocument"[6] != "findById"[6];
    assert "findByDocument"[4] != "findAll"[4];
    assert |"findByDocument"| != |"save"| && |"findByDocument"| != |"delete"|;
    assert "findByDocument" !in DEFINED_METHODS;
    assert "findByDocument" in INTERFACE_METHODS;
  }

  // ------------------------------------------------------------ the class

  class JsonClientRepository {
    /** The decoded contents of `clients.json`. */
    var table: Table

    ghost predicate Valid()
      reads this
    {
      IsMap(table)
    }

    /** The repository over a storage file, as `loadData` reads it. */
    constructor (file: StoreFile<Row>)
      ensures table == Loaded(file) && Valid()
    {
      var data := LoadData(file);
      LoadedIsMap(file);
      table := data;
    }

    /** `findById`. */
    method FindById(id: int) returns (c: Option<Client>)
      ensures c == Lookup(table, id)
    {
      var row := Get(table, id);
      if row.None? || !IsEmpty(row.value.deletedAt) {
        return None;
      }
      return Some(RowToClient((id, row.value)));
    }

    /** `findByDocument`: a scan for the first active row with that document, skipping `excludeId`. */
    method FindByDocument(document: string, excludeId: Option<int>) returns (c: Option<Client>)
      ensures c == DocumentOwner(table, document, excludeId)
    {
      var i := 0;
      while i < |table|
        invariant 0 <= i <= |table|
        invariant DocumentOwner(table[i..], document, excludeId) == DocumentOwner(table, document, excludeId)
      {
        if DocumentHit(table[i], document, excludeId) {
          return Some(RowToClient(table[i]));
        }
        assert table[i..][1..] == table[i + 1..];
        i := i + 1;
      }
      return None;
    }

    /** `findAll`; None where `array_slice` throws on an offset out of the `int` range. */
    method FindAll(c: ListCriteria) returns (r: Option<ListResult<Client>>)
      ensures r == FindAllSpec(table, c)
    {
      var active := Select(table, NotDeleted);
      if HasSearch(c) {
        active := Select(active, SearchFor(ToLower(c.search)));
      }
      ghost var searched := active;
      if HasFilter(c) {
        for i := 0 to |c.filter|
          invariant active == FilterAll(searched, c.filter[..i])
        {
          assert c.filter[..i + 1][..i] == c.filter[..i];
          active := Select(active, Equals(c.filter[i].0, c.filter[i].1));
        }
        assert c.filter[..|c.filter|] == c.filter;
      }
      assert active == if HasFilter(c) then FilterAll(searched, c.filter) else searched;
      assert active == Matching(table, c);
      var total := |active|;
      if c.sort != [] {
        active := SortRows(active, c.sort);
      }
      assert active == Sorted(table, c);
      var offset := Offset(c);
      if offset.None? {
        return None;
      }
      var slice := Slice(active, offset.value, c.perPage);
      r := Some(ListResult(ToClients(slice), total, c.page, c.perPage));
      FindAllSpecIs(table, c, active, total);
    }

    /** `save`, with `now` the clock's formatted time. */
    method Save(client: Client, now: string) returns (saved: Client)
      requires Valid()
      modifies this
      ensures Valid()
      ensures table == AfterSave(old(table), client, now)
      ensures saved == RowToClient((SavedId(old(table), client), SavedRow(old(table), client, now)))
    {
      if client.id.None? {
        var id := if table != [] then MaxOf(Keys(table)) + 1 else 1;
        var row := Row(client.name, client.phone, client.clientType, client.document, Some(now), Some(now), None);
        table := Put(table, id, row);
        return RowToClient((id, row));
      }
      var id := client.id.value;
      var existing := Get(table, id);
      var created := if existing.Some? && existing.value.createdAt.Some? then existing.value.createdAt else Some(now);
      table := Put(table, id, Row(client.name, client.phone, client.clientType, client.document, created, Some(now), None));
      return RowToClient((id, Get(table, id).value));
    }

    /** `delete`, with `now` the clock's formatted time. */
    method Delete(id: int, now: string) returns (ok: bool)
      requires Valid()
      modifies this
      ensures Valid()
      ensures ok == Deletable(old(table), id)
      ensures table == AfterDelete(old(table), id, now)
    {
      var row := Get(table, id);
      if row.None? || !IsEmpty(row.value.deletedAt) {
        return false;
      }
      table := Put(table, id, row.value.(deletedAt := Some(now)));
      return true;
    }
  }
}
