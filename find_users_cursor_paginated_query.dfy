/** `FindUsersCursorPaginatedQuery`: the cursor-paginated, searchable,
    sortable listing of users, each row read through its own cache entry. */
module FindUsersCursorPaginatedQuery {
  import opened Wrappers
  import opened UserData
  import opened RowOrder
  import opened Cache
  import opened Ints
  import Text

  const DefaultPerPage: nat := 20
  /** Seconds a row stays in its cache entry. */
  const UserTtl: int := 3600
  /** `cacheTags()`. */
  const CacheTags: seq<string> := ["users"]

  /** `SearchDTO`: a term and the columns to look for it in. */
  datatype SearchDTO = SearchDTO(term: string, columns: seq<string>)

  predicate HasSearch(s: SearchDTO) {
    |s.term| > 0
  }

  /** `SortDTO`: (column, direction) pairs, most significant first. */
  datatype SortDTO = SortDTO(sorts: seq<OrderKey>)

  predicate HasSorts(s: SortDTO) {
    |s.sorts| > 0
  }

  // ---------------------------------------------------------------- search

  /** One `orWhere($column, 'LIKE', "%{$term}%")`. */
  datatype LikeClause = LikeClause(column: string, term: string)

  /** The clauses of the search group: one per listed column, in order, or
      none when there is nothing to search for. */
  function SearchClauses(search: Option<SearchDTO>): seq<LikeClause> {
    if search.Some? && HasSearch(search.value) then
      var s := search.value;
      seq(|s.columns|, i requires 0 <= i < |s.columns| => LikeClause(s.columns[i], s.term))
    else []
  }

  /** The `foreach` that adds one `orWhere` per searched column. */
  method BuildSearchClauses(search: Option<SearchDTO>) returns (clauses: seq<LikeClause>)
    ensures clauses == SearchClauses(search)
  {
    clauses := [];
    if search.Some? && HasSearch(search.value) {
      var columns := search.value.columns;
      var i := 0;
      while i < |columns|
        invariant 0 <= i <= |columns|
        invariant |clauses| == i
        invariant forall k :: 0 <= k < i ==> clauses[k] == LikeClause(columns[k], search.value.term)
      {
        clauses := clauses + [LikeClause(columns[i], search.value.term)];
        i := i + 1;
      }
    }
  }

  /** The column holds a string that contains the term. NULL never matches. */
  predicate MatchesClause(row: Row, clause: LikeClause) {
    Get(row, clause.column).Text? && Text.Contains(Get(row, clause.column).s, clause.term)
  }

  /** The nested `where` group: any clause holds. A group with no clause is
      left out of the SQL, so it keeps every row. */
  predicate MatchesSearch(row: Row, clauses: seq<LikeClause>) {
    |clauses| == 0 || exists i :: 0 <= i < |clauses| && MatchesClause(row, clauses[i])
  }

  /** The column holds a string in which the term occurs. */
  ghost predicate ColumnContains(row: Row, column: string, term: string) {
    Get(row, column).Text? && exists i :: Text.OccursAt(Get(row, column).s, term, i)
  }

  /** With a search term and at least one column, a row is kept exactly when
      one of the listed columns contains the term. */
  lemma SearchKeepsIff(row: Row, search: SearchDTO)
    requires HasSearch(search) && |search.columns| > 0
    ensures MatchesSearch(row, SearchClauses(Some(search)))
            <==> exists k :: 0 <= k < |search.columns| && ColumnContains(row, search.columns[k], search.term)
  {
    var clauses := SearchClauses(Some(search));
    forall k | 0 <= k < |search.columns|
      ensures MatchesClause(row, clauses[k]) <==> ColumnContains(row, search.columns[k], search.term)
    {
      var cell := Get(row, search.columns[k]);
      if cell.Text? { Text.ContainsIff(cell.s, search.term); }
    }
  }

  /** A term with no columns gives an empty group, which keeps every row. */
  lemma SearchWithoutColumnsKeepsAll(row: Row, search: SearchDTO)
    requires HasSearch(search) && |search.columns| == 0
    ensures MatchesSearch(row, SearchClauses(Some(search)))
  {
  }

  /** Without a search, or with an empty term, every row is kept. */
  lemma NoSearchKeepsAll(row: Row, search: Option<SearchDTO>)
    requires search.None? || !HasSearch(search.value)
    ensures MatchesSearch(row, SearchClauses(search))
  {
  }

  /** The rows `keep` accepts, in their original order: a `WHERE`. */
  function Where(rows: seq<Row>, keep: Row -> bool): (r: seq<Row>)
    ensures |r| <= |rows|
    ensures forall x :: x in r <==> x in rows && keep(x)
  {
    if |rows| == 0 then []
    else
      assert rows == [rows[0]] + rows[1..];
      (if keep(rows[0]) then [rows[0]] else []) + Where(rows[1..], keep)
  }

  lemma {:induction false} WhereKeepsUniqueIds(rows: seq<Row>, keep: Row -> bool)
    requires UniqueIds(rows)
    ensures UniqueIds(Where(rows, keep))
  {
    if |rows| > 0 {
      var rest := Where(rows[1..], keep);
      WhereKeepsUniqueIds(rows[1..], keep);
      if keep(rows[0]) {
        var r := [rows[0]] + rest;
        forall j | 0 < j < |r| ensures Get(r[0], "id") != Get(r[j], "id") {
          assert r[j] in rows[1..];
          var k :| 0 <= k < |rows[1..]| && rows[1..][k] == r[j];
          assert r[j] == rows[k + 1];
        }
      }
    }
  }

  /** When every row is accepted, nothing is dropped. */
  lemma {:induction false} WhereAll(rows: seq<Row>, keep: Row -> bool)
    requires forall i :: 0 <= i < |rows| ==> keep(rows[i])
    ensures Where(rows, keep) == rows
  {
    if |rows| > 0 {
      WhereAll(rows[1..], keep);
    }
  }

  // -------------------------------------------------------------- ordering

  const CreatedAtDesc: OrderKey := OrderKey("created_at", Desc)
  const IdDesc: OrderKey := OrderKey("id", Desc)

  /** The `orderBy` clauses the query adds, in order. */
  function OrderKeys(sort: Option<SortDTO>): seq<OrderKey> {
    if sort.Some? && HasSorts(sort.value) then sort.value.sorts + [IdDesc]
    else [CreatedAtDesc, IdDesc]
  }

  /** The `foreach` over the caller's sorts, then the `id desc` tie-break;
      or the default `created_at desc, id desc`. */
  method BuildOrderKeys(sort: Option<SortDTO>) returns (keys: seq<OrderKey>)
    ensures keys == OrderKeys(sort)
  {
    keys := [];
    if sort.Some? && HasSorts(sort.value) {
      var sorts := sort.value.sorts;
      for i := 0 to |sorts|
        invariant keys == sorts[..i]
      {
        keys := keys + [sorts[i]];
      }
      keys := keys + [IdDesc];
    } else {
      keys := keys + [CreatedAtDesc];
      keys := keys + [IdDesc];
    }
  }

  /** The caller's sorts come first, in the order given, and `id desc` last;
      without sorts the order is `created_at desc, id desc`. Either way the
      last key is on `id`, so rows with distinct ids never tie. */
  lemma OrderKeysShape(sort: Option<SortDTO>)
    ensures var keys := OrderKeys(sort);
            && EndsWithId(keys)
            && keys[|keys| - 1] == OrderKey("id", Desc)
            && (sort.Some? && HasSorts(sort.value) ==>
                  |keys| == |sort.value.sorts| + 1 && keys[..|sort.value.sorts|] == sort.value.sorts)
            && (sort.None? || !HasSorts(sort.value) ==>
                  keys == [OrderKey("created_at", Desc), OrderKey("id", Desc)])
  {
    var keys := OrderKeys(sort);
    if sort.Some? && HasSorts(sort.value) {
      assert keys[..|sort.value.sorts|] == sort.value.sorts;
    }
  }

  // ---------------------------------------------------------------- cursor

  /** A cursor: the order-key values of the last row of the previous page.
      The encoded form is the framework's and is not modelled. */
  type Cursor = seq<Cell>

  /** PHP treats `""` and `"0"` as false. */
  predicate IsFalsy(s: string) {
    s == "" || s == "0"
  }

  /** `$cursor ? Cursor::fromEncoded($cursor) : null`: a null or falsy string
      starts from the first row; otherwise the decoder decides (a string it
      cannot decode also gives null). */
  function StartCursor(cursor: Option<string>, decode: string -> Option<Cursor>): Option<Cursor> {
    if cursor.Some? && !IsFalsy(cursor.value) then decode(cursor.value) else None
  }

  /** The seek condition: the row sorts strictly after the cursor. */
  function After(c: Cursor, keys: seq<OrderKey>): Row -> bool {
    row => TupleLess(c, KeyTuple(row, keys), keys)
  }

  /** The rows the seek leaves, in order. */
  function AfterCursor(ordered: seq<Row>, keys: seq<OrderKey>, cursor: Option<Cursor>): seq<Row> {
    if cursor.None? then ordered else Where(ordered, After(cursor.value, keys))
  }

  /** On a sorted sequence the seek drops a prefix: what is left is a suffix,
      every row of it after the cursor and no row before it. */
  lemma {:induction false} AfterCursorIsSuffix(ordered: seq<Row>, keys: seq<OrderKey>, c: Cursor)
    requires Sorted(ordered, keys)
    ensures var rest := Where(ordered, After(c, keys));
            var start := |ordered| - |rest|;
            && rest == ordered[start..]
            && (forall i :: 0 <= i < start ==> !After(c, keys)(ordered[i]))
            && (forall i :: start <= i < |ordered| ==> After(c, keys)(ordered[i]))
  {
    if |ordered| > 0 {
      var keep := After(c, keys);
      if keep(ordered[0]) {
        forall i | 0 <= i < |ordered| ensures keep(ordered[i]) {
          if i > 0 {
            TupleLessTransitive(c, KeyTuple(ordered[0], keys), KeyTuple(ordered[i], keys), keys);
          }
        }
        WhereAll(ordered, keep);
      } else {
        AfterCursorIsSuffix(ordered[1..], keys, c);
        assert Where(ordered, keep) == Where(ordered[1..], keep);
      }
    }
  }

  /** Seeking past the `m`-th row of a sorted sequence leaves exactly the
      rows after it. */
  lemma {:induction false} AfterRow(ordered: seq<Row>, keys: seq<OrderKey>, m: nat)
    requires Sorted(ordered, keys) && m < |ordered|
    ensures Where(ordered, After(KeyTuple(ordered[m], keys), keys)) == ordered[m + 1..]
  {
    var keep := After(KeyTuple(ordered[m], keys), keys);
    if m == 0 {
      PrecedesIrreflexive(ordered[0], keys);
      WhereAll(ordered[1..], keep);
    } else {
      PrecedesAsymmetric(ordered[0], ordered[m], keys);
      AfterRow(ordered[1..], keys, m - 1);
    }
  }

  // ------------------------------------------------------------------ page

  /** A page of rows: at most `perPage` rows after the cursor, whether more
      follow, and the cursor of the page's last row when they do. */
  datatype RowPage = RowPage(rows: seq<Row>, nextCursor: Option<Cursor>, hasMore: bool)

  /** `cursorPaginate`: seek, then take `perPage` rows. */
  function Paginate(ordered: seq<Row>, keys: seq<OrderKey>, cursor: Option<Cursor>, perPage: nat): (p: RowPage)
    ensures |p.rows| <= perPage
    ensures p.hasMore <==> |AfterCursor(ordered, keys, cursor)| > perPage
  {
    var rest := AfterCursor(ordered, keys, cursor);
    var n := Min(perPage, |rest|);
    var hasMore := |rest| > perPage;
    RowPage(rest[..n], if hasMore && n > 0 then Some(KeyTuple(rest[n - 1], keys)) else None, hasMore)
  }

  /** The rows the search group keeps. */
  function Searched(table: seq<Row>, clauses: seq<LikeClause>): seq<Row> {
    Where(table, row => MatchesSearch(row, clauses))
  }

  /** The users, searched and in the order of the keys. */
  function Ordered(table: seq<Row>, search: Option<SearchDTO>, sort: Option<SortDTO>): seq<Row> {
    SortRows(Searched(table, SearchClauses(search)), OrderKeys(sort))
  }

  /** The rows of the page `execute` returns, before the cache and the DTOs. */
  function PageOf(table: seq<Row>, cursor: Option<string>, perPage: nat, search: Option<SearchDTO>,
                  sort: Option<SortDTO>, decode: string -> Option<Cursor>): RowPage {
    Paginate(Ordered(table, search, sort), OrderKeys(sort), StartCursor(cursor, decode), perPage)
  }

  /** The ordered rows are exactly the table's rows that match the search,
      each once, strictly increasing under the order keys. */
  lemma OrderedRows(table: seq<Row>, search: Option<SearchDTO>, sort: Option<SortDTO>)
    requires UniqueIds(table)
    ensures var ordered := Ordered(table, search, sort);
            && Sorted(ordered, OrderKeys(sort))
            && UniqueIds(ordered)
            && forall row :: row in ordered <==> row in table && MatchesSearch(row, SearchClauses(search))
  {
    var clauses := SearchClauses(search);
    var keep := row => MatchesSearch(row, clauses);
    var matching := Searched(table, clauses);
    var keys := OrderKeys(sort);
    WhereKeepsUniqueIds(table, keep);
    OrderKeysShape(sort);
    SortRowsSorted(matching, keys);
    var ordered := SortRows(matching, keys);
    assert ordered == Ordered(table, search, sort);
    forall row ensures row in ordered <==> row in matching {
      assert row in ordered <==> row in multiset(ordered);
      assert row in matching <==> row in multiset(matching);
    }
    SortedRowsFromTable(ordered, table, keys);
  }

  /** Sorted rows taken from a table with unique ids repeat no id: a strict
      order never places a row twice. */
  lemma SortedRowsFromTable(rows: seq<Row>, table: seq<Row>, keys: seq<OrderKey>)
    requires Sorted(rows, keys) && UniqueIds(table)
    requires forall x :: x in rows ==> x in table
    ensures UniqueIds(rows)
  {
    forall i, j | 0 <= i < j < |rows| ensures Get(rows[i], "id") != Get(rows[j], "id") {
      PrecedesIrreflexive(rows[i], keys);
      assert rows[i] != rows[j];
      assert rows[i] in table && rows[j] in table;
      var p :| 0 <= p < |table| && table[p] == rows[i];
      var q :| 0 <= q < |table| && table[q] == rows[j];
      assert p != q;
    }
  }

  /** What the seek leaves of sorted rows is a suffix of them. */
  lemma RestIsSuffix(ordered: seq<Row>, keys: seq<OrderKey>, c: Option<Cursor>)
    requires Sorted(ordered, keys)
    ensures var rest := AfterCursor(ordered, keys, c);
            |rest| <= |ordered| && rest == ordered[|ordered| - |rest|..] && (c.None? ==> rest == ordered)
  {
    if c.Some? {
      AfterCursorIsSuffix(ordered, keys, c.value);
    }
  }

  /** On sorted rows a page is a consecutive run of at most `perPage` rows:
      it starts at the first row after the cursor (the first row when there
      is none), and `hasMore` says whether rows follow it. */
  lemma PaginateIsConsecutive(ordered: seq<Row>, keys: seq<OrderKey>, c: Option<Cursor>, perPage: nat)
    requires Sorted(ordered, keys)
    ensures var p := Paginate(ordered, keys, c, perPage);
            var start := |ordered| - |AfterCursor(ordered, keys, c)|;
            && 0 <= start <= |ordered|
            && (c.None? ==> start == 0)
            && |p.rows| == Min(perPage, |ordered| - start)
            && p.rows == ordered[start..start + |p.rows|]
            && (p.hasMore <==> start + perPage < |ordered|)
  {
    var rest := AfterCursor(ordered, keys, c);
    var start := |ordered| - |rest|;
    RestIsSuffix(ordered, keys, c);
    var n := Min(perPage, |rest|);
    assert rest[..n] == ordered[start..start + n];
  }

  /** The page `execute` returns is such a run of the searched, ordered users. */
  lemma PageIsConsecutive(table: seq<Row>, cursor: Option<string>, perPage: nat, search: Option<SearchDTO>,
                          sort: Option<SortDTO>, decode: string -> Option<Cursor>)
    requires UniqueIds(table)
    ensures var ordered := Ordered(table, search, sort);
            var p := PageOf(table, cursor, perPage, search, sort, decode);
            var start := |ordered| - |AfterCursor(ordered, OrderKeys(sort), StartCursor(cursor, decode))|;
            && 0 <= start <= |ordered|
            && p.rows == ordered[start..start + Min(perPage, |ordered| - start)]
            && (p.hasMore <==> start + perPage < |ordered|)
  {
    OrderedRows(table, search, sort);
    PaginateIsConsecutive(Ordered(table, search, sort), OrderKeys(sort), StartCursor(cursor, decode), perPage);
  }

  /** A null or falsy cursor string starts at the first ordered row. */
  lemma FirstPage(table: seq<Row>, cursor: Option<string>, perPage: nat, search: Option<SearchDTO>,
                  sort: Option<SortDTO>, decode: string -> Option<Cursor>)
    requires cursor.None? || IsFalsy(cursor.value)
    ensures var ordered := Ordered(table, search, sort);
            PageOf(table, cursor, perPage, search, sort, decode).rows == ordered[..Min(perPage, |ordered|)]
  {
  }

  /** Every row of a page is a row of the table that matches the search. */
  lemma PageRowsMatch(table: seq<Row>, cursor: Option<string>, perPage: nat, search: Option<SearchDTO>,
                      sort: Option<SortDTO>, decode: string -> Option<Cursor>)
    ensures var p := PageOf(table, cursor, perPage, search, sort, decode);
            forall row :: row in p.rows ==> row in table && MatchesSearch(row, SearchClauses(search))
  {
    var ordered := Ordered(table, search, sort);
    var matching := Searched(table, SearchClauses(search));
    var rest := AfterCursor(ordered, OrderKeys(sort), StartCursor(cursor, decode));
    var p := PageOf(table, cursor, perPage, search, sort, decode);
    forall row | row in p.rows ensures row in table && MatchesSearch(row, SearchClauses(search)) {
      assert row in rest;
      assert row in multiset(ordered);
      assert row in multiset(matching);
    }
  }

  /** The next cursor leads to the rows right after the page: following it
      neither skips nor repeats a row. */
  lemma NextPageContinues(ordered: seq<Row>, keys: seq<OrderKey>, c: Option<Cursor>, perPage: nat)
    requires Sorted(ordered, keys)
    requires Paginate(ordered, keys, c, perPage).nextCursor.Some?
    ensures var rest := AfterCursor(ordered, keys, c);
            perPage <= |rest| && AfterCursor(ordered, keys, Paginate(ordered, keys, c, perPage).nextCursor) == rest[perPage..]
  {
    var rest := AfterCursor(ordered, keys, c);
    var start := |ordered| - |rest|;
    RestIsSuffix(ordered, keys, c);
    var last := start + perPage - 1;
    assert Paginate(ordered, keys, c, perPage).nextCursor == Some(KeyTuple(ordered[last], keys)) by {
      assert |rest| > perPage > 0;
      assert rest[perPage - 1] == ordered[last];
    }
    AfterRow(ordered, keys, last);
    assert rest[perPage..] == ordered[last + 1..];
  }

  function Flatten<T>(pages: seq<seq<T>>): seq<T> {
    if |pages| == 0 then [] else pages[0] + Flatten(pages[1..])
  }

  /** A first page of `rows[..n]` followed by pages that flatten to the rest
      flattens to `rows`. */
  lemma FlattenSplit<T>(rows: seq<T>, n: nat, later: seq<seq<T>>)
    requires n <= |rows| && Flatten(later) == rows[n..]
    ensures Flatten([rows[..n]] + later) == rows
  {
    assert ([rows[..n]] + later)[1..] == later;
    assert rows == rows[..n] + rows[n..];
  }

  /** The pages a client sees by following `nextCursor` from `c` until no
      cursor is returned. */
  ghost function Pages(ordered: seq<Row>, keys: seq<OrderKey>, c: Option<Cursor>, perPage: nat): seq<seq<Row>>
    requires Sorted(ordered, keys) && perPage > 0
    decreases |AfterCursor(ordered, keys, c)|
  {
    var p := Paginate(ordered, keys, c, perPage);
    if p.nextCursor.None? then [p.rows]
    else
      NextPageContinues(ordered, keys, c, perPage);
      [p.rows] + Pages(ordered, keys, p.nextCursor, perPage)
  }

  /** One step of the walk: the last page holds all that is left; any other
      page holds `perPage` rows and is followed by the walk from its cursor. */
  lemma PagesStep(ordered: seq<Row>, keys: seq<OrderKey>, c: Option<Cursor>, perPage: nat)
    requires Sorted(ordered, keys) && perPage > 0
    ensures var p := Paginate(ordered, keys, c, perPage);
            var rest := AfterCursor(ordered, keys, c);
            && (p.nextCursor.None? ==> Pages(ordered, keys, c, perPage) == [rest])
            && (p.nextCursor.Some? ==>
                  && perPage <= |rest|
                  && |AfterCursor(ordered, keys, p.nextCursor)| < |rest|
                  && Pages(ordered, keys, c, perPage) == [rest[..perPage]] + Pages(ordered, keys, p.nextCursor, perPage)
                  && AfterCursor(ordered, keys, p.nextCursor) == rest[perPage..])
  {
    var p := Paginate(ordered, keys, c, perPage);
    var rest := AfterCursor(ordered, keys, c);
    if p.nextCursor.Some? {
      NextPageContinues(ordered, keys, c, perPage);
    } else {
      assert |rest| <= perPage;
      assert p.rows == rest[..|rest|] == rest;
    }
  }

  lemma {:induction false} PagesCoverRest(ordered: seq<Row>, keys: seq<OrderKey>, c: Option<Cursor>, perPage: nat)
    requires Sorted(ordered, keys) && perPage > 0
    ensures Flatten(Pages(ordered, keys, c, perPage)) == AfterCursor(ordered, keys, c)
    decreases |AfterCursor(ordered, keys, c)|
  {
    var next := Paginate(ordered, keys, c, perPage).nextCursor;
    var rest := AfterCursor(ordered, keys, c);
    PagesStep(ordered, keys, c, perPage);
    if next.None? {
      FlattenSplit(rest, |rest|, []);
    } else {
      PagesCoverRest(ordered, keys, next, perPage);
      FlattenSplit(rest, perPage, Pages(ordered, keys, next, perPage));
    }
  }

  /** Pagination is complete: following the cursors from the first page
      yields every matching row exactly once, in order. */
  lemma PaginationComplete(table: seq<Row>, perPage: nat, search: Option<SearchDTO>, sort: Option<SortDTO>)
    requires UniqueIds(table) && perPage > 0
    ensures var ordered := Ordered(table, search, sort);
            Sorted(ordered, OrderKeys(sort))
            && Flatten(Pages(ordered, OrderKeys(sort), None, perPage)) == ordered
  {
    OrderedRows(table, search, sort);
    PagesCoverRest(Ordered(table, search, sort), OrderKeys(sort), None, perPage);
  }

  // ----------------------------------------------------------------- cache

  /** The id as PHP interpolates it into a string (NULL gives ""). */
  function IdText(row: Row): string {
    match Get(row, "id")
    case Text(s) => s
    case Null => ""
  }

  /** `"user:{$userData->id}"`. */
  function CacheKey(row: Row): (key: string)
    ensures |key| == 5 + |IdText(row)| && key[..5] == "user:" && key[5..] == IdText(row)
  {
    "user:" + IdText(row)
  }

  /** Rows with different (non-null) ids never share a cache entry. */
  lemma CacheKeyInjective(a: Row, b: Row)
    requires Get(a, "id").Text? && Get(b, "id").Text?
    ensures CacheKey(a) == CacheKey(b) <==> Get(a, "id") == Get(b, "id")
  {
  }

  /** The cache keys of the rows, in order. */
  function CacheKeys(rows: seq<Row>): (keys: seq<string>)
    ensures |keys| == |rows| && forall i :: 0 <= i < |rows| ==> keys[i] == CacheKey(rows[i])
  {
    seq(|rows|, i requires 0 <= i < |rows| => CacheKey(rows[i]))
  }

  predicate DistinctKeys(rows: seq<Row>) {
    Distinct(CacheKeys(rows))
  }

  /** The `through` callback's cache traffic over the page's rows, in order:
      one `remember` per row, under the row's key, for an hour, with the row
      itself as the callback's value. The entries afterwards and the array
      each row resolves to. */
  function ResolveRows(entries: map<string, Entry<UserRow>>, rows: seq<UserRow>): (map<string, Entry<UserRow>>, seq<UserRow>) {
    RememberAll(entries, CacheKeys(rows), UserTtl, rows)
  }

  /** Rows of a users table with distinct ids have distinct cache keys. */
  lemma UniqueIdsDistinctKeys(rows: seq<UserRow>)
    requires UniqueIds(rows)
    ensures DistinctKeys(rows)
  {
    var keys := CacheKeys(rows);
    forall i, j | 0 <= i < j < |keys| ensures keys[i] != keys[j] {
      assert IsUserRow(rows[i]) && IsUserRow(rows[j]);
      CacheKeyInjective(rows[i], rows[j]);
    }
  }

  /** A page repeats no id. */
  lemma PageUniqueIds(table: seq<Row>, cursor: Option<string>, perPage: nat, search: Option<SearchDTO>,
                      sort: Option<SortDTO>, decode: string -> Option<Cursor>)
    requires UniqueIds(table)
    ensures UniqueIds(PageOf(table, cursor, perPage, search, sort, decode).rows)
  {
    var ordered := Ordered(table, search, sort);
    OrderedRows(table, search, sort);
    PageIsConsecutive(table, cursor, perPage, search, sort, decode);
    var start := |ordered| - |AfterCursor(ordered, OrderKeys(sort), StartCursor(cursor, decode))|;
    var rows := PageOf(table, cursor, perPage, search, sort, decode).rows;
    SliceUniqueIds(ordered, start, start + |rows|);
  }

  lemma SliceUniqueIds(rows: seq<Row>, lo: nat, hi: nat)
    requires UniqueIds(rows) && lo <= hi <= |rows|
    ensures UniqueIds(rows[lo..hi])
  {
    var slice := rows[lo..hi];
    forall i, j | 0 <= i < j < |slice| ensures Get(slice[i], "id") != Get(slice[j], "id") {
      assert slice[i] == rows[lo + i] && slice[j] == rows[lo + j];
    }
  }

  /** The rows of one page never share a cache entry. */
  lemma PageDistinctKeys(table: seq<UserRow>, cursor: Option<string>, perPage: nat, search: Option<SearchDTO>,
                         sort: Option<SortDTO>, decode: string -> Option<Cursor>)
    requires UniqueIds(table)
    ensures DistinctKeys(UserPage(table, cursor, perPage, search, sort, decode))
  {
    PageUniqueIds(table, cursor, perPage, search, sort, decode);
    UniqueIdsDistinctKeys(UserPage(table, cursor, perPage, search, sort, decode));
  }

  // ---------------------------------------------------------------- execute

  /** The rows of the page `execute` returns: rows of the users table. */
  function UserPage(table: seq<UserRow>, cursor: Option<string>, perPage: nat, search: Option<SearchDTO>,
                    sort: Option<SortDTO>, decode: string -> Option<Cursor>): (rows: seq<UserRow>)
    ensures rows == PageOf(table, cursor, perPage, search, sort, decode).rows
  {
    var rows := PageOf(table, cursor, perPage, search, sort, decode).rows;
    PageRowsMatch(table, cursor, perPage, search, sort, decode);
    RowsOfUserTable(rows, table);
    rows
  }

  lemma RowsOfUserTable(rows: seq<Row>, table: seq<UserRow>)
    requires forall row :: row in rows ==> row in table
    ensures forall i :: 0 <= i < |rows| ==> IsUserRow(rows[i])
  {
    forall i | 0 <= i < |rows| ensures IsUserRow(rows[i]) {
      assert rows[i] in table;
    }
  }

  function ToDTOs(values: seq<UserRow>): (items: seq<UserDTO>)
    ensures |items| == |values| && forall i :: 0 <= i < |values| ==> items[i] == FromDatabase(values[i])
  {
    seq(|values|, i requires 0 <= i < |values| => FromDatabase(values[i]))
  }

  /** One more row: one more `remember` on the entries the earlier rows left. */
  lemma ResolveRowsSnoc(entries: map<string, Entry<UserRow>>, rows: seq<UserRow>, row: UserRow)
    ensures var prior := ResolveRows(entries, rows);
            var step := Remembered(prior.0, CacheKey(row), UserTtl, row);
            ResolveRows(entries, rows + [row]) == (step.0, prior.1 + [step.1])
  {
    assert CacheKeys(rows + [row]) == CacheKeys(rows) + [CacheKey(row)];
    RememberAllSnoc(entries, CacheKeys(rows), UserTtl, rows, CacheKey(row), row);
  }

  lemma TakeOneMore<T>(s: seq<T>, i: nat)
    requires i < |s|
    ensures s[..i + 1] == s[..i] + [s[i]]
  {
  }

  lemma TakeAll<T>(s: seq<T>)
    ensures s[..|s|] == s
  {
  }

  /** `$paginator->through(...)`: each row is remembered under its cache key
      for an hour and turned into a `UserDTO`. */
  method Through(cache: CacheService<UserRow>, rows: seq<UserRow>) returns (items: seq<UserDTO>)
    modifies cache
    ensures cache.entries == ResolveRows(old(cache.entries), rows).0
    ensures items == ToDTOs(ResolveRows(old(cache.entries), rows).1)
  {
    ghost var start := cache.entries;
    ghost var values: seq<UserRow> := [];
    items := [];
    var i := 0;
    while i < |rows|
      invariant 0 <= i <= |rows|
      invariant ResolveRows(start, rows[..i]).0 == cache.entries
      invariant ResolveRows(start, rows[..i]).1 == values
      invariant items == ToDTOs(values)
    {
      ResolveRowsSnoc(start, rows[..i], rows[i]);
      TakeOneMore(rows, i);
      var cached := cache.Remember(CacheKey(rows[i]), UserTtl, rows[i]);
      values := values + [cached];
      items := items + [FromDatabase(cached)];
      i := i + 1;
    }
    TakeAll(rows);
  }

  /** What `execute` returns: the page's users and the cursor state. */
  datatype CursorPage = CursorPage(items: seq<UserDTO>, nextCursor: Option<Cursor>, hasMore: bool)

  /** `execute`: search, order, seek past the cursor, take a page, and read
      each row through its cache entry. The decoder of encoded cursors is a
      parameter. */
  method Execute(cache: CacheService<UserRow>, table: seq<UserRow>, decode: string -> Option<Cursor>,
                 cursor: Option<string> := None, perPage: nat := DefaultPerPage,
                 search: Option<SearchDTO> := None, sort: Option<SortDTO> := None)
    returns (page: CursorPage)
    modifies cache
    ensures var p := PageOf(table, cursor, perPage, search, sort, decode);
            var resolved := ResolveRows(old(cache.entries), UserPage(table, cursor, perPage, search, sort, decode));
            && page.nextCursor == p.nextCursor
            && page.hasMore == p.hasMore
            && cache.entries == resolved.0
            && page.items == ToDTOs(resolved.1)
  {
    var clauses := BuildSearchClauses(search);
    var keys := BuildOrderKeys(sort);
    var ordered := SortRows(Searched(table, clauses), keys);
    var rows := Paginate(ordered, keys, StartCursor(cursor, decode), perPage);
    assert rows.rows == UserPage(table, cursor, perPage, search, sort, decode);
    var userRows: seq<UserRow> := rows.rows;
    var items := Through(cache, userRows);
    page := CursorPage(items, rows.nextCursor, rows.hasMore);
  }

  /** Each row is served from the cache as it was before the page: the cached
      array on a hit (however stale), the row as read on a miss; no entry that
      was there is rewritten. The rows of a page have distinct keys
      (`PageDistinctKeys`). */
  lemma ResolveRowsServed(entries: map<string, Entry<UserRow>>, rows: seq<UserRow>)
    requires DistinctKeys(rows)
    ensures var r := ResolveRows(entries, rows);
            && |r.1| == |rows|
            && (forall i :: 0 <= i < |rows| ==>
                  r.1[i] == (if CacheKey(rows[i]) in entries then entries[CacheKey(rows[i])].value else rows[i]))
            && (forall k :: k in entries ==> k in r.0 && r.0[k] == entries[k])
  {
    RememberAllValues(entries, CacheKeys(rows), UserTtl, rows);
    RememberAllKeeps(entries, CacheKeys(rows), UserTtl, rows);
  }

  /** On a cold cache the rows are served as read and each is then cached
      under its key for an hour; resolving them again hits on every row and
      returns the same arrays without touching the cache. */
  lemma ResolveRowsColdThenWarm(rows: seq<UserRow>)
    requires DistinctKeys(rows)
    ensures var cold := ResolveRows(map[], rows);
            && cold.1 == rows
            && (forall i :: 0 <= i < |rows| ==> CacheKey(rows[i]) in cold.0 && cold.0[CacheKey(rows[i])] == Entry(rows[i], UserTtl))
            && ResolveRows(cold.0, rows) == cold
  {
    RememberAllCold(CacheKeys(rows), UserTtl, rows);
    RememberAllAgain(map[], CacheKeys(rows), UserTtl, rows, rows);
  }
}
