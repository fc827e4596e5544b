/** internal/mdb/query.go, lines 44-46, 74-92 and 164-194: what paging by over-fetching and
    skipping yields. */
module Paging {
  import opened Results
  import opened Schema
  import opened Statement
  import opened Query

  /** Rows offset up to offset + limit, as far as there are any. */
  function Page<T>(rows: seq<T>, offset: nat, limit: nat): seq<T> {
    Take(Skip(rows, offset), limit)
  }

  lemma OverfetchAndSkipIsPage<T>(rows: seq<T>, offset: nat, limit: nat)
    ensures Skip(Take(rows, limit + offset), offset) == Page(rows, offset, limit)
    ensures |Page(rows, offset, limit)| <= limit
    ensures forall i :: 0 <= i < |Page(rows, offset, limit)| ==>
              offset + i < |rows| && Page(rows, offset, limit)[i] == rows[offset + i]
  {
  }

  /** A page is as long as the limit, unless the rows end before. */
  lemma PageLength<T>(rows: seq<T>, offset: nat, limit: nat)
    ensures |Page(rows, offset, limit)| ==
            if offset >= |rows| then 0 else if |rows| - offset < limit then |rows| - offset else limit
  {
  }

  /** The table can be read to its end, whatever the filters select. */
  predicate Readable(e: Engine, table: string, opts: QueryOpts) {
    && e.table(table).Ok? && !e.table(table).value.failed
    && Scannable(Selected(e, e.table(table).value, opts.filters, OrderOf(opts)))
  }

  function Rows(e: Engine, table: string, opts: QueryOpts): (r: seq<map<string, Value>>)
    requires Readable(e, table, opts)
  {
    var all := Selected(e, e.table(table).value, opts.filters, OrderOf(opts));
    RowMaps(all.names, all.rows, opts.trim)
  }

  lemma FetchedIsSlice(e: Engine, table: string, opts: QueryOpts, n: nat)
    requires Readable(e, table, opts)
    ensures Fetched(e, table, opts, n) ==
            Ok(QueryResult(e.table(table).value.names, Skip(Take(Rows(e, table, opts), n), opts.offset)))
  {
    var all := Selected(e, e.table(table).value, opts.filters, OrderOf(opts));
    var rows := Take(all.rows, n);
    assert RowMaps(all.names, rows, opts.trim) == Take(Rows(e, table, opts), n);
    assert RowMaps(all.names, Skip(rows, opts.offset), opts.trim)
        == Skip(RowMaps(all.names, rows, opts.trim), opts.offset);
  }

  lemma WrapIsSum(x: int)
    ensures -MAX_INT - 1 <= x <= MAX_INT ==> Wrap(x) == x
    ensures MAX_INT < x <= 2 * MAX_INT + 1 ==> Wrap(x) < 0
  {
  }

  /** For an offset that is not negative, a query answers exactly its page if offset plus
      limit fits Go's int, and fails otherwise. The limit is the one asked for if that lies
      between one and the configured maximum, and the maximum otherwise. */
  lemma PageIsExactIffItFits(e: Engine, cols: Result<seq<ColumnMeta>>, table: string, opts: QueryOpts, maxRows: Int64)
    requires Checked(cols, opts).Ok? && Readable(e, table, opts) && opts.offset >= 0 && maxRows >= 0
    ensures var limit := if 1 <= opts.limit <= maxRows then opts.limit else maxRows;
            Expected(e, cols, table, opts, maxRows) ==
            if limit + opts.offset <= 0x7FFF_FFFF_FFFF_FFFF
            then Ok(QueryResult(e.table(table).value.names, Page(Rows(e, table, opts), opts.offset, limit)))
            else Err("query table")
  {
    var limit := Limit(opts, maxRows);
    LimitIs(opts, maxRows, limit);
    ExpectedIs(e, cols, table, opts, maxRows, limit);
    FetchedPage(e, table, opts, limit);
  }

  lemma ExpectedIs(e: Engine, cols: Result<seq<ColumnMeta>>, table: string, opts: QueryOpts, maxRows: Int64, limit: int)
    requires Checked(cols, opts).Ok? && limit == Limit(opts, maxRows)
    ensures Expected(e, cols, table, opts, maxRows) == Fetched(e, table, opts, Wrap(limit + opts.offset))
  {
  }

  lemma FetchedPage(e: Engine, table: string, opts: QueryOpts, limit: nat)
    requires Readable(e, table, opts) && opts.offset >= 0 && limit <= MAX_INT
    ensures Fetched(e, table, opts, Wrap(limit + opts.offset)) ==
            if limit + opts.offset <= MAX_INT
            then Ok(QueryResult(e.table(table).value.names, Page(Rows(e, table, opts), opts.offset, limit)))
            else Err("query table")
  {
    WrapIsSum(limit + opts.offset);
    if limit + opts.offset <= MAX_INT {
      FetchedIsSlice(e, table, opts, limit + opts.offset);
      OverfetchAndSkipIsPage(Rows(e, table, opts), opts.offset, limit);
    }
  }

  /** A negative offset skips nothing but shortens the result by as much, down to an error
      below zero. */
  lemma NegativeOffsetShortens(e: Engine, cols: Result<seq<ColumnMeta>>, table: string, opts: QueryOpts, maxRows: Int64)
    requires Checked(cols, opts).Ok? && Readable(e, table, opts) && opts.offset < 0 && maxRows >= 0
    ensures var n := (if 1 <= opts.limit <= maxRows then opts.limit else maxRows) + opts.offset;
            Expected(e, cols, table, opts, maxRows) ==
            if n >= 0 then Ok(QueryResult(e.table(table).value.names, Take(Rows(e, table, opts), n)))
            else Err("query table")
  {
    LimitIs(opts, maxRows, Limit(opts, maxRows));
    var n := Limit(opts, maxRows) + opts.offset;
    WrapIsSum(n);
    if n >= 0 { FetchedIsSlice(e, table, opts, n); }
  }

  /** No query returns more rows than the configured maximum, nor more than a limit in that
      range. */
  lemma NeverMoreThanMaxRows(e: Engine, cols: Result<seq<ColumnMeta>>, table: string, opts: QueryOpts, maxRows: Int64)
    requires maxRows >= 0 && Expected(e, cols, table, opts, maxRows).Ok?
    ensures |Expected(e, cols, table, opts, maxRows).value.rows| <= maxRows
    ensures 1 <= opts.limit <= maxRows ==> |Expected(e, cols, table, opts, maxRows).value.rows| <= opts.limit
  {
    LimitIs(opts, maxRows, Limit(opts, maxRows));
    AtMostLimit(e, table, opts, Limit(opts, maxRows));
  }

  lemma LimitIs(opts: QueryOpts, maxRows: Int64, limit: int)
    requires maxRows >= 0 && limit == Limit(opts, maxRows)
    ensures 0 <= limit <= maxRows && limit == if 1 <= opts.limit <= maxRows then opts.limit else maxRows
  {
  }

  lemma WrapNeverGrows(x: int)
    requires x >= -MAX_INT - 1
    ensures Wrap(x) <= x
  {
  }

  lemma SliceLength<T>(rows: seq<T>, n: int, skip: int, limit: nat)
    requires n <= limit + skip
    ensures |Skip(Take(rows, n), skip)| <= limit
  {
  }

  lemma AtMostLimit(e: Engine, table: string, opts: QueryOpts, limit: Int64)
    requires 0 <= limit && Fetched(e, table, opts, Wrap(limit + opts.offset)).Ok?
    ensures |Fetched(e, table, opts, Wrap(limit + opts.offset)).value.rows| <= limit
  {
    var n := Wrap(limit + opts.offset);
    var all := Selected(e, e.table(table).value, opts.filters, OrderOf(opts));
    WrapNeverGrows(limit + opts.offset);
    SliceLength(all.rows, n, opts.offset, limit);
    ScannedLength(all.(rows := Take(all.rows, n)), opts.offset, opts.trim);
  }

  lemma ScannedLength(c: Cursor, skipN: int, trim: bool)
    requires Scanned(c, skipN, trim).Ok?
    ensures |Scanned(c, skipN, trim).value.rows| == |Skip(c.rows, skipN)|
  {
  }

  /** Where page i starts: 0, limit, 2 * limit and so on. */
  function Start(i: nat, limit: nat): nat {
    if i == 0 then 0 else Start(i - 1, limit) + limit
  }

  /** The rows a query answers when asked from offset from. */
  function PageRows(e: Engine, cols: Result<seq<ColumnMeta>>, table: string, opts: QueryOpts, maxRows: Int64,
                    from: nat): seq<map<string, Value>>
    requires from <= MAX_INT
  {
    match Expected(e, cols, table, opts.(offset := from), maxRows)
    case Ok(r) => r.rows
    case Err(_) => []
  }

  /** The answers for the first k pages of this length, one after the other. */
  function Pages(e: Engine, cols: Result<seq<ColumnMeta>>, table: string, opts: QueryOpts, maxRows: Int64,
                 limit: nat, k: nat): seq<map<string, Value>>
    requires Start(k, limit) <= MAX_INT
  {
    if k == 0 then []
    else
      Pages(e, cols, table, opts, maxRows, limit, k - 1)
      + PageRows(e, cols, table, opts, maxRows, Start(k - 1, limit))
  }

  lemma PageAppends<T>(rows: seq<T>, from: nat, limit: nat)
    ensures Take(rows, from) + Page(rows, from, limit) == Take(rows, from + limit)
  {
  }

  lemma PageRowsArePage(e: Engine, cols: Result<seq<ColumnMeta>>, table: string, opts: QueryOpts, maxRows: Int64,
                        from: nat, limit: nat)
    requires Checked(cols, opts).Ok? && Readable(e, table, opts) && maxRows >= 0
    requires limit == Limit(opts, maxRows) && from + limit <= MAX_INT
    ensures PageRows(e, cols, table, opts, maxRows, from) == Page(Rows(e, table, opts), from, limit)
  {
    var page := opts.(offset := from);
    PageIsExactIffItFits(e, cols, table, page, maxRows);
    assert Rows(e, table, page) == Rows(e, table, opts);
  }

  /** The pages at offsets 0, limit, 2 * limit and so on, one after the other, are the whole
      result in order: no row is lost and none comes twice. Again the limit is the one asked
      for, if that lies between one and the maximum. */
  lemma {:induction false} PagesPartitionTheResult(e: Engine, cols: Result<seq<ColumnMeta>>, table: string,
                                                   opts: QueryOpts, maxRows: Int64, limit: nat, k: nat)
    requires Checked(cols, opts).Ok? && Readable(e, table, opts) && maxRows >= 0
    requires limit == if 1 <= opts.limit <= maxRows then opts.limit else maxRows
    requires Start(k, limit) <= 0x7FFF_FFFF_FFFF_FFFF
    ensures Pages(e, cols, table, opts, maxRows, limit, k) == Take(Rows(e, table, opts), Start(k, limit))
    ensures Start(k, limit) >= |Rows(e, table, opts)| ==>
              Pages(e, cols, table, opts, maxRows, limit, k) == Rows(e, table, opts)
  {
    if k == 0 {
    } else {
      var from := Start(k - 1, limit);
      PagesPartitionTheResult(e, cols, table, opts, maxRows, limit, k - 1);
      PageRowsArePage(e, cols, table, opts, maxRows, from, limit);
      PageAppends(Rows(e, table, opts), from, limit);
    }
  }

  // ---- what is read, and when ----

  /** A query is refused exactly if a filter or the sort names a column that the list lacks,
      or there is no list; filters are looked at first. */
  lemma RefusedIff(cols: Result<seq<ColumnMeta>>, opts: QueryOpts)
    ensures Checked(cols, opts) == Err("invalid filter") <==>
              exists c :: c in opts.filters
                && (cols.Err? || forall i :: 0 <= i < |cols.value| ==> cols.value[i].name != c)
    ensures Checked(cols, opts) == Err("invalid sort column") <==>
              && (forall c :: c in opts.filters ==>
                    cols.Ok? && exists i :: 0 <= i < |cols.value| && cols.value[i].name == c)
              && opts.sortBy != ""
              && (cols.Err? || forall i :: 0 <= i < |cols.value| ==> cols.value[i].name != opts.sortBy)
    ensures Checked(cols, opts).Ok? || Checked(cols, opts) in [Err("invalid filter"), Err("invalid sort column")]
  {
    if Checked(cols, opts) == Err("invalid filter") {
      var c :| c in opts.filters && !Known(cols, c);
      assert cols.Err? || forall i :: 0 <= i < |cols.value| ==> cols.value[i].name != c;
    }
  }

  /** The rows of a result are those of the table that meet the filters, as the database
      sorts them for the column and direction asked for. */
  lemma RowsAsked(e: Engine, table: string, opts: QueryOpts)
    requires Readable(e, table, opts)
    ensures var t := e.table(table).value;
            var kept := t.(rows := Keep(t.rows, row => Meets(e, t.names, row, opts.filters)));
            var order := if opts.sortBy == "" then None else Some(Order(opts.sortBy, opts.sortDesc));
            && Wide(t.names, e.sort(order, kept))
            && Rows(e, table, opts) == RowMaps(t.names, e.sort(order, kept), opts.trim)
  {
  }

  /** A fresh description is kept if a column is named and it succeeded; nothing else
      changes in the cache. */
  lemma CacheGrowsIff(cache: map<string, seq<ColumnMeta>>, describe: Describe, table: string, opts: QueryOpts)
    ensures (opts.filters != map[] || opts.sortBy != "") && table !in cache && describe(table).Ok? ==>
              CacheAfter(cache, describe, table, opts) == cache[table := describe(table).value]
    ensures (opts.filters == map[] && opts.sortBy == "") || table in cache || describe(table).Err? ==>
              CacheAfter(cache, describe, table, opts) == cache
  {
    if table in cache { assert cache[table := cache[table]] == cache; }
  }

  /** Scanning yields the rows after the skipped ones, each under its names, unless a row has
      another width than the header or reading fails. */
  lemma ScannedMeaning(c: Cursor, skipN: int, trim: bool)
    ensures Scanned(c, skipN, trim).Ok? <==> !c.failed && forall i :: 0 <= i < |c.rows| ==> |c.rows[i]| == |c.names|
    ensures Scanned(c, skipN, trim).Ok? ==>
              var r, skip := Scanned(c, skipN, trim).value, if skipN < 0 then 0 else skipN;
              && r.columns == c.names
              && |r.rows| == (if skip < |c.rows| then |c.rows| - skip else 0)
              && forall i :: 0 <= i < |r.rows| ==> r.rows[i] == RowMap(c.names, c.rows[i + skip], trim)
  {
  }

  // ---- one row ----

  lemma {:induction false} TrimBlanksMeaning(s: string)
    ensures TrimBlanks(s) <= s
    ensures forall i :: |TrimBlanks(s)| <= i < |s| ==> s[i] == ' '
    ensures TrimBlanks(s) != "" ==> TrimBlanks(s)[|TrimBlanks(s)| - 1] != ' '
  {
    if s == "" || s[|s| - 1] != ' ' {
    } else {
      TrimBlanksMeaning(s[..|s| - 1]);
    }
  }

  /** shown is the text up to the blanks at its end. */
  ghost predicate WithoutBlanks(text: string, shown: Value) {
    && shown.Str? && shown.text <= text
    && (forall i :: |shown.text| <= i < |text| ==> text[i] == ' ')
    && (shown.text != "" ==> shown.text[|shown.text| - 1] != ' ')
  }

  /** A row is shown under the names of the header; where a name repeats, its last column
      wins. A value is shown as it is, but for blanks at the end of a text if these are to
      be trimmed. */
  lemma {:induction false} RowMapMeaning(names: seq<string>, row: seq<Value>, trim: bool, i: nat)
    requires |row| == |names| && i < |names| && forall j :: i < j < |names| ==> names[j] != names[i]
    ensures names[i] in RowMap(names, row, trim)
    ensures !trim || row[i].Other? ==> RowMap(names, row, trim)[names[i]] == row[i]
    ensures trim && row[i].Str? ==> WithoutBlanks(row[i].text, RowMap(names, row, trim)[names[i]])
  {
    var n := |names| - 1;
    if i == n {
      if row[i].Str? { TrimBlanksMeaning(row[i].text); }
    } else {
      RowMapMeaning(names[..n], row[..n], trim, i);
      assert names[n] != names[i];
    }
  }

  lemma {:induction false} RowMapKeys(names: seq<string>, row: seq<Value>, trim: bool, c: string)
    requires |row| == |names| && c in RowMap(names, row, trim)
    ensures c in names
  {
    var n := |names| - 1;
    if c == names[n] {
    } else {
      RowMapKeys(names[..n], row[..n], trim, c);
      assert c in names[..n];
    }
  }
}
