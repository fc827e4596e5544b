/** internal/mdb/query.go, lines 11-118 and 151-195: filtered, paged queries over one table. */
module Query {
  import opened Results
  import opened Text
  import opened SqlText
  import opened Schema
  import opened Statement
  import RowCap
  import Verdict

  // ---- 64-bit integers ----

  const MAX_INT := 0x7FFF_FFFF_FFFF_FFFF
  const TWO_64 := 0x1_0000_0000_0000_0000

  type Int64 = x: int | -MAX_INT - 1 <= x <= MAX_INT

  /** `+` on Go's int. */
  function Wrap(x: int): Int64 {
    (x + MAX_INT + 1) % TWO_64 - MAX_INT - 1
  }

  // ---- rows ----

  /** A column value after NormalizeValue. */
  datatype Value = Str(text: string) | Other(token: int)

  /** What the driver delivers: rows one by one, and possibly an error at the end. */
  datatype Cursor = Cursor(names: seq<string>, rows: seq<seq<Value>>, failed: bool)

  datatype QueryResult = QueryResult(columns: seq<string>, rows: seq<map<string, Value>>)

  /** `strings.TrimRight(s, " ")`. */
  function TrimBlanks(s: string): string {
    if s != "" && s[|s| - 1] == ' ' then TrimBlanks(s[..|s| - 1]) else s
  }

  function Shown(v: Value, trim: bool): Value {
    if trim && v.Str? then Str(TrimBlanks(v.text)) else v
  }

  /** Of two columns with one name, the later one is kept. */
  function RowMap(names: seq<string>, row: seq<Value>, trim: bool): map<string, Value>
    requires |row| == |names|
  {
    if names == [] then map[]
    else
      var n := |names| - 1;
      RowMap(names[..n], row[..n], trim)[names[n] := Shown(row[n], trim)]
  }

  /** Scan refuses a row whose width is not that of the header. */
  predicate Scannable(c: Cursor) {
    Wide(c.names, c.rows)
  }

  predicate Wide(names: seq<string>, rows: seq<seq<Value>>) {
    forall i :: 0 <= i < |rows| ==> |rows[i]| == |names|
  }

  function RowMaps(names: seq<string>, rows: seq<seq<Value>>, trim: bool): (r: seq<map<string, Value>>)
    requires Wide(names, rows)
    ensures |r| == |rows| && forall i :: 0 <= i < |rows| ==> r[i] == RowMap(names, rows[i], trim)
  {
    seq(|rows|, i requires 0 <= i < |rows| => RowMap(names, rows[i], trim))
  }

  function Skip<T>(rows: seq<T>, n: int): seq<T> {
    if n <= 0 then rows else if n >= |rows| then [] else rows[n..]
  }

  function Take<T>(rows: seq<T>, n: int): seq<T> {
    if n <= 0 then [] else if n >= |rows| then rows else rows[..n]
  }

  function Scanned(c: Cursor, skipN: int, trim: bool): Result<QueryResult> {
    if !Scannable(c) then Err("scan row")
    else if c.failed then Err("rows")
    else Ok(QueryResult(c.names, RowMaps(c.names, Skip(c.rows, skipN), trim)))
  }

  /** The loop over the columns of one row. */
  method ScanRow(names: seq<string>, row: seq<Value>, trim: bool) returns (rowMap: map<string, Value>)
    requires |row| == |names|
    ensures rowMap == RowMap(names, row, trim)
  {
    rowMap := map[];
    for i := 0 to |row|
      invariant rowMap == RowMap(names[..i], row[..i], trim)
    {
      assert names[..i + 1][..i] == names[..i] && row[..i + 1][..i] == row[..i];
      var v := row[i];
      if trim && v.Str? {
        v := Str(TrimBlanks(v.text));
      }
      rowMap := rowMap[names[i] := v];
    }
    assert names[..|row|] == names && row[..|row|] == row;
  }

  /** What the loop collects from the rows so far. */
  function Collected(names: seq<string>, rows: seq<seq<Value>>, skipN: int, trim: bool): seq<map<string, Value>>
    requires Wide(names, rows)
  {
    if rows == [] then []
    else
      var n := |rows| - 1;
      Collected(names, rows[..n], skipN, trim) + if n + 1 <= skipN then [] else [RowMap(names, rows[n], trim)]
  }

  lemma SkipSnoc(rows: seq<seq<Value>>, row: seq<Value>, n: int)
    ensures Skip(rows + [row], n) == if |rows| + 1 <= n then [] else Skip(rows, n) + [row]
    ensures |rows| + 1 <= n ==> Skip(rows, n) == []
  {
  }

  lemma RowMapsSnoc(names: seq<string>, rows: seq<seq<Value>>, row: seq<Value>, trim: bool)
    requires |row| == |names| && Wide(names, rows)
    ensures Wide(names, rows + [row])
    ensures RowMaps(names, rows + [row], trim) == RowMaps(names, rows, trim) + [RowMap(names, row, trim)]
  {
  }

  lemma {:induction false} CollectedIsRest(names: seq<string>, rows: seq<seq<Value>>, skipN: int, trim: bool)
    requires Wide(names, rows)
    ensures Wide(names, Skip(rows, skipN))
    ensures Collected(names, rows, skipN, trim) == RowMaps(names, Skip(rows, skipN), trim)
  {
    if rows == [] {
    } else {
      var before, row := rows[..|rows| - 1], rows[|rows| - 1];
      CollectedIsRest(names, before, skipN, trim);
      SkipSnoc(before, row, skipN);
      assert before + [row] == rows;
      CollectStep(names, rows, Skip(before, skipN), Skip(rows, skipN), row, skipN, trim);
    }
  }

  lemma CollectStep(names: seq<string>, rows: seq<seq<Value>>, kept: seq<seq<Value>>, all: seq<seq<Value>>,
                    row: seq<Value>, skipN: int, trim: bool)
    requires rows != [] && Wide(names, rows) && row == rows[|rows| - 1] && Wide(names, kept)
    requires Collected(names, rows[..|rows| - 1], skipN, trim) == RowMaps(names, kept, trim)
    requires if |rows| <= skipN then all == [] && kept == [] else all == kept + [row]
    ensures Wide(names, all) && Collected(names, rows, skipN, trim) == RowMaps(names, all, trim)
  {
    if |rows| > skipN {
      RowMapsSnoc(names, kept, row, trim);
    }
  }

  /** The loop over the rows, counting those to skip. */
  method ScanRows(c: Cursor, skipN: int, trim: bool) returns (r: Result<QueryResult>)
    ensures r == Scanned(c, skipN, trim)
  {
    var out: seq<map<string, Value>> := [];
    var rowIdx := 0;
    while rowIdx < |c.rows|
      invariant 0 <= rowIdx <= |c.rows|
      invariant Wide(c.names, c.rows[..rowIdx])
      invariant out == Collected(c.names, c.rows[..rowIdx], skipN, trim)
    {
      var row := c.rows[rowIdx];
      if |row| != |c.names| {
        return Err("scan row");
      }
      assert c.rows[..rowIdx + 1][..rowIdx] == c.rows[..rowIdx];
      rowIdx := rowIdx + 1;
      if rowIdx <= skipN {
        continue;
      }
      var rowMap := ScanRow(c.names, row, trim);
      out := out + [rowMap];
    }
    assert c.rows[..rowIdx] == c.rows;
    CollectedIsRest(c.names, c.rows, skipN, trim);
    if c.failed {
      return Err("rows");
    }
    return Ok(QueryResult(c.names, out));
  }

  // ---- the database ----

  /** One database as the driver shows it at one moment: its schema, its tables, when a
      value equals a bound argument, and how it orders rows. */
  datatype Engine = Engine(
    describe: Describe,
    table: string -> Result<Cursor>,
    same: (Value, string) -> bool,
    sort: (Option<Order>, Cursor) -> seq<seq<Value>>)

  function Position(names: seq<string>, name: string): nat {
    if names == [] || names[0] == name then 0 else 1 + Position(names[1..], name)
  }

  predicate Equals(e: Engine, names: seq<string>, row: seq<Value>, column: string, arg: string) {
    var i := Position(names, column);
    i < |row| && e.same(row[i], arg)
  }

  /** The conjunction a condition list denotes: each argument belongs to its own clause. */
  predicate Holds(e: Engine, names: seq<string>, row: seq<Value>, columns: seq<string>, args: seq<string>)
    requires |columns| == |args|
  {
    forall i :: 0 <= i < |columns| ==> Equals(e, names, row, columns[i], args[i])
  }

  /** The conjunction a filter map denotes. */
  predicate Meets(e: Engine, names: seq<string>, row: seq<Value>, filters: map<string, string>) {
    forall c :: c in filters ==> Equals(e, names, row, c, filters[c])
  }

  function Keep<T>(rows: seq<T>, p: T -> bool): seq<T> {
    if rows == [] then []
    else (if p(rows[0]) then [rows[0]] else []) + Keep(rows[1..], p)
  }

  /** Exactly the rows with the property are kept, each as often as it was there. */
  lemma {:induction false} KeepMeaning(rows: seq<seq<Value>>, p: seq<Value> -> bool, row: seq<Value>)
    ensures multiset(Keep(rows, p))[row] == if p(row) then multiset(rows)[row] else 0
  {
    if rows == [] {
    } else {
      KeepMeaning(rows[1..], p, row);
      assert rows == [rows[0]] + rows[1..];
    }
  }

  /** A condition looks at the first column of its name. */
  lemma {:induction false} PositionMeaning(names: seq<string>, name: string, i: nat)
    requires i <= |names| && (i < |names| ==> names[i] == name) && forall j :: 0 <= j < i ==> names[j] != name
    ensures Position(names, name) == i
  {
    if i == 0 {
    } else {
      assert names[0] != name;
      PositionMeaning(names[1..], name, i - 1);
    }
  }

  function Run(e: Engine, text: string, args: seq<string>): Result<Cursor> {
    var s :- Read(text);
    RunStatement(e, s, args)
  }

  /** What a statement selects, given the arguments for its conditions. */
  function RunStatement(e: Engine, s: Statement, args: seq<string>): Result<Cursor> {
    var t :- e.table(s.table);
    if |args| != |s.columns| then Err("parameters")
    else
      var kept := t.(rows := Keep(t.rows, row => Holds(e, t.names, row, s.columns, args)));
      Ok(t.(rows := Take(e.sort(s.order, kept), s.top)))
  }

  // ---- QueryTable ----

  datatype QueryOpts = QueryOpts(
    filters: map<string, string>,
    limit: Int64,
    offset: Int64,
    sortBy: string,
    sortDesc: bool,
    trim: bool)

  function Limit(opts: QueryOpts, maxRows: Int64): Int64 {
    if opts.limit <= 0 || opts.limit > maxRows then maxRows else opts.limit
  }

  function OrderOf(opts: QueryOpts): Option<Order> {
    if opts.sortBy == "" then None else Some(Order(opts.sortBy, opts.sortDesc))
  }

  /** All rows that meet the filters, in the order asked for. */
  function Selected(e: Engine, t: Cursor, filters: map<string, string>, order: Option<Order>): Cursor {
    var kept := t.(rows := Keep(t.rows, row => Meets(e, t.names, row, filters)));
    t.(rows := e.sort(order, kept))
  }

  predicate Known(cols: Result<seq<ColumnMeta>>, name: string) {
    cols.Ok? && HasColumn(cols.value, name)
  }

  /** What the database answers for the first n selected rows, scanned. */
  function Fetched(e: Engine, table: string, opts: QueryOpts, n: int): Result<QueryResult> {
    if n < 0 || e.table(table).Err? then Err("query table")
    else
      var all := Selected(e, e.table(table).value, opts.filters, OrderOf(opts));
      Scanned(all.(rows := Take(all.rows, n)), opts.offset, opts.trim)
  }

  predicate AllKnown(cols: Result<seq<ColumnMeta>>, filters: map<string, string>) {
    forall c :: c in filters ==> Known(cols, c)
  }

  /** The identifiers of a query are checked against the column list. */
  function Checked(cols: Result<seq<ColumnMeta>>, opts: QueryOpts): Result<()> {
    if !AllKnown(cols, opts.filters) then Err("invalid filter")
    else if opts.sortBy != "" && !Known(cols, opts.sortBy) then Err("invalid sort column")
    else Ok(())
  }

  /** What a query answers, given the column list: a function of the filters as a map, so
      of no order among them. */
  function Expected(e: Engine, cols: Result<seq<ColumnMeta>>, table: string, opts: QueryOpts,
                    maxRows: Int64): Result<QueryResult>
  {
    if Checked(cols, opts).Err? then Err(Checked(cols, opts).error)
    else Fetched(e, table, opts, Wrap(Limit(opts, maxRows) + opts.offset))
  }

  /** A query looks columns up only if it names one. */
  function CacheAfter(cache: map<string, seq<ColumnMeta>>, describe: Describe, table: string,
                      opts: QueryOpts): map<string, seq<ColumnMeta>>
  {
    if opts.filters == map[] && opts.sortBy == "" then cache else Remember(cache, describe, table)
  }

  /** columns and args list the filters, each once, in some order. */
  ghost predicate Lists(filters: map<string, string>, columns: seq<string>, args: seq<string>) {
    && |columns| == |args| == |filters|
    && (forall c :: c in filters <==> c in columns)
    && (forall i :: 0 <= i < |columns| ==> columns[i] in filters && args[i] == filters[columns[i]])
  }

  /** Whatever the order, the listed conditions are the conjunction of the filters. */
  lemma AnyOrderMeansTheFilters(e: Engine, names: seq<string>, row: seq<Value>,
                                filters: map<string, string>, columns: seq<string>, args: seq<string>)
    requires Lists(filters, columns, args)
    ensures Holds(e, names, row, columns, args) <==> Meets(e, names, row, filters)
  {
    if Holds(e, names, row, columns, args) {
      forall c | c in filters ensures Equals(e, names, row, c, filters[c]) {
        var i :| 0 <= i < |columns| && columns[i] == c;
      }
    }
  }

  lemma {:induction false} KeepAgrees<T>(rows: seq<T>, p: T -> bool, q: T -> bool)
    requires forall i :: 0 <= i < |rows| ==> p(rows[i]) == q(rows[i])
    ensures Keep(rows, p) == Keep(rows, q)
  {
    if rows == [] {
    } else {
      KeepAgrees(rows[1..], p, q);
    }
  }

  /** A statement with the filters listed in any order selects the rows they mean. */
  lemma StatementSelects(e: Engine, s: Statement, args: seq<string>, filters: map<string, string>)
    requires Lists(filters, s.columns, args)
    ensures RunStatement(e, s, args) ==
            if e.table(s.table).Err? then Err(e.table(s.table).error)
            else
              var all := Selected(e, e.table(s.table).value, filters, s.order);
              Ok(all.(rows := Take(all.rows, s.top)))
  {
    if e.table(s.table).Ok? {
      var t := e.table(s.table).value;
      forall i | 0 <= i < |t.rows|
        ensures Holds(e, t.names, t.rows[i], s.columns, args) == Meets(e, t.names, t.rows[i], filters)
      {
        AnyOrderMeansTheFilters(e, t.names, t.rows[i], filters, s.columns, args);
      }
      KeepAgrees(t.rows, row => Holds(e, t.names, row, s.columns, args), row => Meets(e, t.names, row, filters));
    }
  }

  /** Adding one clause to a list of the filters seen so far. */
  lemma OneMore(filters: map<string, string>, rest: set<string>, columns: seq<string>, args: seq<string>, col: string)
    requires Seen(filters, rest, columns, args) && col in rest
    ensures Seen(filters, rest - {col}, columns + [col], args + [filters[col]])
    ensures Clauses(columns + [col]) == Clauses(columns) + [Clause(col)]
  {
  }

  /** columns and args list the filters outside rest. */
  ghost predicate Seen(filters: map<string, string>, rest: set<string>, columns: seq<string>, args: seq<string>) {
    && rest <= filters.Keys
    && |columns| == |args| && |columns| + |rest| == |filters.Keys|
    && (forall c :: c in filters <==> c in rest || c in columns)
    && (forall i :: 0 <= i < |columns| ==> columns[i] in filters && args[i] == filters[columns[i]])
  }

  /** The loop over the filter map, in whatever order it is iterated. */
  method BuildWhere(describe: Describe, cache: ColumnCache, table: string, filters: map<string, string>,
                    ghost cols: Result<seq<ColumnMeta>>)
    returns (r: Result<()>, clauses: seq<string>, args: seq<string>, ghost columns: seq<string>)
    requires cols == Answer(cache.cache, describe, table)
    modifies cache
    ensures cache.cache == if filters == map[] then old(cache.cache) else Remember(old(cache.cache), describe, table)
    ensures r.Ok? <==> AllKnown(cols, filters)
    ensures r.Ok? ==> Lists(filters, columns, args) && clauses == Clauses(columns)
    ensures r.Ok? ==> Answer(cache.cache, describe, table) == cols
  {
    ghost var before, after_ := cache.cache, Remember(cache.cache, describe, table);
    LookupStays(before, describe, table);
    clauses, args, columns := [], [], [];
    var rest := filters.Keys;
    while rest != {}
      invariant Seen(filters, rest, columns, args) && clauses == Clauses(columns)
      invariant forall i :: 0 <= i < |columns| ==> Known(cols, columns[i])
      invariant Answer(cache.cache, describe, table) == cols
      invariant columns != [] ==> cols.Ok?
      invariant cache.cache == if columns == [] then before else after_
      decreases |rest|
    {
      var col :| col in rest;
      r := cache.ValidateColumn(describe, table, col);
      if r.Err? {
        assert !Known(cols, col);
        return;
      }
      OneMore(filters, rest, columns, args, col);
      clauses := clauses + ["[" + col + "] = ?"];
      args := args + [filters[col]];
      columns := columns + [col];
      rest := rest - {col};
    }
    r := Ok(());
  }

  /** Looking up again changes neither the answer nor the cache. */
  lemma LookupStays(cache: map<string, seq<ColumnMeta>>, describe: Describe, table: string)
    ensures Answer(Remember(cache, describe, table), describe, table) == Answer(cache, describe, table)
    ensures Remember(Remember(cache, describe, table), describe, table) == Remember(cache, describe, table)
  {
  }

  /** What becomes of the database's answer to the statement sent. */
  function Answered(c: Result<Cursor>, opts: QueryOpts): Result<QueryResult> {
    if c.Err? then Err("query table") else Scanned(c.value, opts.offset, opts.trim)
  }

  /** The statement meant, with the filters listed in this order. */
  function QueryOf(table: string, opts: QueryOpts, maxRows: Int64, columns: seq<string>): Statement {
    Statement(Wrap(Limit(opts, maxRows) + opts.offset), table, columns, OrderOf(opts))
  }

  /** r is the answer to a statement with the filters listed in this order. */
  ghost predicate AnswersListed(e: Engine, opts: QueryOpts, s: Statement, args: seq<string>, r: Result<QueryResult>) {
    Lists(opts.filters, s.columns, args) && r == Answered(Run(e, Render(s), args), opts)
  }

  /** r is what a query may answer: a refusal, or the answer to the statement with the
      filters listed in some order. */
  ghost predicate MayAnswer(e: Engine, cols: Result<seq<ColumnMeta>>, table: string, opts: QueryOpts, maxRows: Int64,
                            r: Result<QueryResult>)
  {
    if Checked(cols, opts).Err? then r == Err(Checked(cols, opts).error)
    else exists columns, args :: AnswersListed(e, opts, QueryOf(table, opts, maxRows, columns), args, r)
  }

  /** The second half of QueryTable: the statement is written, run and scanned. */
  method Fetch(e: Engine, opts: QueryOpts, table: string, fetchN: Int64, clauses: seq<string>, args: seq<string>,
               orderClause: string, ghost s: Statement)
    returns (r: Result<QueryResult>)
    requires Lists(opts.filters, s.columns, args) && clauses == Clauses(s.columns)
    requires orderClause == OrderText(s.order) && fetchN == s.top && table == s.table
    ensures AnswersListed(e, opts, s, args, r)
  {
    var query := Write(table, fetchN, clauses, orderClause, s);
    r := RunAndScan(e, query, args, opts);
  }

  method Write(table: string, fetchN: Int64, clauses: seq<string>, orderClause: string, ghost s: Statement)
    returns (query: string)
    requires clauses == Clauses(s.columns) && orderClause == OrderText(s.order) && fetchN == s.top && table == s.table
    ensures query == Render(s)
  {
    query := "SELECT TOP " + RowCap.Itoa(fetchN) + " * FROM [" + table + "]";
    if |clauses| > 0 {
      query := query + (" WHERE " + JoinAnd(clauses));
    }
    query := query + orderClause;
  }

  method RunAndScan(e: Engine, query: string, args: seq<string>, opts: QueryOpts) returns (r: Result<QueryResult>)
    ensures r == Answered(Run(e, query, args), opts)
  {
    var cursor := Run(e, query, args);
    if cursor.Err? {
      return Err("query table");
    }
    r := ScanRows(cursor.value, opts.offset, opts.trim);
  }

  method BuildOrder(describe: Describe, cache: ColumnCache, table: string, opts: QueryOpts,
                    ghost cols: Result<seq<ColumnMeta>>)
    returns (r: Result<string>)
    requires cols == Answer(cache.cache, describe, table)
    modifies cache
    ensures cache.cache == if opts.sortBy == "" then old(cache.cache) else Remember(old(cache.cache), describe, table)
    ensures r.Ok? <==> opts.sortBy == "" || Known(cols, opts.sortBy)
    ensures r.Ok? ==> r.value == OrderText(OrderOf(opts))
    ensures r.Ok? ==> r.value == if opts.sortBy == "" then ""
                                 else " ORDER BY [" + opts.sortBy + "]" + (if opts.sortDesc then " DESC" else " ASC")
  {
    if opts.sortBy == "" {
      return Ok("");
    }
    var known := cache.ValidateColumn(describe, table, opts.sortBy);
    if known.Err? {
      return Err("invalid sort column");
    }
    var dir := if opts.sortDesc then "DESC" else "ASC";
    return Ok(" ORDER BY [" + opts.sortBy + "] " + dir);
  }

  /** The first half of QueryTable: both clauses are built, or an identifier is refused. */
  method Prepare(describe: Describe, cache: ColumnCache, table: string, opts: QueryOpts,
                 ghost cols: Result<seq<ColumnMeta>>)
    returns (r: Result<string>, clauses: seq<string>, args: seq<string>, ghost columns: seq<string>)
    requires cols == Answer(cache.cache, describe, table)
    modifies cache
    ensures cache.cache == CacheAfter(old(cache.cache), describe, table, opts)
    ensures if Checked(cols, opts).Err? then r == Err(Checked(cols, opts).error) else r == Ok(OrderText(OrderOf(opts)))
    ensures r.Ok? ==> Lists(opts.filters, columns, args) && clauses == Clauses(columns)
  {
    LookupStays(cache.cache, describe, table);
    var built;
    built, clauses, args, columns := BuildWhere(describe, cache, table, opts.filters, cols);
    if built.Err? {
      r := Err("invalid filter");
      return;
    }
    r := BuildOrder(describe, cache, table, opts, cols);
    if r.Err? {
      r := Err("invalid sort column");
    }
  }

  lemma RefusedMayAnswer(e: Engine, cols: Result<seq<ColumnMeta>>, table: string, opts: QueryOpts, maxRows: Int64,
                         r: Result<QueryResult>)
    requires Checked(cols, opts).Err? && r == Err(Checked(cols, opts).error)
    ensures MayAnswer(e, cols, table, opts, maxRows, r)
  {
  }

  lemma ListedMayAnswer(e: Engine, cols: Result<seq<ColumnMeta>>, table: string, opts: QueryOpts, maxRows: Int64,
                        r: Result<QueryResult>,
                        columns: seq<string>, args: seq<string>)
    requires Checked(cols, opts).Ok? && AnswersListed(e, opts, QueryOf(table, opts, maxRows, columns), args, r)
    ensures MayAnswer(e, cols, table, opts, maxRows, r)
  {
  }

  method QueryTable(e: Engine, cache: ColumnCache, table: string, opts: QueryOpts, maxRows: Int64)
    returns (r: Result<QueryResult>)
    modifies cache
    ensures MayAnswer(e, Answer(old(cache.cache), e.describe, table), table, opts, maxRows, r)
    ensures cache.cache == CacheAfter(old(cache.cache), e.describe, table, opts)
  {
    var limit := opts.limit;
    if limit <= 0 || limit > maxRows {
      limit := maxRows;
    }
    ghost var cols := Answer(cache.cache, e.describe, table);
    var order, clauses, args, columns := Prepare(e.describe, cache, table, opts, cols);
    if order.Err? {
      r := Err(order.error);
      RefusedMayAnswer(e, cols, table, opts, maxRows, r);
      return;
    }
    ghost var s := QueryOf(table, opts, maxRows, columns);
    r := Fetch(e, opts, table, Wrap(limit + opts.offset), clauses, args, order.value, s);
    ListedMayAnswer(e, cols, table, opts, maxRows, r, columns, args);
  }

  // ---- one answer for every order of the filters ----

  predicate PlainColumns(cols: Result<seq<ColumnMeta>>) {
    cols.Ok? ==> forall i :: 0 <= i < |cols.value| ==> Plain(cols.value[i].name)
  }

  lemma CheckedIsPlain(cols: Result<seq<ColumnMeta>>, opts: QueryOpts, s: Statement, args: seq<string>)
    requires PlainColumns(cols) && Plain(s.table) && Checked(cols, opts).Ok?
    requires s.order == OrderOf(opts) && Lists(opts.filters, s.columns, args)
    ensures PlainNames(s)
  {
    forall i | 0 <= i < |s.columns| ensures Plain(s.columns[i]) {
      assert Known(cols, s.columns[i]);
    }
  }

  lemma ListedAnswer(e: Engine, s: Statement, opts: QueryOpts, args: seq<string>, r: Result<QueryResult>)
    requires s.order == OrderOf(opts) && PlainNames(s) && AnswersListed(e, opts, s, args, r)
    ensures r == Fetched(e, s.table, opts, s.top)
  {
    RenderReadsBack(s);
    StatementSelects(e, s, args, opts.filters);
  }

  /** With a plain table name there is one possible answer: it does not depend on the order
      in which the filters are listed. */
  lemma AnswerIsExpected(e: Engine, cols: Result<seq<ColumnMeta>>, table: string, opts: QueryOpts, maxRows: Int64,
                         r: Result<QueryResult>)
    requires PlainColumns(cols) && Plain(table) && MayAnswer(e, cols, table, opts, maxRows, r)
    ensures r == Expected(e, cols, table, opts, maxRows)
  {
    if Checked(cols, opts).Ok? {
      var columns, args :| AnswersListed(e, opts, QueryOf(table, opts, maxRows, columns), args, r);
      var s := QueryOf(table, opts, maxRows, columns);
      CheckedIsPlain(cols, opts, s, args);
      ListedAnswer(e, s, opts, args, r);
    }
  }

  /** A database that holds one table, without columns and rows. */
  function OneTable(table: string): Engine {
    Engine(_ => Ok([]),
           t => if t == table then Ok(Cursor([], [], false)) else Err("no table"),
           (_, _) => true,
           (o: Option<Order>, c: Cursor) => c.rows)
  }

  const PLAIN_QUERY := QueryOpts(map[], 1, 0, "", false, false)

  /** The text written for a name that is not plain does not reach that table. */
  lemma OtherTableIsRun(s: Statement, args: seq<string>)
    requires !Plain(s.table)
    ensures Run(OneTable(s.table), Render(s), args).Err?
  {
    ReadIsPlain(Render(s));
  }

  /** Asked for a table whose name is not plain, the code may answer with an error. */
  lemma OtherTableIsAsked(table: string)
    requires !Plain(table)
    ensures MayAnswer(OneTable(table), Ok([]), table, PLAIN_QUERY, 1, Err("query table"))
  {
    var s := QueryOf(table, PLAIN_QUERY, 1, []);
    OtherTableIsRun(s, []);
    ListedMayAnswer(OneTable(table), Ok([]), table, PLAIN_QUERY, 1, Err("query table"), [], []);
  }

  /** Although the database has the table, and would have answered. */
  lemma TableIsExpected(table: string)
    ensures Expected(OneTable(table), Ok([]), table, PLAIN_QUERY, 1).Ok?
  {
    var e := OneTable(table);
    assert Selected(e, Cursor([], [], false), map[], None).rows == [];
  }

  /** The table text comes from the request unchecked. Every query on it, over any database
      whose column names are plain, answers what was asked if and only if the text holds
      no closing bracket. */
  lemma AnswerIsExpectedIffTablePlain(table: string)
    ensures (forall e, cols, opts, maxRows, r :: PlainColumns(cols) && MayAnswer(e, cols, table, opts, maxRows, r)
               ==> r == Expected(e, cols, table, opts, maxRows))
            <==> Plain(table)
  {
    if Plain(table) {
      forall e, cols, opts, maxRows, r | PlainColumns(cols) && MayAnswer(e, cols, table, opts, maxRows, r)
        ensures r == Expected(e, cols, table, opts, maxRows)
      {
        AnswerIsExpected(e, cols, table, opts, maxRows, r);
      }
    } else {
      OtherTableIsAsked(table);
      TableIsExpected(table);
      assert PlainColumns(Ok([]));
    }
  }

  // ---- when the text means the statement ----

  /** A one-row database in which only the condition with argument "1" can fail, and only
      for another column than the given one; rows come out only in the given order. */
  function Telling(table: string, column: string, order: Option<Order>, rows: nat): Engine {
    var row := [Str("yes"), Str("no")];
    Engine(_ => Ok([]),
           t => if t == table then Ok(Cursor([column], seq(rows, _ => row), false)) else Err("no table"),
           (v, arg) => arg != "1" || v == Str("yes"),
           (o: Option<Order>, c: Cursor) => if o == order then c.rows else [])
  }

  function Marked(n: nat, i: nat): (r: seq<string>)
    ensures |r| == n && forall j :: 0 <= j < n ==> r[j] == if j == i then "1" else "0"
  {
    seq(n, j => if j == i then "1" else "0")
  }

  lemma {:induction false} KeepAll<T>(rows: seq<T>, p: T -> bool)
    requires forall i :: 0 <= i < |rows| ==> p(rows[i])
    ensures Keep(rows, p) == rows
  {
    if rows == [] {
    } else {
      KeepAll(rows[1..], p);
      assert rows == [rows[0]] + rows[1..];
    }
  }

  lemma {:induction false} KeepNone<T>(rows: seq<T>, p: T -> bool)
    requires forall i :: 0 <= i < |rows| ==> !p(rows[i])
    ensures Keep(rows, p) == []
  {
    if rows == [] {
    } else {
      KeepNone(rows[1..], p);
    }
  }

  lemma PositionInOne(column: string, name: string)
    ensures Position([column], name) == if column == name then 0 else 1
  {
    assert [column][1..] == [];
  }

  lemma TellingHolds(s: Statement, column: string, i: nat, rows: nat, k: nat)
    requires k < rows && (i < |s.columns| ==> column == s.columns[i])
    ensures var e, args := Telling(s.table, column, s.order, rows), Marked(|s.columns|, i);
            Holds(e, [column], e.table(s.table).value.rows[k], s.columns, args)
  {
    forall j | 0 <= j < |s.columns|
      ensures Position([column], s.columns[j]) <= 1 && (j == i ==> Position([column], s.columns[j]) == 0)
    {
      PositionInOne(column, s.columns[j]);
    }
  }

  lemma TellingFails(s: Statement, t: Statement, i: nat, rows: nat, k: nat)
    requires k < rows && i < |s.columns| == |t.columns| && s.columns[i] != t.columns[i]
    ensures var e, args := Telling(s.table, s.columns[i], s.order, rows), Marked(|s.columns|, i);
            !Holds(e, [s.columns[i]], e.table(s.table).value.rows[k], t.columns, args)
  {
    var e, args := Telling(s.table, s.columns[i], s.order, rows), Marked(|s.columns|, i);
    PositionInOne(s.columns[i], t.columns[i]);
    assert !Equals(e, [s.columns[i]], e.table(s.table).value.rows[k], t.columns[i], args[i]);
  }

  lemma TellingAnswers(s: Statement, column: string, i: nat, rows: nat, c: Cursor)
    requires (i < |s.columns| ==> column == s.columns[i])
    requires Telling(s.table, column, s.order, rows).table(s.table) == Ok(c)
    ensures RunStatement(Telling(s.table, column, s.order, rows), s, Marked(|s.columns|, i))
         == Ok(c.(rows := Take(c.rows, s.top)))
    ensures |c.rows| == rows
  {
    var e, args := Telling(s.table, column, s.order, rows), Marked(|s.columns|, i);
    forall k | 0 <= k < rows ensures Holds(e, c.names, c.rows[k], s.columns, args) {
      TellingHolds(s, column, i, rows, k);
    }
    KeepAll(c.rows, row => Holds(e, c.names, row, s.columns, args));
  }

  /** Statements with other columns get no row. */
  lemma TellingRefuses(s: Statement, t: Statement, i: nat, rows: nat, c: Cursor)
    requires i < |s.columns| == |t.columns| && s.columns[i] != t.columns[i] && t.table == s.table
    requires Telling(s.table, s.columns[i], s.order, rows).table(s.table) == Ok(c)
    ensures RunStatement(Telling(s.table, s.columns[i], s.order, rows), t, Marked(|s.columns|, i)) == Ok(c.(rows := []))
  {
    var e, args := Telling(s.table, s.columns[i], s.order, rows), Marked(|s.columns|, i);
    forall k | 0 <= k < rows ensures !Holds(e, c.names, c.rows[k], t.columns, args) {
      TellingFails(s, t, i, rows, k);
    }
    KeepNone(c.rows, row => Holds(e, c.names, row, t.columns, args));
  }

  /** Statements with the same columns get other rows or another number of them. */
  lemma TellingCounts(s: Statement, t: Statement, column: string, i: nat, rows: nat)
    requires s != t && s.top >= 1 && t.top >= 0 && rows == s.top + t.top
    requires t.table == s.table && t.columns == s.columns && (i < |s.columns| ==> column == s.columns[i])
    ensures var e, args := Telling(s.table, column, s.order, rows), Marked(|s.columns|, i);
            RunStatement(e, s, args) != RunStatement(e, t, args)
  {
    var e, args := Telling(s.table, column, s.order, rows), Marked(|s.columns|, i);
    var c := e.table(s.table).value;
    TellingAnswers(s, column, i, rows, c);
    if t.order == s.order {
      TellingAnswers(t, column, i, rows, c);
      assert |Take(c.rows, t.top)| != |Take(c.rows, s.top)|;
    } else {
      assert RunStatement(e, t, args).value.rows == [];
    }
  }

  lemma TellingElsewhere(s: Statement, t: Statement, column: string, i: nat, rows: nat)
    requires t.table != s.table || |t.columns| != |s.columns|
    ensures RunStatement(Telling(s.table, column, s.order, rows), t, Marked(|s.columns|, i)).Err?
  {
  }

  /** Two different statements that both ask for rows differ in what some database answers. */
  lemma StatementsDiffer(s: Statement, t: Statement) returns (e: Engine, args: seq<string>)
    requires s != t && s.top >= 1 && t.top >= 0
    ensures |args| == |s.columns| && RunStatement(e, s, args) != RunStatement(e, t, args)
  {
    var i: nat, rows := 0, s.top + t.top;
    if |s.columns| == |t.columns| && s.columns != t.columns {
      i :| 0 <= i < |s.columns| && s.columns[i] != t.columns[i];
    }
    var column := if i < |s.columns| then s.columns[i] else "";
    e, args := Telling(s.table, column, s.order, rows), Marked(|s.columns|, i);
    var c := e.table(s.table).value;
    TellingAnswers(s, column, i, rows, c);
    if t.table != s.table || |t.columns| != |s.columns| {
      TellingElsewhere(s, t, column, i, rows);
    } else if t.columns == s.columns {
      TellingCounts(s, t, column, i, rows);
    } else {
      TellingRefuses(s, t, i, rows, c);
    }
  }

  /** The text of a statement that asks for rows means that statement, on every database
      and for all arguments, if and only if its names are plain. */
  lemma TextMeansStatementIffPlain(s: Statement)
    requires s.top >= 1
    ensures (forall e, args :: |args| == |s.columns| ==> Run(e, Render(s), args) == RunStatement(e, s, args))
            <==> PlainNames(s)
  {
    RenderReadsBack(s);
    if !PlainNames(s) {
      ReadIsPlain(Render(s));
      if Read(Render(s)).Ok? {
        var e, args := StatementsDiffer(s, Read(Render(s)).value);
      } else {
        UnreadFails(s, Marked(|s.columns|, 0));
      }
    }
  }

  lemma UnreadFails(s: Statement, args: seq<string>)
    requires Read(Render(s)).Err? && |args| == |s.columns|
    ensures exists f, a :: |a| == |s.columns| && Run(f, Render(s), a) != RunStatement(f, s, a)
  {
    var f := OneTable(s.table);
    assert RunStatement(f, s, args).Ok? && Run(f, Render(s), args).Err?;
  }

  // ---- ExecuteSQL ----

  /** A connection, and the statements that have reached it. */
  class Session {
    const answer: (string, seq<string>) -> Result<Cursor>
    var sent: seq<string>

    constructor (answer: (string, seq<string>) -> Result<Cursor>)
      ensures this.answer == answer && sent == []
    {
      this.answer := answer;
      sent := [];
    }

    method Run(text: string, params: seq<string>) returns (r: Result<Cursor>)
      modifies this
      ensures r == answer(text, params) && sent == old(sent) + [text]
    {
      sent := sent + [text];
      r := answer(text, params);
    }
  }

  /** A rejected statement never reaches the database. An accepted one reaches it once: as it
      came if it is no SELECT, starts with SELECT TOP or holds a TOP between blanks, with the
      cap behind its keyword otherwise. The answer is the database's, scanned. */
  method ExecuteSQL(db: Session, query: string, params: seq<string>, maxRows: Int64, trim: bool)
    returns (r: Result<QueryResult>)
    modifies db
    ensures !Verdict.Accepts(query) ==> db.sent == old(db.sent) && r == Err("only SELECT statements are allowed")
    ensures Verdict.Accepts(query) ==>
              var upper := Upper(TrimSpace(query));
              if !("SELECT" <= upper) || "SELECT TOP" <= upper || exists i :: OccursAt(upper, " TOP ", i) then
                db.sent == old(db.sent) + [query]
              else
                |query| >= 6 && db.sent == old(db.sent) + ["SELECT TOP " + RowCap.Itoa(maxRows) + query[6..]]
    ensures Verdict.Accepts(query) ==>
              r == match db.answer(db.sent[|old(db.sent)|], params)
                   case Err(e) => Err(e)
                   case Ok(c) => Scanned(c, 0, trim)
  {
    if !Verdict.Accepts(query) {
      return Err("only SELECT statements are allowed");
    }
    RowCap.SentExactly(query, maxRows, Upper(TrimSpace(query)));
    var rows :- db.Run(RowCap.EnforceTopN(query, maxRows), params);
    r := ScanRows(rows, 0, trim);
  }
}
