/** internal/mdb/query.go, lines 48-83: the statement QueryTable writes, and a reader that
    says what its text means. */
module Statement {
  import opened Results
  import opened Text
  import RowCap
  import SqlText

  datatype Order = Order(column: string, descending: bool)

  /** SELECT TOP top * FROM [table] WHERE [c1] = ? AND ... ORDER BY [column] */
  datatype Statement = Statement(top: int, table: string, columns: seq<string>, order: Option<Order>)

  // ---- the text ----

  function Clause(column: string): string {
    "[" + column + "] = ?"
  }

  function Clauses(columns: seq<string>): (r: seq<string>)
    ensures |r| == |columns|
    ensures forall i :: 0 <= i < |columns| ==> r[i] == Clause(columns[i])
  {
    seq(|columns|, i requires 0 <= i < |columns| => Clause(columns[i]))
  }

  const AND := " AND "

  /** `strings.Join` with the separator of a condition list. */
  function JoinAnd(parts: seq<string>): string {
    if parts == [] then ""
    else if |parts| == 1 then parts[0]
    else parts[0] + AND + JoinAnd(parts[1..])
  }

  function WhereText(clauses: seq<string>): string {
    if clauses == [] then "" else " WHERE " + JoinAnd(clauses)
  }

  function OrderText(order: Option<Order>): string {
    match order
    case None => ""
    case Some(o) => " ORDER BY [" + o.column + "] " + (if o.descending then "DESC" else "ASC")
  }

  function Render(s: Statement): string {
    "SELECT TOP " + RowCap.Itoa(s.top) + " * FROM [" + s.table + "]"
    + WhereText(Clauses(s.columns)) + OrderText(s.order)
  }

  /** The text in full, for two conditions and an order. */
  lemma TextInFull(top: int, table: string, a: string, b: string, column: string, descending: bool)
    ensures Render(Statement(top, table, [a, b], Some(Order(column, descending)))) ==
            "SELECT TOP " + RowCap.Itoa(top) + " * FROM [" + table + "]"
            + (" WHERE " + ("[" + a + "] = ?" + " AND " + ("[" + b + "] = ?")))
            + (" ORDER BY [" + column + "] " + (if descending then "DESC" else "ASC"))
  {
    var clauses := Clauses([a, b]);
    assert clauses == [Clause(a), Clause(b)] && clauses[1..] == [Clause(b)];
    assert JoinAnd(clauses[1..]) == Clause(b);
  }

  // ---- a reader ----

  function After(prefix: string, s: string): Result<string> {
    if prefix <= s then Ok(s[|prefix|..]) else Err("syntax error")
  }

  function ReadDigits(s: string, value: nat): (nat, string)
    decreases |s|
  {
    if s != "" && '0' <= s[0] <= '9' then ReadDigits(s[1..], 10 * value + (s[0] as int - '0' as int)) else (value, s)
  }

  /** A row count is written without a sign. */
  function ReadCount(s: string): Result<(nat, string)> {
    if s != "" && '0' <= s[0] <= '9' then Ok(ReadDigits(s, 0)) else Err("syntax error")
  }

  /** A bracketed name runs to the first closing bracket. */
  function ReadName(s: string): Result<(string, string)> {
    var end := Index(s, "]");
    if end >= 1 && s[0] == '[' then Ok((s[1..end], s[end + 1..])) else Err("syntax error")
  }

  function ReadConditions(s: string): Result<(seq<string>, string)>
    decreases |s|
  {
    var name :- ReadName(s);
    var rest :- After(" = ?", name.1);
    if AND <= rest then
      var more :- ReadConditions(rest[|AND|..]);
      Ok(([name.0] + more.0, more.1))
    else Ok(([name.0], rest))
  }

  function ReadWhere(s: string): Result<(seq<string>, string)> {
    if " WHERE " <= s then ReadConditions(s[7..]) else Ok(([], s))
  }

  function ReadOrder(s: string): Result<Option<Order>> {
    if s == "" then Ok(None)
    else
      var text :- After(" ORDER BY ", s);
      var name :- ReadName(text);
      if name.1 == " ASC" then Ok(Some(Order(name.0, false)))
      else if name.1 == " DESC" then Ok(Some(Order(name.0, true)))
      else Err("syntax error")
  }

  function Read(s: string): Result<Statement> {
    var text :- After("SELECT TOP ", s);
    var count :- ReadCount(text);
    var from :- After(" * FROM ", count.1);
    var name :- ReadName(from);
    var where_ :- ReadWhere(name.1);
    var order :- ReadOrder(where_.1);
    Ok(Statement(count.0, name.0, where_.0, order))
  }

  // ---- the text says what was meant ----

  predicate Plain(name: string) {
    ']' !in name
  }

  predicate PlainNames(s: Statement) {
    && Plain(s.table)
    && (forall i :: 0 <= i < |s.columns| ==> Plain(s.columns[i]))
    && (s.order.Some? ==> Plain(s.order.value.column))
  }

  lemma AfterReads(prefix: string, rest: string)
    ensures After(prefix, prefix + rest) == Ok(rest)
  {
    assert (prefix + rest)[|prefix|..] == rest;
  }

  lemma {:induction false} DigitsRead(n: nat, rest: string, value: nat)
    requires value == 0
    ensures ReadDigits(RowCap.Digits(n) + rest, value) == ReadDigits(rest, n)
  {
    if n < 10 {
      var s := RowCap.Digits(n) + rest;
      assert s[0] == RowCap.Digits(n)[0] && s[1..] == rest;
    } else {
      var d := RowCap.Digits(n % 10);
      DigitsRead(n / 10, d + rest, 0);
      assert RowCap.Digits(n / 10) + (d + rest) == RowCap.Digits(n) + rest;
      assert (d + rest)[0] == d[0] && (d + rest)[1..] == rest;
    }
  }

  lemma CountReads(n: int, rest: string)
    requires rest != "" && rest[0] == ' '
    ensures ReadCount(RowCap.Itoa(n) + rest) == if n >= 0 then Ok((n, rest)) else Err("syntax error")
  {
    RowCap.NumeralEnds(n);
    var d := RowCap.Itoa(n);
    assert (d + rest)[0] == d[0];
    if n >= 0 {
      RowCap.DigitsAreDigits(n);
      DigitsRead(n, rest, 0);
    }
  }

  lemma NameReads(name: string, rest: string)
    requires Plain(name)
    ensures ReadName("[" + name + "]" + rest) == Ok((name, rest))
  {
    var s := "[" + name + "]" + rest;
    var e := |name| + 1;
    assert s[e] == ']' && s[e..e + 1] == [s[e]];
    forall j | 0 <= j < e ensures !OccursAt(s, "]", j) {
      assert s[j..j + 1] == [s[j]];
      assert s[j] == if j == 0 then '[' else name[j - 1];
    }
    IndexIs(s, "]", e);
    assert s[1..e] == name && s[e + 1..] == rest;
  }

  lemma ClauseReads(name: string, rest: string)
    requires Plain(name)
    ensures ReadName(Clause(name) + rest) == Ok((name, " = ?" + rest))
    ensures After(" = ?", " = ?" + rest) == Ok(rest)
  {
    assert "] = ?" == "]" + " = ?";
    SqlText.Associate("[" + name, "]", " = ?", rest);
    SqlText.Associate("[" + name + "]", " = ?", rest, "");
    NameReads(name, " = ?" + rest);
    AfterReads(" = ?", rest);
  }

  lemma OneCondition(name: string, rest: string)
    requires Plain(name) && !(AND <= rest)
    ensures ReadConditions(Clause(name) + rest) == Ok(([name], rest))
  {
    ClauseReads(name, rest);
  }

  lemma MoreConditions(name: string, more: string, columns: seq<string>, rest: string)
    requires Plain(name) && ReadConditions(more) == Ok((columns, rest))
    ensures ReadConditions(Clause(name) + (AND + more)) == Ok(([name] + columns, rest))
  {
    ClauseReads(name, AND + more);
    assert (AND + more)[|AND|..] == more;
  }

  lemma {:induction false} ConditionsRead(columns: seq<string>, rest: string)
    requires columns != [] && (forall i :: 0 <= i < |columns| ==> Plain(columns[i])) && !(AND <= rest)
    ensures ReadConditions(JoinAnd(Clauses(columns)) + rest) == Ok((columns, rest))
  {
    if |columns| == 1 {
      OneCondition(columns[0], rest);
      assert columns == [columns[0]];
    } else {
      ConditionsRead(columns[1..], rest);
      ConditionsStep(columns[0], JoinAnd(Clauses(columns[1..])), columns[1..], rest);
      JoinStep(columns);
      assert [columns[0]] + columns[1..] == columns;
    }
  }

  lemma ConditionsStep(name: string, list: string, columns: seq<string>, rest: string)
    requires Plain(name) && ReadConditions(list + rest) == Ok((columns, rest))
    ensures ReadConditions((Clause(name) + AND + list) + rest) == Ok(([name] + columns, rest))
  {
    MoreConditions(name, list + rest, columns, rest);
    SqlText.Associate(Clause(name), AND, list, rest);
  }

  lemma JoinStep(columns: seq<string>)
    requires |columns| > 1
    ensures JoinAnd(Clauses(columns)) == Clause(columns[0]) + AND + JoinAnd(Clauses(columns[1..]))
  {
    assert Clauses(columns)[1..] == Clauses(columns[1..]);
  }

  lemma OrderReads(order: Option<Order>)
    requires order.Some? ==> Plain(order.value.column)
    ensures ReadOrder(OrderText(order)) == Ok(order)
  {
    if order.Some? {
      var dir := if order.value.descending then " DESC" else " ASC";
      var name := "[" + order.value.column + "]" + dir;
      assert OrderText(order) == " ORDER BY " + name;
      AfterReads(" ORDER BY ", name);
      NameReads(order.value.column, dir);
    }
  }

  /** The two directions, as they are written. */
  lemma DirectionReads(column: string)
    requires Plain(column)
    ensures ReadOrder(" ORDER BY [" + column + "] ASC") == Ok(Some(Order(column, false)))
    ensures ReadOrder(" ORDER BY [" + column + "] DESC") == Ok(Some(Order(column, true)))
  {
    OrderReads(Some(Order(column, false)));
    OrderReads(Some(Order(column, true)));
    assert " ORDER BY [" + column + "] ASC" == " ORDER BY [" + column + "] " + "ASC";
    assert " ORDER BY [" + column + "] DESC" == " ORDER BY [" + column + "] " + "DESC";
  }

  lemma OrderIsNoCondition(order: Option<Order>)
    ensures !(AND <= OrderText(order)) && !(" WHERE " <= OrderText(order))
  {
    if order.Some? {
      assert OrderText(order)[1] == 'O';
      assert AND[1] == 'A' && " WHERE "[1] == 'W';
    }
  }

  lemma WhereReads(columns: seq<string>, rest: string)
    requires (forall i :: 0 <= i < |columns| ==> Plain(columns[i])) && !(AND <= rest) && !(" WHERE " <= rest)
    ensures ReadWhere(WhereText(Clauses(columns)) + rest) == Ok((columns, rest))
  {
    if columns == [] {
      assert WhereText(Clauses(columns)) + rest == rest;
    } else {
      var list := JoinAnd(Clauses(columns)) + rest;
      assert WhereText(Clauses(columns)) + rest == " WHERE " + list;
      AfterReads(" WHERE ", list);
      ConditionsRead(columns, rest);
    }
  }

  lemma Regroup(a: string, n: string, f: string, open: string, t: string, close: string, w: string, o: string)
    ensures a + n + (f + open) + t + close + w + o == a + (n + (f + (open + t + close + (w + o))))
  {
    var name := open + t + close;
    assert (f + open) + t + close == f + name;
    assert a + n + (f + open) + t + close == a + n + (f + name);
    assert a + n + (f + name) == a + (n + (f + name));
    var tail := w + o;
    assert a + (n + (f + name)) + w + o == a + (n + (f + name)) + tail;
    assert (f + name) + tail == f + (name + tail);
    assert n + (f + name) + tail == n + (f + (name + tail));
    assert a + (n + (f + name)) + tail == a + (n + (f + name) + tail);
  }

  lemma RenderGroups(s: Statement, tail: string)
    requires tail == WhereText(Clauses(s.columns)) + OrderText(s.order)
    ensures Render(s) == "SELECT TOP " + (RowCap.Itoa(s.top) + (" * FROM " + ("[" + s.table + "]" + tail)))
  {
    assert " * FROM [" == " * FROM " + "[";
    Regroup("SELECT TOP ", RowCap.Itoa(s.top), " * FROM ", "[", s.table, "]",
            WhereText(Clauses(s.columns)), OrderText(s.order));
  }

  /** Over names without closing brackets the text reads back as the statement. */
  lemma PlainReadsBack(s: Statement)
    requires PlainNames(s) && s.top >= 0
    ensures Read(Render(s)) == Ok(s)
  {
    var order := OrderText(s.order);
    var tail := WhereText(Clauses(s.columns)) + order;
    var from := "[" + s.table + "]" + tail;
    RenderGroups(s, tail);
    AfterReads("SELECT TOP ", RowCap.Itoa(s.top) + (" * FROM " + from));
    CountReads(s.top, " * FROM " + from);
    AfterReads(" * FROM ", from);
    NameReads(s.table, tail);
    OrderReads(s.order);
    OrderIsNoCondition(s.order);
    WhereReads(s.columns, order);
  }

  lemma NegativeIsNoStatement(s: Statement)
    requires s.top < 0
    ensures Read(Render(s)) == Err("syntax error")
  {
    var tail := WhereText(Clauses(s.columns)) + OrderText(s.order);
    var from := "[" + s.table + "]" + tail;
    RenderGroups(s, tail);
    AfterReads("SELECT TOP ", RowCap.Itoa(s.top) + (" * FROM " + from));
    CountReads(s.top, " * FROM " + from);
  }

  // ---- only plain names can be read ----

  lemma ReadNameIsPlain(s: string)
    ensures ReadName(s).Ok? ==> Plain(ReadName(s).value.0)
  {
    var end := Index(s, "]");
    if ReadName(s).Ok? {
      forall i | 1 <= i < end ensures s[i] != ']' {
        assert s[i..i + 1] == [s[i]];
        assert !OccursAt(s, "]", i);
      }
    }
  }

  lemma {:induction false} ReadConditionsArePlain(s: string)
    ensures ReadConditions(s).Ok? ==>
              forall i :: 0 <= i < |ReadConditions(s).value.0| ==> Plain(ReadConditions(s).value.0[i])
    decreases |s|
  {
    ReadNameIsPlain(s);
    if ReadName(s).Ok? && After(" = ?", ReadName(s).value.1).Ok? {
      var rest := After(" = ?", ReadName(s).value.1).value;
      if !(AND <= rest) {
      } else {
        ReadConditionsArePlain(rest[|AND|..]);
      }
    }
  }

  lemma ReadOrderIsPlain(s: string)
    ensures ReadOrder(s).Ok? && ReadOrder(s).value.Some? ==> Plain(ReadOrder(s).value.value.column)
  {
    if s != "" && After(" ORDER BY ", s).Ok? {
      ReadNameIsPlain(After(" ORDER BY ", s).value);
    }
  }

  /** Whatever the reader accepts has plain names only. */
  lemma ReadIsPlain(s: string)
    ensures Read(s).Ok? ==> PlainNames(Read(s).value) && Read(s).value.top >= 0
  {
    if Read(s).Ok? {
      var text := After("SELECT TOP ", s).value;
      var from := After(" * FROM ", ReadCount(text).value.1).value;
      var where_ := ReadName(from).value.1;
      ReadNameIsPlain(from);
      if " WHERE " <= where_ {
        ReadConditionsArePlain(where_[7..]);
      }
      ReadOrderIsPlain(ReadWhere(where_).value.1);
    }
  }

  /** The text of a statement reads back as that statement exactly if its row count is not
      negative and none of its names holds a closing bracket. */
  lemma RenderReadsBack(s: Statement)
    ensures Read(Render(s)) == Ok(s) <==> s.top >= 0 && PlainNames(s)
    ensures s.top < 0 ==> Read(Render(s)) == Err("syntax error")
  {
    ReadIsPlain(Render(s));
    if s.top < 0 {
      NegativeIsNoStatement(s);
    } else if PlainNames(s) {
      PlainReadsBack(s);
    }
  }

  /** A table text with a closing bracket at its end makes no statement at all. */
  lemma BracketInTableIsNoStatement(name: string, top: nat)
    requires Plain(name)
    ensures Read(Render(Statement(top, name + "]", [], None))) == Err("syntax error")
  {
    var s := Statement(top, name + "]", [], None);
    var from := "[" + (name + "]") + "]" + "";
    assert WhereText(Clauses(s.columns)) + OrderText(s.order) == "";
    RenderGroups(s, "");
    AfterReads("SELECT TOP ", RowCap.Itoa(top) + (" * FROM " + from));
    CountReads(top, " * FROM " + from);
    AfterReads(" * FROM ", from);
    assert from == "[" + name + "]" + "]";
    NameReads(name, "]");
    assert "]"[0] != " WHERE "[0] && "]"[0] != " ORDER BY "[0];
  }
}
