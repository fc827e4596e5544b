/** internal/mdb/query.go, lines 197-230: exactly which texts can stand in front of any
    statement without changing the read-only verdict. */
module Prefixes {
  import opened Text
  import opened SqlText
  import opened Verdict

  // ---- last lines ----

  function LastLine(y: string): string {
    if y == "" || y[|y| - 1] == '\n' then "" else LastLine(y[..|y| - 1]) + [y[|y| - 1]]
  }

  /** A text is its last line, or lines before it and its last line. */
  lemma {:induction false} LastLineSplits(y: string) returns (x: string)
    ensures '\n' !in LastLine(y)
    ensures y == LastLine(y) || y == x + "\n" + LastLine(y)
  {
    x := "";
    if y == "" {
    } else if y[|y| - 1] == '\n' {
      x := y[..|y| - 1];
    } else {
      x := LastLineSplits(y[..|y| - 1]);
      assert y == y[..|y| - 1] + [y[|y| - 1]];
      SqlText.Associate(x, "\n", LastLine(y[..|y| - 1]), [y[|y| - 1]]);
      SqlText.Associate(x + "\n", LastLine(y[..|y| - 1]), [y[|y| - 1]], "");
    }
  }

  lemma {:induction false} BlankIsSpace(s: string)
    ensures TrimSpace(s) == "" <==> AllSpace(s)
    ensures TrimLeft(s) == "" <==> AllSpace(s)
  {
    if s == "" {
    } else {
      BlankIsSpace(s[1..]);
      var t := TrimLeft(s);
      var n := TrimLeftIsSlice(s);
      if t != "" { TrimRightKeepsStart([t[0]], t); }
      if IsSpace(s[0]) {
        assert s == [s[0]] + s[1..];
        TrimEnds(s[1..], s[0]);
      }
    }
  }

  lemma {:induction false} TrimBlankStart(b: string, w: string)
    requires AllSpace(b)
    ensures TrimSpace(b + w) == TrimSpace(w)
  {
    if b == "" {
      assert b + w == w;
    } else {
      TrimBlankStart(b[1..], w);
      TrimEnds(b[1..] + w, b[0]);
      assert b + w == [b[0]] + (b[1..] + w);
    }
  }

  // ---- how lines go on ----

  lemma LinesOfLast(x: string, last: string)
    requires '\n' !in last
    ensures Lines(last) == CutLine(last)
    ensures Lines(x + "\n" + last) == Lines(x) + " " + CutLine(last)
  {
    SplitWord(last, '\n');
    assert CutAll([last]) == [CutLine(last)];
    LinesAcross(x, last);
  }

  lemma CutKept(last: string, more: string)
    requires Index(last, "--") != -1
    ensures CutLine(last + more) == CutLine(last)
  {
    var i := Index(last, "--");
    forall j | 0 <= j <= i ensures OccursAt(last + more, "--", j) <==> OccursAt(last, "--", j) {
      MarkAt(last, '-', '-', i);
      MarkAt(last, '-', '-', j);
      MarkAt(last + more, '-', '-', j);
    }
    IndexIs(last + more, "--", i);
  }

  lemma CutExtends(last: string, more: string)
    requires Index(last, "--") == -1 && more != "" && more[0] != '-'
    ensures last <= CutLine(last + more)
    ensures Index(more, "--") == -1 ==> CutLine(last + more) == last + more
  {
    var s := last + more;
    var i := Index(s, "--");
    MarkAt(s, '-', '-', i);
    MarkAt(last, '-', '-', i);
    MarkAt(more, '-', '-', i - |last|);
  }

  /** Lines go on as their last line does. */
  lemma LinesGoOn(y: string, more: string) returns (head: string)
    requires '\n' !in more
    ensures Lines(y) == head + CutLine(LastLine(y)) && Lines(y + more) == head + CutLine(LastLine(y) + more)
  {
    var last := LastLine(y);
    var x := LastLineSplits(y);
    if y == last {
      head := "";
      LinesOfLast("", last);
      LinesOfLast("", last + more);
    } else {
      head := Lines(x) + " ";
      LinesOfLast(x, last);
      LinesOfLast(x, last + more);
      SqlText.Associate(x + "\n", last, more, "");
    }
  }

  lemma {:induction false} SpacesBeforeLines(b: string, z: string)
    requires AllSpace(b) && '\n' !in b
    ensures Lines(b + z) == b + Lines(z)
  {
    if b == "" {
      assert b + z == z && b + Lines(z) == Lines(z);
    } else {
      var c, rest := b[0], b[1..];
      SpacesBeforeLines(rest, z);
      assert IsSpace(c) && c != '-';
      LinesCons(c, rest + z);
      assert b == [c] + rest;
      SqlText.Associate([c], rest, z, "");
      SqlText.Associate([c], rest, Lines(z), "");
    }
  }

  // ---- the condition suffices ----

  /** The text leaves nothing but blanks behind, and does not end inside a line comment. */
  predicate Invisible(u: string) {
    var y := Scan(u);
    Closed(u) && TrimSpace(Lines(y)) == "" && Index(LastLine(y), "--") == -1
  }

  /** A scan goes through a closed text that does not end in a slash, whatever follows. */
  lemma {:induction false} ScanThrough(u: string, q: string)
    requires Closed(u) && (Scan(u) != "" ==> Scan(u)[|Scan(u)| - 1] != '/')
    ensures Scan(u + q) == Scan(u) + Scan(q)
    decreases |u|
  {
    if u == "" {
      assert u + q == q;
      assert Scan(u) + Scan(q) == Scan(q);
    } else if OccursAt(u, "/*", 0) {
      var end := Index(u, "*/");
      if end != -1 {
        CommentExtends(u, q, end);
        var rest := u[end + 2..];
        IndexCons(' ', Scan(rest));
        LastOfCons(' ', Scan(rest));
        ScanThrough(rest, q);
        SqlText.Associate(" ", Scan(rest), Scan(q), "");
      }
    } else if |u| == 1 {
      assert Scan(u) == u by { assert u[1..] == ""; }
      ScanCons(u[0], q);
      assert u == [u[0]];
    } else {
      NoCommentExtends(u, q);
      IndexCons(u[0], Scan(u[1..]));
      LastOfCons(u[0], Scan(u[1..]));
      ScanThrough(u[1..], q);
      SqlText.Associate([u[0]], Scan(u[1..]), Scan(q), "");
    }
  }

  lemma LastOfCons(c: char, s: string)
    ensures s != "" ==> ([c] + s)[|s|] == s[|s| - 1]
  {
  }

  lemma PartsOfBlank(all: string, a: string, b: string)
    requires AllSpace(all) && all == a + " " + b
    ensures AllSpace(a) && AllSpace(b)
  {
    assert forall i :: 0 <= i < |b| ==> b[i] == all[|a| + 1 + i];
    assert forall i :: 0 <= i < |a| ==> a[i] == all[i];
  }

  lemma EndOfLastLine(y: string)
    requires y != "" && y[|y| - 1] != '\n'
    ensures LastLine(y) != "" && LastLine(y)[|LastLine(y)| - 1] == y[|y| - 1]
  {
    var init := LastLine(y[..|y| - 1]);
    assert LastLine(y) == init + [y[|y| - 1]];
  }

  lemma SpaceEnds(last: string, c: char)
    requires AllSpace(last) && last != "" && last[|last| - 1] == c
    ensures c != '/'
  {
    assert IsSpace(last[|last| - 1]);
  }

  /** In an invisible text the last line is blank, and so are the lines before it. */
  lemma InvisibleIsBlank(u: string, y: string, x: string, last: string)
    requires Invisible(u) && y == Scan(u) && last == LastLine(y)
    requires y == last || y == x + "\n" + last
    ensures AllSpace(last) && '\n' !in last
    ensures y == last || AllSpace(Lines(x))
    ensures y != "" ==> y[|y| - 1] != '/'
  {
    var x' := LastLineSplits(y);
    BlankIsSpace(Lines(y));
    LinesOfLast(x, last);
    assert CutLine(last) == last;
    if y != last {
      PartsOfBlank(Lines(y), Lines(x), last);
    }
    if y != "" && y[|y| - 1] != '\n' {
      EndOfLastLine(y);
      SpaceEnds(last, y[|y| - 1]);
    }
  }

  lemma InvisibleIsIgnored(u: string, q: string)
    requires Invisible(u)
    ensures Strip(u + q) == Strip(q)
  {
    var y, z := Scan(u), Scan(q);
    var last := LastLine(y);
    var x := LastLineSplits(y);
    InvisibleIsBlank(u, y, x, last);
    ScanThrough(u, q);
    SpacesBeforeLines(last, z);
    if y == last {
      TrimBlankStart(last, Lines(z));
    } else {
      SqlText.Associate(x + "\n", last, z, "");
      assert y + z == x + "\n" + (last + z);
      LinesAcross(x, last + z);
      BlankThenBlank(Lines(x), last, Lines(z));
    }
  }

  lemma BlankThenBlank(a: string, b: string, w: string)
    requires AllSpace(a) && AllSpace(b)
    ensures TrimSpace(a + " " + (b + w)) == TrimSpace(w)
  {
    TrimBlankStart(b, w);
    TrimBlankStart(a + " ", b + w);
  }

  // ---- the condition is needed ----

  predicate Starts(s: string) {
    "SELECT" <= Upper(s) || "WITH" <= Upper(s)
  }

  lemma AcceptsStripped(q: string)
    ensures Accepts(q) == Starts(Strip(q))
  {
    StripTrim(q);
  }

  /** What starts with a keyword still does when more follows. */
  lemma StartStays(a: string, z: string)
    requires Starts(TrimLeft(a)) || Starts(TrimSpace(a))
    ensures Starts(TrimSpace(a + z)) && Starts(TrimSpace(a))
  {
    var v := TrimLeft(a);
    TrimRightIsSlice(v);
    assert Upper(TrimRight(v)) <= Upper(v);
    TrimLeftExtends(a, z);
    TrimRightStays(v, v);
    TrimRightStays(v, v + z);
  }

  lemma TrimRightStays(v: string, w: string)
    requires Starts(v) && v <= w
    ensures Starts(TrimRight(w))
  {
    var n := if "SELECT" <= Upper(v) then 6 else 4;
    KeywordEnds(v, n);
    TrimRightKeepsStart(v[..n], w);
    assert Upper(v[..n]) == Upper(v)[..n];
    assert Upper(v[..n]) <= Upper(TrimRight(w));
  }

  lemma KeywordEnds(v: string, n: nat)
    requires if n == 6 then "SELECT" <= Upper(v) else n == 4 && "WITH" <= Upper(v)
    ensures n <= |v| && !IsSpace(v[n - 1])
    ensures Upper(v)[..n] == if n == 6 then "SELECT" else "WITH"
  {
    assert "SELECT"[5] == 'T' && "WITH"[3] == 'H';
    assert UpperChar(v[n - 1]) == if n == 6 then 'T' else 'H';
  }

  lemma {:induction false} TrimLeftExtends(a: string, z: string)
    requires TrimLeft(a) != ""
    ensures TrimLeft(a + z) == TrimLeft(a) + z
  {
    assert a != "" && (a + z)[0] == a[0];
    if !IsSpace(a[0]) {
    } else {
      TrimLeftExtends(a[1..], z);
      assert (a + z)[1..] == a[1..] + z;
    }
  }

  /** A keyword does not complete a text that does not start with one. */
  lemma NoPartialStart(v: string)
    requires v != "" && !Starts(v)
    ensures !Starts(v + "SELECT")
  {
    var w := Upper(v + "SELECT");
    UpperAppend(v, "SELECT");
    assert Upper("SELECT") == "SELECT";
    assert w[|v|] == 'S';
    assert "SELECT" == ['S', 'E', 'L', 'E', 'C', 'T'] && "WITH" == ['W', 'I', 'T', 'H'];
    if |v| >= 6 {
      assert w[..6] == Upper(v)[..6];
    } else {
      assert w[|v|] != "SELECT"[|v|];
    }
    if |v| >= 4 {
      assert w[..4] == Upper(v)[..4];
    } else {
      assert w[|v|] != "WITH"[|v|];
    }
  }

  /** Two statements that tell most prefixes apart: one accepted, one refused. */
  predicate Probe(q: string) {
    && q != "" && Scan(q) == q && Index(q, "--") == -1
    && '\n' !in q && q[0] != '/' && q[0] != '*' && q[0] != '-'
  }

  lemma Probes()
    ensures Probe("SELECT") && Probe("X")
  {
    NoMark("SELECT");
    NoMark("X");
  }

  lemma AcceptedProbe()
    ensures Accepts("SELECT")
  {
    var p := "SELECT";
    assert Upper(p) == p;
    KeywordIsSolid(p);
    StatementIsAccepted(p, "");
    assert p + "" == p;
  }

  lemma RefusedProbe()
    ensures !Accepts("X")
  {
    NoMark("X");
    LinesOfLast("", "X");
    assert Strip("X") == "X";
    AcceptsStripped("X");
    assert Upper("X")[0] == 'X';
  }

  lemma NoMark(s: string)
    requires forall i :: 0 <= i < |s| ==> s[i] != '/' && s[i] != '-'
    ensures Scan(s) == s && Index(s, "--") == -1
  {
    forall j | 0 <= j ensures !OccursAt(s, "/*", j) && !OccursAt(s, "--", j) {
      MarkAt(s, '/', '*', j);
      MarkAt(s, '-', '-', j);
    }
    NoOpenScan(s);
  }

  lemma ProbeStripped(u: string, q: string)
    requires Closed(u) && Probe(q)
    ensures Strip(u + q) == TrimSpace(Lines(Scan(u) + q))
  {
    ScanClosed(u, q, q);
  }

  /** After a text that ends inside a line comment, the statement is not seen. */
  lemma CommentedOut(u: string, q: string, y: string)
    requires Closed(u) && y == Scan(u) && Index(LastLine(y), "--") != -1 && Probe(q)
    ensures Strip(u + q) == TrimSpace(Lines(y))
  {
    ProbeStripped(u, q);
    var head := LinesGoOn(y, q);
    CutKept(LastLine(y), q);
  }

  /** After a text that leaves something behind, the statement follows that. */
  lemma FollowsRest(u: string, q: string, y: string)
    requires Closed(u) && y == Scan(u) && Index(LastLine(y), "--") == -1 && Probe(q)
    ensures Strip(u + q) == TrimSpace(Lines(y) + q)
  {
    ProbeStripped(u, q);
    var last := LastLine(y);
    var head := LinesGoOn(y, q);
    CutExtends(last, q);
    SqlText.Associate(head, last, q, "");
  }

  lemma VisibleClosedIsSeen(u: string) returns (q: string)
    requires Closed(u) && !Invisible(u)
    ensures Accepts(u + q) != Accepts(q)
  {
    var y := Scan(u);
    Probes();
    AcceptedProbe();
    RefusedProbe();
    q := if Starts(TrimSpace(Lines(y))) then "X" else "SELECT";
    AcceptsStripped(u + q);
    if Index(LastLine(y), "--") != -1 {
      CommentedOut(u, q, y);
    } else {
      FollowsRest(u, q, y);
      if Starts(TrimSpace(Lines(y))) {
        StartStays(Lines(y), q);
      } else {
        RestHidesKeyword(Lines(y));
      }
    }
  }

  lemma RestHidesKeyword(rest: string)
    requires TrimSpace(rest) != "" && !Starts(TrimSpace(rest))
    ensures !Starts(TrimSpace(rest + "SELECT"))
  {
    BlankIsSpace(rest);
    var v := TrimLeft(rest);
    if Starts(v) { StartStays(rest, ""); }
    TrimLeftExtends(rest, "SELECT");
    NoPartialStart(v);
    var w := v + "SELECT";
    assert w[|w| - 1] == 'T';
    TrimRightKeepsStart(w, w);
    TrimRightIsSlice(w);
  }

  /** Where an unclosed comment starts in a scanned text, and how more text goes on there. */
  lemma {:induction false} ScanOpen(u: string) returns (p: string, o: string)
    requires !Closed(u)
    ensures Scan(u + "SELECT*/") == p + " "
    ensures Scan(u + "X") == p + ("/*" + o)
    decreases |u|
  {
    var long, short := "SELECT*/", "X";
    if u == "" {
      p, o := "", "";
    } else if OccursAt(u, "/*", 0) && Index(u, "*/") == -1 {
      p, o := "", u[2..] + short;
      OpenToEnd(u);
      assert "" + " " == " ";
    } else if OccursAt(u, "/*", 0) {
      var end := Index(u, "*/");
      CommentExtends(u, long, end);
      CommentExtends(u, short, end);
      var rest := u[end + 2..];
      StillOpen(' ', Scan(rest));
      p, o := ScanOpen(rest);
      SqlText.Associate(" ", p, " ", "");
      SqlText.Associate(" ", p, "/*" + o, "");
      p := " " + p;
    } else {
      MarkAt(u, '/', '*', 0);
      NoCommentExtends(u, long);
      NoCommentExtends(u, short);
      ScanFirst(u[1..]);
      StillOpen(u[0], Scan(u[1..]));
      p, o := ScanOpen(u[1..]);
      SqlText.Associate([u[0]], p, " ", "");
      SqlText.Associate([u[0]], p, "/*" + o, "");
      p := [u[0]] + p;
    }
  }

  lemma OpenToEnd(u: string)
    requires OccursAt(u, "/*", 0) && Index(u, "*/") == -1
    ensures Scan(u + "SELECT*/") == " "
    ensures Scan(u + "X") == "" + ("/*" + (u[2..] + "X"))
  {
    var s := u + "SELECT*/";
    MarkAt(u, '/', '*', 0);
    MarkAt(s, '/', '*', 0);
    CloserAfter(u, s);
    ScanComment(s, |u| + 6);
    assert s[|u| + 8..] == "";
    IndexSnoc(u, 'X');
    assert u + "X" == "/*" + (u[2..] + "X");
  }

  lemma CloserAfter(u: string, s: string)
    requires Index(u, "*/") == -1 && s == u + "SELECT*/"
    ensures Index(s, "*/") == |u| + 6
  {
    forall j | 0 <= j < |u| + 6 ensures !OccursAt(s, "*/", j) {
      MarkAt(s, '*', '/', j);
      MarkAt(u, '*', '/', j);
    }
    MarkAt(s, '*', '/', |u| + 6);
    IndexIs(s, "*/", |u| + 6);
  }

  /** The lines of a text start those of any longer one, up to a broken mark. */
  lemma {:induction false} LinesStart(p: string, more: string)
    requires more != "" && more[0] != '-'
    ensures Lines(p) <= Lines(p + more)
    decreases |p|
  {
    if '\n' !in p {
      var parts := Split(p + more, '\n');
      SplitStart(p, more);
      LinesOfLast("", p);
      var first := Split(more, '\n')[0];
      FirstOfSplit(more);
      if Index(p, "--") != -1 {
        CutKept(p, first);
      } else if first != "" {
        CutExtends(p, first);
      } else {
        assert p + first == p;
      }
      assert CutAll(parts)[0] <= Join(CutAll(parts), ' ');
    } else {
      var i :| 0 <= i < |p| && p[i] == '\n';
      var x, r := p[..i], p[i + 1..];
      assert p == x + "\n" + r;
      SqlText.Associate(x + "\n", r, more, "");
      assert p + more == x + "\n" + (r + more);
      LinesAcross(x, r);
      LinesAcross(x, r + more);
      LinesStart(r, more);
    }
  }

  lemma FirstOfSplit(s: string)
    requires s != ""
    ensures Split(s, '\n')[0] == "" || Split(s, '\n')[0][0] == s[0]
  {
  }

  lemma OpenIsSeen(u: string) returns (q: string)
    requires !Closed(u)
    ensures Accepts(u + q) != Accepts(q)
  {
    var p, o := ScanOpen(u);
    if Starts(TrimSpace(Lines(p))) {
      q := "X";
      RefusedProbe();
      StartOfOpen(p, "/*" + o);
    } else {
      q := "SELECT*/";
      KeywordIsAccepted();
      BlankAtEnd(p);
    }
    AcceptsStripped(u + q);
  }

  lemma StartOfOpen(p: string, more: string)
    requires Starts(TrimSpace(Lines(p))) && more != "" && more[0] != '-'
    ensures Starts(TrimSpace(Lines(p + more)))
  {
    LinesStart(p, more);
    var z := Lines(p + more)[|Lines(p)|..];
    assert Lines(p + more) == Lines(p) + z;
    StartStays(Lines(p), z);
  }

  lemma BlankAtEnd(p: string)
    ensures TrimSpace(Lines(p + " ")) == TrimSpace(Lines(p))
  {
    LinesSnoc(p, ' ');
    TrimEnds(Lines(p), ' ');
  }

  /** A text in front of any statement leaves the verdict on it as it was, whatever the
      statement, exactly when the text closes its block comments, leaves only blanks
      behind, and does not end inside a line comment. */
  lemma PrefixIsIgnoredIffInvisible(u: string)
    ensures (forall q :: Accepts(u + q) == Accepts(q)) <==> Invisible(u)
  {
    if Invisible(u) {
      forall q ensures Accepts(u + q) == Accepts(q) {
        InvisibleIsIgnored(u, q);
        AcceptsStripped(u + q);
        AcceptsStripped(q);
      }
    } else if Closed(u) {
      var q := VisibleClosedIsSeen(u);
    } else {
      var q := OpenIsSeen(u);
    }
  }

  // ---- block comments ----

  /** Text that ends in a closing mark leaves no comment open. */
  lemma {:induction false} EndingMarkCloses(s: string)
    requires s == "" || s == "/" || (|s| >= 2 && s[|s| - 2] == '*' && s[|s| - 1] == '/')
    ensures Closed(s)
    decreases |s|
  {
    if s == "" {
    } else if OccursAt(s, "/*", 0) {
      MarkAt(s, '/', '*', 0);
      MarkAt(s, '*', '/', |s| - 2);
      var end := Index(s, "*/");
      CommentSpan(s, end);
      ScanComment(s, end);
      var rest := s[end + 2..];
      assert |rest| == 1 ==> rest == "/";
      EndingMarkCloses(rest);
      if Index([' '] + Scan(rest), "/*") != -1 { StillOpen(' ', Scan(rest)); }
    } else {
      var rest := s[1..];
      assert |rest| == 1 ==> rest == "/";
      EndingMarkCloses(rest);
      ScanFirst(rest);
      MarkAt(s, '/', '*', 0);
      if Index([s[0]] + Scan(rest), "/*") != -1 { StillOpen(s[0], Scan(rest)); }
    }
  }

  /** A block comment in front of any statement is ignored, whatever the statement, exactly
      when scanning it leaves only blanks, up to line comments that end before it does. */
  lemma BlockCommentIsIgnoredIff(t: string)
    ensures (forall q :: Accepts("/*" + t + "*/" + q) == Accepts(q))
            <==> var y := Scan("/*" + t + "*/"); TrimSpace(Lines(y)) == "" && Index(LastLine(y), "--") == -1
  {
    EndingMarkCloses("/*" + t + "*/");
    PrefixIsIgnoredIffInvisible("/*" + t + "*/");
  }
}
