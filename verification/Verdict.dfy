/** internal/mdb/query.go, lines 197-206: the read-only verdict and what it ignores. */
module Verdict {
  import opened Text
  import opened SqlText

  /** `validateReadOnlySQL`: true for a nil error, false for ErrWriteNotAllowed. */
  predicate Accepts(query: string) {
    var upper := Upper(Strip(TrimSpace(query)));
    "SELECT" <= upper || "WITH" <= upper
  }

  // ---- white space around a statement ----

  lemma ScanCons(c: char, s: string)
    requires c != '/'
    ensures Scan([c] + s) == [c] + Scan(s)
  {
    MarkAt([c] + s, '/', '*', 0);
    assert ([c] + s)[1..] == s;
  }

  lemma IndexSnoc(s: string, c: char)
    requires c != '/' && c != '*'
    ensures Index(s + [c], "*/") == Index(s, "*/")
    ensures OccursAt(s + [c], "/*", 0) <==> OccursAt(s, "/*", 0)
  {
    var i := Index(s, "*/");
    MarkAt(s, '/', '*', 0);
    MarkAt(s + [c], '/', '*', 0);
    forall j ensures OccursAt(s + [c], "*/", j) <==> OccursAt(s, "*/", j) {
      MarkAt(s, '*', '/', j);
      MarkAt(s + [c], '*', '/', j);
    }
    if i != -1 { IndexIs(s + [c], "*/", i); }
  }

  lemma {:induction false} ScanSnoc(s: string, c: char)
    requires c != '/' && c != '*'
    ensures Scan(s + [c]) == Scan(s) + [c]
    decreases |s|
  {
    IndexSnoc(s, c);
    if s == "" {
      assert s + [c] == [c] + "";
      ScanCons(c, "");
    } else if OccursAt(s, "/*", 0) {
      var end := Index(s, "*/");
      if end != -1 {
        ScanSnoc(s[end + 2..], c);
        assert (s + [c])[end + 2..] == s[end + 2..] + [c];
      }
    } else {
      ScanSnoc(s[1..], c);
      assert (s + [c])[1..] == s[1..] + [c];
    }
  }

  /** Lines are cut one by one. */
  lemma LinesAcross(x: string, y: string)
    ensures Lines(x + "\n" + y) == Lines(x) + " " + Lines(y)
  {
    var xs, ys := Split(x, '\n'), Split(y, '\n');
    SplitConcat(x, y, '\n');
    assert CutAll(xs + ys) == CutAll(xs) + CutAll(ys);
    JoinConcat(CutAll(xs), CutAll(ys), ' ');
  }

  lemma CutCons(c: char, line: string)
    requires c != '-'
    ensures CutLine([c] + line) == [c] + CutLine(line)
  {
    var t, i := [c] + line, Index(line, "--");
    forall j ensures OccursAt(t, "--", j) <==> OccursAt(line, "--", j - 1) {
      MarkAt(t, '-', '-', j);
      MarkAt(line, '-', '-', j - 1);
    }
    if i == -1 {
      assert Index(t, "--") == -1;
    } else {
      assert OccursAt(t, "--", i + 1);
      IndexIs(t, "--", i + 1);
      assert t[..i + 1] == [c] + line[..i];
    }
  }

  lemma LinesCons(c: char, s: string)
    requires c != '\n' && c != '-'
    ensures Lines([c] + s) == [c] + Lines(s)
  {
    var parts := Split(s, '\n');
    assert ([c] + s)[1..] == s;
    CutCons(c, parts[0]);
    assert CutAll([[c] + parts[0]] + parts[1..]) == [[c] + CutLine(parts[0])] + CutAll(parts[1..]);
    assert CutAll(parts) == [CutLine(parts[0])] + CutAll(parts[1..]);
  }

  lemma CutSnoc(line: string, c: char)
    requires c != '-'
    ensures CutLine(line + [c]) == CutLine(line) || CutLine(line + [c]) == CutLine(line) + [c]
  {
    var t, i := line + [c], Index(line, "--");
    forall j ensures OccursAt(t, "--", j) <==> OccursAt(line, "--", j) {
      MarkAt(t, '-', '-', j);
      MarkAt(line, '-', '-', j);
    }
    if i == -1 {
      assert Index(t, "--") == -1;
    } else {
      IndexIs(t, "--", i);
      assert t[..i] == line[..i];
    }
  }

  lemma {:induction false} LinesSnoc(s: string, c: char)
    requires c != '\n' && c != '-'
    ensures Lines(s + [c]) == Lines(s) || Lines(s + [c]) == Lines(s) + [c]
  {
    if '\n' !in s {
      SplitWord(s, '\n');
      SplitWord(s + [c], '\n');
      CutSnoc(s, c);
      assert CutAll([s]) == [CutLine(s)] && CutAll([s + [c]]) == [CutLine(s + [c])];
    } else {
      var i :| 0 <= i < |s| && s[i] == '\n';
      LinesSnoc(s[i + 1..], c);
      LinesSnocAcross(s, s[..i], s[i + 1..], c);
    }
  }

  lemma LinesSnocAcross(s: string, x: string, y: string, c: char)
    requires s == x + "\n" + y && (Lines(y + [c]) == Lines(y) || Lines(y + [c]) == Lines(y) + [c])
    ensures Lines(s + [c]) == Lines(s) || Lines(s + [c]) == Lines(s) + [c]
  {
    LinesAcross(x, y);
    LinesAcross(x, y + [c]);
    assert s + [c] == x + "\n" + (y + [c]);
  }

  lemma {:induction false} TrimLeftSnoc(s: string, c: char)
    requires IsSpace(c)
    ensures TrimLeft(s + [c]) == if TrimLeft(s) == "" then "" else TrimLeft(s) + [c]
  {
    if s == "" {
      assert s + [c] == [c] && [c][1..] == "";
    } else if IsSpace(s[0]) {
      TrimLeftSnoc(s[1..], c);
      assert (s + [c])[1..] == s[1..] + [c];
    }
  }

  lemma TrimEnds(s: string, c: char)
    requires IsSpace(c)
    ensures TrimSpace(s + [c]) == TrimSpace(s)
    ensures TrimSpace([c] + s) == TrimSpace(s)
  {
    TrimLeftSnoc(s, c);
    var t := TrimLeft(s);
    assert (t + [c])[..|t|] == t;
    assert ([c] + s)[1..] == s;
  }

  lemma StripCons(c: char, s: string)
    requires IsSpace(c)
    ensures Strip([c] + s) == Strip(s)
  {
    ScanCons(c, s);
    if c == '\n' {
      assert "" + "\n" + Scan(s) == [c] + Scan(s);
      LinesAcross("", Scan(s));
      assert Lines("") == "" by { assert CutAll([""]) == [""]; }
      assert "" + " " + Lines(Scan(s)) == [' '] + Lines(Scan(s));
      TrimEnds(Lines(Scan(s)), ' ');
    } else {
      LinesCons(c, Scan(s));
      TrimEnds(Lines(Scan(s)), c);
    }
  }

  lemma StripSnoc(s: string, c: char)
    requires IsSpace(c)
    ensures Strip(s + [c]) == Strip(s)
  {
    ScanSnoc(s, c);
    if c == '\n' {
      assert Scan(s) + "\n" + "" == Scan(s) + [c];
      LinesAcross(Scan(s), "");
      assert Lines("") == "" by { assert CutAll([""]) == [""]; }
      assert Lines(Scan(s)) + " " + "" == Lines(Scan(s)) + [' '];
      TrimEnds(Lines(Scan(s)), ' ');
    } else {
      LinesSnoc(Scan(s), c);
      TrimEnds(Lines(Scan(s)), c);
    }
  }

  lemma {:induction false} StripTrimLeft(s: string)
    ensures Strip(TrimLeft(s)) == Strip(s)
  {
    if s == "" || !IsSpace(s[0]) {
    } else {
      StripCons(s[0], s[1..]);
      assert [s[0]] + s[1..] == s;
      StripTrimLeft(s[1..]);
    }
  }

  lemma {:induction false} StripTrimRight(s: string)
    ensures Strip(TrimRight(s)) == Strip(s)
  {
    if s == "" || !IsSpace(s[|s| - 1]) {
    } else {
      StripSnoc(s[..|s| - 1], s[|s| - 1]);
      assert s[..|s| - 1] + [s[|s| - 1]] == s;
      StripTrimRight(s[..|s| - 1]);
    }
  }

  /** Trimming before stripping changes nothing. */
  lemma StripTrim(s: string)
    ensures Strip(TrimSpace(s)) == Strip(s)
  {
    StripTrimLeft(s);
    StripTrimRight(TrimLeft(s));
  }

  // ---- comments before a statement ----

  /** Every comment opened in t is closed in t. */
  predicate Closed(t: string) {
    Index(Scan(t), "/*") == -1
  }

  lemma IndexCons(c: char, s: string)
    requires Index([c] + s, "/*") == -1
    ensures Index(s, "/*") == -1
  {
    forall j | 0 <= j ensures !OccursAt(s, "/*", j) {
      MarkAt(s, '/', '*', j);
      MarkAt([c] + s, '/', '*', j + 1);
      assert !OccursAt([c] + s, "/*", j + 1);
    }
  }

  /** The first closing mark of a text that has one is also the first of any longer text. */
  lemma IndexExtends(s: string, more: string)
    requires Index(s, "*/") != -1
    ensures Index(s + more, "*/") == Index(s, "*/")
  {
    var i := Index(s, "*/");
    forall j | 0 <= j <= i ensures OccursAt(s + more, "*/", j) <==> OccursAt(s, "*/", j) {
      MarkAt(s, '*', '/', j);
      MarkAt(s + more, '*', '/', j);
      MarkAt(s, '*', '/', i);
    }
    IndexIs(s + more, "*/", i);
  }

  lemma CommentStays(t: string, more: string, end: nat)
    requires OccursAt(t, "/*", 0) && Index(t, "*/") == end
    ensures end + 2 <= |t| && OccursAt(t + more, "/*", 0) && Index(t + more, "*/") == end
  {
    MarkAt(t, '/', '*', 0);
    MarkAt(t + more, '/', '*', 0);
    IndexExtends(t, more);
    CommentSpan(t, end);
  }

  /** A comment closed in t scans to one space whatever follows t. */
  lemma CommentExtends(t: string, more: string, end: nat)
    requires OccursAt(t, "/*", 0) && Index(t, "*/") == end
    ensures end + 2 <= |t| && Scan(t) == " " + Scan(t[end + 2..])
    ensures Scan(t + more) == " " + Scan(t[end + 2..] + more)
  {
    CommentStays(t, more, end);
    ScanComment(t, end);
    ScanComment(t + more, end);
    assert (t + more)[end + 2..] == t[end + 2..] + more;
  }

  /** A scan goes through a closed text before it reads what follows. */
  lemma {:induction false} ScanClosed(t: string, more: string, v: string)
    requires Closed(t) && more != "" && more[0] != '/' && more[0] != '*' && v == Scan(more)
    ensures Scan(t + more) == Scan(t) + v
    decreases |t|
  {
    if t == "" {
      assert t + more == more;
    } else if OccursAt(t, "/*", 0) {
      var end := Index(t, "*/");
      if end != -1 {
        CommentExtends(t, more, end);
        IndexCons(' ', Scan(t[end + 2..]));
        ScanClosed(t[end + 2..], more, v);
        Associate(" ", Scan(t[end + 2..]), v, "");
      }
    } else {
      NoCommentExtends(t, more);
      IndexCons(t[0], Scan(t[1..]));
      ScanClosed(t[1..], more, v);
      Associate([t[0]], Scan(t[1..]), v, "");
    }
  }

  lemma NoCommentExtends(t: string, more: string)
    requires t != "" && !OccursAt(t, "/*", 0)
    requires |t| == 1 ==> more == "" || more[0] != '*'
    ensures Scan(t) == [t[0]] + Scan(t[1..])
    ensures Scan(t + more) == [t[0]] + Scan(t[1..] + more)
  {
    MarkAt(t, '/', '*', 0);
    MarkAt(t + more, '/', '*', 0);
    assert (t + more)[1..] == t[1..] + more;
  }

  lemma {:induction false} ScanAddsOnlySpaces(s: string, c: char)
    requires c !in s && c != ' '
    ensures c !in Scan(s)
    decreases |s|
  {
    if s == "" {
    } else if OccursAt(s, "/*", 0) {
      var end := Index(s, "*/");
      if end != -1 { ScanAddsOnlySpaces(s[end + 2..], c); }
    } else {
      ScanAddsOnlySpaces(s[1..], c);
    }
  }

  /** One line that begins with the mark of a line comment is cut to nothing. */
  lemma CutToNothing(t: string)
    requires '\n' !in t
    ensures Lines("--" + t) == ""
  {
    SplitWord("--" + t, '\n');
    MarkAt("--" + t, '-', '-', 0);
    IndexIs("--" + t, "--", 0);
    assert CutAll(["--" + t]) == [""];
  }

  lemma ScanDashes(t: string)
    ensures Scan("--" + t) == "--" + Scan(t)
  {
    ScanCons('-', t);
    ScanCons('-', "-" + t);
    assert "--" + t == "-" + ("-" + t);
    assert "-" + ("-" + Scan(t)) == "--" + Scan(t);
  }

  lemma ScanLineComment(t: string, q: string)
    requires Closed(t)
    ensures Scan("--" + t + "\n" + q) == "--" + Scan(t) + "\n" + Scan(q)
  {
    ScanCons('\n', q);
    ScanClosed(t, "\n" + q, "\n" + Scan(q));
    ScanDashes(t + ("\n" + q));
    Associate("--", t, "\n", q);
    Associate("--", Scan(t), "\n", Scan(q));
  }

  lemma StripLineComment(t: string, q: string)
    requires '\n' !in t && Closed(t)
    ensures Strip("--" + t + "\n" + q) == Strip(q)
  {
    ScanLineComment(t, q);
    ScanAddsOnlySpaces(t, '\n');
    CutToNothing(Scan(t));
    LinesAcross("--" + Scan(t), Scan(q));
    assert "" + " " + Lines(Scan(q)) == [' '] + Lines(Scan(q));
    TrimEnds(Lines(Scan(q)), ' ');
  }

  lemma StillOpen(c: char, s: string)
    requires Index([c] + s, "/*") != -1 && !(c == '/' && s != "" && s[0] == '*')
    ensures Index(s, "/*") != -1
  {
    var i := Index([c] + s, "/*");
    MarkAt([c] + s, '/', '*', i);
    MarkAt(s, '/', '*', i - 1);
  }

  /** An opened comment swallows the line break and the statement up to its closing mark. */
  lemma {:induction false} ScanSwallows(t: string)
    requires '\n' !in t && !Closed(t)
    ensures '\n' !in Scan(t + "\nSELECT*/")
    decreases |t|
  {
    var more := "\nSELECT*/";
    if t == "" {
    } else if OccursAt(t, "/*", 0) {
      var end := Index(t, "*/");
      if end == -1 {
        SwallowedTo(t);
      } else {
        CommentExtends(t, more, end);
        StillOpen(' ', Scan(t[end + 2..]));
        ScanSwallows(t[end + 2..]);
      }
    } else {
      MarkAt(t, '/', '*', 0);
      NoCommentExtends(t, more);
      ScanFirst(t[1..]);
      StillOpen(t[0], Scan(t[1..]));
      ScanSwallows(t[1..]);
    }
  }

  lemma SwallowedTo(t: string)
    requires OccursAt(t, "/*", 0) && Index(t, "*/") == -1
    ensures Scan(t + "\nSELECT*/") == " "
  {
    var s := t + "\nSELECT*/";
    FirstAfter(t, s);
    MarkAt(t, '/', '*', 0);
    MarkAt(s, '/', '*', 0);
    ScanComment(s, |t| + 7);
    assert s[|t| + 9..] == "";
  }

  lemma FirstAfter(t: string, s: string)
    requires Index(t, "*/") == -1 && s == t + "\nSELECT*/"
    ensures Index(s, "*/") == |t| + 7
  {
    forall j | 0 <= j < |t| + 7 ensures !OccursAt(s, "*/", j) {
      MarkAt(s, '*', '/', j);
      MarkAt(t, '*', '/', j);
    }
    MarkAt(s, '*', '/', |t| + 7);
    IndexIs(s, "*/", |t| + 7);
  }

  lemma LineCommentIsIgnored(t: string, q: string)
    requires '\n' !in t && Closed(t)
    ensures Accepts("--" + t + "\n" + q) == Accepts(q)
  {
    StripTrim("--" + t + "\n" + q);
    StripLineComment(t, q);
    StripTrim(q);
  }

  /** A line comment before any statement is ignored, whatever the statement, exactly when
      every block comment opened in it is closed in it. */
  lemma LineCommentIsIgnoredIffClosed(t: string)
    requires '\n' !in t
    ensures (forall q :: Accepts("--" + t + "\n" + q) == Accepts(q)) <==> Closed(t)
  {
    if Closed(t) {
      forall q { LineCommentIsIgnored(t, q); }
    } else {
      var q := UnclosedIsNotIgnored(t);
    }
  }

  lemma UnclosedIsNotIgnored(t: string) returns (q: string)
    requires '\n' !in t && !Closed(t)
    ensures Accepts("--" + t + "\n" + q) != Accepts(q)
  {
    q := "SELECT*/";
    SwallowedIsRejected(t);
    KeywordIsAccepted();
  }

  lemma KeywordIsAccepted()
    ensures Accepts("SELECT*/")
  {
    var p := "SELECT";
    assert p + "*/" == "SELECT*/";
    assert Upper(p) == p;
    KeywordIsSolid(p);
    StatementIsAccepted(p, "*/");
  }

  lemma SwallowedIsRejected(t: string)
    requires '\n' !in t && !Closed(t)
    ensures !Accepts("--" + t + "\n" + "SELECT*/")
  {
    var s := t + "\nSELECT*/";
    ScanSwallows(t);
    ScanDashes(s);
    CutToNothing(Scan(s));
    assert "--" + t + "\n" + "SELECT*/" == "--" + s;
    StripTrim("--" + s);
    assert Strip("--" + s) == "";
  }

  /** The text of a comment that its own closing mark ends. */
  predicate EndsAtItsMark(t: string) {
    Index(t, "*/") == -1 && !("/" <= t)
  }

  lemma BlockCommentEnds(t: string, q: string)
    requires EndsAtItsMark(t)
    ensures Index("/*" + t + "*/" + q, "*/") == |t| + 2
    ensures OccursAt("/*" + t + "*/" + q, "/*", 0)
  {
    var s := "/*" + t + "*/" + q;
    MarkAt(s, '/', '*', 0);
    MarkAt(s, '*', '/', |t| + 2);
    forall j | 0 <= j < |t| + 2 ensures !OccursAt(s, "*/", j) {
      MarkAt(s, '*', '/', j);
      MarkAt(t, '*', '/', j - 2);
    }
    IndexIs(s, "*/", |t| + 2);
  }

  lemma StripBlockComment(t: string, q: string)
    requires EndsAtItsMark(t)
    ensures Strip("/*" + t + "*/" + q) == Strip(q)
  {
    var s := "/*" + t + "*/" + q;
    BlockCommentEnds(t, q);
    ScanComment(s, |t| + 2);
    assert s[|t| + 4..] == q;
    ScanCons(' ', q);
    StripCons(' ', q);
  }

  /** What may stand before a statement. */
  datatype Trivia = Blank(c: char) | LineComment(text: string) | BlockComment(text: string)
  {
    predicate Harmless() {
      match this
      case Blank(c) => IsSpace(c)
      case LineComment(t) => '\n' !in t && Closed(t)
      case BlockComment(t) => EndsAtItsMark(t)
    }

    function Text(): string {
      match this
      case Blank(c) => [c]
      case LineComment(t) => "--" + t + "\n"
      case BlockComment(t) => "/*" + t + "*/"
    }
  }

  function Before(ts: seq<Trivia>, query: string): string {
    if ts == [] then query else ts[0].Text() + Before(ts[1..], query)
  }

  /** Any number of blanks and comments before a statement leaves the verdict on it, and
      even the stripped text, as they were. */
  lemma {:induction false} VerdictIgnoresTrivia(ts: seq<Trivia>, q: string)
    requires forall i :: 0 <= i < |ts| ==> ts[i].Harmless()
    ensures Strip(Before(ts, q)) == Strip(q)
    ensures Accepts(Before(ts, q)) == Accepts(q)
  {
    StripTrim(Before(ts, q));
    StripTrim(q);
    if ts == [] {
    } else {
      VerdictIgnoresTrivia(ts[1..], q);
      var rest := Before(ts[1..], q);
      match ts[0]
      case Blank(c) => StripCons(c, rest);
      case LineComment(t) => StripLineComment(t, rest);
      case BlockComment(t) => StripBlockComment(t, rest);
    }
  }

  // ---- the start of a statement survives ----

  /** A start without slashes, dashes or line breaks, and without space at its ends. */
  predicate Solid(p: string) {
    && p != "" && !IsSpace(p[0]) && !IsSpace(p[|p| - 1])
    && '/' !in p && '\n' !in p && p[|p| - 1] != '-' && Index(p, "--") == -1
  }

  lemma KeywordIsSolid(p: string)
    requires Upper(p) == "SELECT"
    ensures Solid(p)
  {
    assert forall i :: 0 <= i < 6 ==> UpperChar(p[i]) == "SELECT"[i];
    forall j | 0 <= j ensures !OccursAt(p, "--", j) {
      MarkAt(p, '-', '-', j);
    }
  }

  lemma {:induction false} SplitStart(p: string, u: string)
    requires '\n' !in p
    ensures Split(p + u, '\n')[0] == p + Split(u, '\n')[0]
  {
    if p == "" {
      assert p + u == u;
    } else {
      SplitStart(p[1..], u);
      assert (p + u)[1..] == p[1..] + u;
    }
  }

  lemma CutKeepsStart(p: string, x: string)
    requires Solid(p)
    ensures p <= CutLine(p + x)
  {
    var i := Index(p + x, "--");
    MarkAt(p + x, '-', '-', i);
    MarkAt(p, '-', '-', i);
  }

  lemma {:induction false} TrimRightKeepsStart(p: string, s: string)
    requires p != "" && !IsSpace(p[|p| - 1]) && p <= s
    ensures p <= TrimRight(s)
  {
    if !IsSpace(s[|s| - 1]) {
    } else {
      TrimRightKeepsStart(p, s[..|s| - 1]);
    }
  }

  lemma StripKeepsStart(p: string, u: string)
    requires Solid(p)
    ensures p <= TrimSpace(Lines(p + u))
  {
    var parts := Split(p + u, '\n');
    SplitStart(p, u);
    CutKeepsStart(p, Split(u, '\n')[0]);
    var cut := CutAll(parts);
    assert cut[0] <= Join(cut, ' ');
    assert p <= Lines(p + u);
    TrimRightKeepsStart(p, Lines(p + u));
  }

  /** A statement starts, after stripping, with what it started with. */
  lemma StatementStart(p: string, u: string)
    requires Solid(p)
    ensures p <= Strip(p + u) && p <= TrimSpace(p + u)
  {
    forall j | 0 <= j < |p| ensures !OccursAt(p + u, "/*", j) {
      MarkAt(p + u, '/', '*', j);
    }
    ScanSkip(p, u);
    StripKeepsStart(p, Scan(u));
    TrimRightKeepsStart(p, p + u);
  }

  /** What starts with a word is accepted exactly if it starts with SELECT or WITH, in any
      case, whatever follows. */
  lemma StartDecides(p: string, u: string)
    requires Solid(p) && |p| >= 6
    ensures Accepts(p + u) <==> Upper(p[..6]) == "SELECT" || Upper(p[..4]) == "WITH"
  {
    StatementStart(p, u);
    StripTrim(p + u);
    StartsAlike(p, Strip(p + u));
  }

  lemma StartsAlike(p: string, s: string)
    requires p <= s && |p| >= 6
    ensures "SELECT" <= Upper(s) <==> Upper(p[..6]) == "SELECT"
    ensures "WITH" <= Upper(s) <==> Upper(p[..4]) == "WITH"
  {
    var upper := Upper(s);
    assert upper[..6] == Upper(p[..6]) && upper[..4] == Upper(p[..4]);
  }

  /** And so is a whole statement that is one trimmed line without comments. */
  lemma CleanIsJudged(q: string)
    requires Clean(q)
    ensures Accepts(q) <==>
              (|q| >= 6 && Upper(q[..6]) == "SELECT") || (|q| >= 4 && Upper(q[..4]) == "WITH")
  {
    StripFixesExactlyClean(q);
    var upper := Upper(q);
    if |q| >= 6 { assert upper[..6] == Upper(q[..6]); }
    if |q| >= 4 { assert upper[..4] == Upper(q[..4]); }
  }

  lemma StatementIsAccepted(p: string, u: string)
    requires Solid(p) && "SELECT" <= Upper(p)
    ensures Accepts(p + u)
  {
    StatementStart(p, u);
    StripTrim(p + u);
    assert Upper(p) <= Upper(Strip(p + u));
  }
}
