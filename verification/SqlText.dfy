/** internal/mdb/query.go, lines 208-230: the comment stripper. */
module SqlText {
  import opened Text

  // ---- strings.TrimSpace ----

  /** `unicode.IsSpace`. */
  predicate IsSpace(c: char) {
    || c in "\t\n\r " || c == '\U{0B}' || c == '\U{0C}' || c == '\U{85}' || c == '\U{A0}' || c == '\U{1680}'
    || '\U{2000}' <= c <= '\U{200A}'
    || c == '\U{2028}' || c == '\U{2029}' || c == '\U{202F}' || c == '\U{205F}' || c == '\U{3000}'
  }

  function TrimLeft(s: string): string {
    if s != "" && IsSpace(s[0]) then TrimLeft(s[1..]) else s
  }

  function TrimRight(s: string): string {
    if s != "" && IsSpace(s[|s| - 1]) then TrimRight(s[..|s| - 1]) else s
  }

  function TrimSpace(s: string): string {
    TrimRight(TrimLeft(s))
  }

  predicate AllSpace(s: string) {
    forall i :: 0 <= i < |s| ==> IsSpace(s[i])
  }

  lemma {:induction false} TrimLeftMeaning(s: string) returns (front: string)
    ensures s == front + TrimLeft(s) && AllSpace(front)
  {
    if s == "" || !IsSpace(s[0]) {
      front := "";
    } else {
      var rest := TrimLeftMeaning(s[1..]);
      front := [s[0]] + rest;
      assert s == [s[0]] + s[1..];
    }
  }

  lemma {:induction false} TrimRightMeaning(s: string) returns (back: string)
    ensures s == TrimRight(s) + back && AllSpace(back)
  {
    if s == "" || !IsSpace(s[|s| - 1]) {
      back := "";
    } else {
      var rest := TrimRightMeaning(s[..|s| - 1]);
      back := rest + [s[|s| - 1]];
      assert s == s[..|s| - 1] + [s[|s| - 1]];
    }
  }

  // ---- block comments ----

  /** One left-to-right pass: each closed comment becomes one space; from a comment that is
      never closed the text is kept. As in the code, the closing mark is looked for from the
      opening mark on, so that the star of the opening may serve both. */
  function Scan(s: string): string
    decreases |s|
  {
    if s == "" then ""
    else if OccursAt(s, "/*", 0) then
      var end := Index(s, "*/");
      if end == -1 then s else " " + Scan(s[end + 2..])
    else [s[0]] + Scan(s[1..])
  }

  /** Where a two-character mark occurs, read character by character. */
  lemma MarkAt(s: string, a: char, b: char, i: int)
    ensures OccursAt(s, [a, b], i) <==> 0 <= i && i + 1 < |s| && s[i] == a && s[i + 1] == b
  {
    if 0 <= i && i + 2 <= |s| {
      assert s[i..i + 2] == [s[i], s[i + 1]];
    }
  }

  /** Text in which no comment starts before rest is passed over unchanged. */
  lemma {:induction false} ScanSkip(pre: string, rest: string)
    requires forall j :: 0 <= j < |pre| ==> !OccursAt(pre + rest, "/*", j)
    ensures Scan(pre + rest) == pre + Scan(rest)
  {
    var s := pre + rest;
    if pre == "" {
      assert s == rest;
    } else {
      assert s == [pre[0]] + (pre[1..] + rest);
      forall j | 0 <= j < |pre[1..]| ensures !OccursAt(pre[1..] + rest, "/*", j) {
        MarkAt(pre[1..] + rest, '/', '*', j);
        MarkAt(s, '/', '*', j + 1);
        assert !OccursAt(s, "/*", j + 1);
      }
      ScanSkip(pre[1..], rest);
      assert !OccursAt(s, "/*", 0);
      assert s[1..] == pre[1..] + rest;
    }
  }

  /** A text that never opens a comment, ended by a character that is not a slash. */
  lemma ScanPast(pre: string, c: char, rest: string)
    requires Index(pre, "/*") == -1 && c != '/' && c != '*'
    ensures Scan(pre + [c] + rest) == pre + [c] + Scan(rest)
  {
    forall j | 0 <= j < |pre + [c]| ensures !OccursAt((pre + [c]) + rest, "/*", j) {
      MarkAt(pre, '/', '*', j);
      MarkAt(pre + [c] + rest, '/', '*', j);
      assert j <= |pre| ==> !OccursAt(pre, "/*", j);
    }
    ScanSkip(pre + [c], rest);
  }

  /** Before its first occurrence a mark does not occur. */
  lemma BeforeFirst(s: string, start: nat)
    requires Index(s, "/*") == start
    ensures start <= |s| && Index(s[..start], "/*") == -1 && OccursAt(s[start..], "/*", 0)
  {
    MarkAt(s, '/', '*', start);
    MarkAt(s[start..], '/', '*', 0);
    forall j | 0 <= j ensures !OccursAt(s[..start], "/*", j) {
      MarkAt(s[..start], '/', '*', j);
      MarkAt(s, '/', '*', j);
      assert j < start ==> !OccursAt(s, "/*", j);
    }
  }

  /** A scan copies what stands before the first comment. */
  lemma ScanToFirst(s: string, start: nat)
    requires Index(s, "/*") == start
    ensures start <= |s| && Scan(s) == s[..start] + Scan(s[start..])
  {
    assert s == s[..start] + s[start..];
    ScanSkip(s[..start], s[start..]);
  }

  /** The closing mark comes after the first character of the opening one. */
  lemma CommentSpan(comment: string, end: nat)
    requires OccursAt(comment, "/*", 0) && OccursAt(comment, "*/", end)
    ensures 1 <= end && end + 2 <= |comment|
  {
    MarkAt(comment, '/', '*', 0);
    MarkAt(comment, '*', '/', end);
  }

  /** A closed comment at the beginning scans to one space. */
  lemma ScanComment(comment: string, end: nat)
    requires OccursAt(comment, "/*", 0) && Index(comment, "*/") == end
    ensures end + 2 <= |comment| && Scan(comment) == " " + Scan(comment[end + 2..])
  {
  }

  /** Removing the first closed comment does not change what a scan of the whole yields. */
  lemma ScanRestarts(s: string, start: nat, end: nat)
    requires Index(s, "/*") == start && Index(s[start..], "*/") == end
    ensures start + end + 2 <= |s| && end >= 1
    ensures Scan(s[..start] + " " + s[start + end + 2..]) == Scan(s)
    ensures |s[..start] + " " + s[start + end + 2..]| < |s|
  {
    var pre, comment := s[..start], s[start..];
    BeforeFirst(s, start);
    ScanToFirst(s, start);
    CommentSpan(comment, end);
    ScanComment(comment, end);
    Rejoin(pre, comment[end + 2..]);
    assert comment[end + 2..] == s[start + end + 2..];
  }

  /** sub occurs in s at i for the first time. */
  predicate FirstAt(s: string, sub: string, i: int) {
    OccursAt(s, sub, i) && forall j :: 0 <= j < i ==> !OccursAt(s, sub, j)
  }

  /** A text without a comment that is opened and then closed is scanned unchanged; in any
      other the first comment can be replaced by a space. These equations fix what a scan
      yields. */
  lemma ScanMeaning(s: string)
    ensures (forall i :: !OccursAt(s, "/*", i)) ==> Scan(s) == s
    ensures forall start :: FirstAt(s, "/*", start) && (forall e :: !OccursAt(s[start..], "*/", e)) ==> Scan(s) == s
    ensures forall start, e :: FirstAt(s, "/*", start) && FirstAt(s[start..], "*/", e) ==>
              start + e + 2 <= |s| && Scan(s) == Scan(s[..start] + " " + s[start + e + 2..])
  {
    if Index(s, "/*") == -1 {
      NoOpenScan(s);
    }
    forall start | FirstAt(s, "/*", start) && (forall e :: !OccursAt(s[start..], "*/", e)) ensures Scan(s) == s {
      IndexIs(s, "/*", start);
      UnclosedScan(s, start);
    }
    forall start, e | FirstAt(s, "/*", start) && FirstAt(s[start..], "*/", e)
      ensures start + e + 2 <= |s| && Scan(s) == Scan(s[..start] + " " + s[start + e + 2..])
    {
      IndexIs(s, "/*", start);
      IndexIs(s[start..], "*/", e);
      ScanRestarts(s, start, e);
    }
  }

  lemma Associate(a: string, b: string, c: string, d: string)
    ensures a + (b + c) == a + b + c
    ensures a + (b + (c + d)) == a + b + c + d
  {
  }

  lemma Rejoin(pre: string, rest: string)
    requires Index(pre, "/*") == -1
    ensures Scan(pre + " " + rest) == pre + (" " + Scan(rest))
  {
    ScanPast(pre, ' ', rest);
    Associate(pre, " ", Scan(rest), "");
  }

  // ---- line comments ----

  function CutLine(line: string): string {
    var idx := Index(line, "--");
    if idx >= 0 then line[..idx] else line
  }

  function CutAll(lines: seq<string>): (r: seq<string>)
    ensures |r| == |lines|
    ensures forall i :: 0 <= i < |lines| ==> r[i] == CutLine(lines[i])
  {
    seq(|lines|, i requires 0 <= i < |lines| => CutLine(lines[i]))
  }

  function Lines(s: string): string {
    Join(CutAll(Split(s, '\n')), ' ')
  }

  /** The text without comments, on one line, trimmed. */
  function Strip(s: string): string {
    TrimSpace(Lines(Scan(s)))
  }

  lemma CutLines(lines: seq<string>, original: seq<string>)
    requires |lines| == |original| && forall j :: 0 <= j < |lines| ==> lines[j] == CutLine(original[j])
    ensures lines == CutAll(original)
  {
  }

  /** The code: it searches from the beginning again after every removal. */
  method StripSQLComments(query: string) returns (r: string)
    ensures r == Strip(query)
  {
    var s := query;
    while true
      invariant Scan(s) == Scan(query)
      decreases |s|
    {
      var start := Index(s, "/*");
      if start == -1 {
        NoOpenScan(s);
        break;
      }
      var end := Index(s[start..], "*/");
      if end == -1 {
        UnclosedScan(s, start);
        break;
      }
      ScanRestarts(s, start, end);
      s := s[..start] + " " + s[start + end + 2..];
    }
    assert s == Scan(query);
    var lines := Split(s, '\n');
    ghost var original := lines;
    for i := 0 to |lines|
      invariant |lines| == |original|
      invariant forall j :: 0 <= j < i ==> lines[j] == CutLine(original[j])
      invariant forall j :: i <= j < |lines| ==> lines[j] == original[j]
    {
      var idx := Index(lines[i], "--");
      if idx >= 0 {
        lines := lines[i := lines[i][..idx]];
      }
    }
    CutLines(lines, original);
    r := TrimSpace(Join(lines, ' '));
  }

  lemma NoOpenScan(s: string)
    requires Index(s, "/*") == -1
    ensures Scan(s) == s
  {
    assert s + "" == s;
    ScanSkip(s, "");
  }

  lemma UnclosedScan(s: string, start: nat)
    requires Index(s, "/*") == start && Index(s[start..], "*/") == -1
    ensures Scan(s) == s
  {
    BeforeFirst(s, start);
    ScanToFirst(s, start);
  }

  // ---- what is left contains no comment ----

  /** No comment is opened and later closed. */
  ghost predicate NoBlock(s: string) {
    forall i, j :: 0 <= i < j && OccursAt(s, "/*", i) ==> !OccursAt(s, "*/", j)
  }

  lemma ConsNoBlock(c: char, s: string)
    requires NoBlock(s) && !(c == '/' && s != "" && s[0] == '*')
    ensures NoBlock([c] + s)
  {
    var t := [c] + s;
    forall i, j | 0 <= i < j && OccursAt(t, "/*", i) ensures !OccursAt(t, "*/", j) {
      MarkAt(t, '/', '*', i);
      MarkAt(t, '*', '/', j);
      MarkAt(s, '/', '*', i - 1);
      MarkAt(s, '*', '/', j - 1);
    }
  }

  lemma TailNoBlock(s: string)
    requires s != "" && NoBlock(s)
    ensures NoBlock(s[1..])
  {
    forall i, j | 0 <= i < j && OccursAt(s[1..], "/*", i) ensures !OccursAt(s[1..], "*/", j) {
      MarkAt(s[1..], '/', '*', i);
      MarkAt(s[1..], '*', '/', j);
      MarkAt(s, '/', '*', i + 1);
      MarkAt(s, '*', '/', j + 1);
    }
  }

  lemma ScanFirst(s: string)
    ensures Scan(s) != "" ==> s != "" && (Scan(s)[0] == s[0] || Scan(s)[0] == ' ')
  {
  }

  lemma {:induction false} ScanNoBlock(s: string)
    ensures NoBlock(Scan(s))
    decreases |s|
  {
    if s == "" {
    } else if OccursAt(s, "/*", 0) {
      var end := Index(s, "*/");
      if end == -1 {
      } else {
        ScanNoBlock(s[end + 2..]);
        ConsNoBlock(' ', Scan(s[end + 2..]));
      }
    } else {
      ScanNoBlock(s[1..]);
      ScanFirst(s[1..]);
      MarkAt(s, '/', '*', 0);
      ConsNoBlock(s[0], Scan(s[1..]));
    }
  }

  /** A comment opened at the beginning of such a text is never closed. */
  lemma OpenStaysOpen(s: string)
    requires NoBlock(s) && OccursAt(s, "/*", 0)
    ensures Index(s, "*/") == -1
  {
    MarkAt(s, '/', '*', 0);
    MarkAt(s, '*', '/', 0);
    forall j | 0 <= j ensures !OccursAt(s, "*/", j) {
    }
  }

  lemma {:induction false} NoBlockScan(s: string)
    requires NoBlock(s)
    ensures Scan(s) == s
  {
    if s == "" {
    } else if OccursAt(s, "/*", 0) {
      OpenStaysOpen(s);
    } else {
      TailNoBlock(s);
      NoBlockScan(s[1..]);
    }
  }

  ghost predicate Has(s: string, sub: string) {
    exists i :: OccursAt(s, sub, i)
  }

  /** A two-character mark does not reach across a character it does not contain. */
  lemma MarkAcross(x: string, sep: char, y: string, a: char, b: char, i: int)
    requires sep != a && sep != b
    ensures OccursAt(x + [sep] + y, [a, b], i) <==> OccursAt(x, [a, b], i) || OccursAt(y, [a, b], i - |x| - 1)
  {
    MarkAt(x + [sep] + y, a, b, i);
    MarkAt(x, a, b, i);
    MarkAt(y, a, b, i - |x| - 1);
  }

  lemma HasAcross(x: string, sep: char, y: string, a: char, b: char)
    requires sep != a && sep != b
    ensures Has(x + [sep] + y, [a, b]) <==> Has(x, [a, b]) || Has(y, [a, b])
  {
    var t, m := x + [sep] + y, [a, b];
    if i :| OccursAt(x, m, i) {
      MarkAcross(x, sep, y, a, b, i);
      assert OccursAt(t, m, i);
    }
    if i :| OccursAt(y, m, i) {
      MarkAcross(x, sep, y, a, b, |x| + 1 + i);
      assert OccursAt(t, m, |x| + 1 + i);
    }
    if i :| OccursAt(t, m, i) {
      MarkAcross(x, sep, y, a, b, i);
    }
  }

  lemma NoBlockLeft(x: string, sep: char, y: string, i: int, j: int)
    requires sep != '/' && sep != '*' && NoBlock(x + [sep] + y)
    requires 0 <= i < j && OccursAt(x, "/*", i)
    ensures !OccursAt(x, "*/", j) && !OccursAt(y, "*/", j - |x| - 1)
  {
    MarkAcross(x, sep, y, '/', '*', i);
    MarkAcross(x, sep, y, '*', '/', j);
  }

  lemma NoBlockSides(x: string, sep: char, y: string)
    requires sep != '/' && sep != '*' && NoBlock(x + [sep] + y)
    ensures NoBlock(x) && NoBlock(y) && !(Has(x, "/*") && Has(y, "*/"))
  {
    var t, n := x + [sep] + y, |x| + 1;
    forall i, j | 0 <= i < j && OccursAt(x, "/*", i) ensures !OccursAt(x, "*/", j) {
      NoBlockLeft(x, sep, y, i, j);
    }
    forall i, j | OccursAt(x, "/*", i) && OccursAt(y, "*/", j) ensures false {
      NoBlockLeft(x, sep, y, i, n + j);
    }
    forall i, j | 0 <= i < j && OccursAt(y, "/*", i) ensures !OccursAt(y, "*/", j) {
      MarkAcross(x, sep, y, '/', '*', n + i);
      MarkAcross(x, sep, y, '*', '/', n + j);
      assert OccursAt(t, "/*", n + i);
    }
  }

  lemma NoBlockAcross(x: string, sep: char, y: string)
    requires sep != '/' && sep != '*'
    requires NoBlock(x) && NoBlock(y) && !(Has(x, "/*") && Has(y, "*/"))
    ensures NoBlock(x + [sep] + y)
  {
    var t := x + [sep] + y;
    forall i, j | 0 <= i < j && OccursAt(t, "/*", i) ensures !OccursAt(t, "*/", j) {
      MarkAcross(x, sep, y, '/', '*', i);
      MarkAcross(x, sep, y, '*', '/', j);
    }
  }

  /** A slice has no mark the whole has not. */
  lemma SliceMark(s: string, lo: nat, hi: nat, a: char, b: char, i: int)
    requires lo <= hi <= |s| && OccursAt(s[lo..hi], [a, b], i)
    ensures OccursAt(s, [a, b], lo + i)
  {
    MarkAt(s[lo..hi], a, b, i);
    MarkAt(s, a, b, lo + i);
  }

  lemma SliceNoBlock(s: string, lo: nat, hi: nat)
    requires lo <= hi <= |s| && NoBlock(s)
    ensures NoBlock(s[lo..hi])
  {
    forall i, j | 0 <= i < j && OccursAt(s[lo..hi], "/*", i) ensures !OccursAt(s[lo..hi], "*/", j) {
      SliceMark(s, lo, hi, '/', '*', i);
      if OccursAt(s[lo..hi], "*/", j) { SliceMark(s, lo, hi, '*', '/', j); }
    }
  }

  /** A line is cut where its first line comment starts. */
  lemma CutLineMeaning(line: string)
    ensures CutLine(line) <= line && !Has(CutLine(line), "--")
    ensures !Has(line, "--") ==> CutLine(line) == line
    ensures Has(line, "--") ==> OccursAt(line, "--", |CutLine(line)|)
  {
    var n := |CutLine(line)|;
    assert CutLine(line) == line[0..n];
    forall i ensures !OccursAt(CutLine(line), "--", i) {
      if OccursAt(CutLine(line), "--", i) { SliceMark(line, 0, n, '-', '-', i); }
    }
  }

  /** Cutting the lines and joining them with spaces opens no closed comment, leaves no
      line comment, and leaves no line break. */
  lemma {:induction false} CutKeepsNoBlock(lines: seq<string>)
    requires lines != [] && NoBlock(Join(lines, '\n')) && Free(lines, '\n')
    ensures var cut := Join(CutAll(lines), ' ');
            && NoBlock(cut) && !Has(cut, "--") && '\n' !in cut
            && (Has(cut, "*/") ==> Has(Join(lines, '\n'), "*/"))
  {
    var line, cl := lines[0], CutLine(lines[0]);
    CutLineMeaning(line);
    assert cl == line[0..|cl|];
    if |lines| == 1 {
      SliceNoBlock(line, 0, |cl|);
      if i :| OccursAt(cl, "*/", i) { SliceMark(line, 0, |cl|, '*', '/', i); }
    } else {
      var rest := lines[1..];
      assert CutAll(lines)[1..] == CutAll(rest);
      NoBlockSides(line, '\n', Join(rest, '\n'));
      HasAcross(line, '\n', Join(rest, '\n'), '*', '/');
      CutKeepsNoBlock(rest);
      SliceNoBlock(line, 0, |cl|);
      if i :| OccursAt(cl, "*/", i) { SliceMark(line, 0, |cl|, '*', '/', i); }
      if i :| OccursAt(cl, "/*", i) { SliceMark(line, 0, |cl|, '/', '*', i); }
      var more := Join(CutAll(rest), ' ');
      NoBlockAcross(cl, ' ', more);
      HasAcross(cl, ' ', more, '*', '/');
      HasAcross(cl, ' ', more, '-', '-');
    }
  }

  lemma {:induction false} TrimLeftIsSlice(s: string) returns (n: nat)
    ensures n <= |s| && TrimLeft(s) == s[n..]
    ensures TrimLeft(s) != "" ==> !IsSpace(TrimLeft(s)[0])
  {
    if s == "" || !IsSpace(s[0]) {
      n := 0;
    } else {
      n := TrimLeftIsSlice(s[1..]);
      n := n + 1;
    }
  }

  lemma {:induction false} TrimRightIsSlice(s: string)
    ensures TrimRight(s) <= s
    ensures TrimRight(s) != "" ==> !IsSpace(TrimRight(s)[|TrimRight(s)| - 1])
  {
    if s == "" || !IsSpace(s[|s| - 1]) {
    } else {
      TrimRightIsSlice(s[..|s| - 1]);
    }
  }

  lemma TrimSpaceIsSlice(s: string) returns (lo: nat, hi: nat)
    ensures lo <= hi <= |s| && TrimSpace(s) == s[lo..hi]
    ensures TrimSpace(TrimSpace(s)) == TrimSpace(s)
  {
    lo := TrimLeftIsSlice(s);
    TrimRightIsSlice(TrimLeft(s));
    hi := lo + |TrimSpace(s)|;
    assert s[lo..hi] == s[lo..][..|TrimSpace(s)|];
    var t := TrimSpace(s);
    assert t != "" ==> t[0] == TrimLeft(s)[0];
  }

  /** Trimming takes white space off both ends, and all of it. */
  lemma TrimSpaceMeaning(s: string) returns (front: string, back: string)
    ensures s == front + TrimSpace(s) + back && AllSpace(front) && AllSpace(back)
    ensures TrimSpace(s) != "" ==> !IsSpace(TrimSpace(s)[0]) && !IsSpace(TrimSpace(s)[|TrimSpace(s)| - 1])
  {
    front := TrimLeftMeaning(s);
    back := TrimRightMeaning(TrimLeft(s));
    var n := TrimLeftIsSlice(s);
    TrimRightIsSlice(TrimLeft(s));
    Associate(front, TrimSpace(s), back, "");
  }

  /** One line, trimmed, without line comments or closed block comments. */
  ghost predicate Clean(s: string) {
    '\n' !in s && !Has(s, "--") && NoBlock(s) && TrimSpace(s) == s
  }

  /** What the stripper returns is clean. */
  lemma StripIsClean(s: string)
    ensures Clean(Strip(s))
  {
    var t := Scan(s);
    ScanNoBlock(s);
    SplitFree(t, '\n');
    JoinSplit(t, '\n');
    CutKeepsNoBlock(Split(t, '\n'));
    var u := Lines(t);
    var lo, hi := TrimSpaceIsSlice(u);
    SliceNoBlock(u, lo, hi);
    if i :| OccursAt(u[lo..hi], "--", i) { SliceMark(u, lo, hi, '-', '-', i); }
  }

  /** Exactly the clean texts are left as they are; so stripping twice is stripping once. */
  lemma StripFixesExactlyClean(s: string)
    ensures Strip(s) == s <==> Clean(s)
    ensures Strip(Strip(s)) == Strip(s)
  {
    StripIsClean(s);
    if Clean(s) { CleanIsFixed(s); }
    CleanIsFixed(Strip(s));
  }

  lemma CleanIsFixed(s: string)
    requires Clean(s)
    ensures Strip(s) == s
  {
    NoBlockScan(s);
    SplitWord(s, '\n');
    CutLineMeaning(s);
    assert CutAll([s]) == [s];
  }
}
