/** internal/mdb/query.go, lines 232-244: the row cap inserted into a SELECT statement. */
module RowCap {
  import opened Text
  import opened SqlText
  import opened Verdict

  function Digits(n: nat): string {
    if n < 10 then [('0' as int + n) as char] else Digits(n / 10) + Digits(n % 10)
  }

  /** `fmt.Sprintf("%d", n)`. */
  function Itoa(n: int): string {
    if n < 0 then "-" + Digits(-n) else Digits(n)
  }

  const SELECT := "SELECT"
  const SELECT_TOP := "SELECT TOP"

  predicate HasTop(query: string) {
    var upper := Upper(TrimSpace(query));
    Contains(upper, " TOP ") || SELECT_TOP <= upper
  }

  predicate IsSelect(query: string) {
    SELECT <= Upper(TrimSpace(query))
  }

  lemma {:induction false} TrimIsNoLonger(s: string)
    ensures |TrimSpace(s)| <= |s|
  {
    var lo, hi := TrimSpaceIsSlice(s);
  }

  /** The cap goes in after the sixth character of the text as it came, while the tests
      look at the trimmed text. */
  function EnforceTopN(query: string, n: int): string {
    if HasTop(query) || !IsSelect(query) then query
    else
      TrimIsNoLonger(query);
      "SELECT TOP " + Itoa(n) + query[6..]
  }

  /** The text sent is the text received exactly if that is no SELECT, starts with SELECT TOP,
      or holds a TOP between blanks, in any case and apart from white space around it;
      otherwise it is SELECT TOP, the cap, and the text from its seventh character on. */
  lemma SentExactly(q: string, n: int, upper: string)
    requires upper == Upper(TrimSpace(q))
    ensures EnforceTopN(q, n) == q <==>
              !("SELECT" <= upper) || "SELECT TOP" <= upper || exists i :: OccursAt(upper, " TOP ", i)
    ensures EnforceTopN(q, n) != q ==> |q| >= 6 && EnforceTopN(q, n) == "SELECT TOP " + Itoa(n) + q[6..]
  {
    if IsSelect(q) && !HasTop(q) {
      TrimIsNoLonger(q);
      assert |EnforceTopN(q, n)| > |q|;
    }
  }

  // ---- numerals ----

  lemma {:induction false} DigitsAreDigits(n: nat)
    ensures Digits(n) != "" && forall i :: 0 <= i < |Digits(n)| ==> '0' <= Digits(n)[i] <= '9'
  {
    if n < 10 {
    } else {
      DigitsAreDigits(n / 10);
      DigitsAreDigits(n % 10);
    }
  }

  lemma NumeralEnds(n: int)
    ensures var d := Itoa(n);
            && d != "" && '0' <= d[|d| - 1] <= '9'
            && forall i :: 0 <= i < |d| ==> '0' <= d[i] <= '9' || (i == 0 && d[i] == '-')
  {
    DigitsAreDigits(if n < 0 then -n else n);
  }

  lemma CapIsSolid(n: int)
    ensures Solid("SELECT TOP " + Itoa(n))
  {
    var p, d := "SELECT TOP ", Itoa(n);
    NumeralEnds(n);
    assert |p| == 11 && p[0] == 'S';
    assert forall i :: 0 <= i < 11 ==> p[i] in "SELCTOP ";
    forall j | 0 <= j ensures !OccursAt(p + d, "--", j) {
      MarkAt(p + d, '-', '-', j);
    }
  }

  lemma CapStarts(p: string, n: int)
    requires p == "SELECT TOP " + Itoa(n)
    ensures SELECT_TOP <= Upper(p) && SELECT <= Upper(p)
  {
    assert Upper(p)[..10] == SELECT_TOP;
    assert SELECT_TOP[..6] == SELECT;
  }

  // ---- the verdict ----

  /** A statement that starts with the keyword, after trimming, is accepted. */
  lemma SelectIsAccepted(q: string)
    requires IsSelect(q)
    ensures Accepts(q)
  {
    var t := TrimSpace(q);
    assert Upper(t[..6]) == SELECT;
    KeywordIsSolid(t[..6]);
    assert t[..6] + t[6..] == t;
    StatementIsAccepted(t[..6], t[6..]);
    StripTrim(q);
    StripTrim(t);
  }

  /** Capping leaves the verdict as it was, for any cap. */
  lemma CapKeepsVerdict(q: string, n: int)
    ensures Accepts(EnforceTopN(q, n)) == Accepts(q)
  {
    if !HasTop(q) && IsSelect(q) {
      SelectIsAccepted(q);
      TrimIsNoLonger(q);
      CappedIsAccepted(n, q[6..]);
    }
  }

  lemma CappedIsAccepted(n: int, tail: string)
    ensures Accepts("SELECT TOP " + Itoa(n) + tail)
  {
    var p := "SELECT TOP " + Itoa(n);
    CapIsSolid(n);
    CapStarts(p, n);
    StatementIsAccepted(p, tail);
  }

  lemma CappedHasTop(n: int, tail: string)
    ensures HasTop("SELECT TOP " + Itoa(n) + tail)
  {
    CappedStartsTop(n, tail);
  }

  lemma TopIsFound(p: string, tail: string)
    requires Solid(p) && SELECT_TOP <= Upper(p)
    ensures SELECT_TOP <= Upper(TrimSpace(p + tail))
  {
    StatementStart(p, tail);
    assert Upper(p) <= Upper(TrimSpace(p + tail));
  }

  /** The text sent starts with SELECT TOP exactly if the statement is a SELECT that did so
      already or holds no TOP between blanks anywhere. */
  lemma CappedExactly(q: string, n: int)
    ensures SELECT_TOP <= Upper(TrimSpace(EnforceTopN(q, n)))
       <==> IsSelect(q) && (SELECT_TOP <= Upper(TrimSpace(q)) || !Contains(Upper(TrimSpace(q)), " TOP "))
  {
    assert SELECT_TOP[..6] == SELECT;
    if !HasTop(q) && IsSelect(q) {
      TrimIsNoLonger(q);
      CappedStartsTop(n, q[6..]);
    }
  }

  lemma CappedStartsTop(n: int, tail: string)
    ensures SELECT_TOP <= Upper(TrimSpace("SELECT TOP " + Itoa(n) + tail))
  {
    var p := "SELECT TOP " + Itoa(n);
    CapIsSolid(n);
    CapStarts(p, n);
    TopIsFound(p, tail);
  }

  /** A TOP anywhere, even inside a literal, stops the cap: such a statement is accepted and
      sent as it is. */
  lemma LiteralHidesTheCap(tail: string, n: int)
    ensures var q := "SELECT ' TOP '" + tail;
            && Accepts(q) && EnforceTopN(q, n) == q
            && !(SELECT_TOP <= Upper(TrimSpace(EnforceTopN(q, n))))
  {
    var p := "SELECT ' TOP '";
    assert |p| == 14 && p[0] == 'S' && p[13] == '\'';
    assert forall i :: 0 <= i < 14 ==> p[i] in "SELCTOP '";
    forall j | 0 <= j ensures !OccursAt(p, "--", j) {
      MarkAt(p, '-', '-', j);
    }
    assert Upper(p) == p;
    assert SELECT <= Upper(p) by { assert p[..6] == SELECT; }
    StatementIsAccepted(p, tail);
    HiddenTop(p, tail);
  }

  lemma HiddenTop(p: string, tail: string)
    requires p == "SELECT ' TOP '" && Solid(p)
    ensures Contains(Upper(TrimSpace(p + tail)), " TOP ") && !(SELECT_TOP <= Upper(TrimSpace(p + tail)))
  {
    StatementStart(p, tail);
    var u := Upper(TrimSpace(p + tail));
    assert forall i :: 0 <= i < 14 ==> u[i] == UpperChar(p[i]);
    assert u[8..13] == [u[8], u[9], u[10], u[11], u[12]] == " TOP ";
    assert OccursAt(u, " TOP ", 8);
    assert u[7] == '\'' && SELECT_TOP[7] == 'T';
  }

  /** A second cap, whatever its size, changes nothing. */
  lemma CapOnce(q: string, n: int, m: int)
    ensures EnforceTopN(EnforceTopN(q, n), m) == EnforceTopN(q, n)
  {
    if !HasTop(q) && IsSelect(q) {
      TrimIsNoLonger(q);
      CappedHasTop(n, q[6..]);
    }
  }

  /** A capped statement starts with the keyword and the cap; taking the cap out gives back
      the statement without the white space in front, up to the case of its keyword,
      exactly if there was none: otherwise letters of the keyword are left behind it. */
  lemma CapIsInsertedAfterKeywordIffUnindented(q: string, n: int, p: string)
    requires IsSelect(q) && !HasTop(q) && p == "SELECT TOP " + Itoa(n)
    ensures p <= EnforceTopN(q, n)
    ensures Upper(SELECT + EnforceTopN(q, n)[|p|..]) == Upper(TrimLeft(q)) <==> !IsSpace(q[0])
  {
    TrimIsNoLonger(q);
    var t := TrimLeft(q);
    assert EnforceTopN(q, n) == p + q[6..];
    assert (p + q[6..])[|p|..] == q[6..];
    var k := TrimLeftIsSlice(q);
    if IsSpace(q[0]) {
      assert k > 0 by { assert k == 0 ==> t == q; }
      assert |SELECT + q[6..]| == |q| && |t| == |q| - k;
      assert |Upper(SELECT + q[6..])| != |Upper(t)|;
    } else {
      KeywordKept(q);
    }
  }

  lemma KeywordKept(q: string)
    requires IsSelect(q) && q != "" && !IsSpace(q[0])
    ensures |q| >= 6 && Upper(SELECT + q[6..]) == Upper(q)
  {
    TrimRightIsSlice(q);
    var t := TrimSpace(q);
    assert t <= q;
    assert Upper(q)[..6] == SELECT by { assert Upper(t)[..6] == SELECT; }
    assert Upper(SELECT) == SELECT;
    UpperAppend(SELECT, q[6..]);
    UpperAppend(q[..6], q[6..]);
    assert q == q[..6] + q[6..];
    assert Upper(q[..6]) == Upper(q)[..6];
  }

  /** A comment in front hides the keyword from the cap but not from the verdict: such a
      statement is accepted and runs without a cap. */
  lemma CommentHidesTheCap(t: string, q: string, n: int)
    requires EndsAtItsMark(t)
    ensures var c := "/*" + t + "*/" + q;
            && (Accepts(c) <==> Accepts(q))
            && EnforceTopN(c, n) == c
  {
    VerdictIgnoresBlock(t, q);
    SlashIsNoSelect("/*" + t + "*/" + q);
  }

  lemma SlashIsNoSelect(c: string)
    requires c != "" && c[0] == '/'
    ensures !IsSelect(c)
  {
    assert TrimLeft(c) == c;
    TrimRightKeepsStart("/", c);
    assert Upper(TrimSpace(c))[0] == '/';
  }

  lemma VerdictIgnoresBlock(t: string, q: string)
    requires EndsAtItsMark(t)
    ensures Accepts("/*" + t + "*/" + q) == Accepts(q)
  {
    StripBlockComment(t, q);
    StripTrim("/*" + t + "*/" + q);
    StripTrim(q);
  }
}
