/** String operations of Go's `strings` package that the modelled code calls:
    case mapping, substring search, splitting and joining. Case mapping is ASCII. */
module Text {

  function LowerChar(c: char): char {
    if 'A' <= c <= 'Z' then (c as int + 32) as char else c
  }

  function UpperChar(c: char): char {
    if 'a' <= c <= 'z' then (c as int - 32) as char else c
  }

  function Lower(s: string): (r: string)
    ensures |r| == |s|
    ensures forall i :: 0 <= i < |s| ==> r[i] == LowerChar(s[i])
  {
    seq(|s|, i requires 0 <= i < |s| => LowerChar(s[i]))
  }

  function Upper(s: string): (r: string)
    ensures |r| == |s|
    ensures forall i :: 0 <= i < |s| ==> r[i] == UpperChar(s[i])
  {
    seq(|s|, i requires 0 <= i < |s| => UpperChar(s[i]))
  }

  const CAPITALS := "ABCDEFGHIJKLMNOPQRSTUVWXYZ"
  const SMALL := "abcdefghijklmnopqrstuvwxyz"

  /** The case mapping as a table. */
  lemma CaseTable(i: nat, c: char)
    requires i < 26
    ensures LowerChar(CAPITALS[i]) == SMALL[i] && UpperChar(SMALL[i]) == CAPITALS[i]
    ensures c !in CAPITALS ==> LowerChar(c) == c
    ensures c !in SMALL ==> UpperChar(c) == c
  {
    if 'A' <= c <= 'Z' { assert CAPITALS[c as int - 'A' as int] == c; }
    if 'a' <= c <= 'z' { assert SMALL[c as int - 'a' as int] == c; }
  }

  /** `strings.EqualFold` on ASCII text. */
  predicate EqualFold(s: string, t: string) {
    Lower(s) == Lower(t)
  }

  lemma LowerIdempotent(s: string)
    ensures Lower(Lower(s)) == Lower(s)
  {
  }

  lemma LowerAppend(s: string, t: string)
    ensures Lower(s + t) == Lower(s) + Lower(t)
  {
  }

  lemma UpperAppend(s: string, t: string)
    ensures Upper(s + t) == Upper(s) + Upper(t)
  {
  }

  // ---- substring search ----

  predicate OccursAt(s: string, sub: string, i: int) {
    0 <= i && i + |sub| <= |s| && s[i..i + |sub|] == sub
  }

  /** `strings.Index`: the first position at which sub occurs, or -1. */
  function Index(s: string, sub: string): (r: int)
    ensures r == -1 || OccursAt(s, sub, r)
    ensures forall j :: 0 <= j < (if r == -1 then |s| + 1 else r) ==> !OccursAt(s, sub, j)
  {
    IndexFrom(s, sub, 0)
  }

  function IndexFrom(s: string, sub: string, from: nat): (r: int)
    requires from <= |s|
    ensures r == -1 || (from <= r && OccursAt(s, sub, r))
    ensures forall j :: from <= j < (if r == -1 then |s| + 1 else r) ==> !OccursAt(s, sub, j)
    decreases |s| - from
  {
    if OccursAt(s, sub, from) then from
    else if from == |s| then -1
    else IndexFrom(s, sub, from + 1)
  }

  predicate Contains(s: string, sub: string) {
    Index(s, sub) != -1
  }

  lemma ContainsMeaning(s: string, sub: string)
    ensures Contains(s, sub) <==> exists i :: OccursAt(s, sub, i)
  {
    if i :| OccursAt(s, sub, i) {
      assert i <= |s|;
    }
  }

  /** The two postconditions of Index determine its value. */
  lemma IndexIs(s: string, sub: string, i: nat)
    requires OccursAt(s, sub, i)
    requires forall j :: 0 <= j < i ==> !OccursAt(s, sub, j)
    ensures Index(s, sub) == i
  {
  }

  // ---- splitting and joining ----

  /** `strings.Split` with a one-character separator. */
  function Split(s: string, sep: char): (parts: seq<string>)
    ensures |parts| >= 1
  {
    if s == "" then [""] else SplitCons(s[0], Split(s[1..], sep), sep)
  }

  /** `strings.Join` with a one-character separator. */
  function Join(parts: seq<string>, sep: char): string {
    if parts == [] then ""
    else if |parts| == 1 then parts[0]
    else parts[0] + [sep] + Join(parts[1..], sep)
  }

  lemma InitAndLast(parts: seq<string>)
    requires parts != []
    ensures parts == parts[..|parts| - 1] + [parts[|parts| - 1]]
  {
  }

  ghost predicate Free(parts: seq<string>, sep: char) {
    forall i :: 0 <= i < |parts| ==> sep !in parts[i]
  }

  lemma {:induction false} SplitFree(s: string, sep: char)
    ensures Free(Split(s, sep), sep)
  {
    if s == "" {
    } else {
      SplitFree(s[1..], sep);
    }
  }

  lemma {:induction false} JoinSplit(s: string, sep: char)
    ensures Join(Split(s, sep), sep) == s
  {
    if s == "" {
    } else {
      JoinSplit(s[1..], sep);
      var rest := Split(s[1..], sep);
      if s[0] == sep {
        assert ([""] + rest)[1..] == rest;
      } else if |rest| > 1 {
        assert ([[s[0]] + rest[0]] + rest[1..])[1..] == rest[1..];
      }
    }
  }

  lemma {:induction false} SplitWord(w: string, sep: char)
    requires sep !in w
    ensures Split(w, sep) == [w]
  {
    if w == "" {
    } else {
      SplitWord(w[1..], sep);
      assert w == [w[0]] + w[1..];
    }
  }

  /** Splitting distributes over a separator, wherever it stands. */
  lemma {:induction false} SplitConcat(s: string, t: string, sep: char)
    ensures Split(s + [sep] + t, sep) == Split(s, sep) + Split(t, sep)
  {
    var u := s + [sep] + t;
    if s == "" {
      assert u[0] == sep && u[1..] == t;
    } else {
      var v := s[1..] + [sep] + t;
      SplitConcat(s[1..], t, sep);
      assert u[0] == s[0] && u[1..] == v;
      var rest := Split(s[1..], sep);
      PrependChar(s[0], rest, Split(t, sep), sep);
    }
  }

  /** The step of Split, and how it acts on an appended list. */
  function SplitCons(c: char, rest: seq<string>, sep: char): seq<string>
    requires rest != []
  {
    if c == sep then [""] + rest else [[c] + rest[0]] + rest[1..]
  }

  lemma PrependChar(c: char, rest: seq<string>, more: seq<string>, sep: char)
    requires rest != []
    ensures SplitCons(c, rest + more, sep) == SplitCons(c, rest, sep) + more
  {
    assert (rest + more)[0] == rest[0];
    assert (rest + more)[1..] == rest[1..] + more;
  }

  lemma {:induction false} SplitJoin(parts: seq<string>, sep: char)
    requires parts != [] && Free(parts, sep)
    ensures Split(Join(parts, sep), sep) == parts
  {
    SplitWord(parts[0], sep);
    if |parts| <= 1 {
    } else {
      SplitJoin(parts[1..], sep);
      SplitConcat(parts[0], Join(parts[1..], sep), sep);
      assert parts == [parts[0]] + parts[1..];
    }
  }

  lemma {:induction false} JoinConcat(a: seq<string>, b: seq<string>, sep: char)
    requires a != [] && b != []
    ensures Join(a + b, sep) == Join(a, sep) + [sep] + Join(b, sep)
  {
    if |a| > 1 {
      JoinConcat(a[1..], b, sep);
      assert (a + b)[1..] == a[1..] + b;
    } else {
      assert (a + b)[1..] == b;
    }
  }

  /** A string followed by the separator is a prefix of another exactly when its
      pieces are a strict prefix of the other's pieces. */
  lemma PrefixBySplit(a: string, b: string, sep: char)
    ensures a + [sep] <= b <==> Split(a, sep) < Split(b, sep)
  {
    if a + [sep] <= b {
      var t := b[|a| + 1..];
      assert b == a + [sep] + t;
      SplitConcat(a, t, sep);
    }
    if Split(a, sep) < Split(b, sep) {
      var rest := Split(b, sep)[|Split(a, sep)|..];
      assert Split(b, sep) == Split(a, sep) + rest;
      JoinConcat(Split(a, sep), rest, sep);
      JoinSplit(a, sep);
      JoinSplit(b, sep);
    }
  }

  function LowerAll(parts: seq<string>): (r: seq<string>)
    ensures |r| == |parts|
    ensures forall i :: 0 <= i < |parts| ==> r[i] == Lower(parts[i])
  {
    seq(|parts|, i requires 0 <= i < |parts| => Lower(parts[i]))
  }

  /** Lower-casing commutes with splitting at a separator that has no case. */
  lemma {:induction false} SplitLower(s: string, sep: char)
    requires !('A' <= sep <= 'Z') && !('a' <= sep <= 'z')
    ensures Split(Lower(s), sep) == LowerAll(Split(s, sep))
  {
    if s == "" {
    } else {
      SplitLower(s[1..], sep);
      assert Lower(s)[0] == LowerChar(s[0]) && Lower(s)[1..] == Lower(s[1..]);
      LowerCons(s[0], Split(s[1..], sep), sep);
    }
  }

  lemma LowerCons(c: char, rest: seq<string>, sep: char)
    requires rest != []
    requires !('A' <= sep <= 'Z') && !('a' <= sep <= 'z')
    ensures SplitCons(LowerChar(c), LowerAll(rest), sep) == LowerAll(SplitCons(c, rest, sep))
  {
    assert LowerChar(c) == sep <==> c == sep;
    if c != sep {
      assert Lower([c] + rest[0]) == [LowerChar(c)] + Lower(rest[0]);
    }
  }
}
