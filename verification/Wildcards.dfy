/** `filepath.Match` for patterns without character classes: `*` stands for any run of
    non-separators, `?` for one non-separator, everything else for itself (Windows has
    no escape character). */
module Wildcards {
  import opened Text
  import opened Paths

  predicate Match(pattern: string, name: string)
    decreases |pattern| + |name|
  {
    if pattern == "" then name == ""
    else if pattern[0] == '*' then
      || Match(pattern[1..], name)
      || (name != "" && name[0] != SEP && Match(pattern, name[1..]))
    else
      && name != ""
      && (if pattern[0] == '?' then name[0] != SEP else name[0] == pattern[0])
      && Match(pattern[1..], name[1..])
  }

  // ---- what a match is ----

  /** What one character of a pattern stands for. */
  ghost predicate Fits(c: char, piece: string) {
    if c == '*' then SEP !in piece
    else if c == '?' then |piece| == 1 && piece[0] != SEP
    else piece == [c]
  }

  function Flat(pieces: seq<string>): string {
    if pieces == [] then "" else pieces[0] + Flat(pieces[1..])
  }

  ghost predicate Cuts(pattern: string, name: string, pieces: seq<string>) {
    && |pieces| == |pattern| && Flat(pieces) == name
    && forall i :: 0 <= i < |pattern| ==> Fits(pattern[i], pieces[i])
  }

  lemma {:induction false} CutOfMatch(pattern: string, name: string) returns (pieces: seq<string>)
    requires Match(pattern, name)
    ensures Cuts(pattern, name, pieces)
    decreases |pattern| + |name|
  {
    if pattern == "" {
      pieces := [];
    } else if pattern[0] == '*' && !Match(pattern[1..], name) {
      var rest := CutOfMatch(pattern, name[1..]);
      pieces := [[name[0]] + rest[0]] + rest[1..];
      assert pieces[1..] == rest[1..];
      assert name == [name[0]] + (rest[0] + Flat(rest[1..]));
    } else if pattern[0] == '*' {
      var rest := CutOfMatch(pattern[1..], name);
      pieces := [""] + rest;
      assert pieces[1..] == rest;
    } else {
      var rest := CutOfMatch(pattern[1..], name[1..]);
      pieces := [[name[0]]] + rest;
      assert pieces[1..] == rest;
    }
  }

  lemma {:induction false} MatchOfCut(pattern: string, name: string, pieces: seq<string>)
    requires Cuts(pattern, name, pieces)
    ensures Match(pattern, name)
    decreases |pattern| + |name|
  {
    if pattern == "" {
    } else {
      assert Fits(pattern[0], pieces[0]);
      assert forall i :: 0 <= i < |pattern| - 1 ==>
               pattern[1..][i] == pattern[i + 1] && pieces[1..][i] == pieces[i + 1];
      if pieces[0] == "" {
        assert name == Flat(pieces[1..]);
        MatchOfCut(pattern[1..], name, pieces[1..]);
      } else if pattern[0] == '*' {
        var less := [pieces[0][1..]] + pieces[1..];
        assert less[1..] == pieces[1..];
        assert name[1..] == pieces[0][1..] + Flat(pieces[1..]);
        MatchOfCut(pattern, name[1..], less);
      } else {
        assert name[1..] == Flat(pieces[1..]);
        MatchOfCut(pattern[1..], name[1..], pieces[1..]);
      }
    }
  }

  /** A name matches exactly if it can be cut into one piece for every character of the
      pattern: any run without separators for a star, one other character than a
      separator for a question mark, and the character itself for any other. */
  lemma MatchMeaning(pattern: string, name: string)
    ensures Match(pattern, name) <==> exists pieces :: Cuts(pattern, name, pieces)
  {
    if Match(pattern, name) {
      var pieces := CutOfMatch(pattern, name);
    }
    if pieces :| Cuts(pattern, name, pieces) {
      MatchOfCut(pattern, name, pieces);
    }
  }

  /** A match survives lower-casing both sides. */
  lemma {:induction false} MatchLower(pattern: string, name: string)
    requires Match(pattern, name)
    ensures Match(Lower(pattern), Lower(name))
    decreases |pattern| + |name|
  {
    if pattern == "" {
    } else {
      assert Lower(pattern)[1..] == Lower(pattern[1..]);
      assert name != "" ==> Lower(name)[1..] == Lower(name[1..]);
      if pattern[0] == '*' {
        if Match(pattern[1..], name) {
          MatchLower(pattern[1..], name);
        } else {
          MatchLower(pattern, name[1..]);
        }
      } else {
        MatchLower(pattern[1..], name[1..]);
      }
    }
  }

  ghost predicate MatchEach(patterns: seq<string>, names: seq<string>) {
    |patterns| == |names| && forall i :: 0 <= i < |names| ==> Match(patterns[i], names[i])
  }

  /** Because no wildcard crosses a separator, matching two paths is matching
      them component by component. */
  lemma {:induction false} MatchBySplit(pattern: string, name: string)
    ensures Match(pattern, name) <==> MatchEach(Split(pattern, SEP), Split(name, SEP))
    decreases |pattern| + |name|
  {
    var ps, ns := Split(pattern, SEP), Split(name, SEP);
    MatchEachCons(ps, ns);
    if pattern == "" {
      assert ps[1..] == [];
      JoinSplit(name, SEP);
    } else if pattern[0] == '*' {
      MatchBySplit(pattern[1..], name);
      var qs := Split(pattern[1..], SEP);
      MatchEachCons(qs, ns);
      assert ps[0] == "*" + qs[0] && ps[1..] == qs[1..];
      assert ps[0][1..] == qs[0];
      if name != "" && name[0] != SEP {
        MatchBySplit(pattern, name[1..]);
        var ms := Split(name[1..], SEP);
        MatchEachCons(ps, ms);
        assert ns[0][1..] == ms[0];
      }
    } else if name != "" {
      MatchBySplit(pattern[1..], name[1..]);
      var qs, ms := Split(pattern[1..], SEP), Split(name[1..], SEP);
      MatchEachCons(qs, ms);
      if pattern[0] == SEP || name[0] == SEP {
        assert pattern[0] == SEP ==> ps[1..] == qs;
        assert name[0] == SEP ==> ns[1..] == ms;
      } else {
        assert ps[0][1..] == qs[0] && ns[0][1..] == ms[0];
      }
    }
  }

  lemma MatchEachCons(ps: seq<string>, ns: seq<string>)
    requires ps != [] && ns != []
    ensures MatchEach(ps, ns) <==> Match(ps[0], ns[0]) && MatchEach(ps[1..], ns[1..])
  {
    if Match(ps[0], ns[0]) && MatchEach(ps[1..], ns[1..]) {
      forall i | 0 <= i < |ns| ensures Match(ps[i], ns[i]) {
        assert i > 0 ==> ps[i] == ps[1..][i - 1] && ns[i] == ns[1..][i - 1];
      }
    }
  }

  /** Without wildcards a pattern matches only itself. */
  lemma {:induction false} MatchLiteral(pattern: string, name: string)
    requires !Wild(pattern)
    ensures Match(pattern, name) <==> pattern == name
  {
    if pattern == "" || name == "" {
    } else {
      MatchLiteral(pattern[1..], name[1..]);
      assert pattern == [pattern[0]] + pattern[1..] && name == [name[0]] + name[1..];
    }
  }

  /** A name that a given pattern matches: `*` becomes one letter, and so does `?`. */
  function Witness(pattern: string): (r: string)
    ensures |r| == |pattern|
  {
    if pattern == "" then ""
    else [if pattern[0] in "*?" then 'x' else pattern[0]] + Witness(pattern[1..])
  }

  lemma {:induction false} WitnessMatches(pattern: string)
    requires SEP !in pattern
    ensures Match(pattern, Witness(pattern))
    ensures SEP !in Witness(pattern)
    ensures Lower(pattern) == pattern ==> Lower(Witness(pattern)) == Witness(pattern)
    ensures !Wild(Witness(pattern))
  {
    if pattern == "" {
    } else {
      WitnessMatches(pattern[1..]);
      var w := Witness(pattern);
      assert w[1..] == Witness(pattern[1..]);
      if pattern[0] == '*' {
        assert Match(pattern[1..], w[1..]);
      }
      assert Lower(pattern)[1..] == Lower(pattern[1..]);
      assert Lower(w)[1..] == Lower(w[1..]);
      if Lower(pattern) == pattern {
        assert Lower(w) == [LowerChar(w[0])] + Lower(w[1..]);
      }
    }
  }
}
