/** internal/config/glob.go, `expandGlobs` in full: which entries come out. */
module Expansion {
  import opened Results
  import opened Text
  import opened Paths
  import opened FileTree
  import opened Glob
  import opened Alias
  import opened Expand

  /** The m-th thing that the entry e stands for on fs: itself, if it is explicit, and
      otherwise the m-th match of its glob, under the alias derived from the glob's base,
      with its path and no driver. */
  ghost predicate Gives(fs: FileSystem, e: DatabaseConfig, c: DatabaseConfig, m: int) {
    match e.glob
    case None => m == 0 && c == e
    case Some(g) =>
      && 0 <= m < |Matches(fs, g)|
      && AliasOf(GlobBase(g), Matches(fs, g)[m]) == Ok(c.alias)
      && c == DatabaseConfig(c.alias, Render(Matches(fs, g)[m]), None, "")
  }

  /** Nothing that e stands for before its m-th thing has the key k. */
  ghost predicate NoneBefore(fs: FileSystem, e: DatabaseConfig, m: int, k: string) {
    forall l, d :: l < m && Gives(fs, e, d, l) ==> Key(d) != k
  }

  ghost predicate NoneAtAll(fs: FileSystem, es: seq<DatabaseConfig>, k: string) {
    forall j, l, d :: 0 <= j < |es| && Gives(fs, es[j], d, l) ==> Key(d) != k
  }

  /** c is the m-th thing that the i-th entry stands for, and nothing earlier has its alias. */
  ghost predicate Wins(fs: FileSystem, es: seq<DatabaseConfig>, c: DatabaseConfig, i: int, m: int) {
    && 0 <= i < |es| && Gives(fs, es[i], c, m)
    && NoneBefore(fs, es[i], m, Key(c)) && NoneAtAll(fs, es[..i], Key(c))
  }

  ghost predicate WinsAt(fs: FileSystem, es: seq<DatabaseConfig>, c: DatabaseConfig) {
    exists i, m :: Wins(fs, es, c, i, m)
  }

  // ---- positions ----

  lemma {:induction false} AsManyAsMatches(base: Path, matches: seq<Path>)
    requires FromMatches(base, matches).Ok?
    ensures |FromMatches(base, matches).value| == |matches|
  {
    if matches == [] {
    } else {
      AsManyAsMatches(base, matches[..|matches| - 1]);
    }
  }

  lemma {:induction false} MatchInOrder(base: Path, matches: seq<Path>, m: nat)
    requires FromMatches(base, matches).Ok? && m < |matches|
    ensures |FromMatches(base, matches).value| == |matches|
    ensures FromMatch(base, matches[m]) == Ok(FromMatches(base, matches).value[m])
  {
    var n := |matches| - 1;
    AsManyAsMatches(base, matches);
    AsManyAsMatches(base, matches[..n]);
    if m == n {
    } else {
      MatchInOrder(base, matches[..n], m);
      assert matches[..n][m] == matches[m];
    }
  }

  lemma GivesIsAt(fs: FileSystem, e: DatabaseConfig, c: DatabaseConfig, m: int)
    requires FromEntry(fs, e).Ok?
    ensures Gives(fs, e, c, m) <==> 0 <= m < |FromEntry(fs, e).value| && FromEntry(fs, e).value[m] == c
  {
    if e.glob.Some? {
      var g := e.glob.value;
      AsManyAsMatches(GlobBase(g), Matches(fs, g));
      if 0 <= m < |Matches(fs, g)| {
        MatchInOrder(GlobBase(g), Matches(fs, g), m);
      }
    }
  }

  lemma EntryKeys(fs: FileSystem, e: DatabaseConfig, m: int, k: string)
    requires FromEntry(fs, e).Ok? && 0 <= m <= |FromEntry(fs, e).value|
    ensures NoneBefore(fs, e, m, k) <==> forall l :: 0 <= l < m ==> Key(FromEntry(fs, e).value[l]) != k
  {
    forall d, l ensures Gives(fs, e, d, l) <==> 0 <= l < |FromEntry(fs, e).value| && FromEntry(fs, e).value[l] == d {
      GivesIsAt(fs, e, d, l);
    }
    if NoneBefore(fs, e, m, k) {
      forall l | 0 <= l < m ensures Key(FromEntry(fs, e).value[l]) != k {
        assert Gives(fs, e, FromEntry(fs, e).value[l], l);
      }
    }
  }

  // ---- first wins ----

  lemma KeptAfter(cs: seq<DatabaseConfig>, more: seq<DatabaseConfig>, c: DatabaseConfig)
    requires c in Firsts(cs + more)
    ensures c in Firsts(cs) || (c in Firsts(more) && Key(c) !in Keys(cs))
  {
    var all := cs + more;
    FirstsAreFirst(all, c);
    var m :| IsFirst(all, m) && all[m] == c;
    if m < |cs| {
      assert forall j :: 0 <= j <= m ==> all[j] == cs[j];
      assert IsFirst(cs, m);
      FirstsAreFirst(cs, c);
    } else {
      assert forall j :: 0 <= j < |more| ==> all[|cs| + j] == more[j];
      assert IsFirst(more, m - |cs|);
      FirstsAreFirst(more, c);
      forall d | d in cs ensures Key(d) != Key(c) {
        var j :| 0 <= j < |cs| && cs[j] == d;
        assert all[j] == d;
      }
    }
  }

  lemma StaysKept(cs: seq<DatabaseConfig>, more: seq<DatabaseConfig>, c: DatabaseConfig)
    requires c in Firsts(cs) || (c in Firsts(more) && Key(c) !in Keys(cs))
    ensures c in Firsts(cs + more)
  {
    var all := cs + more;
    FirstsAreFirst(all, c);
    if c in Firsts(cs) {
      FirstsAreFirst(cs, c);
      var m :| IsFirst(cs, m) && cs[m] == c;
      assert forall j :: 0 <= j <= m ==> all[j] == cs[j];
      assert IsFirst(all, m);
    } else {
      FirstsAreFirst(more, c);
      var m :| IsFirst(more, m) && more[m] == c;
      LaterIsFirst(cs, more, m);
    }
  }

  lemma LaterIsFirst(cs: seq<DatabaseConfig>, more: seq<DatabaseConfig>, m: int)
    requires IsFirst(more, m) && Key(more[m]) !in Keys(cs)
    ensures IsFirst(cs + more, |cs| + m)
  {
    var all := cs + more;
    forall j | 0 <= j < |cs| + m ensures Key(all[j]) != Key(all[|cs| + m]) {
      if j < |cs| {
        assert all[j] in cs;
      } else {
        assert all[j] == more[j - |cs|];
      }
    }
  }

  lemma FirstOfEntry(fs: FileSystem, e: DatabaseConfig, c: DatabaseConfig)
    requires FromEntry(fs, e).Ok?
    ensures c in Firsts(FromEntry(fs, e).value) <==> exists m :: Gives(fs, e, c, m) && NoneBefore(fs, e, m, Key(c))
  {
    var more := FromEntry(fs, e).value;
    FirstsAreFirst(more, c);
    if m :| IsFirst(more, m) && more[m] == c {
      GivesIsAt(fs, e, c, m);
      EntryKeys(fs, e, m, Key(c));
    }
    if m :| Gives(fs, e, c, m) && NoneBefore(fs, e, m, Key(c)) {
      GivesIsAt(fs, e, c, m);
      EntryKeys(fs, e, m, Key(c));
      assert IsFirst(more, m);
    }
  }

  lemma {:induction false} KeysGiven(fs: FileSystem, es: seq<DatabaseConfig>, k: string)
    requires Candidates(fs, es).Ok?
    ensures k !in Keys(Candidates(fs, es).value) <==> NoneAtAll(fs, es, k)
  {
    if es == [] {
    } else {
      var n := |es| - 1;
      var more := FromEntry(fs, es[n]).value;
      KeysGiven(fs, es[..n], k);
      EntryKeys(fs, es[n], |more|, k);
      KeysOfAppend(Candidates(fs, es[..n]).value, more, k);
      LastGives(fs, es, k);
      if k in Keys(more) {
        var d :| d in more && Key(d) == k;
      }
    }
  }

  lemma LastGives(fs: FileSystem, es: seq<DatabaseConfig>, k: string)
    requires es != [] && FromEntry(fs, es[|es| - 1]).Ok?
    ensures NoneAtAll(fs, es, k) <==>
              && NoneAtAll(fs, es[..|es| - 1], k)
              && NoneBefore(fs, es[|es| - 1], |FromEntry(fs, es[|es| - 1]).value|, k)
  {
    var n := |es| - 1;
    forall d, l | Gives(fs, es[n], d, l) ensures l < |FromEntry(fs, es[n]).value| {
      GivesIsAt(fs, es[n], d, l);
    }
    if NoneAtAll(fs, es, k) {
      forall j, l, d | 0 <= j < n && Gives(fs, es[..n][j], d, l) ensures Key(d) != k {
        assert es[..n][j] == es[j];
      }
    }
    if NoneAtAll(fs, es[..n], k) && NoneBefore(fs, es[n], |FromEntry(fs, es[n]).value|, k) {
      forall j, l, d | 0 <= j < |es| && Gives(fs, es[j], d, l) ensures Key(d) != k {
        if j < n { assert es[..n][j] == es[j]; }
      }
    }
  }

  /** An entry comes out exactly if it is the first thing with its alias, in lower case, in
      the order of the entries and, within a glob, of its matches. */
  lemma {:induction false} ExpansionExactly(fs: FileSystem, es: seq<DatabaseConfig>, c: DatabaseConfig)
    requires Candidates(fs, es).Ok?
    ensures c in Firsts(Candidates(fs, es).value) <==> WinsAt(fs, es, c)
  {
    if es == [] {
    } else {
      var n := |es| - 1;
      var cs, more := Candidates(fs, es[..n]).value, FromEntry(fs, es[n]).value;
      ExpansionExactly(fs, es[..n], c);
      FirstOfEntry(fs, es[n], c);
      KeysGiven(fs, es[..n], Key(c));
      if c in Firsts(cs + more) {
        KeptAfter(cs, more, c);
        WinnerAfter(fs, es, c);
      }
      if i, m :| Wins(fs, es, c, i, m) {
        WinnerBefore(fs, es, c, i, m);
        StaysKept(cs, more, c);
      }
    }
  }

  /** c is what the last entry stands for, and nothing before has its alias. */
  ghost predicate WinsLast(fs: FileSystem, es: seq<DatabaseConfig>, c: DatabaseConfig) {
    && es != [] && NoneAtAll(fs, es[..|es| - 1], Key(c))
    && var e := es[|es| - 1]; exists m :: Gives(fs, e, c, m) && NoneBefore(fs, e, m, Key(c))
  }

  lemma WinnerAfter(fs: FileSystem, es: seq<DatabaseConfig>, c: DatabaseConfig)
    requires es != [] && (WinsAt(fs, es[..|es| - 1], c) || WinsLast(fs, es, c))
    ensures WinsAt(fs, es, c)
  {
    var n := |es| - 1;
    if i, m :| Wins(fs, es[..n], c, i, m) {
      assert es[..n][..i] == es[..i] && es[..n][i] == es[i];
      assert Wins(fs, es, c, i, m);
    } else {
      var m :| Gives(fs, es[n], c, m) && NoneBefore(fs, es[n], m, Key(c));
      assert Wins(fs, es, c, n, m);
    }
  }

  lemma WinnerBefore(fs: FileSystem, es: seq<DatabaseConfig>, c: DatabaseConfig, i: int, m: int)
    requires Wins(fs, es, c, i, m)
    ensures i < |es| - 1 ==> Wins(fs, es[..|es| - 1], c, i, m)
    ensures i == |es| - 1 ==> WinsLast(fs, es, c)
  {
    var init := es[..|es| - 1];
    if i < |es| - 1 {
      assert init[..i] == es[..i] && init[i] == es[i];
    }
  }
}
