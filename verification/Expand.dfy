/** internal/config/glob.go, `expandGlobs`: configuration entries become alias and path
    pairs, the first entry of every alias winning. */
module Expand {
  import opened Results
  import opened Text
  import opened Paths
  import opened FileTree
  import opened Glob
  import opened Alias

  /** Exactly one form is used: an alias with a path, or a glob. */
  datatype DatabaseConfig = DatabaseConfig(alias: string, path: string, glob: Option<Path>, driver: string)

  /** Aliases are compared in lower case. */
  function Key(c: DatabaseConfig): string {
    Lower(c.alias)
  }

  ghost function Keys(cs: seq<DatabaseConfig>): set<string> {
    set c | c in cs :: Key(c)
  }

  // ---- the specification ----

  function FromMatch(base: Path, p: Path): Result<DatabaseConfig> {
    var alias :- AliasOf(base, p);
    Ok(DatabaseConfig(alias, Render(p), None, ""))
  }

  function FromMatches(base: Path, matches: seq<Path>): Result<seq<DatabaseConfig>> {
    if matches == [] then Ok([])
    else
      var n := |matches| - 1;
      var init :- FromMatches(base, matches[..n]);
      var last :- FromMatch(base, matches[n]);
      Ok(init + [last])
  }

  function FromEntry(fs: FileSystem, entry: DatabaseConfig): Result<seq<DatabaseConfig>> {
    match entry.glob
    case None => Ok([entry])
    case Some(g) => FromMatches(GlobBase(g), Matches(fs, g))
  }

  /** All entries in order, globs replaced by what they match, duplicates still in. */
  function Candidates(fs: FileSystem, entries: seq<DatabaseConfig>): Result<seq<DatabaseConfig>> {
    if entries == [] then Ok([])
    else
      var n := |entries| - 1;
      var init :- Candidates(fs, entries[..n]);
      var last :- FromEntry(fs, entries[n]);
      Ok(init + last)
  }

  ghost predicate IsFirst(cs: seq<DatabaseConfig>, i: int) {
    0 <= i < |cs| && forall j :: 0 <= j < i ==> Key(cs[j]) != Key(cs[i])
  }

  /** The entries that are the first of their key, in order. */
  ghost function Firsts(cs: seq<DatabaseConfig>): (r: seq<DatabaseConfig>)
    ensures forall c :: c in r ==> c in cs
  {
    if cs == [] then []
    else Firsts(cs[..|cs| - 1]) + if IsFirst(cs, |cs| - 1) then [cs[|cs| - 1]] else []
  }

  ghost predicate Distinct(cs: seq<DatabaseConfig>) {
    forall i, j :: 0 <= i < j < |cs| ==> Key(cs[i]) != Key(cs[j])
  }

  // ---- the code ----

  /** What `seen` and `result` hold after the candidates cs. */
  ghost predicate Holds(seen: map<string, string>, result: seq<DatabaseConfig>, cs: seq<DatabaseConfig>) {
    result == Firsts(cs) && seen.Keys == Keys(cs)
  }

  lemma FirstsStep(before: seq<DatabaseConfig>, c: DatabaseConfig)
    ensures Firsts(before + [c]) == if Key(c) in Keys(before) then Firsts(before) else Firsts(before) + [c]
    ensures Keys(before + [c]) == Keys(before) + {Key(c)}
  {
    var cs := before + [c];
    assert cs[..|before|] == before;
    assert IsFirst(cs, |before|) <==> Key(c) !in Keys(before);
  }

  method Add(c: DatabaseConfig, seen: map<string, string>, result: seq<DatabaseConfig>,
             ghost before: seq<DatabaseConfig>)
    returns (seen': map<string, string>, result': seq<DatabaseConfig>)
    requires Holds(seen, result, before)
    ensures Holds(seen', result', before + [c])
  {
    FirstsStep(before, c);
    if Key(c) in seen {
      seen', result' := seen, result;
    } else {
      seen' := seen[Key(c) := c.path];
      result' := result + [c];
    }
  }

  lemma {:induction false} FirstMatchError(base: Path, matches: seq<Path>, n: nat)
    requires n <= |matches| && FromMatches(base, matches[..n]).Err?
    ensures FromMatches(base, matches) == FromMatches(base, matches[..n])
  {
    if n < |matches| {
      var init := matches[..|matches| - 1];
      assert init[..n] == matches[..n];
      FirstMatchError(base, init, n);
    } else {
      assert matches[..n] == matches;
    }
  }

  lemma StopsAt(base: Path, matches: seq<Path>, i: nat)
    requires i < |matches| && FromMatches(base, matches[..i]).Ok? && FromMatch(base, matches[i]).Err?
    ensures FromMatches(base, matches) == Err(FromMatch(base, matches[i]).error)
  {
    FromMatchesStep(base, matches, i);
    FirstMatchError(base, matches, i + 1);
  }

  lemma {:induction false} FirstEntryError(fs: FileSystem, entries: seq<DatabaseConfig>, n: nat)
    requires n <= |entries| && Candidates(fs, entries[..n]).Err?
    ensures Candidates(fs, entries) == Candidates(fs, entries[..n])
  {
    if n < |entries| {
      var init := entries[..|entries| - 1];
      assert init[..n] == entries[..n];
      FirstEntryError(fs, init, n);
    } else {
      assert entries[..n] == entries;
    }
  }

  lemma FromMatchesStep(base: Path, matches: seq<Path>, i: nat)
    requires i < |matches| && FromMatches(base, matches[..i]).Ok?
    ensures FromMatches(base, matches[..i + 1])
         == match FromMatch(base, matches[i])
            case Ok(c) => Ok(FromMatches(base, matches[..i]).value + [c])
            case Err(e) => Err(e)
  {
    assert matches[..i + 1][..i] == matches[..i];
  }

  lemma OneMore(before: seq<DatabaseConfig>, cs: seq<DatabaseConfig>, c: DatabaseConfig)
    ensures (before + cs) + [c] == before + (cs + [c])
  {
  }

  method AddMatches(base: Path, matches: seq<Path>, seen: map<string, string>, result: seq<DatabaseConfig>,
                    ghost before: seq<DatabaseConfig>)
    returns (err: Option<string>, seen': map<string, string>, result': seq<DatabaseConfig>)
    requires Holds(seen, result, before)
    ensures match FromMatches(base, matches)
            case Ok(cs) => err == None && Holds(seen', result', before + cs)
            case Err(e) => err == Some(e)
  {
    seen', result' := seen, result;
    ghost var cs: seq<DatabaseConfig> := [];
    assert before + cs == before;
    for i := 0 to |matches|
      invariant FromMatches(base, matches[..i]) == Ok(cs)
      invariant Holds(seen', result', before + cs)
    {
      var alias := AliasFromPath(base, matches[i]);
      if alias.Err? {
        StopsAt(base, matches, i);
        return Some(alias.error), seen', result';
      }
      var c := DatabaseConfig(alias.value, Render(matches[i]), None, "");
      seen', result' := Add(c, seen', result', before + cs);
      FromMatchesStep(base, matches, i);
      OneMore(before, cs, c);
      cs := cs + [c];
    }
    assert matches[..|matches|] == matches;
    err := None;
  }

  method ExpandGlobs(fs: FileSystem, entries: seq<DatabaseConfig>) returns (r: Result<seq<DatabaseConfig>>)
    ensures match Candidates(fs, entries)
            case Ok(cs) => r == Ok(Firsts(cs))
            case Err(e) => r == Err(e)
  {
    var seen: map<string, string> := map[];
    var result: seq<DatabaseConfig> := [];
    ghost var cs: seq<DatabaseConfig> := [];
    for i := 0 to |entries|
      invariant Candidates(fs, entries[..i]) == Ok(cs)
      invariant Holds(seen, result, cs)
    {
      var entry := entries[i];
      assert entries[..i + 1][..i] == entries[..i];
      if entry.glob.None? {
        seen, result := Add(entry, seen, result, cs);
        cs := cs + [entry];
      } else {
        var matches := MatchGlob(fs, entry.glob.value);
        var err: Option<string>;
        err, seen, result := AddMatches(GlobBase(entry.glob.value), matches, seen, result, cs);
        if err.Some? {
          FirstEntryError(fs, entries, i + 1);
          return Err(err.value);
        }
        cs := cs + FromEntry(fs, entry).value;
      }
    }
    assert entries[..|entries|] == entries;
    r := Ok(result);
  }

  // ---- first-wins deduplication ----

  /** The result keeps one entry for every key, and no two entries share a key. */
  lemma {:induction false} FirstsKeepEveryKey(cs: seq<DatabaseConfig>)
    ensures Distinct(Firsts(cs))
    ensures Keys(Firsts(cs)) == Keys(cs)
  {
    if cs == [] {
    } else {
      var init, last := cs[..|cs| - 1], cs[|cs| - 1];
      FirstsKeepEveryKey(init);
      assert cs == init + [last];
      FirstsStep(init, last);
      if Key(last) !in Keys(init) {
        OneKeyMore(Firsts(init), last);
      }
    }
  }

  lemma OneKeyMore(cs: seq<DatabaseConfig>, c: DatabaseConfig)
    requires Distinct(cs) && Key(c) !in Keys(cs)
    ensures Distinct(cs + [c]) && Keys(cs + [c]) == Keys(cs) + {Key(c)}
  {
    var more := cs + [c];
    assert forall i :: 0 <= i < |cs| ==> more[i] == cs[i] && Key(cs[i]) in Keys(cs);
    KeysOfAppend(cs, [c], Key(c));
    assert Keys([c]) == {Key(c)};
    assert Keys(more) == Keys(cs) + Keys([c]);
  }

  /** The kept entry of a key is the first candidate with that key. */
  lemma FirstsAreFirst(cs: seq<DatabaseConfig>, c: DatabaseConfig)
    ensures c in Firsts(cs) <==> exists i :: IsFirst(cs, i) && cs[i] == c
  {
    if c in Firsts(cs) {
      var i := PlaceOfFirst(cs, c);
    }
    if i :| IsFirst(cs, i) && cs[i] == c {
      FirstIsKept(cs, i);
    }
  }

  lemma {:induction false} PlaceOfFirst(cs: seq<DatabaseConfig>, c: DatabaseConfig) returns (i: int)
    requires c in Firsts(cs)
    ensures IsFirst(cs, i) && cs[i] == c
  {
    i := |cs| - 1;
    if IsFirst(cs, i) && cs[i] == c {
    } else {
      i := PlaceOfFirst(cs[..|cs| - 1], c);
    }
  }

  lemma {:induction false} FirstIsKept(cs: seq<DatabaseConfig>, i: int)
    requires IsFirst(cs, i)
    ensures cs[i] in Firsts(cs)
  {
    if i == |cs| - 1 {
    } else {
      assert IsFirst(cs[..|cs| - 1], i);
      FirstIsKept(cs[..|cs| - 1], i);
    }
  }

  ghost predicate Subsequence(xs: seq<DatabaseConfig>, ys: seq<DatabaseConfig>) {
    if xs == [] then true
    else if ys == [] then false
    else if xs[|xs| - 1] == ys[|ys| - 1] && Subsequence(xs[..|xs| - 1], ys[..|ys| - 1]) then true
    else Subsequence(xs, ys[..|ys| - 1])
  }

  lemma {:induction false} FirstsAreSubsequence(cs: seq<DatabaseConfig>)
    ensures Subsequence(Firsts(cs), cs)
  {
    if cs == [] {
    } else {
      var init := cs[..|cs| - 1];
      FirstsAreSubsequence(init);
      if IsFirst(cs, |cs| - 1) {
        assert Firsts(cs)[..|Firsts(cs)| - 1] == Firsts(init);
      } else {
        assert Firsts(cs) == Firsts(init);
      }
    }
  }

  lemma {:induction false} DistinctAreFirsts(cs: seq<DatabaseConfig>)
    requires Distinct(cs)
    ensures Firsts(cs) == cs
  {
    if cs == [] {
    } else {
      var n := |cs| - 1;
      DistinctAreFirsts(cs[..n]);
      assert IsFirst(cs, n);
      assert cs == cs[..n] + [cs[n]];
    }
  }

  ghost predicate AllExplicit(cs: seq<DatabaseConfig>) {
    forall c :: c in cs ==> c.glob.None?
  }

  lemma {:induction false} ExplicitCandidates(fs: FileSystem, cs: seq<DatabaseConfig>)
    requires AllExplicit(cs)
    ensures Candidates(fs, cs) == Ok(cs)
  {
    if cs == [] {
    } else {
      var n := |cs| - 1;
      ExplicitCandidates(fs, cs[..n]);
      assert cs[n] in cs;
      assert cs == cs[..n] + [cs[n]];
    }
  }

  lemma {:induction false} MatchesAreExplicit(base: Path, matches: seq<Path>)
    requires FromMatches(base, matches).Ok?
    ensures AllExplicit(FromMatches(base, matches).value)
  {
    if matches == [] {
    } else {
      MatchesAreExplicit(base, matches[..|matches| - 1]);
    }
  }

  lemma {:induction false} CandidatesAreExplicit(fs: FileSystem, entries: seq<DatabaseConfig>)
    requires Candidates(fs, entries).Ok?
    ensures AllExplicit(Candidates(fs, entries).value)
  {
    if entries == [] {
    } else {
      var last := entries[|entries| - 1];
      CandidatesAreExplicit(fs, entries[..|entries| - 1]);
      if last.glob.Some? {
        MatchesAreExplicit(GlobBase(last.glob.value), Matches(fs, last.glob.value));
      }
    }
  }

  /** Expanding the expansion again changes nothing, whatever the file system then holds. */
  lemma ExpansionIsFixed(fs: FileSystem, fs': FileSystem, entries: seq<DatabaseConfig>)
    requires Candidates(fs, entries).Ok?
    ensures var out := Firsts(Candidates(fs, entries).value);
            Candidates(fs', out) == Ok(out) && Firsts(out) == out
  {
    var cs := Candidates(fs, entries).value;
    CandidatesAreExplicit(fs, entries);
    FirstsKeepEveryKey(cs);
    ExplicitCandidates(fs', Firsts(cs));
    DistinctAreFirsts(Firsts(cs));
  }

  // ---- which keys an expansion holds ----

  /** Explicit entries are any; glob entries hold rooted patterns with a wildcard and no class. */
  ghost predicate GoodEntries(entries: seq<DatabaseConfig>) {
    forall e :: e in entries && e.glob.Some? ==> GlobPattern(e.glob.value)
  }

  lemma ListedLiesUnderBase(g: Path, e: Entry)
    requires GlobPattern(g) && Valid(e.path) && e.path.comps != [] && Listed(g, e)
    ensures SameVolume(GlobBase(g).vol, e.path.vol)
    ensures AliasOf(GlobBase(g), e.path).Ok?
  {
  }

  /** The alias derived for p is k. */
  ghost predicate Derives(base: Path, p: Path, k: string) {
    AliasOf(base, p) == Ok(k)
  }

  ghost predicate Aliased(base: Path, p: Path) {
    AliasOf(base, p).Ok? && Lower(AliasOf(base, p).value) == AliasOf(base, p).value
  }

  lemma FromMatchKey(base: Path, p: Path, k: string)
    requires Aliased(base, p)
    ensures FromMatch(base, p).Ok?
    ensures k == Key(FromMatch(base, p).value) <==> Derives(base, p, k)
  {
  }

  lemma {:induction false} FromMatchesKeys(base: Path, matches: seq<Path>, k: string)
    requires forall p :: p in matches ==> Aliased(base, p)
    ensures FromMatches(base, matches).Ok?
    ensures k in Keys(FromMatches(base, matches).value) <==> exists p :: p in matches && Derives(base, p, k)
  {
    if matches == [] {
    } else {
      var n := |matches| - 1;
      var ms, p := matches[..n], matches[n];
      assert matches == ms + [p];
      FromMatchesKeys(base, ms, k);
      FromMatchKey(base, p, k);
      KeysOfAppend(FromMatches(base, ms).value, [FromMatch(base, p).value], k);
    }
  }

  lemma KeysOfAppend(xs: seq<DatabaseConfig>, ys: seq<DatabaseConfig>, k: string)
    ensures k in Keys(xs + ys) <==> k in Keys(xs) || k in Keys(ys)
    ensures |ys| == 1 ==> (k in Keys(ys) <==> k == Key(ys[0]))
  {
    assert Keys(xs + ys) == Keys(xs) + Keys(ys);
  }

  /** The key k is the alias an explicit entry gives, or the one derived for a listed entry. */
  ghost predicate HasKey(fs: FileSystem, entry: DatabaseConfig, k: string) {
    match entry.glob
    case None => k == Key(entry)
    case Some(g) => exists p :: p in Matches(fs, g) && Derives(GlobBase(g), p, k)
  }

  lemma FromEntryKeys(fs: FileSystem, entry: DatabaseConfig, k: string)
    requires WellFormed(fs) && (entry.glob.Some? ==> GlobPattern(entry.glob.value))
    ensures FromEntry(fs, entry).Ok?
    ensures k in Keys(FromEntry(fs, entry).value) <==> HasKey(fs, entry, k)
  {
    match entry.glob
    case None =>
      assert Keys([entry]) == {Key(entry)};
    case Some(g) =>
      forall p | p in Matches(fs, g)
        ensures Aliased(GlobBase(g), p)
      {
        MatchGlobMeaning(fs, g, p);
        var e: Entry :| e.path == p && Has(fs, e) && Listed(g, e);
        EntriesAreValid(fs, e);
        ListedLiesUnderBase(g, e);
        AliasAlphabet(GlobBase(g), p);
      }
      FromMatchesKeys(GlobBase(g), Matches(fs, g), k);
  }

  ghost predicate AnyHasKey(fs: FileSystem, entries: seq<DatabaseConfig>, k: string) {
    exists e :: e in entries && HasKey(fs, e, k)
  }

  lemma {:induction false} CandidateKeys(fs: FileSystem, entries: seq<DatabaseConfig>, k: string)
    requires WellFormed(fs) && GoodEntries(entries)
    ensures Candidates(fs, entries).Ok?
    ensures k in Keys(Candidates(fs, entries).value) <==> AnyHasKey(fs, entries, k)
  {
    if entries == [] {
    } else {
      var n := |entries| - 1;
      assert forall e :: e in entries <==> e == entries[n] || e in entries[..n];
      FromEntryKeys(fs, entries[n], k);
      CandidateKeys(fs, entries[..n], k);
      KeysOfAppend(Candidates(fs, entries[..n]).value, FromEntry(fs, entries[n]).value, k);
    }
  }

  /** Expansion never fails on such entries, and the keys it holds are exactly those of
      the explicit entries and of every entry a glob lists. */
  lemma ExpansionKeys(fs: FileSystem, entries: seq<DatabaseConfig>, k: string)
    requires WellFormed(fs) && GoodEntries(entries)
    ensures Candidates(fs, entries).Ok?
    ensures k in Keys(Firsts(Candidates(fs, entries).value)) <==> AnyHasKey(fs, entries, k)
  {
    CandidateKeys(fs, entries, k);
    FirstsKeepEveryKey(Candidates(fs, entries).value);
  }
}
