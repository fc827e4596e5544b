/** Starting small and polling against starting afresh, over all trees: the exact
    condition on the globs, and what a caller can check. */
module Coherence {
  import opened Results
  import opened Text
  import opened Paths
  import opened FileTree
  import opened Wildcards
  import opened Glob
  import opened GlobTheorems
  import opened Alias
  import opened Expand
  import opened Watcher
  import opened Incremental

  // ---- one path ----

  lemma {:induction false} FirstGlobMeaning(globs: seq<Path>, p: Path)
    ensures match FirstGlob(globs, p)
            case None => forall g :: g in globs ==> !PathMatchesGlob(g, p)
            case Some(g) => g in globs && PathMatchesGlob(g, p)
  {
    if globs == [] {
    } else {
      FirstGlobMeaning(globs[1..], p);
      assert forall g :: g in globs <==> g == globs[0] || g in globs[1..];
    }
  }

  lemma SameDepthSameBase(b: Path, b': Path, p: Path)
    requires StrictlyBelow(b, p) && StrictlyBelow(b', p) && |b.comps| == |b'.comps|
    ensures SamePath(b, b')
  {
  }

  /** What decides whether watcher and expansion agree on a path that g lists: the path is
      a database, some glob accepts it, and the first one that does has a base as deep as
      that of g. If the path is itself the base of g, a file where the walk starts, its
      expansion alias is empty, and so must the watcher's be. */
  ghost predicate Guarded(globs: seq<Path>, g: Path, p: Path) {
    && IsDatabase(p)
    && FirstGlob(globs, p).Some?
    && var depth := |GlobBase(FirstGlob(globs, p).value).comps|;
       if p == GlobBase(g) then p.comps != [] && depth + 1 == |p.comps| && Ext(Leaf(p)) == Leaf(p)
       else depth == |GlobBase(g).comps|
  }

  lemma ListedIsBelow(g: Path, e: Entry)
    requires GlobPattern(g) && Valid(e.path) && e.path.comps != [] && Listed(g, e) && e.path != GlobBase(g)
    ensures StrictlyBelow(GlobBase(g), e.path)
  {
    if Recursive(g) {
      ListedPlace(GlobBase(g), e.path);
    } else {
      BaseIsShorter(g);
      SafePrefixListed(g, e.path);
      assert e.path.comps[..|GlobBase(g).comps|] == GlobBase(g).comps;
    }
  }

  lemma AliasOfItself(p: Path)
    ensures AliasOf(p, p) == Ok("")
  {
    SelfInCommon(p.comps);
    assert Ups(0) + p.comps[|p.comps|..] == [];
    assert Join(["."], SEP) == ".";
    assert Ext(".") == ".";
    assert AliasOfRel(".") == "";
  }

  lemma {:induction false} SelfInCommon(comps: seq<string>)
    ensures CommonLength(comps, comps) == |comps|
  {
    if comps == [] {
    } else {
      SelfInCommon(comps[1..]);
    }
  }

  /** An alias is empty exactly if it comes from one component that is all extension. */
  lemma EmptyAlias(rel: seq<string>)
    requires rel != []
    ensures AliasOfRel(Join(rel, SEP)) == "" <==> |rel| == 1 && Ext(rel[0]) == rel[0]
  {
    if |rel| > 1 {
      LongerRel(rel, 1);
    } else {
      var s := rel[0];
      assert Join(rel, SEP) == s;
      assert Ext(s) == s[|s| - |Ext(s)|..];
    }
  }

  /** The condition to check is exactly that the two aliases are equal. */
  lemma GuardMeaning(globs: seq<Path>, g: Path, e: Entry)
    requires forall h :: h in globs ==> GlobPattern(h)
    requires g in globs && Valid(e.path) && e.path.comps != [] && Listed(g, e)
    ensures CoherentAt(globs, g, e.path) <==> Guarded(globs, g, e.path)
  {
    var p := e.path;
    ListedLiesUnderBase(g, e);
    FirstGlobMeaning(globs, p);
    if IsDatabase(p) && FirstGlob(globs, p).Some? {
      var f := FirstGlob(globs, p).value;
      AcceptedLiesBelowBase(f, p);
      if p == GlobBase(g) {
        GuardAtBase(g, f, p);
      } else {
        ListedIsBelow(g, e);
        GuardBelowBase(g, f, p);
      }
    }
  }

  lemma GuardAtBase(g: Path, f: Path, p: Path)
    requires Valid(p) && p == GlobBase(g) && StrictlyBelow(GlobBase(f), p)
    ensures AliasOf(GlobBase(f), p).Ok?
    ensures AliasOf(GlobBase(f), p) == AliasOf(GlobBase(g), p)
       <==> |GlobBase(f).comps| + 1 == |p.comps| && Ext(Leaf(p)) == Leaf(p)
  {
    AliasOfItself(p);
    AliasOfBelow(GlobBase(f), p);
    EmptyAlias(p.comps[|GlobBase(f).comps|..]);
  }

  lemma GuardBelowBase(g: Path, f: Path, p: Path)
    requires Valid(p) && StrictlyBelow(GlobBase(g), p) && StrictlyBelow(GlobBase(f), p)
    ensures AliasOf(GlobBase(f), p).Ok?
    ensures AliasOf(GlobBase(f), p) == AliasOf(GlobBase(g), p) <==> |GlobBase(f).comps| == |GlobBase(g).comps|
  {
    var b, c := GlobBase(f), GlobBase(g);
    AliasOfBelow(b, p);
    if |b.comps| == |c.comps| {
      SameDepthSameBase(b, c, p);
      assert SamePath(p, p);
      AliasIgnoresCase(b, c, p, p);
    } else if |b.comps| < |c.comps| {
      DeeperBaseOtherAlias(b, c, p);
    } else {
      DeeperBaseOtherAlias(c, b, p);
    }
  }

  // ---- one tree ----

  /** The service catches up with a larger tree, if the condition holds for what the globs
      match in that tree. */
  lemma GuardedTreeCatchesUp(es: seq<DatabaseConfig>, globs: seq<Path>, fs: FileSystem, fs': FileSystem,
                             installed: string)
    requires Setting(es, globs, fs, fs')
    requires forall g, p :: g in globs && p in Matches(fs', g) ==> Guarded(globs, g, p)
    ensures CatchesUp(es, fs, fs', installed)
  {
    AllPatterns(es, globs);
    forall g, p | g in globs && p in Matches(fs', g) ensures CoherentAt(globs, g, p) {
      MatchGlobMeaning(fs', g, p);
      var e: Entry :| e.path == p && Has(fs', e) && Listed(g, e);
      EntriesAreValid(fs', e);
      GuardMeaning(globs, g, e);
    }
    CoherentTreeCatchesUp(es, globs, fs, fs', installed);
  }

  lemma AllPatterns(es: seq<DatabaseConfig>, globs: seq<Path>)
    requires GoodEntries(es) && GlobsOf(es) == globs
    ensures forall h :: h in globs ==> GlobPattern(h)
  {
    forall h | h in globs ensures GlobPattern(h) {
      var e := GlobEntry(es, h);
    }
  }

  /** So it does if every match is a database, no glob is root-based or starts from a file,
      and globs that accept one match have bases of one depth. */
  lemma DisjointGlobsCatchUp(es: seq<DatabaseConfig>, globs: seq<Path>, fs: FileSystem, fs': FileSystem,
                             installed: string)
    requires Setting(es, globs, fs, fs') && forall g :: g in globs ==> !RootBased(g)
    requires forall g, p :: g in globs && p in Matches(fs', g) ==> IsDatabase(p) && p != GlobBase(g)
    requires forall g, h, p :: g in globs && h in globs && p in Matches(fs', g) && PathMatchesGlob(h, p)
               ==> |GlobBase(g).comps| == |GlobBase(h).comps|
    ensures CatchesUp(es, fs, fs', installed)
  {
    AllPatterns(es, globs);
    forall g, p | g in globs && p in Matches(fs', g) ensures Guarded(globs, g, p) {
      MatchGlobMeaning(fs', g, p);
      var e: Entry :| e.path == p && Has(fs', e) && Listed(g, e);
      EntriesAreValid(fs', e);
      ListedIsAccepted(g, e);
      FirstGlobMeaning(globs, p);
    }
    GuardedTreeCatchesUp(es, globs, fs, fs', installed);
  }

  // ---- all trees ----

  /** The directory n components down the way to e, or e itself. */
  function Prefix(e: Entry, n: nat): Entry
    requires n <= |e.path.comps|
  {
    Entry(Path(e.path.vol, e.path.comps[..n]), n < |e.path.comps| || e.isDir)
  }

  /** Some glob lists the entry n components down the way to e. */
  ghost predicate ListedOnWay(globs: seq<Path>, g: Path, e: Entry, n: nat) {
    g in globs && 0 < n <= |e.path.comps| && Listed(g, Prefix(e, n))
  }

  /** On the way down to e, expanding the globs gives the alias k. */
  ghost predicate ExpandedOnWay(globs: seq<Path>, e: Entry, k: string) {
    exists g, n: nat :: ListedOnWay(globs, g, e, n) && Derives(GlobBase(g), Prefix(e, n).path, k)
  }

  /** On the way down to e, but not at e, the watcher gives a listed directory the alias k. */
  ghost predicate PolledAbove(globs: seq<Path>, e: Entry, k: string) {
    exists g, n: nat ::
      ListedOnWay(globs, g, e, n) && n < |e.path.comps| && AliasFor(globs, Prefix(e, n).path) == Some(k)
  }

  ghost predicate PolledOnWay(globs: seq<Path>, e: Entry, k: string) {
    exists g, n: nat :: ListedOnWay(globs, g, e, n) && AliasFor(globs, Prefix(e, n).path) == Some(k)
  }

  /** A directory that is listed like a database hides the disagreement about an entry
      inside it, because a tree with the entry has the directory: the alias that g gives
      e is also given to a directory above e by the watcher, and the alias the watcher
      gives e, if any, is also given by an expansion on the way. */
  ghost predicate Masked(globs: seq<Path>, g: Path, e: Entry) {
    && AliasOf(GlobBase(g), e.path).Ok?
    && PolledAbove(globs, e, AliasOf(GlobBase(g), e.path).value)
    && (AliasFor(globs, e.path).Some? ==> ExpandedOnWay(globs, e, AliasFor(globs, e.path).value))
  }

  ghost predicate Coherent(globs: seq<Path>) {
    forall g, e: Entry :: g in globs && Valid(e.path) && e.path.comps != [] && Listed(g, e)
      ==> Guarded(globs, g, e.path) || Masked(globs, g, e)
  }

  /** No glob lists a directory above e. */
  ghost predicate AncestorsClear(globs: seq<Path>, e: Entry) {
    forall g, n: nat :: ListedOnWay(globs, g, e, n) ==> n == |e.path.comps|
  }

  /** Below no listed directory nothing is masked. */
  lemma MaskedOnlyInListedDirectories(globs: seq<Path>, g: Path, e: Entry)
    requires AncestorsClear(globs, e)
    ensures !Masked(globs, g, e)
  {
  }

  // The way to one entry, as a tree.

  lemma WholeWay(e: Entry)
    ensures Prefix(e, |e.path.comps|) == e
  {
    assert e.path.comps[..|e.path.comps|] == e.path.comps;
  }

  lemma PrefixOfPrefix(e: Entry, n: nat, m: nat)
    requires m <= n <= |e.path.comps|
    ensures Prefix(Prefix(e, n), m) == Prefix(e, m)
  {
    assert e.path.comps[..n][..m] == e.path.comps[..m];
  }

  lemma PrefixIsValid(e: Entry, n: nat)
    requires Valid(e.path) && 0 < n <= |e.path.comps|
    ensures Valid(Prefix(e, n).path) && Prefix(e, n).path.comps != []
  {
    assert forall c :: c in e.path.comps[..n] ==> c in e.path.comps;
  }

  lemma WayHas(e: Entry, f: Entry)
    requires Valid(e.path) && e.path.comps != []
    ensures Has(SingleEntry(e), f) <==> exists n: nat :: 0 < n <= |e.path.comps| && f == Prefix(e, n)
  {
    SingleEntryHas(e, f);
    WholeWay(e);
    if Has(SingleEntry(e), f) {
      var n := |f.path.comps|;
      assert f == Prefix(e, n);
    }
    if n: nat :| 0 < n <= |e.path.comps| && f == Prefix(e, n) {
      assert n < |e.path.comps| ==> f.path.comps < e.path.comps;
    }
  }

  lemma WayMatches(globs: seq<Path>, g: Path, e: Entry, q: Path)
    requires g in globs && GlobPattern(g) && Valid(e.path) && e.path.comps != []
    ensures q in Matches(SingleEntry(e), g) <==> exists n: nat :: ListedOnWay(globs, g, e, n) && Prefix(e, n).path == q
  {
    var fs := SingleEntry(e);
    SingleEntryHas(e, e);
    MatchGlobMeaning(fs, g, q);
    if q in Matches(fs, g) {
      var f: Entry :| f.path == q && Has(fs, f) && Listed(g, f);
      WayHas(e, f);
      var n: nat :| 0 < n <= |e.path.comps| && f == Prefix(e, n);
      assert ListedOnWay(globs, g, e, n);
    }
    if n: nat :| ListedOnWay(globs, g, e, n) && Prefix(e, n).path == q {
      WayHas(e, Prefix(e, n));
    }
  }

  lemma WayExpands(globs: seq<Path>, e: Entry, k: string)
    requires (forall h :: h in globs ==> GlobPattern(h)) && Valid(e.path) && e.path.comps != []
    ensures ExpandedKey(SingleEntry(e), globs, k) <==> ExpandedOnWay(globs, e, k)
  {
    if g, p :| g in globs && p in Matches(SingleEntry(e), g) && Derives(GlobBase(g), p, k) {
      WayMatches(globs, g, e, p);
    }
    if g, n: nat :| ListedOnWay(globs, g, e, n) && Derives(GlobBase(g), Prefix(e, n).path, k) {
      WayMatches(globs, g, e, Prefix(e, n).path);
    }
  }

  lemma WayPolls(globs: seq<Path>, e: Entry, k: string)
    requires (forall h :: h in globs ==> GlobPattern(h)) && Valid(e.path) && e.path.comps != []
    ensures (exists p :: PolledKey(SingleEntry(e), globs, p, k)) <==> PolledOnWay(globs, e, k)
  {
    var fs := SingleEntry(e);
    if p :| PolledKey(fs, globs, p, k) {
      var g :| g in globs && p in Lister(fs)(g);
      WayMatches(globs, g, e, p);
    }
    if g, n: nat :| ListedOnWay(globs, g, e, n) && AliasFor(globs, Prefix(e, n).path) == Some(k) {
      WayMatches(globs, g, e, Prefix(e, n).path);
      assert Prefix(e, n).path in Lister(fs)(g);
      assert PolledKey(fs, globs, Prefix(e, n).path, k);
    }
  }

  /** On the tree with one entry the service catches up exactly if the way there agrees. */
  lemma WayFallsBehind(globs: seq<Path>, e: Entry, k: string, installed: string)
    requires (forall h :: h in globs ==> GlobPattern(h)) && Valid(e.path) && e.path.comps != []
    requires !(ExpandedOnWay(globs, e, k) <==> PolledOnWay(globs, e, k))
    ensures Setting(GlobEntries(globs), globs, map[], SingleEntry(e))
    ensures !CatchesUp(GlobEntries(globs), map[], SingleEntry(e), installed)
  {
    WayExpands(globs, e, k);
    WayPolls(globs, e, k);
    SingleEntryHas(e, e);
    FromNothing(globs, SingleEntry(e), installed);
    assert !SameKeys(SingleEntry(e), globs);
  }

  /** Expanding and polling give the same aliases on the way down to every entry. */
  ghost predicate WaysAgree(globs: seq<Path>) {
    forall e: Entry, k: string :: Valid(e.path) && e.path.comps != [] ==>
      (ExpandedOnWay(globs, e, k) <==> PolledOnWay(globs, e, k))
  }

  lemma AboveIsOnWay(globs: seq<Path>, e: Entry, n: nat, k: string)
    requires n <= |e.path.comps|
    ensures PolledAbove(globs, Prefix(e, n), k) ==> PolledOnWay(globs, e, k)
    ensures ExpandedOnWay(globs, Prefix(e, n), k) ==> ExpandedOnWay(globs, e, k)
  {
    if g, m: nat :|
      ListedOnWay(globs, g, Prefix(e, n), m) && m < n && AliasFor(globs, Prefix(Prefix(e, n), m).path) == Some(k)
    {
      PrefixOfPrefix(e, n, m);
      assert ListedOnWay(globs, g, e, m);
    }
    if g, m: nat :| ListedOnWay(globs, g, Prefix(e, n), m) && Derives(GlobBase(g), Prefix(Prefix(e, n), m).path, k) {
      PrefixOfPrefix(e, n, m);
      assert ListedOnWay(globs, g, e, m);
    }
  }

  lemma CoherentWaysAgree(globs: seq<Path>, e: Entry, k: string)
    requires (forall h :: h in globs ==> GlobPattern(h)) && Coherent(globs) && Valid(e.path) && e.path.comps != []
    ensures ExpandedOnWay(globs, e, k) <==> PolledOnWay(globs, e, k)
  {
    if g, n: nat :| ListedOnWay(globs, g, e, n) && Derives(GlobBase(g), Prefix(e, n).path, k) {
      PrefixIsValid(e, n);
      GuardMeaning(globs, g, Prefix(e, n));
      AboveIsOnWay(globs, e, n, k);
    }
    if g, n: nat :| ListedOnWay(globs, g, e, n) && AliasFor(globs, Prefix(e, n).path) == Some(k) {
      PrefixIsValid(e, n);
      GuardMeaning(globs, g, Prefix(e, n));
      AboveIsOnWay(globs, e, n, k);
    }
  }

  lemma AgreeingWaysAreCoherent(globs: seq<Path>, g: Path, e: Entry)
    requires (forall h :: h in globs ==> GlobPattern(h)) && WaysAgree(globs)
    requires g in globs && Valid(e.path) && e.path.comps != [] && Listed(g, e)
    ensures Guarded(globs, g, e.path) || Masked(globs, g, e)
  {
    var end := |e.path.comps|;
    WholeWay(e);
    assert ListedOnWay(globs, g, e, end);
    ListedLiesUnderBase(g, e);
    var k := AliasOf(GlobBase(g), e.path).value;
    assert ExpandedOnWay(globs, e, k);
    var h, n: nat :| ListedOnWay(globs, h, e, n) && AliasFor(globs, Prefix(e, n).path) == Some(k);
    if n == end {
      GuardMeaning(globs, g, e);
    } else {
      assert PolledAbove(globs, e, k);
      if AliasFor(globs, e.path).Some? {
        assert PolledOnWay(globs, e, AliasFor(globs, e.path).value);
      }
    }
  }

  lemma ExpandedIsPolled(globs: seq<Path>, fs: FileSystem, k: string) returns (p: Path)
    requires (forall h :: h in globs ==> GlobPattern(h)) && WellFormed(fs)
    requires WaysAgree(globs) && ExpandedKey(fs, globs, k)
    ensures PolledKey(fs, globs, p, k)
  {
    var g, q :| g in globs && q in Matches(fs, g) && Derives(GlobBase(g), q, k);
    var e := MatchedEntry(globs, fs, g, q);
    assert ExpandedOnWay(globs, e, k);
    var h, n: nat :| ListedOnWay(globs, h, e, n) && AliasFor(globs, Prefix(e, n).path) == Some(k);
    OnWayIsMatched(globs, fs, h, e, n);
    p := Prefix(e, n).path;
    assert p in Lister(fs)(h);
  }

  lemma PolledIsExpanded(globs: seq<Path>, fs: FileSystem, p: Path, k: string)
    requires (forall h :: h in globs ==> GlobPattern(h)) && WellFormed(fs)
    requires WaysAgree(globs) && PolledKey(fs, globs, p, k)
    ensures ExpandedKey(fs, globs, k)
  {
    var g :| g in globs && p in Lister(fs)(g);
    var e := MatchedEntry(globs, fs, g, p);
    assert PolledOnWay(globs, e, k);
    var h, n: nat :| ListedOnWay(globs, h, e, n) && Derives(GlobBase(h), Prefix(e, n).path, k);
    OnWayIsMatched(globs, fs, h, e, n);
  }

  /** A tree is made of the ways to its entries. */
  lemma AgreeingWaysHaveSameKeys(globs: seq<Path>, fs: FileSystem, k: string)
    requires (forall h :: h in globs ==> GlobPattern(h)) && WellFormed(fs) && WaysAgree(globs)
    ensures ExpandedKey(fs, globs, k) <==> exists p :: PolledKey(fs, globs, p, k)
  {
    if ExpandedKey(fs, globs, k) {
      var p := ExpandedIsPolled(globs, fs, k);
    }
    if p :| PolledKey(fs, globs, p, k) {
      PolledIsExpanded(globs, fs, p, k);
    }
  }

  lemma MatchedEntry(globs: seq<Path>, fs: FileSystem, g: Path, p: Path) returns (e: Entry)
    requires g in globs && GlobPattern(g) && WellFormed(fs) && p in Matches(fs, g)
    ensures e.path == p && Has(fs, e) && Valid(p) && p.comps != []
    ensures Prefix(e, |p.comps|) == e && ListedOnWay(globs, g, e, |p.comps|)
  {
    MatchGlobMeaning(fs, g, p);
    e :| e.path == p && Has(fs, e) && Listed(g, e);
    EntriesAreValid(fs, e);
    WholeWay(e);
  }

  lemma OnWayExists(fs: FileSystem, e: Entry, n: nat)
    requires Has(fs, e) && 0 < n <= |e.path.comps|
    ensures Has(fs, Prefix(e, n))
  {
    WholeWay(e);
    if n < |e.path.comps| {
      AncestorsExist(fs[e.path.vol], e.path.comps, e.isDir, n);
    }
  }

  lemma OnWayIsMatched(globs: seq<Path>, fs: FileSystem, g: Path, e: Entry, n: nat)
    requires GlobPattern(g) && WellFormed(fs) && Has(fs, e) && ListedOnWay(globs, g, e, n)
    ensures Prefix(e, n).path in Matches(fs, g)
  {
    OnWayExists(fs, e, n);
    MatchGlobMeaning(fs, g, Prefix(e, n).path);
  }

  lemma {:induction false} AncestorsExist(kids: seq<Node>, comps: seq<string>, isDir: bool, n: nat)
    requires Exists(kids, comps, isDir) && 0 < n < |comps|
    ensures Exists(kids, comps[..n], true)
    decreases |comps|
  {
    var k :| k in kids && IsAt(k, comps, isDir);
    assert comps[..n][0] == comps[0];
    if n == 1 {
    } else {
      AncestorsExist(k.kids, comps[1..], isDir, n - 1);
      assert comps[1..][..n - 1] == comps[..n][1..];
    }
    assert IsAt(k, comps[..n], true);
  }

  /** The service catches up with every growing tree, for every configuration with these
      globs, if and only if for whatever a glob could list the condition holds or a
      listed directory masks the difference. */
  lemma CatchesUpIffCoherent(globs: seq<Path>, installed: string)
    requires forall h :: h in globs ==> GlobPattern(h)
    ensures (forall es, fs, fs' :: Setting(es, globs, fs, fs') ==> CatchesUp(es, fs, fs', installed))
            <==> Coherent(globs)
  {
    if Coherent(globs) {
      CoherentCatchesUp(globs, installed);
    } else {
      var g, e: Entry :| g in globs && Valid(e.path) && e.path.comps != [] && Listed(g, e)
        && !Guarded(globs, g, e.path) && !Masked(globs, g, e);
      IncoherentFallsBehind(globs, g, e, installed);
    }
  }

  lemma CoherentCatchesUp(globs: seq<Path>, installed: string)
    requires (forall h :: h in globs ==> GlobPattern(h)) && Coherent(globs)
    ensures forall es, fs, fs' :: Setting(es, globs, fs, fs') ==> CatchesUp(es, fs, fs', installed)
  {
    forall e: Entry, k: string | Valid(e.path) && e.path.comps != []
      ensures ExpandedOnWay(globs, e, k) <==> PolledOnWay(globs, e, k)
    {
      CoherentWaysAgree(globs, e, k);
    }
    forall es, fs, fs' | Setting(es, globs, fs, fs') ensures CatchesUp(es, fs, fs', installed) {
      forall k: string ensures ExpandedKey(fs', globs, k) <==> exists p :: PolledKey(fs', globs, p, k) {
        AgreeingWaysHaveSameKeys(globs, fs', k);
      }
      SameKeysCatchUp(es, globs, fs, fs', installed);
    }
  }

  lemma IncoherentFallsBehind(globs: seq<Path>, g: Path, e: Entry, installed: string)
    requires forall h :: h in globs ==> GlobPattern(h)
    requires g in globs && Valid(e.path) && e.path.comps != [] && Listed(g, e)
    requires !Guarded(globs, g, e.path) && !Masked(globs, g, e)
    ensures exists es, fs, fs' :: Setting(es, globs, fs, fs') && !CatchesUp(es, fs, fs', installed)
  {
    if WaysAgree(globs) {
      AgreeingWaysAreCoherent(globs, g, e);
    }
    var f: Entry, k: string :| Valid(f.path) && f.path.comps != []
      && !(ExpandedOnWay(globs, f, k) <==> PolledOnWay(globs, f, k));
    WayFallsBehind(globs, f, k, installed);
  }

  // ---- trees in which the globs list files only ----

  ghost predicate FilesOnly(globs: seq<Path>, fs: FileSystem) {
    forall g, e: Entry :: g in globs && e.isDir && Has(fs, e) ==> !Listed(g, e)
  }

  /** The condition holds for every file that some glob could list below unlisted directories. */
  ghost predicate FilesGuarded(globs: seq<Path>) {
    forall g, p :: g in globs && Valid(p) && p.comps != []
      && Listed(g, Entry(p, false)) && AncestorsClear(globs, Entry(p, false))
      ==> Guarded(globs, g, p)
  }

  /** Over the trees in which globs list files only nothing is masked: the service catches
      up with all of them if and only if the condition holds for every such file. */
  lemma CatchesUpOnFilesIffGuarded(globs: seq<Path>, installed: string)
    requires forall h :: h in globs ==> GlobPattern(h)
    ensures (forall es, fs, fs' :: Setting(es, globs, fs, fs') && FilesOnly(globs, fs')
              ==> CatchesUp(es, fs, fs', installed))
            <==> FilesGuarded(globs)
  {
    if FilesGuarded(globs) {
      forall es, fs, fs' | Setting(es, globs, fs, fs') && FilesOnly(globs, fs')
        ensures CatchesUp(es, fs, fs', installed)
      {
        forall g, p | g in globs && p in Matches(fs', g) ensures Guarded(globs, g, p) {
          MatchedFile(globs, fs', g, p);
        }
        GuardedTreeCatchesUp(es, globs, fs, fs', installed);
      }
    } else {
      var g, p :| g in globs && Valid(p) && p.comps != []
        && Listed(g, Entry(p, false)) && AncestorsClear(globs, Entry(p, false))
        && !Guarded(globs, g, p);
      UnguardedFileFallsBehind(globs, g, Entry(p, false), installed);
    }
  }

  lemma MatchedFile(globs: seq<Path>, fs: FileSystem, g: Path, p: Path)
    requires g in globs && GlobPattern(g) && WellFormed(fs) && FilesOnly(globs, fs) && p in Matches(fs, g)
    ensures Valid(p) && p.comps != [] && Listed(g, Entry(p, false)) && AncestorsClear(globs, Entry(p, false))
  {
    var e := MatchedEntry(globs, fs, g, p);
    assert e == Entry(p, false);
    forall f, n: nat | ListedOnWay(globs, f, e, n) ensures n == |p.comps| {
      OnWayExists(fs, e, n);
    }
  }

  lemma UnguardedFileFallsBehind(globs: seq<Path>, g: Path, e: Entry, installed: string)
    requires forall h :: h in globs ==> GlobPattern(h)
    requires g in globs && Valid(e.path) && e.path.comps != [] && !e.isDir && Listed(g, e) && AncestorsClear(globs, e)
    requires !Guarded(globs, g, e.path)
    ensures Setting(GlobEntries(globs), globs, map[], SingleEntry(e)) && FilesOnly(globs, SingleEntry(e))
    ensures !CatchesUp(GlobEntries(globs), map[], SingleEntry(e), installed)
  {
    WholeWay(e);
    GuardMeaning(globs, g, e);
    ListedLiesUnderBase(g, e);
    var k := AliasOf(GlobBase(g), e.path).value;
    assert ListedOnWay(globs, g, e, |e.path.comps|);
    assert ExpandedOnWay(globs, e, k) && !PolledOnWay(globs, e, k);
    WayFallsBehind(globs, e, k, installed);
    forall f, d: Entry | f in globs && d.isDir && Has(SingleEntry(e), d) ensures !Listed(f, d) {
      WayHas(e, d);
      var n: nat :| 0 < n <= |e.path.comps| && d == Prefix(e, n);
      assert Listed(f, d) ==> ListedOnWay(globs, f, e, n);
    }
  }

  // ---- globs that are not coherent ----

  /** Two globs that list one entry from bases of different depth are not coherent, in any
      list of globs, unless a listed directory lies above it. */
  lemma OverlapIsIncoherent(globs: seq<Path>, g: Path, h: Path, e: Entry)
    requires forall f :: f in globs ==> GlobPattern(f)
    requires g in globs && h in globs && Valid(e.path) && e.path.comps != [] && Listed(g, e) && Listed(h, e)
    requires e.path != GlobBase(g) && e.path != GlobBase(h) && |GlobBase(g).comps| != |GlobBase(h).comps|
    requires AncestorsClear(globs, e)
    ensures !Coherent(globs)
  {
    MaskedOnlyInListedDirectories(globs, g, e);
    MaskedOnlyInListedDirectories(globs, h, e);
    assert !(Guarded(globs, g, e.path) && Guarded(globs, h, e.path));
  }

  /** A root-based recursive glob is not coherent in any list whose single-level globs have
      a base below their root: the watcher's test rejects it, and every other glob that
      accepts its files has a deeper base. */
  lemma RootBasedIsIncoherent(globs: seq<Path>, g: Path)
    requires forall f :: f in globs ==> GlobPattern(f) && (Recursive(f) || GlobBase(f).comps != [])
    requires g in globs && RootBased(g)
    ensures !Coherent(globs)
  {
    var e := Entry(RootWitness(g), false);
    RootWitnessListed(g);
    RootFilesAreNotGuarded(globs, g, e);
    forall f, n: nat | ListedOnWay(globs, f, e, n) ensures n == |e.path.comps| {
      if n < |e.path.comps| {
        OneLevelHasRootBase(f, Prefix(e, n));
      }
    }
    MaskedOnlyInListedDirectories(globs, g, e);
  }

  lemma RootFilesAreNotGuarded(globs: seq<Path>, g: Path, e: Entry)
    requires forall f :: f in globs ==> GlobPattern(f) && (Recursive(f) || GlobBase(f).comps != [])
    requires RootBased(g) && Valid(e.path) && e.path.comps != []
    ensures !Guarded(globs, g, e.path)
  {
    FirstGlobMeaning(globs, e.path);
    if FirstGlob(globs, e.path).Some? {
      PathMatchesGlobMeaning(FirstGlob(globs, e.path).value, e.path);
    }
  }

  lemma OneLevelHasRootBase(f: Path, e: Entry)
    requires GlobPattern(f) && Listed(f, e) && e.isDir && |e.path.comps| == 1
    ensures !Recursive(f) && GlobBase(f).comps == []
  {
    BaseIsShorter(f);
  }

  // ---- globs that list databases only ----

  /** A literal at the end of a pattern is at the end of every name it matches. */
  lemma {:induction false} LiteralEnd(pattern: string, end: string, name: string)
    requires Match(pattern, name) && EndsWith(pattern, end) && !Wild(end)
    ensures EndsWith(name, end)
    decreases |pattern| + |name|
  {
    if |pattern| == |end| {
      MatchLiteral(pattern, name);
    } else {
      var tail := pattern[1..];
      assert tail[|tail| - |end|..] == pattern[|pattern| - |end|..];
      if pattern[0] == '*' && Match(tail, name) {
        LiteralEnd(tail, end, name);
      } else {
        var rest := name[1..];
        LiteralEnd(if pattern[0] == '*' then pattern else tail, end, rest);
        assert name[|name| - |end|..] == rest[|rest| - |end|..];
      }
    }
  }

  lemma RenderEndsWithLeaf(p: Path)
    requires p.comps != []
    ensures EndsWith(Render(p), Leaf(p))
  {
    var n := |p.comps| - 1;
    var init := VolumePieces(p.vol) + p.comps[..n];
    assert Pieces(p) == init + [Leaf(p)];
    JoinConcat(init, [Leaf(p)], SEP);
  }

  lemma EndOfEnd(s: string, t: string, end: string)
    requires EndsWith(s, t) && EndsWith(Lower(t), end)
    ensures EndsWith(Lower(s), end)
  {
    var l, k := |s| - |t|, |t| - |end|;
    forall i | 0 <= i < |end| ensures Lower(s)[l + k..][i] == end[i] {
      assert s[l..][k + i] == t[k + i] && Lower(t)[k..][i] == end[i];
    }
  }

  lemma LeafDecides(p: Path, ext: string)
    requires p.comps != [] && ext in [".mdb", ".accdb"] && EndsWith(Lower(Leaf(p)), ext)
    ensures IsDatabase(p)
  {
    var s := Render(p);
    RenderEndsWithLeaf(p);
    EndOfEnd(s, Leaf(p), ext);
    DatabaseByEnding(p);
  }

  lemma ListedLeaf(g: Path, e: Entry)
    requires e.path.comps != [] && Listed(g, e)
    ensures Match(Lower(BaseName(g)), Lower(BaseName(e.path)))
  {
    if !Recursive(g) {
      var n := |e.path.comps| - 1;
      assert Match(g.comps[n], e.path.comps[n]);
      MatchLower(g.comps[n], e.path.comps[n]);
    }
  }

  /** A glob whose last component ends in a database extension lists databases only. */
  lemma LeafFixesExtension(g: Path, e: Entry, ext: string)
    requires GlobPattern(g) && Valid(e.path) && e.path.comps != [] && Listed(g, e)
    requires ext in [".mdb", ".accdb"] && EndsWith(Lower(BaseName(g)), ext)
    ensures IsDatabase(e.path)
  {
    ListedLeaf(g, e);
    LiteralEnd(Lower(BaseName(g)), ext, Lower(BaseName(e.path)));
    LeafDecides(e.path, ext);
  }
}
