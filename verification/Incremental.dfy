/** Starting on a small tree and polling a larger one, against starting on the larger
    one: when the two give the same aliases. */
module Incremental {
  import opened Results
  import opened Text
  import opened Paths
  import opened FileTree
  import opened Glob
  import opened Alias
  import opened Expand
  import opened Watcher
  import P = Pool

  /** Service start-up: each expanded entry becomes a pool entry. */
  function PoolConfigs(cs: seq<DatabaseConfig>): (r: seq<P.DBConfig>)
    ensures |r| == |cs|
    ensures forall i :: 0 <= i < |cs| ==> r[i] == P.DBConfig(cs[i].alias, cs[i].path, cs[i].driver)
  {
    seq(|cs|, i requires 0 <= i < |cs| => P.DBConfig(cs[i].alias, cs[i].path, cs[i].driver))
  }

  function AllOpen(n: nat): (r: seq<bool>)
    ensures |r| == n
  {
    seq(n, _ => true)
  }

  /** The pool of a service started on fs, all databases opening. */
  ghost function StartPool(es: seq<DatabaseConfig>, fs: FileSystem, installed: string): P.PoolState
    requires Candidates(fs, es).Ok?
  {
    var cfgs := PoolConfigs(Firsts(Candidates(fs, es).value));
    P.StartAll(cfgs, installed, AllOpen(|cfgs|))
  }

  /** The globs among the entries, kept for the watcher. */
  function GlobsOf(es: seq<DatabaseConfig>): (r: seq<Path>)
    ensures forall g :: g in r <==> exists e :: e in es && e.glob == Some(g)
  {
    if es == [] then []
    else if es[0].glob.Some? then [es[0].glob.value] + GlobsOf(es[1..])
    else GlobsOf(es[1..])
  }

  /** Every database the poll tries opens. */
  function EveryOpening(): Path -> bool {
    p => true
  }

  ghost function AfterPoll(es: seq<DatabaseConfig>, fs: FileSystem, fs': FileSystem, installed: string): P.PoolState
    requires Candidates(fs, es).Ok?
  {
    PollState(StartPool(es, fs, installed), GlobsOf(es), fs', installed, EveryOpening())
  }

  // ---- the pool at start-up ----

  /** Start-up aliases are distinct up to case, because the expansion's are. */
  lemma ExpandedAliasesAreApart(es: seq<DatabaseConfig>, fs: FileSystem)
    requires Candidates(fs, es).Ok?
    ensures var cfgs := PoolConfigs(Firsts(Candidates(fs, es).value));
            && (forall i, j :: 0 <= i < j < |cfgs| ==> !EqualFold(cfgs[i].alias, cfgs[j].alias))
            && P.AliasesApart(cfgs)
  {
    FirstsKeepEveryKey(Candidates(fs, es).value);
  }

  /** So the service starts with a sound pool, whichever databases open. */
  lemma StartupIsSound(es: seq<DatabaseConfig>, fs: FileSystem, installed: string, opens: seq<bool>)
    requires Candidates(fs, es).Ok?
    requires |opens| == |Firsts(Candidates(fs, es).value)|
    ensures P.Sound(P.StartAll(PoolConfigs(Firsts(Candidates(fs, es).value)), installed, opens))
  {
    ExpandedAliasesAreApart(es, fs);
    P.NewPoolIsSound(PoolConfigs(Firsts(Candidates(fs, es).value)), installed, opens);
  }

  lemma FoldedStart(cs: seq<DatabaseConfig>, installed: string, opens: seq<bool>)
    requires |opens| == |cs|
    ensures Folded(P.StartAll(PoolConfigs(cs), installed, opens)) == Keys(cs)
    ensures Listing(P.StartAll(PoolConfigs(cs), installed, opens))
  {
    var cfgs := PoolConfigs(cs);
    var s := P.StartAll(cfgs, installed, opens);
    P.StartedAliases(cfgs, installed, opens);
    forall k: string ensures k in Folded(s) <==> k in Keys(cs) {
      if k in Folded(s) {
        var a :| a in s.paths && Lower(a) == k;
        assert a in P.AliasSet(cfgs);
        var c :| c in cfgs && c.alias == a;
        var i :| 0 <= i < |cfgs| && cfgs[i] == c;
        assert cs[i] in cs && Key(cs[i]) == k;
      }
      if k in Keys(cs) {
        var c :| c in cs && Key(c) == k;
        var i :| 0 <= i < |cs| && cs[i] == c;
        assert cfgs[i] in cfgs;
        assert cfgs[i].alias in P.AliasSet(cfgs);
        assert c.alias in s.paths;
      }
    }
    StartListing(cfgs, installed, opens);
  }

  lemma {:induction false} StartListing(cfgs: seq<P.DBConfig>, installed: string, opens: seq<bool>)
    requires |opens| == |cfgs|
    ensures Listing(P.StartAll(cfgs, installed, opens))
  {
    if cfgs == [] {
    } else {
      var n := |cfgs| - 1;
      StartListing(cfgs[..n], installed, opens[..n]);
    }
  }

  /** The aliases of a fresh start: explicit ones, and one per glob and listed entry. */
  lemma StartAliases(es: seq<DatabaseConfig>, fs: FileSystem, installed: string, k: string)
    requires WellFormed(fs) && GoodEntries(es)
    ensures Candidates(fs, es).Ok?
    ensures k in Folded(StartPool(es, fs, installed)) <==> AnyHasKey(fs, es, k)
    ensures Listing(StartPool(es, fs, installed))
  {
    ExpansionKeys(fs, es, k);
    var cs := Firsts(Candidates(fs, es).value);
    FoldedStart(cs, installed, AllOpen(|cs|));
  }

  lemma {:induction false} AllListedMeaning(list: Path -> seq<Path>, globs: seq<Path>, p: Path)
    ensures p in AllListed(list, globs) <==> exists g :: g in globs && p in list(g)
  {
    if globs == [] {
    } else {
      var n := |globs| - 1;
      AllListedMeaning(list, globs[..n], p);
      assert globs == globs[..n] + [globs[n]];
    }
  }

  /** Some glob of the list lists p, and p gets the alias k. */
  ghost predicate Polled(list: Path -> seq<Path>, alias: Path -> Option<string>, globs: seq<Path>, p: Path, k: string) {
    (exists g :: g in globs && p in list(g)) && alias(p) == Some(k)
  }

  ghost predicate PolledKey(fs: FileSystem, globs: seq<Path>, p: Path, k: string) {
    Polled(Lister(fs), Deriver(globs), globs, p, k)
  }

  lemma ListedAttempts(list: Path -> seq<Path>, alias: Path -> Option<string>, opens: Path -> bool,
                       globs: seq<Path>, k: string)
    requires forall p :: opens(p)
    ensures (exists t :: t in Attempts(alias, opens, AllListed(list, globs)) && t.opens && t.alias == Some(k))
       <==> exists p :: Polled(list, alias, globs, p, k)
  {
    var paths := AllListed(list, globs);
    var ts := Attempts(alias, opens, paths);
    if t :| t in ts && t.opens && t.alias == Some(k) {
      var i :| 0 <= i < |ts| && ts[i] == t;
      AllListedMeaning(list, globs, paths[i]);
      assert Polled(list, alias, globs, paths[i], k);
    }
    if p :| Polled(list, alias, globs, p, k) {
      AllListedMeaning(list, globs, p);
      var i :| 0 <= i < |paths| && paths[i] == p;
      assert ts[i] in ts;
    }
  }

  lemma AttemptedAliases(s: P.PoolState, list: Path -> seq<Path>, alias: Path -> Option<string>, opens: Path -> bool,
                         globs: seq<Path>, installed: string, k: string)
    requires Listing(s) && (forall p :: opens(p)) && LowerAliases(Attempts(alias, opens, AllListed(list, globs)))
    ensures k in Folded(TryAll(s, Attempts(alias, opens, AllListed(list, globs)), installed))
       <==> k in Folded(s) || exists p :: Polled(list, alias, globs, p, k)
  {
    TryAllAliases(s, Attempts(alias, opens, AllListed(list, globs)), installed, k);
    ListedAttempts(list, alias, opens, globs, k);
  }

  lemma PollAliases(s: P.PoolState, globs: seq<Path>, fs: FileSystem, installed: string, k: string)
    requires Listing(s)
    ensures k in Folded(PollState(s, globs, fs, installed, EveryOpening()))
       <==> k in Folded(s) || exists p :: PolledKey(fs, globs, p, k)
  {
    AttemptsAreLower(globs, EveryOpening(), AllMatches(fs, globs));
    AttemptedAliases(s, Lister(fs), Deriver(globs), EveryOpening(), globs, installed, k);
    assert forall p :: PolledKey(fs, globs, p, k) <==> Polled(Lister(fs), Deriver(globs), globs, p, k);
  }

  // ---- catching up with one tree ----

  /** Polling the larger tree ends with the aliases of a fresh start on it. */
  ghost predicate CatchesUp(es: seq<DatabaseConfig>, fs: FileSystem, fs': FileSystem, installed: string) {
    && Candidates(fs, es).Ok? && Candidates(fs', es).Ok?
    && Folded(AfterPoll(es, fs, fs', installed)) == Folded(StartPool(es, fs', installed))
  }

  /** Entries with these globs, and a tree to which files and directories are added. */
  ghost predicate Setting(es: seq<DatabaseConfig>, globs: seq<Path>, fs: FileSystem, fs': FileSystem) {
    && GoodEntries(es) && GlobsOf(es) == globs
    && WellFormed(fs) && WellFormed(fs') && Grows(fs, fs')
  }

  /** Expanding some glob on fs gives the alias k. */
  ghost predicate ExpandedKey(fs: FileSystem, globs: seq<Path>, k: string) {
    exists g, p :: g in globs && p in Matches(fs, g) && Derives(GlobBase(g), p, k)
  }

  /** Expanding and polling fs give the same aliases. */
  ghost predicate SameKeys(fs: FileSystem, globs: seq<Path>) {
    forall k: string :: ExpandedKey(fs, globs, k) <==> exists p :: PolledKey(fs, globs, p, k)
  }

  lemma MatchesGrow(fs: FileSystem, fs': FileSystem, g: Path, p: Path)
    requires WellFormed(fs) && WellFormed(fs') && Grows(fs, fs') && GlobPattern(g) && p in Matches(fs, g)
    ensures p in Matches(fs', g)
  {
    MatchGlobMeaning(fs, g, p);
    MatchGlobMeaning(fs', g, p);
  }

  lemma GlobEntry(es: seq<DatabaseConfig>, g: Path) returns (e: DatabaseConfig)
    requires GoodEntries(es) && g in GlobsOf(es)
    ensures e in es && e.glob == Some(g) && GlobPattern(g)
  {
    e :| e in es && e.glob == Some(g);
  }

  lemma KeysGrow(es: seq<DatabaseConfig>, fs: FileSystem, fs': FileSystem, k: string)
    requires WellFormed(fs) && WellFormed(fs') && Grows(fs, fs') && GoodEntries(es)
    requires AnyHasKey(fs, es, k)
    ensures AnyHasKey(fs', es, k)
  {
    var e :| e in es && HasKey(fs, e, k);
    if e.glob.Some? {
      var g := e.glob.value;
      var p :| p in Matches(fs, g) && Derives(GlobBase(g), p, k);
      MatchesGrow(fs, fs', g, p);
    }
    assert HasKey(fs', e, k);
  }

  lemma GlobKeys(es: seq<DatabaseConfig>, globs: seq<Path>, fs: FileSystem, k: string)
    requires GoodEntries(es) && GlobsOf(es) == globs
    ensures AnyHasKey(fs, es, k) <==> ExpandedKey(fs, globs, k) || exists e :: e in es && e.glob.None? && k == Key(e)
  {
    if g, p :| g in globs && p in Matches(fs, g) && Derives(GlobBase(g), p, k) {
      var e := GlobEntry(es, g);
      assert HasKey(fs, e, k);
    }
    if e :| e in es && e.glob.None? && k == Key(e) {
      assert HasKey(fs, e, k);
    }
    if e :| e in es && HasKey(fs, e, k) {
      if e.glob.Some? {
        var p :| p in Matches(fs, e.glob.value) && Derives(GlobBase(e.glob.value), p, k);
        assert e.glob.value in globs;
      }
    }
  }

  /** If expanding and polling the larger tree give the same aliases, the service catches up. */
  lemma SameKeysCatchUp(es: seq<DatabaseConfig>, globs: seq<Path>, fs: FileSystem, fs': FileSystem, installed: string)
    requires Setting(es, globs, fs, fs') && SameKeys(fs', globs)
    ensures CatchesUp(es, fs, fs', installed)
  {
    StartAliases(es, fs, installed, "");
    StartAliases(es, fs', installed, "");
    forall k: string
      ensures k in Folded(AfterPoll(es, fs, fs', installed)) <==> k in Folded(StartPool(es, fs', installed))
    {
      StartAliases(es, fs, installed, k);
      StartAliases(es, fs', installed, k);
      PollAliases(StartPool(es, fs, installed), globs, fs', installed, k);
      GlobKeys(es, globs, fs, k);
      GlobKeys(es, globs, fs', k);
      if AnyHasKey(fs, es, k) {
        KeysGrow(es, fs, fs', k);
      }
    }
  }

  /** The watcher, asked about p alone, derives the alias that expanding g gives it. */
  ghost predicate CoherentAt(globs: seq<Path>, g: Path, p: Path) {
    AliasOf(GlobBase(g), p).Ok? && AliasFor(globs, p) == Some(AliasOf(GlobBase(g), p).value)
  }

  /** A service catches up with every larger tree on whose matches the watcher and the
      expansion agree, whatever else the globs could list. */
  lemma CoherentTreeCatchesUp(es: seq<DatabaseConfig>, globs: seq<Path>, fs: FileSystem, fs': FileSystem,
                              installed: string)
    requires Setting(es, globs, fs, fs')
    requires forall g, p :: g in globs && p in Matches(fs', g) ==> CoherentAt(globs, g, p)
    ensures CatchesUp(es, fs, fs', installed)
  {
    forall k: string ensures ExpandedKey(fs', globs, k) <==> exists p :: PolledKey(fs', globs, p, k) {
      if g, p :| g in globs && p in Matches(fs', g) && Derives(GlobBase(g), p, k) {
        assert p in Lister(fs')(g);
        assert PolledKey(fs', globs, p, k);
      }
      if p :| PolledKey(fs', globs, p, k) {
        var g :| g in globs && p in Lister(fs')(g);
        assert Derives(GlobBase(g), p, k);
      }
    }
    SameKeysCatchUp(es, globs, fs, fs', installed);
  }

  // ---- starting from nothing ----

  function GlobEntries(globs: seq<Path>): (r: seq<DatabaseConfig>)
    ensures |r| == |globs|
    ensures forall i :: 0 <= i < |globs| ==> r[i] == DatabaseConfig("", "", Some(globs[i]), "")
  {
    seq(|globs|, i requires 0 <= i < |globs| => DatabaseConfig("", "", Some(globs[i]), ""))
  }

  lemma {:induction false} GlobsOfGlobEntries(globs: seq<Path>)
    ensures GlobsOf(GlobEntries(globs)) == globs
  {
    if globs == [] {
    } else {
      GlobsOfGlobEntries(globs[1..]);
      assert GlobEntries(globs)[1..] == GlobEntries(globs[1..]);
      assert globs == [globs[0]] + globs[1..];
    }
  }

  /** A service started on an empty tree with no explicit entry catches up with a tree
      exactly if expanding and polling that tree give the same aliases. */
  lemma FromNothing(globs: seq<Path>, fs': FileSystem, installed: string)
    requires (forall h :: h in globs ==> GlobPattern(h)) && WellFormed(fs')
    ensures Setting(GlobEntries(globs), globs, map[], fs')
    ensures CatchesUp(GlobEntries(globs), map[], fs', installed) <==> SameKeys(fs', globs)
  {
    var es := GlobEntries(globs);
    GlobsOfGlobEntries(globs);
    if SameKeys(fs', globs) {
      SameKeysCatchUp(es, globs, map[], fs', installed);
    }
    if CatchesUp(es, map[], fs', installed) {
      forall k: string ensures ExpandedKey(fs', globs, k) <==> exists p :: PolledKey(fs', globs, p, k) {
        KeysFromNothing(globs, fs', installed, k);
        assert k in Folded(AfterPoll(es, map[], fs', installed)) <==> k in Folded(StartPool(es, fs', installed));
      }
    }
  }

  lemma KeysFromNothing(globs: seq<Path>, fs': FileSystem, installed: string, k: string)
    requires Setting(GlobEntries(globs), globs, map[], fs')
    ensures Candidates(map[], GlobEntries(globs)).Ok? && Candidates(fs', GlobEntries(globs)).Ok?
    ensures k in Folded(StartPool(GlobEntries(globs), fs', installed)) <==> ExpandedKey(fs', globs, k)
    ensures k in Folded(AfterPoll(GlobEntries(globs), map[], fs', installed))
       <==> exists p :: PolledKey(fs', globs, p, k)
  {
    var es, fs := GlobEntries(globs), map[];
    StartAliases(es, fs, installed, k);
    StartAliases(es, fs', installed, k);
    NothingListedInEmpty(es, fs, k);
    PollAliases(StartPool(es, fs, installed), globs, fs', installed, k);
    GlobKeys(es, globs, fs', k);
  }

  lemma NothingListedInEmpty(es: seq<DatabaseConfig>, fs: FileSystem, k: string)
    requires GoodEntries(es) && fs == map[] && forall e :: e in es ==> e.glob.Some?
    ensures !AnyHasKey(fs, es, k)
  {
    forall e, p | e in es && p in Matches(fs, e.glob.value) ensures false {
      MatchGlobMeaning(fs, e.glob.value, p);
    }
  }
}
