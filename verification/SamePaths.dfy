/** When a service that polled a larger tree lists the same file under every alias as one
    started afresh: exactly if the entries that could win an alias agree on its path. */
module SamePaths {
  import opened Results
  import opened Text
  import opened Paths
  import opened FileTree
  import opened Glob
  import opened GlobTheorems
  import opened Alias
  import opened Expand
  import opened Expansion
  import opened Watcher
  import opened Incremental
  import opened Coherence
  import P = Pool

  /** Expanding the entry e gives c. */
  ghost predicate Yields(fs: FileSystem, e: DatabaseConfig, c: DatabaseConfig) {
    FromEntry(fs, e).Ok? && c in FromEntry(fs, e).value
  }

  /** No explicit entry has the key k. */
  ghost predicate Unclaimed(es: seq<DatabaseConfig>, k: string) {
    forall e :: e in es && e.glob.None? ==> Key(e) != k
  }

  /** c could win its alias: its entry yields it, and no explicit entry of that alias
      stands before. */
  ghost predicate ContendsAt(fs: FileSystem, es: seq<DatabaseConfig>, c: DatabaseConfig, i: int) {
    0 <= i < |es| && Yields(fs, es[i], c) && Unclaimed(es[..i], Key(c))
  }

  ghost predicate Contends(fs: FileSystem, es: seq<DatabaseConfig>, c: DatabaseConfig) {
    exists i :: ContendsAt(fs, es, c, i)
  }

  /** Whoever could win an alias would list the same alias and path. */
  ghost predicate Settled(fs: FileSystem, es: seq<DatabaseConfig>) {
    forall c, d :: Contends(fs, es, c) && Contends(fs, es, d) && Key(c) == Key(d)
      ==> c.alias == d.alias && c.path == d.path
  }

  // ---- what an entry yields ----

  ghost predicate FromSome(base: Path, matches: seq<Path>, c: DatabaseConfig) {
    exists p :: p in matches && FromMatch(base, p) == Ok(c)
  }

  lemma FromSomeStep(base: Path, init: seq<Path>, p: Path, c: DatabaseConfig)
    ensures FromSome(base, init + [p], c) <==> FromSome(base, init, c) || FromMatch(base, p) == Ok(c)
  {
    assert p in init + [p];
  }

  lemma {:induction false} MatchesAre(base: Path, matches: seq<Path>, c: DatabaseConfig)
    requires FromMatches(base, matches).Ok?
    ensures c in FromMatches(base, matches).value <==> FromSome(base, matches, c)
  {
    if matches == [] {
    } else {
      var n := |matches| - 1;
      var init, last := FromMatches(base, matches[..n]), FromMatch(base, matches[n]);
      MatchesAre(base, matches[..n], c);
      assert matches == matches[..n] + [matches[n]];
      FromSomeStep(base, matches[..n], matches[n], c);
      InLonger(init.value, last.value, c);
    }
  }

  lemma InLonger(cs: seq<DatabaseConfig>, d: DatabaseConfig, c: DatabaseConfig)
    ensures c in cs + [d] <==> c in cs || c == d
  {
    assert (cs + [d])[|cs|] == d;
  }

  lemma YieldMeaning(fs: FileSystem, e: DatabaseConfig, c: DatabaseConfig)
    requires WellFormed(fs) && (e.glob.Some? ==> GlobPattern(e.glob.value))
    ensures Yields(fs, e, c)
       <==> if e.glob.None? then c == e else FromSome(GlobBase(e.glob.value), Matches(fs, e.glob.value), c)
  {
    FromEntryKeys(fs, e, "");
    if e.glob.Some? {
      MatchesAre(GlobBase(e.glob.value), Matches(fs, e.glob.value), c);
    }
  }

  lemma YieldIsMatch(fs: FileSystem, e: DatabaseConfig, g: Path, c: DatabaseConfig) returns (p: Path)
    requires WellFormed(fs) && e.glob == Some(g) && GlobPattern(g) && Yields(fs, e, c)
    ensures p in Matches(fs, g) && FromMatch(GlobBase(g), p) == Ok(c)
    ensures AliasOf(GlobBase(g), p) == Ok(Key(c)) && c.alias == Key(c) && c.path == Render(p)
  {
    YieldMeaning(fs, e, c);
    p :| p in Matches(fs, g) && FromMatch(GlobBase(g), p) == Ok(c);
    MatchIsLower(GlobBase(g), p, c);
  }

  lemma YieldHasKey(fs: FileSystem, e: DatabaseConfig, c: DatabaseConfig)
    requires WellFormed(fs) && (e.glob.Some? ==> GlobPattern(e.glob.value)) && Yields(fs, e, c)
    ensures HasKey(fs, e, Key(c))
  {
    FromEntryKeys(fs, e, Key(c));
  }

  lemma MatchIsLower(base: Path, p: Path, c: DatabaseConfig)
    requires FromMatch(base, p) == Ok(c)
    ensures c.alias == Key(c) && c.path == Render(p)
  {
    AliasAlphabet(base, p);
  }

  lemma ContendersGrow(es: seq<DatabaseConfig>, globs: seq<Path>, fs: FileSystem, fs': FileSystem, c: DatabaseConfig)
    requires Setting(es, globs, fs, fs') && Contends(fs, es, c)
    ensures Contends(fs', es, c)
  {
    var i :| ContendsAt(fs, es, c, i);
    YieldMeaning(fs, es[i], c);
    YieldMeaning(fs', es[i], c);
    if es[i].glob.Some? {
      var p := YieldIsMatch(fs, es[i], es[i].glob.value, c);
      MatchesGrow(fs, fs', es[i].glob.value, p);
    }
    assert ContendsAt(fs', es, c, i);
  }

  // ---- who wins ----

  /** The entry at i is the first that yields the key of c, and yields c. */
  ghost predicate Earliest(fs: FileSystem, es: seq<DatabaseConfig>, c: DatabaseConfig, i: int) {
    0 <= i < |es| && Yields(fs, es[i], c) && !AnyHasKey(fs, es[..i], Key(c))
  }

  lemma {:induction false} KeptIsEarliest(fs: FileSystem, es: seq<DatabaseConfig>, c: DatabaseConfig) returns (i: int)
    requires WellFormed(fs) && GoodEntries(es) && Candidates(fs, es).Ok? && c in Firsts(Candidates(fs, es).value)
    ensures Earliest(fs, es, c, i)
  {
    var n := |es| - 1;
    var cs, more := Candidates(fs, es[..n]).value, FromEntry(fs, es[n]).value;
    KeptAfter(cs, more, c);
    if c in Firsts(cs) {
      i := KeptIsEarliest(fs, es[..n], c);
      assert es[..n][..i] == es[..i];
    } else {
      i := n;
      CandidateKeys(fs, es[..n], Key(c));
    }
  }

  lemma EarliestContends(fs: FileSystem, es: seq<DatabaseConfig>, c: DatabaseConfig, i: int)
    requires Earliest(fs, es, c, i)
    ensures ContendsAt(fs, es, c, i)
  {
    forall e | e in es[..i] && e.glob.None? ensures Key(e) != Key(c) {
      assert Key(e) == Key(c) ==> HasKey(fs, e, Key(c));
    }
  }

  /** Among the contenders for an alias one is kept. */
  lemma KeptContender(fs: FileSystem, es: seq<DatabaseConfig>, c: DatabaseConfig) returns (d: DatabaseConfig, i: int)
    requires WellFormed(fs) && GoodEntries(es) && Contends(fs, es, c)
    ensures Candidates(fs, es).Ok? && d in Firsts(Candidates(fs, es).value)
    ensures Key(d) == Key(c) && Earliest(fs, es, d, i)
  {
    var j :| ContendsAt(fs, es, c, j);
    YieldHasKey(fs, es[j], c);
    assert AnyHasKey(fs, es, Key(c));
    ExpansionKeys(fs, es, Key(c));
    d :| d in Firsts(Candidates(fs, es).value) && Key(d) == Key(c);
    i := KeptIsEarliest(fs, es, d);
  }

  lemma NoneEarlier(fs: FileSystem, es: seq<DatabaseConfig>, d: DatabaseConfig, j: int, c: DatabaseConfig, i: int)
    requires WellFormed(fs) && GoodEntries(es) && Earliest(fs, es, d, j)
    requires 0 <= i < |es| && Yields(fs, es[i], c) && Key(c) == Key(d)
    ensures j <= i
  {
    YieldHasKey(fs, es[i], c);
    if i < j {
      assert false;
    }
  }

  lemma NoExplicitBefore(fs: FileSystem, es: seq<DatabaseConfig>, c: DatabaseConfig, i: int, j: int)
    requires ContendsAt(fs, es, c, i) && 0 <= j < |es| && es[j].glob.None? && Key(es[j]) == Key(c)
    ensures i <= j
  {
    if j < i {
      assert false;
    }
  }

  // ---- the paths listed ----

  ghost predicate Lists(s: P.PoolState, alias: string, path: string) {
    alias in s.paths && s.paths[alias] == path
  }

  lemma StartedPaths(cs: seq<DatabaseConfig>, installed: string, opens: seq<bool>, alias: string, path: string)
    requires |opens| == |cs| && P.AliasesApart(PoolConfigs(cs))
    ensures Lists(P.StartAll(PoolConfigs(cs), installed, opens), alias, path)
       <==> exists c :: c in cs && c.alias == alias && c.path == path
  {
    var cfgs := PoolConfigs(cs);
    P.StartedAliases(cfgs, installed, opens);
    if c :| c in cs && c.alias == alias && c.path == path {
      var i :| 0 <= i < |cs| && cs[i] == c;
      P.StartedPath(cfgs, installed, opens, i);
    }
    if Lists(P.StartAll(cfgs, installed, opens), alias, path) {
      var d :| d in cfgs && d.alias == alias;
      var i :| 0 <= i < |cfgs| && cfgs[i] == d;
      P.StartedPath(cfgs, installed, opens, i);
      assert cs[i] in cs;
    }
  }

  lemma StartPaths(es: seq<DatabaseConfig>, fs: FileSystem, installed: string, alias: string, path: string)
    requires Candidates(fs, es).Ok?
    ensures Lists(StartPool(es, fs, installed), alias, path)
       <==> exists c :: c in Firsts(Candidates(fs, es).value) && c.alias == alias && c.path == path
  {
    var cs := Firsts(Candidates(fs, es).value);
    ExpandedAliasesAreApart(es, fs);
    StartedPaths(cs, installed, AllOpen(|cs|), alias, path);
  }

  /** A fresh start lists contenders. */
  lemma StartListsContender(es: seq<DatabaseConfig>, fs: FileSystem, installed: string, alias: string, path: string)
    returns (c: DatabaseConfig)
    requires WellFormed(fs) && GoodEntries(es) && Candidates(fs, es).Ok?
    requires Lists(StartPool(es, fs, installed), alias, path)
    ensures Contends(fs, es, c) && c.alias == alias && c.path == path
  {
    StartPaths(es, fs, installed, alias, path);
    c :| c in Firsts(Candidates(fs, es).value) && c.alias == alias && c.path == path;
    var i := KeptIsEarliest(fs, es, c);
    EarliestContends(fs, es, c, i);
  }

  /** On a settled tree it lists every contender. */
  lemma ContenderIsListed(es: seq<DatabaseConfig>, fs: FileSystem, installed: string, c: DatabaseConfig)
    requires WellFormed(fs) && GoodEntries(es) && Candidates(fs, es).Ok? && Settled(fs, es) && Contends(fs, es, c)
    ensures Lists(StartPool(es, fs, installed), c.alias, c.path)
  {
    var d, i := KeptContender(fs, es, c);
    EarliestContends(fs, es, d, i);
    StartPaths(es, fs, installed, c.alias, c.path);
  }

  lemma TriedPath(s: P.PoolState, t: Attempt, installed: string, alias: string, path: string)
    ensures Lists(s, alias, path) ==> Lists(TryState(s, t, installed), alias, path)
    ensures Lists(TryState(s, t, installed), alias, path) ==>
      Lists(s, alias, path) || (t.alias == Some(alias) && path == Render(t.path) && !Taken(s, alias))
  {
    if t.alias.Some? && t.alias.value in s.paths {
      assert EqualFold(t.alias.value, t.alias.value) && Taken(s, t.alias.value);
    }
  }

  lemma {:induction false} TakenStays(s: P.PoolState, ts: seq<Attempt>, installed: string, alias: string)
    requires Taken(s, alias)
    ensures Taken(TryAll(s, ts, installed), alias)
  {
    if ts == [] {
    } else {
      var n := |ts| - 1;
      TakenStays(s, ts[..n], installed, alias);
      var t := TryAll(s, ts[..n], installed);
      var a :| a in t.paths && EqualFold(a, alias);
      TriedPath(t, ts[n], installed, a, t.paths[a]);
    }
  }

  /** The path of the first attempt with this alias. */
  function FirstTry(ts: seq<Attempt>, alias: string): Option<Path> {
    if ts == [] then None
    else
      var n := |ts| - 1;
      if FirstTry(ts[..n], alias).Some? then FirstTry(ts[..n], alias)
      else if ts[n].alias == Some(alias) then Some(ts[n].path)
      else None
  }

  lemma {:induction false} FirstTryMeaning(ts: seq<Attempt>, alias: string)
    ensures FirstTry(ts, alias).Some? <==> exists t :: t in ts && t.alias == Some(alias)
    ensures FirstTry(ts, alias).Some? ==> Attempted(ts, alias, FirstTry(ts, alias).value)
  {
    if ts == [] {
    } else {
      var n := |ts| - 1;
      assert ts == ts[..n] + [ts[n]];
      FirstTryMeaning(ts[..n], alias);
    }
  }

  ghost predicate Attempted(ts: seq<Attempt>, alias: string, p: Path) {
    exists t :: t in ts && t.alias == Some(alias) && t.path == p
  }

  ghost predicate Tried(s: P.PoolState, ts: seq<Attempt>, alias: string, path: string) {
    !Taken(s, alias) && FirstTry(ts, alias).Some? && path == Render(FirstTry(ts, alias).value)
  }

  lemma TriedOnce(s: P.PoolState, ts: seq<Attempt>, installed: string, alias: string)
    requires Listing(s) && LowerAliases(ts) && (forall t :: t in ts ==> t.opens) && FirstTry(ts, alias).Some?
    ensures Taken(TryAll(s, ts, installed), alias)
  {
    FirstTryMeaning(ts, alias);
    TryAllAliases(s, ts, installed, alias);
    FoldedIsTaken(TryAll(s, ts, installed), alias);
  }

  lemma FoldedIsTaken(s: P.PoolState, alias: string)
    requires alias in Folded(s) && Lower(alias) == alias
    ensures Taken(s, alias)
  {
    var a :| a in s.paths && Lower(a) == alias;
    assert EqualFold(a, alias);
  }

  /** Attempts keep what is listed; under a free alias they list the first path tried. */
  lemma {:induction false} TriedPaths(s: P.PoolState, ts: seq<Attempt>, installed: string, alias: string, path: string)
    requires Listing(s) && LowerAliases(ts) && forall t :: t in ts ==> t.opens
    ensures Lists(s, alias, path) ==> Lists(TryAll(s, ts, installed), alias, path)
    ensures Lists(TryAll(s, ts, installed), alias, path) ==> Lists(s, alias, path) || Tried(s, ts, alias, path)
  {
    if ts == [] {
    } else {
      var n := |ts| - 1;
      assert ts == ts[..n] + [ts[n]];
      TriedPaths(s, ts[..n], installed, alias, path);
      TriedPath(TryAll(s, ts[..n], installed), ts[n], installed, alias, path);
      if Taken(s, alias) {
        TakenStays(s, ts[..n], installed, alias);
      }
      if FirstTry(ts[..n], alias).Some? {
        TriedOnce(s, ts[..n], installed, alias);
      }
    }
  }

  /** The first path that a poll tries under this alias. */
  function FirstPolled(globs: seq<Path>, fs: FileSystem, alias: string): Option<Path> {
    FirstTry(PollAttempts(globs, fs, EveryOpening()), alias)
  }

  lemma FirstPolledMeaning(globs: seq<Path>, fs: FileSystem, alias: string)
    ensures FirstPolled(globs, fs, alias).Some? <==> exists p :: PolledKey(fs, globs, p, alias)
    ensures FirstPolled(globs, fs, alias).Some? ==> PolledKey(fs, globs, FirstPolled(globs, fs, alias).value, alias)
  {
    var paths, ts := AllMatches(fs, globs), PollAttempts(globs, fs, EveryOpening());
    FirstTryMeaning(ts, alias);
    forall t | t in ts && t.alias == Some(alias) ensures PolledKey(fs, globs, t.path, alias) {
      var i :| 0 <= i < |ts| && ts[i] == t;
      AllListedMeaning(Lister(fs), globs, paths[i]);
    }
    if p :| PolledKey(fs, globs, p, alias) {
      AllListedMeaning(Lister(fs), globs, p);
      var i :| 0 <= i < |paths| && paths[i] == p;
      assert ts[i] in ts;
    }
  }

  lemma PolledPaths(s: P.PoolState, globs: seq<Path>, fs: FileSystem, installed: string, alias: string, path: string)
    requires Listing(s)
    ensures Lists(s, alias, path) ==> Lists(PollState(s, globs, fs, installed, EveryOpening()), alias, path)
    ensures Lists(PollState(s, globs, fs, installed, EveryOpening()), alias, path) ==>
      || Lists(s, alias, path)
      || (&& !Taken(s, alias) && FirstPolled(globs, fs, alias).Some?
          && path == Render(FirstPolled(globs, fs, alias).value))
  {
    AttemptsAreLower(globs, EveryOpening(), AllMatches(fs, globs));
    TriedPaths(s, PollAttempts(globs, fs, EveryOpening()), installed, alias, path);
  }

  // ---- the two services ----

  /** Whatever smaller tree the service starts on. */
  ghost predicate AlwaysSame(es: seq<DatabaseConfig>, globs: seq<Path>, fs': FileSystem, installed: string) {
    forall fs :: Setting(es, globs, fs, fs') ==> ListsSame(es, fs, fs', installed)
  }

  /** Under every alias without an explicit entry, the poll first tries what an entry of
      that alias yields, and it tries one if any does. */
  ghost predicate PolledAlike(globs: seq<Path>, fs: FileSystem, es: seq<DatabaseConfig>) {
    forall k: string :: Unclaimed(es, k) ==> PolledAlikeAt(globs, fs, es, k)
  }

  ghost predicate PolledAlikeAt(globs: seq<Path>, fs: FileSystem, es: seq<DatabaseConfig>, k: string) {
    match FirstPolled(globs, fs, k)
    case None => forall c :: Contends(fs, es, c) ==> Key(c) != k
    case Some(p) => ContendsFor(fs, es, k, Render(p))
  }

  ghost predicate ContendsFor(fs: FileSystem, es: seq<DatabaseConfig>, alias: string, path: string) {
    exists c :: Contends(fs, es, c) && c.alias == alias && c.path == path
  }

  /** The same path under every alias. */
  ghost predicate ListsSame(es: seq<DatabaseConfig>, fs: FileSystem, fs': FileSystem, installed: string) {
    && Candidates(fs, es).Ok? && Candidates(fs', es).Ok?
    && AfterPoll(es, fs, fs', installed).paths == StartPool(es, fs', installed).paths
  }

  lemma FreeIsUnclaimed(es: seq<DatabaseConfig>, fs: FileSystem, installed: string, alias: string)
    requires WellFormed(fs) && GoodEntries(es) && Candidates(fs, es).Ok? && Lower(alias) == alias
    requires !Taken(StartPool(es, fs, installed), alias)
    ensures Unclaimed(es, alias)
  {
    StartAliases(es, fs, installed, alias);
    if alias in Folded(StartPool(es, fs, installed)) {
      FoldedIsTaken(StartPool(es, fs, installed), alias);
    }
    forall e | e in es && e.glob.None? ensures Key(e) != alias {
      assert Key(e) == alias ==> HasKey(fs, e, alias);
    }
  }

  lemma PolledIsLower(globs: seq<Path>, fs: FileSystem, alias: string)
    requires FirstPolled(globs, fs, alias).Some?
    ensures Lower(alias) == alias
  {
    FirstTryMeaning(PollAttempts(globs, fs, EveryOpening()), alias);
    AttemptsAreLower(globs, EveryOpening(), AllMatches(fs, globs));
  }

  lemma GrownListsFresh(es: seq<DatabaseConfig>, globs: seq<Path>, fs: FileSystem, fs': FileSystem, installed: string,
                        alias: string, path: string)
    requires Setting(es, globs, fs, fs') && PolledAlike(globs, fs', es) && Settled(fs', es)
    requires Candidates(fs, es).Ok? && Candidates(fs', es).Ok?
    requires Lists(AfterPoll(es, fs, fs', installed), alias, path)
    ensures Lists(StartPool(es, fs', installed), alias, path)
  {
    StartAliases(es, fs, installed, alias);
    PolledPaths(StartPool(es, fs, installed), globs, fs', installed, alias, path);
    if Lists(StartPool(es, fs, installed), alias, path) {
      var c := StartListsContender(es, fs, installed, alias, path);
      ContendersGrow(es, globs, fs, fs', c);
      ContenderIsListed(es, fs', installed, c);
    } else {
      PolledIsLower(globs, fs', alias);
      FreeIsUnclaimed(es, fs, installed, alias);
      assert PolledAlikeAt(globs, fs', es, alias);
      var c :| Contends(fs', es, c) && c.alias == alias && c.path == path;
      ContenderIsListed(es, fs', installed, c);
    }
  }

  /** Every alias that is contended for is listed after the poll, in some case. */
  lemma AliasIsListed(es: seq<DatabaseConfig>, globs: seq<Path>, fs: FileSystem, fs': FileSystem, installed: string,
                      c: DatabaseConfig)
    requires Setting(es, globs, fs, fs') && PolledAlike(globs, fs', es)
    requires Candidates(fs, es).Ok? && Contends(fs', es, c)
    ensures Key(c) in Folded(AfterPoll(es, fs, fs', installed))
  {
    StartAliases(es, fs, installed, Key(c));
    PollAliases(StartPool(es, fs, installed), globs, fs', installed, Key(c));
    if Unclaimed(es, Key(c)) {
      assert PolledAlikeAt(globs, fs', es, Key(c));
      FirstPolledMeaning(globs, fs', Key(c));
    } else {
      var e :| e in es && e.glob.None? && Key(e) == Key(c);
      assert HasKey(fs, e, Key(c));
    }
  }

  lemma FreshListsGrown(es: seq<DatabaseConfig>, globs: seq<Path>, fs: FileSystem, fs': FileSystem, installed: string,
                        alias: string, path: string)
    requires Setting(es, globs, fs, fs') && PolledAlike(globs, fs', es) && Settled(fs', es)
    requires Candidates(fs, es).Ok? && Candidates(fs', es).Ok?
    requires Lists(StartPool(es, fs', installed), alias, path)
    ensures Lists(AfterPoll(es, fs, fs', installed), alias, path)
  {
    var t := AfterPoll(es, fs, fs', installed);
    var c := StartListsContender(es, fs', installed, alias, path);
    AliasIsListed(es, globs, fs, fs', installed, c);
    var b :| b in t.paths && Lower(b) == Key(c);
    GrownListsFresh(es, globs, fs, fs', installed, b, t.paths[b]);
    var d := StartListsContender(es, fs', installed, b, t.paths[b]);
    assert Key(d) == Key(c);
  }

  lemma SameLists(s: P.PoolState, t: P.PoolState)
    requires forall alias, path :: Lists(s, alias, path) <==> Lists(t, alias, path)
    ensures s.paths == t.paths
  {
    forall a | a in s.paths ensures a in t.paths && t.paths[a] == s.paths[a] {
      assert Lists(s, a, s.paths[a]);
    }
    forall a | a in t.paths ensures a in s.paths {
      assert Lists(t, a, t.paths[a]);
    }
  }

  /** If on the larger tree those who could win an alias agree on its path, the poll among
      them, the grown service lists exactly the aliases and paths of a fresh start. */
  lemma GrownServiceListsSamePaths(es: seq<DatabaseConfig>, globs: seq<Path>, fs: FileSystem, fs': FileSystem,
                                   installed: string)
    requires Setting(es, globs, fs, fs') && Settled(fs', es) && PolledAlike(globs, fs', es)
    ensures ListsSame(es, fs, fs', installed)
  {
    StartAliases(es, fs, installed, "");
    StartAliases(es, fs', installed, "");
    var s, t := AfterPoll(es, fs, fs', installed), StartPool(es, fs', installed);
    forall alias, path ensures Lists(s, alias, path) <==> Lists(t, alias, path) {
      if Lists(s, alias, path) { GrownListsFresh(es, globs, fs, fs', installed, alias, path); }
      if Lists(t, alias, path) { FreshListsGrown(es, globs, fs, fs', installed, alias, path); }
    }
    SameLists(s, t);
  }

  // ---- every contender wins on some smaller tree ----

  lemma EmptyMatchesNothing(fs: FileSystem, g: Path, p: Path)
    requires fs == map[] && GlobPattern(g)
    ensures p !in Matches(fs, g)
  {
    MatchGlobMeaning(fs, g, p);
  }

  lemma EmptyYieldsExplicit(e: DatabaseConfig, c: DatabaseConfig, fs: FileSystem)
    requires fs == map[] && (e.glob.Some? ==> GlobPattern(e.glob.value)) && Yields(fs, e, c)
    ensures e.glob.None? && c == e
  {
    YieldMeaning(fs, e, c);
    if e.glob.Some? {
      forall p ensures p !in Matches(fs, e.glob.value) {
        EmptyMatchesNothing(fs, e.glob.value, p);
      }
    }
  }

  /** An explicit contender is listed on the empty tree. */
  lemma ExplicitWins(es: seq<DatabaseConfig>, c: DatabaseConfig, i: int, installed: string, fs: FileSystem)
    requires GoodEntries(es) && fs == map[] && ContendsAt(fs, es, c, i) && es[i].glob.None?
    ensures Candidates(fs, es).Ok? && Lists(StartPool(es, fs, installed), c.alias, c.path)
  {
    var d, j := KeptContender(fs, es, c);
    EmptyYieldsExplicit(es[j], d, fs);
    EarliestContends(fs, es, d, j);
    EmptyYieldsExplicit(es[i], c, fs);
    NoneEarlier(fs, es, d, j, c, i);
    NoExplicitBefore(fs, es, c, i, j);
    StartPaths(es, fs, installed, c.alias, c.path);
  }

  /** On the tree with one file, which is all that the globs list there, they match that file. */
  lemma OnlyFileMatches(globs: seq<Path>, g: Path, e: Entry, q: Path)
    requires g in globs && GlobPattern(g) && Valid(e.path) && e.path.comps != [] && AncestorsClear(globs, e)
    requires q in Matches(SingleEntry(e), g)
    ensures q == e.path
  {
    WayMatches(globs, g, e, q);
    WholeWay(e);
    var n: nat :| ListedOnWay(globs, g, e, n) && Prefix(e, n).path == q;
  }

  lemma SingleGrows(fs: FileSystem, e: Entry)
    requires WellFormed(fs) && Has(fs, e) && Valid(e.path) && e.path.comps != []
    ensures WellFormed(SingleEntry(e)) && Grows(SingleEntry(e), fs)
  {
    SingleEntryHas(e, e);
    forall f | Has(SingleEntry(e), f) ensures Has(fs, f) {
      WayHas(e, f);
      var n: nat :| 0 < n <= |e.path.comps| && f == Prefix(e, n);
      OnWayExists(fs, e, n);
    }
  }

  /** A match that contends is listed on the tree with that file alone. */
  lemma MatchWins(es: seq<DatabaseConfig>, globs: seq<Path>, c: DatabaseConfig, i: int, e: Entry, installed: string)
    requires GoodEntries(es) && GlobsOf(es) == globs && Valid(e.path) && e.path.comps != [] && AncestorsClear(globs, e)
    requires WellFormed(SingleEntry(e)) && ContendsAt(SingleEntry(e), es, c, i) && es[i].glob.Some?
    ensures Candidates(SingleEntry(e), es).Ok? && Lists(StartPool(es, SingleEntry(e), installed), c.alias, c.path)
  {
    var fs := SingleEntry(e);
    var d, j := KeptContender(fs, es, c);
    NoneEarlier(fs, es, d, j, c, i);
    YieldMeaning(fs, es[j], d);
    if es[j].glob.None? {
      NoExplicitBefore(fs, es, c, i, j);
      assert false;
    }
    YieldOfOnlyFile(es, globs, i, c, e);
    YieldOfOnlyFile(es, globs, j, d, e);
    StartPaths(es, fs, installed, c.alias, c.path);
  }

  lemma YieldOfOnlyFile(es: seq<DatabaseConfig>, globs: seq<Path>, i: int, c: DatabaseConfig, e: Entry)
    requires GoodEntries(es) && GlobsOf(es) == globs && Valid(e.path) && e.path.comps != [] && AncestorsClear(globs, e)
    requires WellFormed(SingleEntry(e)) && 0 <= i < |es| && es[i].glob.Some? && Yields(SingleEntry(e), es[i], c)
    ensures c.alias == Key(c) && c.path == Render(e.path)
  {
    var g := es[i].glob.value;
    assert es[i] in es;
    var p := YieldIsMatch(SingleEntry(e), es[i], g, c);
    OnlyFileMatches(globs, g, e, p);
  }

  /** Whoever contends on a tree wins on some smaller one. */
  lemma ContenderWins(es: seq<DatabaseConfig>, globs: seq<Path>, fs': FileSystem, c: DatabaseConfig, installed: string)
    returns (fs: FileSystem)
    requires GoodEntries(es) && GlobsOf(es) == globs && WellFormed(fs') && FilesOnly(globs, fs') && Contends(fs', es, c)
    ensures Setting(es, globs, fs, fs') && Candidates(fs, es).Ok?
    ensures Lists(StartPool(es, fs, installed), c.alias, c.path)
  {
    var i :| ContendsAt(fs', es, c, i);
    YieldMeaning(fs', es[i], c);
    if es[i].glob.None? {
      fs := map[];
      YieldMeaning(fs, es[i], c);
      ExplicitWins(es, c, i, installed, fs);
    } else {
      var g := es[i].glob.value;
      assert es[i] in es;
      var p := YieldIsMatch(fs', es[i], g, c);
      var e := Entry(p, false);
      MatchedFile(globs, fs', g, p);
      var x := MatchedEntry(globs, fs', g, p);
      assert x == e;
      SingleGrows(fs', e);
      WayMatches(globs, g, e, p);
      fs := SingleEntry(e);
      YieldMeaning(fs, es[i], c);
      MatchWins(es, globs, c, i, e, installed);
    }
  }

  /** So if every smaller tree leads to the same paths, the contenders agree. */
  lemma SameMeansSettled(es: seq<DatabaseConfig>, globs: seq<Path>, fs': FileSystem, installed: string)
    requires GoodEntries(es) && GlobsOf(es) == globs && WellFormed(fs') && FilesOnly(globs, fs')
    requires AlwaysSame(es, globs, fs', installed)
    ensures Settled(fs', es)
  {
    forall c, d | Contends(fs', es, c) && Contends(fs', es, d) && Key(c) == Key(d)
      ensures c.alias == d.alias && c.path == d.path
    {
      WinnerStays(es, globs, fs', c, installed);
      WinnerStays(es, globs, fs', d, installed);
      OneAliasPerKey(es, fs', installed, c.alias, d.alias);
    }
  }

  lemma WinnerStays(es: seq<DatabaseConfig>, globs: seq<Path>, fs': FileSystem, c: DatabaseConfig, installed: string)
    requires GoodEntries(es) && GlobsOf(es) == globs && WellFormed(fs') && FilesOnly(globs, fs') && Contends(fs', es, c)
    requires AlwaysSame(es, globs, fs', installed)
    ensures Candidates(fs', es).Ok? && Lists(StartPool(es, fs', installed), c.alias, c.path)
  {
    var fs := ContenderWins(es, globs, fs', c, installed);
    StartAliases(es, fs, installed, "");
    assert ListsSame(es, fs, fs', installed);
    PolledPaths(StartPool(es, fs, installed), globs, fs', installed, c.alias, c.path);
  }

  lemma OneAliasPerKey(es: seq<DatabaseConfig>, fs: FileSystem, installed: string, a: string, b: string)
    requires Candidates(fs, es).Ok? && Lower(a) == Lower(b)
    requires a in StartPool(es, fs, installed).paths && b in StartPool(es, fs, installed).paths
    ensures a == b
  {
    var cs, paths := Firsts(Candidates(fs, es).value), StartPool(es, fs, installed).paths;
    StartPaths(es, fs, installed, a, paths[a]);
    StartPaths(es, fs, installed, b, paths[b]);
    FirstsKeepEveryKey(Candidates(fs, es).value);
    var c :| c in cs && c.alias == a;
    var d :| d in cs && d.alias == b;
    OnePerKey(cs, c, d);
  }

  lemma OnePerKey(cs: seq<DatabaseConfig>, c: DatabaseConfig, d: DatabaseConfig)
    requires Distinct(cs) && c in cs && d in cs && Key(c) == Key(d)
    ensures c == d
  {
    var i :| 0 <= i < |cs| && cs[i] == c;
    var j :| 0 <= j < |cs| && cs[j] == d;
  }

  // ---- and what the poll tries first wins from nothing ----

  lemma NothingUnclaimed(es: seq<DatabaseConfig>, fs: FileSystem, k: string, installed: string)
    requires GoodEntries(es) && fs == map[] && Unclaimed(es, k)
    ensures Candidates(fs, es).Ok? && Listing(StartPool(es, fs, installed))
    ensures k !in Folded(StartPool(es, fs, installed))
  {
    StartAliases(es, fs, installed, k);
    forall e | e in es ensures !HasKey(fs, e, k) {
      if e.glob.Some? {
        forall p ensures p !in Matches(fs, e.glob.value) {
          EmptyMatchesNothing(fs, e.glob.value, p);
        }
      }
    }
  }

  lemma SameMeansPolledAlike(es: seq<DatabaseConfig>, globs: seq<Path>, fs': FileSystem, installed: string)
    requires GoodEntries(es) && GlobsOf(es) == globs && WellFormed(fs') && AlwaysSame(es, globs, fs', installed)
    ensures PolledAlike(globs, fs', es)
  {
    assert Setting(es, globs, map[], fs');
    forall k: string | Unclaimed(es, k) ensures PolledAlikeAt(globs, fs', es, k) {
      SameFromNothing(es, globs, fs', installed, k);
    }
  }

  lemma SameFromNothing(es: seq<DatabaseConfig>, globs: seq<Path>, fs': FileSystem, installed: string, k: string)
    requires GoodEntries(es) && GlobsOf(es) == globs && WellFormed(fs') && Unclaimed(es, k)
    requires ListsSame(es, map[], fs', installed)
    ensures PolledAlikeAt(globs, fs', es, k)
  {
    var s := StartPool(es, map[], installed);
    NothingUnclaimed(es, map[], k, installed);
    PollAliases(s, globs, fs', installed, k);
    FirstPolledMeaning(globs, fs', k);
    SameFolded(AfterPoll(es, map[], fs', installed), StartPool(es, fs', installed));
    if FirstPolled(globs, fs', k).None? {
      forall c | Contends(fs', es, c) ensures Key(c) != k {
        ContenderHasKey(es, fs', c, installed);
      }
    } else {
      FirstPolledWins(es, globs, fs', installed, k);
    }
  }

  lemma SameFolded(s: P.PoolState, t: P.PoolState)
    requires s.paths == t.paths
    ensures Folded(s) == Folded(t)
  {
  }

  lemma FirstPolledWins(es: seq<DatabaseConfig>, globs: seq<Path>, fs': FileSystem, installed: string, k: string)
    requires GoodEntries(es) && GlobsOf(es) == globs && WellFormed(fs') && Unclaimed(es, k)
    requires ListsSame(es, map[], fs', installed) && FirstPolled(globs, fs', k).Some?
    requires k in Folded(StartPool(es, fs', installed)) && k !in Folded(StartPool(es, map[], installed))
    requires Listing(StartPool(es, map[], installed))
    ensures ContendsFor(fs', es, k, Render(FirstPolled(globs, fs', k).value))
  {
    var s, t := StartPool(es, map[], installed), StartPool(es, fs', installed);
    var b :| b in t.paths && Lower(b) == k;
    assert Lists(AfterPoll(es, map[], fs', installed), b, t.paths[b]);
    PolledPaths(s, globs, fs', installed, b, t.paths[b]);
    assert b !in s.paths;
    PolledIsLower(globs, fs', b);
    var c := StartListsContender(es, fs', installed, b, t.paths[b]);
  }

  lemma ContenderHasKey(es: seq<DatabaseConfig>, fs: FileSystem, c: DatabaseConfig, installed: string)
    requires WellFormed(fs) && GoodEntries(es) && Contends(fs, es, c)
    ensures Candidates(fs, es).Ok? && Key(c) in Folded(StartPool(es, fs, installed))
  {
    var i :| ContendsAt(fs, es, c, i);
    YieldHasKey(fs, es[i], c);
    StartAliases(es, fs, installed, Key(c));
  }

  // ---- exactly when ----

  /** Growing from every smaller tree leads to the aliases and paths of a fresh start
      exactly if those who could win an alias agree on its path, the poll among them. */
  lemma SamePathsIffSettled(es: seq<DatabaseConfig>, globs: seq<Path>, fs': FileSystem, installed: string)
    requires GoodEntries(es) && GlobsOf(es) == globs && WellFormed(fs') && FilesOnly(globs, fs')
    ensures AlwaysSame(es, globs, fs', installed) <==> Settled(fs', es) && PolledAlike(globs, fs', es)
  {
    if Settled(fs', es) && PolledAlike(globs, fs', es) {
      forall fs | Setting(es, globs, fs, fs') ensures ListsSame(es, fs, fs', installed) {
        GrownServiceListsSamePaths(es, globs, fs, fs', installed);
      }
    }
    if AlwaysSame(es, globs, fs', installed) {
      SameMeansSettled(es, globs, fs', installed);
      SameMeansPolledAlike(es, globs, fs', installed);
    }
  }

  // ---- in terms of the guard ----

  ghost predicate GuardedOn(globs: seq<Path>, fs: FileSystem) {
    forall g, p :: g in globs && p in Matches(fs, g) ==> Guarded(globs, g, p)
  }

  lemma MatchIsCoherent(es: seq<DatabaseConfig>, globs: seq<Path>, fs: FileSystem, g: Path, p: Path)
    requires GoodEntries(es) && GlobsOf(es) == globs && WellFormed(fs) && GuardedOn(globs, fs)
    requires g in globs && p in Matches(fs, g)
    ensures CoherentAt(globs, g, p)
  {
    AllPatterns(es, globs);
    var x := MatchedEntry(globs, fs, g, p);
    assert Listed(g, x);
    GuardMeaning(globs, g, x);
  }

  lemma YieldsMatch(fs: FileSystem, e: DatabaseConfig, g: Path, p: Path, c: DatabaseConfig)
    requires WellFormed(fs) && GlobPattern(g) && e.glob == Some(g) && p in Matches(fs, g)
    requires AliasOf(GlobBase(g), p) == Ok(c.alias) && c == DatabaseConfig(c.alias, Render(p), None, "")
    ensures Yields(fs, e, c) && Key(c) == c.alias
  {
    assert FromMatch(GlobBase(g), p) == Ok(c);
    YieldMeaning(fs, e, c);
    MatchIsLower(GlobBase(g), p, c);
  }

  /** Under the guard, what the poll tries is what some entry yields. */
  lemma PolledContends(es: seq<DatabaseConfig>, globs: seq<Path>, fs: FileSystem, p: Path, k: string)
    requires GoodEntries(es) && GlobsOf(es) == globs && WellFormed(fs) && GuardedOn(globs, fs)
    requires Unclaimed(es, k) && PolledKey(fs, globs, p, k)
    ensures ContendsFor(fs, es, k, Render(p))
  {
    var g :| g in globs && p in Lister(fs)(g);
    var e := GlobEntry(es, g);
    var i :| 0 <= i < |es| && es[i] == e;
    var c := DatabaseConfig(k, Render(p), None, "");
    MatchIsCoherent(es, globs, fs, g, p);
    YieldsMatch(fs, e, g, p, c);
    assert ContendsAt(fs, es, c, i);
  }

  /** And what an entry yields is tried. */
  lemma ContenderIsPolled(es: seq<DatabaseConfig>, globs: seq<Path>, fs: FileSystem, c: DatabaseConfig)
    requires GoodEntries(es) && GlobsOf(es) == globs && WellFormed(fs) && GuardedOn(globs, fs)
    requires Unclaimed(es, Key(c)) && Contends(fs, es, c)
    ensures FirstPolled(globs, fs, Key(c)).Some?
  {
    var i :| ContendsAt(fs, es, c, i);
    var e, k := es[i], Key(c);
    assert e in es && (e.glob.None? ==> Key(e) != k);
    if e.glob.None? {
      YieldMeaning(fs, e, c);
    } else {
      var p := YieldIsMatch(fs, e, e.glob.value, c);
      MatchIsPolled(es, globs, fs, e.glob.value, p, k);
    }
  }

  lemma MatchIsPolled(es: seq<DatabaseConfig>, globs: seq<Path>, fs: FileSystem, g: Path, p: Path, k: string)
    requires GoodEntries(es) && GlobsOf(es) == globs && WellFormed(fs) && GuardedOn(globs, fs)
    requires g in globs && p in Matches(fs, g) && AliasOf(GlobBase(g), p) == Ok(k)
    ensures FirstPolled(globs, fs, k).Some?
  {
    MatchIsCoherent(es, globs, fs, g, p);
    assert p in Lister(fs)(g);
    assert PolledKey(fs, globs, p, k);
    FirstPolledMeaning(globs, fs, k);
  }

  lemma GuardedIsPolledAlike(es: seq<DatabaseConfig>, globs: seq<Path>, fs: FileSystem)
    requires GoodEntries(es) && GlobsOf(es) == globs && WellFormed(fs) && GuardedOn(globs, fs)
    ensures PolledAlike(globs, fs, es)
  {
    forall k: string | Unclaimed(es, k) ensures PolledAlikeAt(globs, fs, es, k) {
      FirstPolledMeaning(globs, fs, k);
      if FirstPolled(globs, fs, k).Some? {
        PolledContends(es, globs, fs, FirstPolled(globs, fs, k).value, k);
      } else {
        forall c | Contends(fs, es, c) && Key(c) == k ensures false {
          ContenderIsPolled(es, globs, fs, c);
        }
      }
    }
  }

  lemma SingleContender(globs: seq<Path>, e: Entry, c: DatabaseConfig)
    requires (forall h :: h in globs ==> GlobPattern(h)) && Valid(e.path)
    requires e.path.comps != [] && AncestorsClear(globs, e)
    requires Contends(SingleEntry(e), GlobEntries(globs), c)
    ensures c.alias == Key(c) && c.path == Render(e.path)
  {
    GlobsOfGlobEntries(globs);
    SingleEntryHas(e, e);
    var i :| ContendsAt(SingleEntry(e), GlobEntries(globs), c, i);
    YieldOfOnlyFile(GlobEntries(globs), globs, i, c, e);
  }

  lemma SingleIsSettled(globs: seq<Path>, e: Entry)
    requires (forall h :: h in globs ==> GlobPattern(h)) && Valid(e.path)
    requires e.path.comps != [] && AncestorsClear(globs, e)
    ensures Settled(SingleEntry(e), GlobEntries(globs))
  {
    forall c | Contends(SingleEntry(e), GlobEntries(globs), c) ensures c.alias == Key(c) && c.path == Render(e.path) {
      SingleContender(globs, e, c);
    }
  }

  lemma GuardedFilesListSame(es: seq<DatabaseConfig>, globs: seq<Path>, fs: FileSystem, fs': FileSystem,
                             installed: string)
    requires Setting(es, globs, fs, fs') && FilesOnly(globs, fs') && Settled(fs', es) && FilesGuarded(globs)
    ensures ListsSame(es, fs, fs', installed)
  {
    AllPatterns(es, globs);
    forall g, p | g in globs && p in Matches(fs', g) ensures Guarded(globs, g, p) {
      MatchedFile(globs, fs', g, p);
    }
    GuardedIsPolledAlike(es, globs, fs');
    GrownServiceListsSamePaths(es, globs, fs, fs', installed);
  }

  lemma UnguardedListsOther(globs: seq<Path>, g: Path, p: Path, installed: string)
    returns (es: seq<DatabaseConfig>, fs: FileSystem, fs': FileSystem)
    requires (forall h :: h in globs ==> GlobPattern(h)) && g in globs && Valid(p) && p.comps != []
    requires Listed(g, Entry(p, false)) && AncestorsClear(globs, Entry(p, false)) && !Guarded(globs, g, p)
    ensures Setting(es, globs, fs, fs') && FilesOnly(globs, fs') && Settled(fs', es)
    ensures !ListsSame(es, fs, fs', installed)
  {
    var e := Entry(p, false);
    es, fs, fs' := GlobEntries(globs), map[], SingleEntry(e);
    UnguardedFileFallsBehind(globs, g, e, installed);
    SingleIsSettled(globs, e);
  }

  /** The two services agree on every settled tree of files exactly if the guard holds for
      whatever file the globs could list. */
  lemma SettledListsSameIffGuarded(globs: seq<Path>, installed: string)
    requires forall h :: h in globs ==> GlobPattern(h)
    ensures (forall es, fs, fs' :: Setting(es, globs, fs, fs') && FilesOnly(globs, fs') && Settled(fs', es)
              ==> ListsSame(es, fs, fs', installed))
            <==> FilesGuarded(globs)
  {
    if FilesGuarded(globs) {
      forall es, fs, fs' | Setting(es, globs, fs, fs') && FilesOnly(globs, fs') && Settled(fs', es)
        ensures ListsSame(es, fs, fs', installed)
      {
        GuardedFilesListSame(es, globs, fs, fs', installed);
      }
    } else {
      var g, p :| g in globs && Valid(p) && p.comps != [] && Listed(g, Entry(p, false))
        && AncestorsClear(globs, Entry(p, false)) && !Guarded(globs, g, p);
      var es, fs, fs' := UnguardedListsOther(globs, g, p, installed);
    }
  }
}
