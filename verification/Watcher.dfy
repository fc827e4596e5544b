/** internal/watcher/watcher.go: `tryRegister`, `poll` and the adaptive poll interval,
    run by one goroutine at a time. */
module Watcher {
  import opened Results
  import opened Text
  import opened Paths
  import opened FileTree
  import opened Glob
  import opened Alias
  import P = Pool

  /** How far the interval grows: five minutes, in milliseconds. */
  const MAX_POLL_BACKOFF: nat := 300000

  // ---- what a path would be registered as ----

  predicate IsDatabase(p: Path) {
    Lower(Ext(Render(p))) in [".mdb", ".accdb"]
  }

  /** Exactly the paths whose text ends in one of two extensions, in any case, are databases. */
  lemma DatabaseByEnding(p: Path)
    ensures IsDatabase(p) <==> EndsWith(Lower(Render(p)), ".mdb") || EndsWith(Lower(Render(p)), ".accdb")
  {
    var s := Render(p);
    ExtLower(s, |s|);
    assert Lower(Ext(s)) == Ext(Lower(s));
    if EndsWith(Lower(s), ".mdb") { EndIsExtension(Lower(s), ".mdb"); }
    if EndsWith(Lower(s), ".accdb") { EndIsExtension(Lower(s), ".accdb"); }
  }

  function FirstGlob(globs: seq<Path>, p: Path): Option<Path> {
    if globs == [] then None
    else if PathMatchesGlob(globs[0], p) then Some(globs[0])
    else FirstGlob(globs[1..], p)
  }

  /** The alias the watcher derives for p: that of the first glob accepting it. */
  function AliasFor(globs: seq<Path>, p: Path): Option<string> {
    if !IsDatabase(p) then None
    else match FirstGlob(globs, p)
      case None => None
      case Some(g) => match AliasOf(GlobBase(g), p)
        case Err(_) => None
        case Ok(alias) => Some(alias)
  }

  /** globs[i] accepts p, and no glob before it does. */
  ghost predicate FirstAccepting(globs: seq<Path>, p: Path, i: int) {
    && 0 <= i < |globs| && PathMatchesGlob(globs[i], p)
    && forall j :: 0 <= j < i ==> !PathMatchesGlob(globs[j], p)
  }

  lemma {:induction false} FirstGlobIs(globs: seq<Path>, p: Path, i: int)
    requires FirstAccepting(globs, p, i)
    ensures FirstGlob(globs, p) == Some(globs[i])
  {
    if i == 0 {
    } else {
      assert !PathMatchesGlob(globs[0], p);
      assert forall j :: 0 <= j < i ==> globs[1..][j] == globs[j + 1];
      FirstGlobIs(globs[1..], p, i - 1);
    }
  }

  lemma {:induction false} NoGlobAccepts(globs: seq<Path>, p: Path)
    requires forall i :: 0 <= i < |globs| ==> !PathMatchesGlob(globs[i], p)
    ensures FirstGlob(globs, p) == None
  {
    if globs == [] {
    } else {
      NoGlobAccepts(globs[1..], p);
    }
  }

  /** A database gets its alias from the base of the first glob that accepts it; a path
      with another ending, or that no glob accepts, gets none. */
  lemma FirstAcceptingDecides(globs: seq<Path>, p: Path)
    ensures EndsWith(Lower(Render(p)), ".mdb") || EndsWith(Lower(Render(p)), ".accdb") ==>
              forall i :: FirstAccepting(globs, p, i) ==>
                AliasFor(globs, p) ==
                match AliasOf(GlobBase(globs[i]), p) { case Ok(alias) => Some(alias) case Err(_) => None }
    ensures !EndsWith(Lower(Render(p)), ".mdb") && !EndsWith(Lower(Render(p)), ".accdb") ==> AliasFor(globs, p) == None
    ensures (forall i :: 0 <= i < |globs| ==> !PathMatchesGlob(globs[i], p)) ==> AliasFor(globs, p) == None
  {
    DatabaseByEnding(p);
    forall i | FirstAccepting(globs, p, i) ensures FirstGlob(globs, p) == Some(globs[i]) {
      FirstGlobIs(globs, p, i);
    }
    if forall i :: 0 <= i < |globs| ==> !PathMatchesGlob(globs[i], p) {
      NoGlobAccepts(globs, p);
    }
  }

  // ---- registering paths one after the other ----

  /** One call of tryRegister: the path, the alias derived for it, and whether the
      database would open. */
  datatype Attempt = Attempt(path: Path, alias: Option<string>, opens: bool)

  function Deriver(globs: seq<Path>): Path -> Option<string> {
    p => AliasFor(globs, p)
  }

  function Attempts(alias: Path -> Option<string>, opens: Path -> bool, paths: seq<Path>): (r: seq<Attempt>)
    ensures |r| == |paths|
    ensures forall i :: 0 <= i < |paths| ==> r[i] == Attempt(paths[i], alias(paths[i]), opens(paths[i]))
  {
    seq(|paths|, i requires 0 <= i < |paths| => Attempt(paths[i], alias(paths[i]), opens(paths[i])))
  }

  lemma AttemptsAppend(alias: Path -> Option<string>, opens: Path -> bool, a: seq<Path>, b: seq<Path>)
    ensures Attempts(alias, opens, a + b) == Attempts(alias, opens, a) + Attempts(alias, opens, b)
  {
  }

  predicate Taken(s: P.PoolState, alias: string) {
    exists a :: a in s.paths && EqualFold(a, alias)
  }

  function ConfigFor(alias: string, p: Path): P.DBConfig {
    P.DBConfig(alias, Render(p), "")
  }

  function TryState(s: P.PoolState, t: Attempt, installed: string): P.PoolState {
    if t.alias.None? || Taken(s, t.alias.value) then s
    else P.RegisterState(s, ConfigFor(t.alias.value, t.path), installed, t.opens)
  }

  predicate TryResult(s: P.PoolState, t: Attempt) {
    t.alias.Some? && !Taken(s, t.alias.value) && (t.alias.value in s.dbs || t.opens)
  }

  /** A path without an alias, or whose alias is listed in some case, changes nothing and is
      no success. For any other the opening decides: it lists the path under the alias and
      holds a handle opened from it with the installed driver, or leaves all maps as they
      were. */
  lemma TryMeaning(s: P.PoolState, t: Attempt, installed: string)
    ensures t.alias.None? ==> TryState(s, t, installed) == s && !TryResult(s, t)
    ensures t.alias.Some? && (exists a :: a in s.paths && Lower(a) == Lower(t.alias.value)) ==>
              TryState(s, t, installed) == s && !TryResult(s, t)
    ensures t.alias.Some? && t.alias.value !in s.dbs ==>
              (forall a :: a in s.paths ==> Lower(a) != Lower(t.alias.value)) ==>
              var s' := TryState(s, t, installed);
              && TryResult(s, t) == t.opens
              && (t.opens ==> s'.paths == s.paths[t.alias.value := Render(t.path)])
              && (t.opens ==> s'.dbs == s.dbs[t.alias.value := P.Handle(s.next, Render(t.path), installed)])
              && (!t.opens ==> s' == s.(next := s.next + 1))
  {
    if t.alias.Some? {
      forall a ensures EqualFold(a, t.alias.value) <==> Lower(a) == Lower(t.alias.value) {
      }
    }
  }

  function TryAll(s: P.PoolState, ts: seq<Attempt>, installed: string): P.PoolState {
    if ts == [] then s
    else TryState(TryAll(s, ts[..|ts| - 1], installed), ts[|ts| - 1], installed)
  }

  /** How many of the attempts report a newly registered database. */
  function Successes(s: P.PoolState, ts: seq<Attempt>, installed: string): nat {
    if ts == [] then 0
    else
      var n := |ts| - 1;
      Successes(s, ts[..n], installed) + if TryResult(TryAll(s, ts[..n], installed), ts[n]) then 1 else 0
  }

  lemma TryStep(s: P.PoolState, ts: seq<Attempt>, j: nat, installed: string)
    requires j < |ts|
    ensures TryAll(s, ts[..j + 1], installed) == TryState(TryAll(s, ts[..j], installed), ts[j], installed)
    ensures Successes(s, ts[..j + 1], installed)
         == Successes(s, ts[..j], installed) + if TryResult(TryAll(s, ts[..j], installed), ts[j]) then 1 else 0
  {
    assert ts[..j + 1][..j] == ts[..j];
  }

  lemma {:induction false} TryAppend(s: P.PoolState, a: seq<Attempt>, b: seq<Attempt>, installed: string)
    ensures TryAll(s, a + b, installed) == TryAll(TryAll(s, a, installed), b, installed)
    ensures Successes(s, a + b, installed)
         == Successes(s, a, installed) + Successes(TryAll(s, a, installed), b, installed)
  {
    if b == [] {
      assert a + b == a;
    } else {
      var n := |b| - 1;
      assert (a + b)[..|a| + n] == a + b[..n] && (a + b)[|a| + n] == b[n];
      TryAppend(s, a, b[..n], installed);
    }
  }

  function Lister(fs: FileSystem): Path -> seq<Path> {
    g => Matches(fs, g)
  }

  /** Everything the globs list, glob by glob. */
  function AllListed(list: Path -> seq<Path>, globs: seq<Path>): seq<Path> {
    if globs == [] then []
    else AllListed(list, globs[..|globs| - 1]) + list(globs[|globs| - 1])
  }

  function AllMatches(fs: FileSystem, globs: seq<Path>): seq<Path> {
    AllListed(Lister(fs), globs)
  }

  function PollAttempts(globs: seq<Path>, fs: FileSystem, opens: Path -> bool): seq<Attempt> {
    Attempts(Deriver(globs), opens, AllMatches(fs, globs))
  }

  /** Polling one more glob makes the attempts for what it lists. */
  lemma PollStep(list: Path -> seq<Path>, globs: seq<Path>, alias: Path -> Option<string>, opens: Path -> bool,
                 i: nat, s: P.PoolState, installed: string)
    requires i < |globs|
    ensures var before := Attempts(alias, opens, AllListed(list, globs[..i]));
            var more := Attempts(alias, opens, list(globs[i]));
            var after := Attempts(alias, opens, AllListed(list, globs[..i + 1]));
            && TryAll(s, after, installed) == TryAll(TryAll(s, before, installed), more, installed)
            && Successes(s, after, installed)
               == Successes(s, before, installed) + Successes(TryAll(s, before, installed), more, installed)
  {
    assert globs[..i + 1][..i] == globs[..i];
    AttemptsAppend(alias, opens, AllListed(list, globs[..i]), list(globs[i]));
    TryAppend(s, Attempts(alias, opens, AllListed(list, globs[..i])), Attempts(alias, opens, list(globs[i])),
              installed);
  }

  function PollState(s: P.PoolState, globs: seq<Path>, fs: FileSystem, installed: string,
                     opens: Path -> bool): P.PoolState
  {
    TryAll(s, PollAttempts(globs, fs, opens), installed)
  }

  function PollFound(s: P.PoolState, globs: seq<Path>, fs: FileSystem, installed: string, opens: Path -> bool): nat {
    Successes(s, PollAttempts(globs, fs, opens), installed)
  }

  /** The interval after one poll. An interval above the bound is left alone. */
  function NextInterval(base: nat, curr: nat, found: nat): nat {
    if found > 0 then base
    else if curr < MAX_POLL_BACKOFF then
      if curr * 2 > MAX_POLL_BACKOFF then MAX_POLL_BACKOFF else curr * 2
    else curr
  }

  // ---- the code ----

  class Watcher {
    const globs: seq<Path>
    const pool: P.Pool
    const basePollIvl: nat
    var currPollIvl: nat

    constructor (globs: seq<Path>, pool: P.Pool, pollInterval: nat)
      ensures this.globs == globs && this.pool == pool
      ensures basePollIvl == pollInterval && currPollIvl == pollInterval
    {
      this.globs, this.pool := globs, pool;
      basePollIvl, currPollIvl := pollInterval, pollInterval;
    }

    /** The first glob that accepts the path decides the alias. */
    method DeriveAlias(path: Path) returns (r: Option<string>)
      ensures r == AliasFor(globs, path)
      ensures r.Some? ==> EndsWith(Lower(Render(path)), ".mdb") || EndsWith(Lower(Render(path)), ".accdb")
      ensures r.Some? ==> exists i :: FirstAccepting(globs, path, i) && AliasOf(GlobBase(globs[i]), path) == Ok(r.value)
    {
      DatabaseByEnding(path);
      var ext := Lower(Ext(Render(path)));
      if ext != ".mdb" && ext != ".accdb" {
        return None;
      }
      assert globs[0..] == globs;
      for i := 0 to |globs|
        invariant FirstGlob(globs, path) == FirstGlob(globs[i..], path)
        invariant forall j :: 0 <= j < i ==> !PathMatchesGlob(globs[j], path)
      {
        assert globs[i..][0] == globs[i] && globs[i..][1..] == globs[i + 1..];
        if PathMatchesGlob(globs[i], path) {
          var alias := AliasFromPath(GlobBase(globs[i]), path);
          assert FirstAccepting(globs, path, i);
          return if alias.Err? then None else Some(alias.value);
        }
      }
      return None;
    }

    /** Whether some listed alias equals this one up to case. */
    method AlreadyListed(alias: string) returns (taken: bool)
      ensures taken == Taken(pool.State(), alias)
    {
      var existing := pool.Aliases();
      for j := 0 to |existing|
        invariant forall k :: 0 <= k < j ==> !EqualFold(existing[k], alias)
      {
        if EqualFold(existing[j], alias) {
          assert existing[j] in pool.paths;
          return true;
        }
      }
      return false;
    }

    method TryRegister(path: Path, installed: string, opens: bool) returns (added: bool)
      requires P.Numbered(pool.State())
      modifies pool, pool.driver
      ensures pool.State() == TryState(old(pool.State()), Attempt(path, AliasFor(globs, path), opens), installed)
      ensures added == TryResult(old(pool.State()), Attempt(path, AliasFor(globs, path), opens))
      ensures P.Numbered(pool.State())
    {
      var alias := DeriveAlias(path);
      if alias.None? {
        return false;
      }
      var taken := AlreadyListed(alias.value);
      if taken {
        return false;
      }
      var registered := pool.Register(ConfigFor(alias.value, path), installed, opens);
      return registered.Ok?;
    }

    method TryMatches(matches: seq<Path>, installed: string, opens: Path -> bool) returns (found: nat)
      requires P.Numbered(pool.State())
      modifies pool, pool.driver
      ensures pool.State() == TryAll(old(pool.State()), Attempts(Deriver(globs), opens, matches), installed)
      ensures found == Successes(old(pool.State()), Attempts(Deriver(globs), opens, matches), installed)
      ensures P.Numbered(pool.State())
    {
      found := 0;
      ghost var ts := Attempts(Deriver(globs), opens, matches);
      for j := 0 to |matches|
        invariant pool.State() == TryAll(old(pool.State()), ts[..j], installed)
        invariant found == Successes(old(pool.State()), ts[..j], installed)
        invariant P.Numbered(pool.State())
      {
        TryStep(old(pool.State()), ts, j, installed);
        assert ts[j] == Attempt(matches[j], AliasFor(globs, matches[j]), opens(matches[j]));
        var added := TryRegister(matches[j], installed, opens(matches[j]));
        if added {
          found := found + 1;
        }
      }
      assert ts[..|matches|] == ts;
    }

    method Poll(fs: FileSystem, installed: string, opens: Path -> bool) returns (found: nat)
      requires P.Numbered(pool.State())
      modifies pool, pool.driver
      ensures pool.State() == PollState(old(pool.State()), globs, fs, installed, opens)
      ensures found == PollFound(old(pool.State()), globs, fs, installed, opens)
      ensures P.Numbered(pool.State())
    {
      found := 0;
      ghost var start := pool.State();
      ghost var alias, list := Deriver(globs), Lister(fs);
      for i := 0 to |globs|
        invariant pool.State() == TryAll(start, Attempts(alias, opens, AllListed(list, globs[..i])), installed)
        invariant found == Successes(start, Attempts(alias, opens, AllListed(list, globs[..i])), installed)
        invariant P.Numbered(pool.State())
      {
        var more := PollGlob(globs[i], fs, installed, opens);
        found := found + more;
        PollStep(list, globs, alias, opens, i, start, installed);
      }
      assert globs[..|globs|] == globs;
    }

    method PollGlob(g: Path, fs: FileSystem, installed: string, opens: Path -> bool) returns (found: nat)
      requires P.Numbered(pool.State())
      modifies pool, pool.driver
      ensures pool.State() == TryAll(old(pool.State()), Attempts(Deriver(globs), opens, Lister(fs)(g)), installed)
      ensures found == Successes(old(pool.State()), Attempts(Deriver(globs), opens, Lister(fs)(g)), installed)
      ensures P.Numbered(pool.State())
    {
      var matches := MatchGlob(fs, g);
      found := TryMatches(matches, installed, opens);
    }

    /** One tick of Run: poll, then speed up after a discovery or slow down when idle. */
    method Tick(fs: FileSystem, installed: string, opens: Path -> bool) returns (found: nat)
      requires P.Numbered(pool.State())
      modifies this`currPollIvl, pool, pool.driver
      ensures pool.State() == PollState(old(pool.State()), globs, fs, installed, opens)
      ensures found == PollFound(old(pool.State()), globs, fs, installed, opens)
      ensures currPollIvl == NextInterval(basePollIvl, old(currPollIvl), found)
      ensures P.Numbered(pool.State())
    {
      found := Poll(fs, installed, opens);
      if found > 0 {
        currPollIvl := basePollIvl;
      } else if currPollIvl < MAX_POLL_BACKOFF {
        currPollIvl := currPollIvl * 2;
        if currPollIvl > MAX_POLL_BACKOFF {
          currPollIvl := MAX_POLL_BACKOFF;
        }
      }
    }
  }

  // ---- the interval over a run of polls ----

  function Interval(base: nat, founds: seq<nat>): nat {
    if founds == [] then base
    else NextInterval(base, Interval(base, founds[..|founds| - 1]), founds[|founds| - 1])
  }

  /** Idle polls since the start or the last discovery. */
  function IdleStreak(founds: seq<nat>): nat {
    if founds == [] || founds[|founds| - 1] > 0 then 0
    else 1 + IdleStreak(founds[..|founds| - 1])
  }

  function Pow2(k: nat): (p: nat)
    ensures p >= 1
  {
    if k == 0 then 1 else 2 * Pow2(k - 1)
  }

  function Min(a: nat, b: nat): nat {
    if a < b then a else b
  }

  /** Only the idle streak counts: the interval is base doubled once per idle poll, capped
      at five minutes; a base above the cap never changes. */
  lemma {:induction false} IntervalIsCappedDoubling(base: nat, founds: seq<nat>)
    ensures Interval(base, founds)
         == if base <= 300000 then Min(base * Pow2(IdleStreak(founds)), 300000) else base
  {
    if founds == [] {
    } else {
      var n := |founds| - 1;
      IntervalIsCappedDoubling(base, founds[..n]);
      var k := IdleStreak(founds[..n]);
      Doubled(base, Pow2(k));
    }
  }

  lemma Doubled(base: nat, p: nat)
    requires p >= 1
    ensures base * (2 * p) == 2 * (base * p) && base * p >= base
  {
  }

  // ---- what attempts do to the set of aliases ----

  /** The listed aliases, up to case. */
  ghost function Folded(s: P.PoolState): set<string> {
    set a | a in s.paths :: Lower(a)
  }

  /** Aliases are derived in lower case. */
  ghost predicate LowerAliases(ts: seq<Attempt>) {
    forall t :: t in ts && t.alias.Some? ==> Lower(t.alias.value) == t.alias.value
  }

  lemma AttemptsAreLower(globs: seq<Path>, opens: Path -> bool, paths: seq<Path>)
    ensures LowerAliases(Attempts(Deriver(globs), opens, paths))
  {
    forall p | Deriver(globs)(p).Some? ensures Lower(Deriver(globs)(p).value) == Deriver(globs)(p).value {
      AliasAlphabet(GlobBase(FirstGlob(globs, p).value), p);
    }
  }

  /** Every open alias is listed. */
  ghost predicate Listing(s: P.PoolState) {
    s.dbs.Keys <= s.paths.Keys
  }

  /** An attempt does nothing if it has no alias or the alias is listed; otherwise it
      lists the alias if the database opens. */
  lemma TryCases(s: P.PoolState, t: Attempt, installed: string)
    requires Listing(s) && (t.alias.Some? ==> Lower(t.alias.value) == t.alias.value)
    ensures Listing(TryState(s, t, installed))
    ensures TryResult(s, t) <==> t.opens && t.alias.Some? && t.alias.value !in Folded(s)
    ensures TryResult(s, t) ==> TryState(s, t, installed).paths.Keys == s.paths.Keys + {t.alias.value}
    ensures !TryResult(s, t) ==> TryState(s, t, installed).paths == s.paths
  {
  }

  lemma FoldedAdds(s: P.PoolState, s': P.PoolState, alias: string)
    requires Lower(alias) == alias && alias !in Folded(s) && s'.paths.Keys == s.paths.Keys + {alias}
    ensures Folded(s') == Folded(s) + {alias}
    ensures |Folded(s')| == |Folded(s)| + 1 && |s'.paths| == |s.paths| + 1
  {
    FoldsOf(s.paths.Keys, s'.paths.Keys, alias);
    assert Folded(s) == Folds(s.paths.Keys) && Folded(s') == Folds(s'.paths.Keys);
    assert alias !in s.paths;
    assert |s'.paths| == |s'.paths.Keys| && |s.paths| == |s.paths.Keys|;
  }

  ghost function Folds(aliases: set<string>): set<string> {
    set a | a in aliases :: Lower(a)
  }

  lemma FoldsOf(aliases: set<string>, aliases': set<string>, alias: string)
    requires aliases' == aliases + {alias} && Lower(alias) == alias
    ensures Folds(aliases') == Folds(aliases) + {alias}
  {
  }

  lemma TryAddsAlias(s: P.PoolState, t: Attempt, installed: string, k: string)
    requires Listing(s) && (t.alias.Some? ==> Lower(t.alias.value) == t.alias.value)
    ensures var s' := TryState(s, t, installed);
            var gain := if TryResult(s, t) then 1 else 0;
            && Listing(s')
            && |s'.paths| == |s.paths| + gain && |Folded(s')| == |Folded(s)| + gain
            && (k in Folded(s') <==> k in Folded(s) || (t.opens && t.alias == Some(k)))
  {
    TryCases(s, t, installed);
    if TryResult(s, t) {
      FoldedAdds(s, TryState(s, t, installed), t.alias.value);
    }
  }

  /** After any attempts in any order, the listed aliases are the old ones and those of
      the attempts that could open; the count of successes is the growth of the list. */
  lemma {:induction false} TryAllAliases(s: P.PoolState, ts: seq<Attempt>, installed: string, k: string)
    requires Listing(s) && LowerAliases(ts)
    ensures Listing(TryAll(s, ts, installed))
    ensures |TryAll(s, ts, installed).paths| == |s.paths| + Successes(s, ts, installed)
    ensures |Folded(TryAll(s, ts, installed))| == |Folded(s)| + Successes(s, ts, installed)
    ensures k in Folded(TryAll(s, ts, installed))
       <==> k in Folded(s) || exists t :: t in ts && t.opens && t.alias == Some(k)
  {
    if ts == [] {
    } else {
      var init, t := ts[..|ts| - 1], ts[|ts| - 1];
      assert ts == init + [t];
      assert t in ts;
      TryAllAliases(s, init, installed, k);
      TryAddsAlias(TryAll(s, init, installed), t, installed, k);
    }
  }

  /** The debounce flush hands its paths over in map order: neither the resulting set of
      aliases nor the number of successes depends on it. */
  lemma FlushOrderIsIrrelevant(s: P.PoolState, ts: seq<Attempt>, ts': seq<Attempt>, installed: string)
    requires Listing(s) && LowerAliases(ts) && (forall t :: t in ts <==> t in ts')
    ensures Folded(TryAll(s, ts, installed)) == Folded(TryAll(s, ts', installed))
    ensures Successes(s, ts, installed) == Successes(s, ts', installed)
  {
    forall k: string ensures k in Folded(TryAll(s, ts, installed)) <==> k in Folded(TryAll(s, ts', installed)) {
      TryAllAliases(s, ts, installed, k);
      TryAllAliases(s, ts', installed, k);
    }
    TryAllAliases(s, ts, installed, "");
    TryAllAliases(s, ts', installed, "");
  }

  /** poll returns exactly the number of aliases it adds to the list. */
  lemma PollReturnsGrowth(s: P.PoolState, globs: seq<Path>, fs: FileSystem, installed: string, opens: Path -> bool)
    requires Listing(s)
    ensures |PollState(s, globs, fs, installed, opens).paths| == |s.paths| + PollFound(s, globs, fs, installed, opens)
  {
    AttemptsAreLower(globs, opens, AllMatches(fs, globs));
    TryAllAliases(s, PollAttempts(globs, fs, opens), installed, "");
  }

  lemma {:induction false} NothingNew(s: P.PoolState, ts: seq<Attempt>, installed: string)
    requires LowerAliases(ts)
    requires forall t :: t in ts && t.alias.Some? ==> t.alias.value in Folded(s)
    ensures TryAll(s, ts, installed) == s && Successes(s, ts, installed) == 0
  {
    if ts == [] {
    } else {
      var t := ts[|ts| - 1];
      NothingNew(s, ts[..|ts| - 1], installed);
      assert t in ts;
    }
  }

  /** A second poll of an unchanged tree, after every opening succeeded, finds nothing
      and changes nothing, whatever would open then. */
  lemma RepeatedPollIsIdle(s: P.PoolState, globs: seq<Path>, fs: FileSystem, installed: string,
                           opens: Path -> bool, later: Path -> bool)
    requires Listing(s) && forall p :: opens(p)
    ensures var t := PollState(s, globs, fs, installed, opens);
            PollState(t, globs, fs, installed, later) == t && PollFound(t, globs, fs, installed, later) == 0
  {
    var paths := AllMatches(fs, globs);
    var ts, us := PollAttempts(globs, fs, opens), PollAttempts(globs, fs, later);
    var s' := TryAll(s, ts, installed);
    AttemptsAreLower(globs, opens, paths);
    AttemptsAreLower(globs, later, paths);
    forall u | u in us && u.alias.Some? ensures u.alias.value in Folded(s') {
      var i :| 0 <= i < |us| && us[i] == u;
      assert ts[i] in ts && ts[i].opens && ts[i].alias == u.alias;
      TryAllAliases(s, ts, installed, u.alias.value);
    }
    NothingNew(s', us, installed);
  }

  // ---- which file gets an alias ----

  lemma TakenIsFolded(s: P.PoolState, alias: string)
    requires Lower(alias) == alias
    ensures Taken(s, alias) <==> alias in Folded(s)
  {
    if a :| a in s.paths && EqualFold(a, alias) {
      assert Lower(a) == alias;
    }
    if a :| a in s.paths && Lower(a) == alias {
      assert EqualFold(a, alias);
    }
  }

  /** Under a free alias the first attempt that opens is registered, and stays. */
  lemma {:induction false} FirstOpeningWins(s: P.PoolState, ts: seq<Attempt>, installed: string, alias: string, n: nat)
    requires Listing(s) && LowerAliases(ts) && alias !in Folded(s)
    requires n < |ts| && ts[n].opens && ts[n].alias == Some(alias)
    requires forall l :: 0 <= l < n ==> !ts[l].opens || ts[l].alias != Some(alias)
    ensures var t := TryAll(s, ts, installed);
            alias in t.paths && t.paths[alias] == Render(ts[n].path)
    decreases |ts|
  {
    var init, last := ts[..|ts| - 1], ts[|ts| - 1];
    assert LowerAliases(init) && Lower(alias) == alias by { assert ts[n] in ts; }
    TryAllAliases(s, init, installed, alias);
    var t := TryAll(s, init, installed);
    TakenIsFolded(t, alias);
    TryMeaning(t, last, installed);
    if n == |ts| - 1 {
      assert forall x :: x in init ==> !x.opens || x.alias != Some(alias);
      assert !Taken(t, alias);
    } else {
      FirstOpeningWins(s, init, installed, alias, n);
      assert EqualFold(alias, alias) && Taken(t, alias);
    }
  }

  /** The m-th path that the i-th glob lists would be registered under the alias. */
  ghost predicate Offers(list: Path -> seq<Path>, alias: Path -> Option<string>, opens: Path -> bool,
                         globs: seq<Path>, k: string, i: int, m: int)
  {
    && 0 <= i < |globs| && 0 <= m < |list(globs[i])|
    && alias(list(globs[i])[m]) == Some(k) && opens(list(globs[i])[m])
  }

  /** Where it stands among all that is listed, glob by glob. */
  lemma {:induction false} PlaceInListing(list: Path -> seq<Path>, alias: Path -> Option<string>, opens: Path -> bool,
                                          globs: seq<Path>, k: string, i: int, m: int) returns (n: nat)
    requires Offers(list, alias, opens, globs, k, i, m)
    requires forall j, l :: Offers(list, alias, opens, globs, k, j, l) ==> j > i || (j == i && l >= m)
    ensures n < |AllListed(list, globs)| && AllListed(list, globs)[n] == list(globs[i])[m]
    ensures forall x :: 0 <= x < n ==>
              !opens(AllListed(list, globs)[x]) || alias(AllListed(list, globs)[x]) != Some(k)
    decreases |globs|
  {
    var init, last := globs[..|globs| - 1], list(globs[|globs| - 1]);
    var before := AllListed(list, init);
    if i < |globs| - 1 {
      forall j, l | Offers(list, alias, opens, init, k, j, l) ensures j > i || (j == i && l >= m) {
        assert Offers(list, alias, opens, globs, k, j, l);
      }
      assert Offers(list, alias, opens, init, k, i, m);
      n := PlaceInListing(list, alias, opens, init, k, i, m);
    } else {
      n := |before| + m;
      NothingOffered(list, alias, opens, globs, init, k, i, m);
      forall x | 0 <= x < n
        ensures !opens(AllListed(list, globs)[x]) || alias(AllListed(list, globs)[x]) != Some(k)
      {
        if x < |before| {
          assert before[x] in before;
        } else {
          assert AllListed(list, globs)[x] == last[x - |before|];
          assert Offers(list, alias, opens, globs, k, i, x - |before|)
            <==> opens(last[x - |before|]) && alias(last[x - |before|]) == Some(k);
        }
      }
    }
  }

  lemma {:induction false} ListedSomewhere(list: Path -> seq<Path>, globs: seq<Path>, p: Path) returns (j: int, l: int)
    requires p in AllListed(list, globs)
    ensures 0 <= j < |globs| && 0 <= l < |list(globs[j])| && list(globs[j])[l] == p
  {
    var n := |globs| - 1;
    if p in list(globs[n]) {
      j := n;
      l :| 0 <= l < |list(globs[n])| && list(globs[n])[l] == p;
    } else {
      j, l := ListedSomewhere(list, globs[..n], p);
    }
  }

  lemma NothingOffered(list: Path -> seq<Path>, alias: Path -> Option<string>, opens: Path -> bool,
                       globs: seq<Path>, init: seq<Path>, k: string, i: int, m: int)
    requires 0 <= i == |globs| - 1 && init == globs[..i]
    requires forall j, l :: Offers(list, alias, opens, globs, k, j, l) ==> j > i || (j == i && l >= m)
    ensures forall p :: p in AllListed(list, init) ==> !opens(p) || alias(p) != Some(k)
  {
    forall p | p in AllListed(list, init) ensures !opens(p) || alias(p) != Some(k) {
      var j, l := ListedSomewhere(list, init, p);
      assert init[j] == globs[j];
      assert opens(p) && alias(p) == Some(k) ==> Offers(list, alias, opens, globs, k, j, l);
    }
  }

  /** A poll registers under a free alias the first file that opens, in the order of the
      globs and, within a glob, of its listing. */
  lemma PollTakesFirst(s: P.PoolState, globs: seq<Path>, fs: FileSystem, installed: string, opens: Path -> bool,
                       k: string, i: int, m: int)
    requires Listing(s) && forall a :: a in s.paths ==> Lower(a) != k
    requires Offers(Lister(fs), Deriver(globs), opens, globs, k, i, m)
    requires forall j, l :: Offers(Lister(fs), Deriver(globs), opens, globs, k, j, l) ==> j > i || (j == i && l >= m)
    ensures var t := PollState(s, globs, fs, installed, opens);
            k in t.paths && t.paths[k] == Render(Matches(fs, globs[i])[m])
  {
    var n := PlaceInListing(Lister(fs), Deriver(globs), opens, globs, k, i, m);
    var ts := PollAttempts(globs, fs, opens);
    AttemptsAreLower(globs, opens, AllMatches(fs, globs));
    assert ts[n] == Attempt(Matches(fs, globs[i])[m], Some(k), true);
    FirstOpeningWins(s, ts, installed, k, n);
  }
}
