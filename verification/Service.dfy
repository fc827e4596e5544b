/** From configuration and file tree to any run: internal/winservice/service.go starts the
    pool on the expanded configuration, then the watcher's goroutines run. */
module Service {
  import opened Text
  import opened Paths
  import opened FileTree
  import opened Expand
  import opened Watcher
  import opened Incremental
  import opened Interleaving
  import opened Shutdown
  import P = Pool

  /** The pool after start-up; opens says which databases open. */
  ghost function StartedPool(es: seq<DatabaseConfig>, fs: FileSystem, installed: string, opens: seq<bool>): P.PoolState
    requires Candidates(fs, es).Ok? && |opens| == |Firsts(Candidates(fs, es).value)|
  {
    P.StartAll(PoolConfigs(Firsts(Candidates(fs, es).value)), installed, opens)
  }

  /** Start-up lists no two aliases that are equal up to case, because the expansion keeps
      one candidate for each alias in lower case. */
  lemma StartsFoldDistinct(es: seq<DatabaseConfig>, fs: FileSystem, installed: string, opens: seq<bool>)
    requires Candidates(fs, es).Ok? && |opens| == |Firsts(Candidates(fs, es).value)|
    ensures FoldDistinct(StartedPool(es, fs, installed, opens))
  {
    ExpandedAliasesAreApart(es, fs);
    ApartIsFoldDistinct(PoolConfigs(Firsts(Candidates(fs, es).value)), installed, opens);
  }

  lemma ApartIsFoldDistinct(cfgs: seq<P.DBConfig>, installed: string, opens: seq<bool>)
    requires |opens| == |cfgs| && forall i, j :: 0 <= i < j < |cfgs| ==> !EqualFold(cfgs[i].alias, cfgs[j].alias)
    ensures FoldDistinct(P.StartAll(cfgs, installed, opens))
  {
    var paths := P.StartAll(cfgs, installed, opens).paths;
    P.StartedAliases(cfgs, installed, opens);
    forall a, b | a in paths && b in paths && EqualFold(a, b) ensures a == b {
      var i := Configured(cfgs, a);
      var j := Configured(cfgs, b);
      assert i == j;
    }
  }

  lemma Configured(cfgs: seq<P.DBConfig>, a: string) returns (i: nat)
    requires a in P.AliasSet(cfgs)
    ensures i < |cfgs| && cfgs[i].alias == a
  {
    var c :| c in cfgs && c.alias == a;
    i :| 0 <= i < |cfgs| && cfgs[i] == c;
  }

  /** Whatever the configuration, the tree and the databases that open, and however the
      goroutines interleave before the pool is closed: aliases stay distinct up to case,
      no listed path ever changes, every open handle was opened from the path listed for
      its alias, and the calls that report a new database are those that listed an alias
      and those that lost a race for one. */
  lemma ServiceIsSafe(es: seq<DatabaseConfig>, fs: FileSystem, installed: string, opens: seq<bool>,
                      goroutines: nat, run: seq<Action>)
    requires Candidates(fs, es).Ok? && |opens| == |Firsts(Candidates(fs, es).value)|
    requires Possible(GlobsOf(es), installed, Start(StartedPool(es, fs, installed, opens), goroutines), run)
    ensures var pool := StartedPool(es, fs, installed, opens);
            var s := After(GlobsOf(es), installed, Start(pool, goroutines), run);
            && FoldDistinct(s.pool) && P.Sound(s.pool) && KeepsPaths(pool, s.pool)
            && |s.pool.paths| + s.lost == |pool.paths| + s.claimed
  {
    var pool := StartedPool(es, fs, installed, opens);
    StartsFoldDistinct(es, fs, installed, opens);
    StartupIsSound(es, fs, installed, opens);
    StartInv(pool, goroutines);
    InterleavingsAreSafe(GlobsOf(es), installed, pool, Start(pool, goroutines), run);
  }

  /** And to the end, whenever and however often the pool is closed meanwhile: aliases stay
      distinct up to case, configured aliases keep their path, and every open handle was
      opened from the path listed for its alias. */
  lemma ServiceEndsSafely(es: seq<DatabaseConfig>, fs: FileSystem, installed: string, opens: seq<bool>,
                          goroutines: nat, run: seq<Event>)
    requires Candidates(fs, es).Ok? && |opens| == |Firsts(Candidates(fs, es).value)|
    requires Course(GlobsOf(es), installed, Start(StartedPool(es, fs, installed, opens), goroutines), run)
    ensures var pool := StartedPool(es, fs, installed, opens);
            var s := End(GlobsOf(es), installed, Start(pool, goroutines), run);
            && FoldDistinct(s.pool) && P.Sound(s.pool) && KeepsPaths(pool, s.pool)
            && Lasting(pool, s)
  {
    var pool := StartedPool(es, fs, installed, opens);
    StartsFoldDistinct(es, fs, installed, opens);
    StartupIsSound(es, fs, installed, opens);
    StartLasts(pool, goroutines);
    ShutdownIsSafe(GlobsOf(es), installed, pool, Start(pool, goroutines), run);
  }

  /** When every database that is tried opens and every call has returned, the aliases
      listed are those the configuration yields on the start-up tree and those the watcher
      derives for the paths taken up: the interleaving does not matter. */
  lemma ServiceAliases(es: seq<DatabaseConfig>, fs: FileSystem, installed: string, opens: seq<bool>,
                       goroutines: nat, run: seq<Action>, s: State, k: string)
    requires WellFormed(fs) && GoodEntries(es)
    requires Candidates(fs, es).Ok? && |opens| == |Firsts(Candidates(fs, es).value)|
    requires Possible(GlobsOf(es), installed, Start(StartedPool(es, fs, installed, opens), goroutines), run)
    requires s == After(GlobsOf(es), installed, Start(StartedPool(es, fs, installed, opens), goroutines), run)
    requires AllOpening(run) && InFlight(s.pcs) == {}
    ensures k in Folded(s.pool) <==> AnyHasKey(fs, es, k) || k in Begun(GlobsOf(es), run)
  {
    var pool := StartedPool(es, fs, installed, opens);
    StartsFoldDistinct(es, fs, installed, opens);
    StartupIsSound(es, fs, installed, opens);
    AliasesAreInterleavingIndependent(GlobsOf(es), installed, Start(pool, goroutines), s, goroutines, run);
    FoldedStart(Firsts(Candidates(fs, es).value), installed, opens);
    ExpansionKeys(fs, es, k);
  }

  /** For every started service and every path whose alias is not listed yet, two
      goroutines can both report the one database as new. */
  lemma ServiceCountsARaceTwice(es: seq<DatabaseConfig>, fs: FileSystem, installed: string, opens: seq<bool>, p: Path,
                                run: seq<Action>)
    requires Candidates(fs, es).Ok? && |opens| == |Firsts(Candidates(fs, es).value)|
    requires var alias := AliasFor(GlobsOf(es), p);
             alias.Some? && !Taken(StartedPool(es, fs, installed, opens), alias.value)
    requires run == [Begin(0, p), Begin(1, p), Check(0), Check(1), Register(0, true), Register(1, true)]
    ensures var pool := StartedPool(es, fs, installed, opens);
            && Possible(GlobsOf(es), installed, Start(pool, 2), run)
            && var s := After(GlobsOf(es), installed, Start(pool, 2), run);
               s.claimed == 2 && |s.pool.paths| == |pool.paths| + 1
  {
    StartsFoldDistinct(es, fs, installed, opens);
    StartupIsSound(es, fs, installed, opens);
    RaceIsCountedTwice(GlobsOf(es), installed, StartedPool(es, fs, installed, opens), p, run);
  }
}
