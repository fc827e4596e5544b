/** internal/winservice/service.go, `Stop`: the pool is closed while a goroutine of the
    watcher may still be inside tryRegister, since the cancelled fsnotify loop flushes its
    buffer once more. */
module Shutdown {
  import opened Results
  import opened Text
  import opened Paths
  import opened Watcher
  import opened Interleaving
  import P = Pool

  datatype Event = Work(action: Action) | Close

  predicate CanHappen(s: State, e: Event) {
    e.Work? ==> Enabled(s, e.action)
  }

  function Happen(globs: seq<Path>, installed: string, s: State, e: Event): State
    requires CanHappen(s, e)
  {
    match e
    case Work(a) => Next(globs, installed, s, a)
    case Close => s.(pool := P.CloseState(s.pool))
  }

  ghost predicate Course(globs: seq<Path>, installed: string, s: State, run: seq<Event>)
    decreases |run|
  {
    run == [] || (CanHappen(s, run[0]) && Course(globs, installed, Happen(globs, installed, s, run[0]), run[1..]))
  }

  ghost function End(globs: seq<Path>, installed: string, s: State, run: seq<Event>): State
    requires Course(globs, installed, s, run)
    decreases |run|
  {
    if run == [] then s else End(globs, installed, Happen(globs, installed, s, run[0]), run[1..])
  }

  // ---- what holds to the end ----

  /** Start-up aliases keep their path; those listed since are lower case. */
  ghost predicate Descends(start: P.PoolState, s: P.PoolState) {
    && KeepsPaths(start, s)
    && (forall a :: a in s.paths && a !in start.paths ==> Lower(a) == a)
  }

  ghost predicate Lasting(start: P.PoolState, s: State) {
    && P.Sound(s.pool) && FoldDistinct(s.pool) && Descends(start, s.pool)
    && (forall t :: 0 <= t < |s.pcs| ==> PcFits(start, s.pcs[t]))
    && |s.pool.paths| + s.lost <= |start.paths| + s.claimed
  }

  lemma StartLasts(pool: P.PoolState, goroutines: nat)
    requires P.Sound(pool) && FoldDistinct(pool)
    ensures Lasting(pool, Start(pool, goroutines))
  {
  }

  /** A checked alias is listed as it is, or new to the list up to case. */
  lemma CheckedIsListedOrNew(start: P.PoolState, s: P.PoolState, alias: string)
    requires Descends(start, s) && Lower(alias) == alias && !Taken(start, alias)
    ensures alias !in start.paths && (alias in s.paths || !Taken(s, alias))
  {
    if alias in start.paths {
      assert EqualFold(alias, alias);
    }
    if a :| a in s.paths && EqualFold(a, alias) {
      assert a !in start.paths;
      assert a == alias;
    }
  }

  lemma RegisterLasts(start: P.PoolState, s: P.PoolState, s': P.PoolState, cfg: P.DBConfig, installed: string,
                      opens: bool)
    requires P.Sound(s) && FoldDistinct(s) && Descends(start, s)
    requires Lower(cfg.alias) == cfg.alias && !Taken(start, cfg.alias)
    requires s' == P.RegisterState(s, cfg, installed, opens)
    ensures FoldDistinct(s') && Descends(start, s')
    ensures |s.paths| <= |s'.paths| <= |s.paths| + (if cfg.alias !in s.dbs && opens then 1 else 0)
  {
    if cfg.alias !in s.dbs && opens {
      CheckedIsListedOrNew(start, s, cfg.alias);
      if cfg.alias in s.paths {
        AgainLasts(start, s, s', cfg.alias, cfg.path);
      } else {
        NewLasts(start, s, s', cfg.alias, cfg.path);
      }
    }
  }

  lemma AgainLasts(start: P.PoolState, s: P.PoolState, s': P.PoolState, alias: string, path: string)
    requires FoldDistinct(s) && Descends(start, s) && alias in s.paths && alias !in start.paths
    requires s'.paths == s.paths[alias := path]
    ensures FoldDistinct(s') && Descends(start, s') && |s'.paths| == |s.paths|
  {
    assert s'.paths.Keys == s.paths.Keys;
    assert |s'.paths| == |s'.paths.Keys| && |s.paths| == |s.paths.Keys|;
  }

  lemma NewLasts(start: P.PoolState, s: P.PoolState, s': P.PoolState, alias: string, path: string)
    requires FoldDistinct(s) && Descends(start, s) && !Taken(s, alias) && alias !in s.paths && Lower(alias) == alias
    requires s'.paths == s.paths[alias := path]
    ensures FoldDistinct(s') && Descends(start, s') && |s'.paths| == |s.paths| + 1
  {
    OneKeyMore(s.paths, s'.paths, alias, path);
    NewAliasIsDistinct(s, s', alias);
  }

  lemma OneKeyMore(m: map<string, string>, n: map<string, string>, alias: string, path: string)
    requires alias !in m && n == m[alias := path]
    ensures n.Keys == m.Keys + {alias} && |n| == |m| + 1
  {
    assert n.Keys == m.Keys + {alias};
    assert |n| == |n.Keys| && |m| == |m.Keys|;
  }

  lemma WorkLasts(globs: seq<Path>, installed: string, start: P.PoolState, s: State, a: Action)
    requires Lasting(start, s) && Enabled(s, a)
    ensures Lasting(start, Next(globs, installed, s, a))
  {
    match a
    case Begin(_, p) =>
      if AliasFor(globs, p).Some? { DerivedIsLower(globs, p); }
    case Check(t) =>
      if !Taken(s.pool, s.pcs[t].alias) { UnlistedAtStart(start, s.pool, s.pcs[t].alias); }
    case Register(t, opens) =>
      var cfg := ConfigFor(s.pcs[t].alias, s.pcs[t].path);
      P.RegisterKeepsSound(s.pool, cfg, installed, opens);
      RegisterLasts(start, s.pool, Next(globs, installed, s, a).pool, cfg, installed, opens);
  }

  lemma UnlistedAtStart(start: P.PoolState, s: P.PoolState, alias: string)
    requires Descends(start, s) && !Taken(s, alias)
    ensures !Taken(start, alias)
  {
  }

  /** Over every interleaving, the closing of the pool included, at any moment and any
      number of times: listed aliases stay distinct up to case, start-up aliases keep
      their path, and every open handle was opened from the path listed for its alias. */
  lemma {:induction false} ShutdownIsSafe(globs: seq<Path>, installed: string, start: P.PoolState, s: State,
                                          run: seq<Event>)
    requires Lasting(start, s) && Course(globs, installed, s, run)
    ensures Lasting(start, End(globs, installed, s, run))
    decreases |run|
  {
    if run == [] {
    } else {
      match run[0] {
        case Work(a) => WorkLasts(globs, installed, start, s, a);
        case Close => P.CloseKeepsSound(s.pool);
      }
      ShutdownIsSafe(globs, installed, start, Happen(globs, installed, s, run[0]), run[1..]);
    }
  }

  // ---- when a listed path can still change ----

  /** A goroutine has checked an alias that is now listed, closed, and of another path. */
  ghost predicate Stale(s: State, t: int) {
    && 0 <= t < |s.pcs| && s.pcs[t].Checked?
    && var alias := s.pcs[t].alias;
       alias in s.pool.paths && alias !in s.pool.dbs && s.pool.paths[alias] != Render(s.pcs[t].path)
  }

  ghost predicate NoneStale(s: State) {
    forall t :: !Stale(s, t)
  }

  lemma RegisterKeepsPaths(s: P.PoolState, cfg: P.DBConfig, installed: string, opens: bool)
    requires cfg.alias in s.dbs || cfg.alias !in s.paths || s.paths[cfg.alias] == cfg.path
    ensures KeepsPaths(s, P.RegisterState(s, cfg, installed, opens))
    ensures var s' := P.RegisterState(s, cfg, installed, opens);
            && (forall a :: a in s'.paths && a !in s.paths ==> a in s'.dbs)
            && (forall a :: a in s.dbs ==> a in s'.dbs)
  {
  }

  lemma WorkKeepsFresh(globs: seq<Path>, installed: string, s: State, a: Action)
    requires NoneStale(s) && Enabled(s, a) && P.Truthful(s.pool)
    ensures NoneStale(Next(globs, installed, s, a)) && KeepsPaths(s.pool, Next(globs, installed, s, a).pool)
  {
    var s' := Next(globs, installed, s, a);
    if a.Register? {
      assert !Stale(s, a.t);
      RegisterKeepsPaths(s.pool, ConfigFor(s.pcs[a.t].alias, s.pcs[a.t].path), installed, a.opens);
    }
    forall t ensures !Stale(s', t) {
      assert !Stale(s, t);
      if t == a.t && a.Check? && s'.pcs[t].Checked? {
        assert EqualFold(s.pcs[t].alias, s.pcs[t].alias);
      }
    }
  }

  lemma {:induction false} FreshRunKeepsPaths(globs: seq<Path>, installed: string, start: P.PoolState, s: State,
                                              run: seq<Action>)
    requires Lasting(start, s) && NoneStale(s) && Possible(globs, installed, s, run)
    ensures KeepsPaths(s.pool, After(globs, installed, s, run).pool)
    decreases |run|
  {
    if run == [] {
    } else {
      WorkLasts(globs, installed, start, s, run[0]);
      WorkKeepsFresh(globs, installed, s, run[0]);
      FreshRunKeepsPaths(globs, installed, start, Next(globs, installed, s, run[0]), run[1..]);
    }
  }

  /** From then on, until the pool is closed again, a listed path can never change exactly
      if no goroutine has checked an alias that is listed, closed, and of another path. */
  lemma PathsStayIffNoneStale(globs: seq<Path>, installed: string, start: P.PoolState, s: State)
    requires Lasting(start, s)
    ensures (forall run :: Possible(globs, installed, s, run)
              ==> KeepsPaths(s.pool, After(globs, installed, s, run).pool))
            <==> NoneStale(s)
  {
    if NoneStale(s) {
      forall run | Possible(globs, installed, s, run)
        ensures KeepsPaths(s.pool, After(globs, installed, s, run).pool)
      {
        FreshRunKeepsPaths(globs, installed, start, s, run);
      }
    } else {
      var t :| Stale(s, t);
      LastStep(globs, installed, s, Register(t, true));
      var alias := s.pcs[t].alias;
      assert After(globs, installed, s, [Register(t, true)]).pool.paths[alias] == Render(s.pcs[t].path);
      assert !KeepsPaths(s.pool, After(globs, installed, s, [Register(t, true)]).pool);
    }
  }

  /** No goroutine has checked an alias that is listed with another path. */
  ghost predicate NoRivals(s: State) {
    forall t :: 0 <= t < |s.pcs| && s.pcs[t].Checked? && s.pcs[t].alias in s.pool.paths
      ==> s.pool.paths[s.pcs[t].alias] == Render(s.pcs[t].path)
  }

  /** So a closing leaves every listed path as it is exactly if, at that moment, no
      goroutine stands between its check and its registration with a listed alias and
      another path. */
  lemma ClosingKeepsPathsIff(globs: seq<Path>, installed: string, start: P.PoolState, s: State, closed: State)
    requires Lasting(start, s) && closed == Happen(globs, installed, s, Close)
    ensures (forall run :: Possible(globs, installed, closed, run)
              ==> KeepsPaths(s.pool, After(globs, installed, closed, run).pool))
            <==> NoRivals(s)
  {
    P.CloseKeepsSound(s.pool);
    RivalsAreStale(s, closed);
    PathsStayIffNoneStale(globs, installed, start, closed);
  }

  lemma RivalsAreStale(s: State, closed: State)
    requires closed == s.(pool := P.CloseState(s.pool))
    ensures NoneStale(closed) <==> NoRivals(s)
  {
    if NoneStale(closed) {
      forall t | 0 <= t < |s.pcs| && s.pcs[t].Checked? && s.pcs[t].alias in s.pool.paths
        ensures s.pool.paths[s.pcs[t].alias] == Render(s.pcs[t].path)
      {
        assert !Stale(closed, t);
      }
    }
  }

  /** Two goroutines that find two files of one alias can reach such a moment from every
      pool that does not list the alias. */
  lemma RivalsArise(globs: seq<Path>, installed: string, pool: P.PoolState, p: Path, q: Path, alias: string)
    returns (run: seq<Action>)
    requires AliasFor(globs, p) == Some(alias) && AliasFor(globs, q) == Some(alias) && Render(p) != Render(q)
    requires !Taken(pool, alias) && pool.dbs.Keys <= pool.paths.Keys
    ensures Possible(globs, installed, Start(pool, 2), run)
    ensures !NoRivals(After(globs, installed, Start(pool, 2), run))
  {
    var derived := State(pool, [Derived(p, alias), Derived(q, alias)], 0, 0);
    var checked := State(pool, [Checked(p, alias), Checked(q, alias)], 0, 0);
    var registers := [Register(0, true)];
    var checks := [Check(0), Check(1)] + registers;
    run := [Begin(0, p), Begin(1, q)] + checks;
    FirstRegisters(globs, installed, checked, p, q, alias);
    LastStep(globs, installed, checked, Register(0, true));
    BothCheck(globs, installed, p, q, alias, derived, checked, registers, checks);
    BothBegin(globs, installed, p, q, alias, pool, derived, checks, run);
  }

  lemma FirstRegisters(globs: seq<Path>, installed: string, s: State, p: Path, q: Path, alias: string)
    requires s.pcs == [Checked(p, alias), Checked(q, alias)] && Render(p) != Render(q)
    requires !Taken(s.pool, alias) && s.pool.dbs.Keys <= s.pool.paths.Keys
    ensures !NoRivals(Next(globs, installed, s, Register(0, true)))
  {
    var s' := Next(globs, installed, s, Register(0, true));
    assert alias !in s.pool.dbs;
    assert s'.pcs[1] == Checked(q, alias) && s'.pool.paths[alias] == Render(p);
  }

  // ---- when a handle stays open ----

  lemma WorkGrows(globs: seq<Path>, installed: string, s: State, a: Action)
    requires Enabled(s, a)
    ensures var s' := Next(globs, installed, s, a);
            && s.pool.dbs.Keys <= s'.pool.dbs.Keys && s.claimed <= s'.claimed
            && (s.pool.dbs == map[] ==> (s'.pool.dbs == map[] <==> s'.claimed == s.claimed))
  {
    if a.Register? && a.opens && s.pool.dbs == map[] {
      assert s.pcs[a.t].alias in Next(globs, installed, s, a).pool.dbs;
    }
  }

  lemma {:induction false} RunGrows(globs: seq<Path>, installed: string, s: State, run: seq<Action>)
    requires Possible(globs, installed, s, run)
    ensures var s' := After(globs, installed, s, run);
            && s.pool.dbs.Keys <= s'.pool.dbs.Keys && s.claimed <= s'.claimed
            && (s.pool.dbs == map[] ==> (s'.pool.dbs == map[] <==> s'.claimed == s.claimed))
    decreases |run|
  {
    if run == [] {
    } else {
      WorkGrows(globs, installed, s, run[0]);
      RunGrows(globs, installed, Next(globs, installed, s, run[0]), run[1..]);
    }
  }

  /** The closed pool holds no handle open at the end exactly if no call of tryRegister
      reports a new database after the closing. */
  lemma NothingLeftOpenIff(globs: seq<Path>, installed: string, start: P.PoolState, s: State, closed: State,
                           run: seq<Action>)
    requires Lasting(start, s) && closed == Happen(globs, installed, s, Close)
    requires Possible(globs, installed, closed, run)
    ensures After(globs, installed, closed, run).pool.live == {}
       <==> After(globs, installed, closed, run).claimed == s.claimed
  {
    P.CloseKeepsSound(s.pool);
    RunGrows(globs, installed, closed, run);
    RunStaysSound(globs, installed, start, closed, run);
    LiveIffHeld(After(globs, installed, closed, run).pool);
  }

  lemma LiveIffHeld(s: P.PoolState)
    requires P.Conserved(s)
    ensures s.live == {} <==> s.dbs == map[]
  {
    assert s.dbs != map[] ==> s.dbs.Keys != {};
  }

  lemma {:induction false} RunStaysSound(globs: seq<Path>, installed: string, start: P.PoolState, s: State,
                                         run: seq<Action>)
    requires Lasting(start, s) && Possible(globs, installed, s, run)
    ensures P.Sound(After(globs, installed, s, run).pool)
    decreases |run|
  {
    if run == [] {
    } else {
      WorkLasts(globs, installed, start, s, run[0]);
      RunStaysSound(globs, installed, start, Next(globs, installed, s, run[0]), run[1..]);
    }
  }
}
