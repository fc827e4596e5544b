/** tryRegister run by several goroutines at once (the poll loop and the fsnotify loop):
    deriving the alias, reading the alias list and calling Register are separate steps,
    and only the last two hold the pool's lock. The pool is not closed meanwhile. */
module Interleaving {
  import opened Results
  import opened Text
  import opened Paths
  import opened Watcher
  import P = Pool

  /** Where one goroutine stands in tryRegister. */
  datatype Pc =
    | Idle
    | Derived(path: Path, alias: string)   // alias derived, list not yet read
    | Checked(path: Path, alias: string)   // alias was not in the list read

  /** The pool, one program counter per goroutine, how many calls returned true, and
      how many of those found the alias opened by another goroutine. */
  datatype State = State(pool: P.PoolState, pcs: seq<Pc>, claimed: nat, lost: nat)

  datatype Action =
    | Begin(t: nat, path: Path)
    | Check(t: nat)
    | Register(t: nat, opens: bool)

  predicate Enabled(s: State, a: Action) {
    && a.t < |s.pcs|
    && match a
       case Begin(t, _) => s.pcs[t].Idle?
       case Check(t) => s.pcs[t].Derived?
       case Register(t, _) => s.pcs[t].Checked?
  }

  function Next(globs: seq<Path>, installed: string, s: State, a: Action): State
    requires Enabled(s, a)
  {
    match a
    case Begin(t, p) =>
      s.(pcs := s.pcs[t := match AliasFor(globs, p) case None => Idle case Some(alias) => Derived(p, alias)])
    case Check(t) =>
      var pc := s.pcs[t];
      s.(pcs := s.pcs[t := if Taken(s.pool, pc.alias) then Idle else Checked(pc.path, pc.alias)])
    case Register(t, opens) =>
      var pc := s.pcs[t];
      var lost := pc.alias in s.pool.dbs;
      s.(pool := P.RegisterState(s.pool, ConfigFor(pc.alias, pc.path), installed, opens),
         pcs := s.pcs[t := Idle],
         claimed := s.claimed + (if lost || opens then 1 else 0),
         lost := s.lost + (if lost then 1 else 0))
  }

  function Start(pool: P.PoolState, goroutines: nat): State {
    State(pool, seq(goroutines, _ => Idle), 0, 0)
  }

  /** A run of enabled actions, in any interleaving. */
  ghost predicate Possible(globs: seq<Path>, installed: string, s: State, run: seq<Action>)
    decreases |run|
  {
    run == [] || (Enabled(s, run[0]) && Possible(globs, installed, Next(globs, installed, s, run[0]), run[1..]))
  }

  ghost function After(globs: seq<Path>, installed: string, s: State, run: seq<Action>): State
    requires Possible(globs, installed, s, run)
    decreases |run|
  {
    if run == [] then s else After(globs, installed, Next(globs, installed, s, run[0]), run[1..])
  }

  // ---- the invariant ----

  /** No two listed aliases are equal up to case. */
  ghost predicate FoldDistinct(s: P.PoolState) {
    forall a, b :: a in s.paths && b in s.paths && EqualFold(a, b) ==> a == b
  }

  /** Aliases listed since start-up are lower case and open; the others keep their path. */
  ghost predicate Extends(start: P.PoolState, s: P.PoolState) {
    && (forall a :: a in start.paths ==> a in s.paths && s.paths[a] == start.paths[a])
    && (forall a :: a in s.paths && a !in start.paths ==> Lower(a) == a && a in s.dbs)
  }

  /** An alias in flight is lower case; once checked, no start-up alias equals it. */
  ghost predicate PcFits(start: P.PoolState, pc: Pc) {
    && (!pc.Idle? ==> Lower(pc.alias) == pc.alias)
    && (pc.Checked? ==> !Taken(start, pc.alias))
  }

  ghost predicate Inv(start: P.PoolState, s: State) {
    && P.Sound(s.pool) && FoldDistinct(s.pool) && Extends(start, s.pool)
    && (forall t :: 0 <= t < |s.pcs| ==> PcFits(start, s.pcs[t]))
    && |s.pool.paths| + s.lost == |start.paths| + s.claimed
  }

  lemma StartInv(pool: P.PoolState, goroutines: nat)
    requires P.Sound(pool) && FoldDistinct(pool)
    ensures Inv(pool, Start(pool, goroutines))
  {
  }

  lemma DerivedIsLower(globs: seq<Path>, p: Path)
    requires AliasFor(globs, p).Some?
    ensures Lower(AliasFor(globs, p).value) == AliasFor(globs, p).value
  {
    AttemptsAreLower(globs, _ => true, [p]);
    var ts := Attempts(Deriver(globs), _ => true, [p]);
    assert ts[0] in ts;
  }

  /** Registering a checked alias: it is open already and nothing changes, or it is new
      to the list up to case. */
  lemma CheckedIsNewOrOpen(start: P.PoolState, s: P.PoolState, alias: string)
    requires Extends(start, s) && Lower(alias) == alias && !Taken(start, alias)
    ensures alias in s.dbs || !Taken(s, alias)
  {
    if a :| a in s.paths && EqualFold(a, alias) {
      assert a !in start.paths;
      assert a == alias;
    }
  }

  lemma NewAliasIsDistinct(s: P.PoolState, s': P.PoolState, alias: string)
    requires FoldDistinct(s) && !Taken(s, alias)
    requires s'.paths.Keys == s.paths.Keys + {alias}
    ensures FoldDistinct(s')
  {
    forall a, b | a in s'.paths && b in s'.paths && EqualFold(a, b) ensures a == b {
      assert a in s.paths || a == alias;
      assert b in s.paths || b == alias;
    }
  }

  lemma NewAliasExtends(start: P.PoolState, s: P.PoolState, s': P.PoolState, alias: string, path: string)
    requires Extends(start, s) && Lower(alias) == alias && alias !in s.paths
    requires s'.paths == s.paths[alias := path] && s'.dbs.Keys == s.dbs.Keys + {alias}
    ensures Extends(start, s')
    ensures |s'.paths| == |s.paths| + 1
  {
    assert s'.paths.Keys == s.paths.Keys + {alias};
    assert |s'.paths| == |s'.paths.Keys| && |s.paths| == |s.paths.Keys|;
  }

  lemma RegisterCases(start: P.PoolState, s: P.PoolState, cfg: P.DBConfig, installed: string, opens: bool)
    requires Extends(start, s) && s.dbs.Keys <= s.paths.Keys
    requires Lower(cfg.alias) == cfg.alias && !Taken(start, cfg.alias)
    ensures var s' := P.RegisterState(s, cfg, installed, opens);
            if cfg.alias in s.dbs || !opens then s'.paths == s.paths && s'.dbs == s.dbs
            else
              && !Taken(s, cfg.alias) && cfg.alias !in s.paths
              && s'.paths == s.paths[cfg.alias := cfg.path] && s'.dbs.Keys == s.dbs.Keys + {cfg.alias}
  {
    CheckedIsNewOrOpen(start, s, cfg.alias);
  }

  lemma RegisterKeeps(start: P.PoolState, s: P.PoolState, s': P.PoolState, cfg: P.DBConfig, installed: string,
                      opens: bool)
    requires P.Sound(s) && FoldDistinct(s) && Extends(start, s)
    requires Lower(cfg.alias) == cfg.alias && !Taken(start, cfg.alias)
    requires s' == P.RegisterState(s, cfg, installed, opens)
    ensures FoldDistinct(s') && Extends(start, s') && KeepsPaths(s, s')
    ensures |s'.paths| == |s.paths| + (if cfg.alias !in s.dbs && opens then 1 else 0)
  {
    RegisterCases(start, s, cfg, installed, opens);
    if cfg.alias !in s.dbs && opens {
      NewAliasIsDistinct(s, s', cfg.alias);
      NewAliasExtends(start, s, s', cfg.alias, cfg.path);
    }
  }

  /** Every listed alias is still listed, with the same path. */
  ghost predicate KeepsPaths(s: P.PoolState, s': P.PoolState) {
    forall a :: a in s.paths ==> a in s'.paths && s'.paths[a] == s.paths[a]
  }

  lemma StepKeepsInv(globs: seq<Path>, installed: string, start: P.PoolState, s: State, a: Action)
    requires Inv(start, s) && Enabled(s, a)
    ensures Inv(start, Next(globs, installed, s, a))
    ensures KeepsPaths(s.pool, Next(globs, installed, s, a).pool)
  {
    match a
    case Begin(_, p) => BeginKeepsInv(globs, installed, start, s, a);
    case Check(_) => CheckKeepsInv(globs, installed, start, s, a);
    case Register(_, _) => RegisterKeepsInv(globs, installed, start, s, a);
  }

  lemma BeginKeepsInv(globs: seq<Path>, installed: string, start: P.PoolState, s: State, a: Action)
    requires Inv(start, s) && Enabled(s, a) && a.Begin?
    ensures Inv(start, Next(globs, installed, s, a))
  {
    if AliasFor(globs, a.path).Some? { DerivedIsLower(globs, a.path); }
  }

  lemma CheckKeepsInv(globs: seq<Path>, installed: string, start: P.PoolState, s: State, a: Action)
    requires Inv(start, s) && Enabled(s, a) && a.Check?
    ensures Inv(start, Next(globs, installed, s, a))
  {
    var pc := s.pcs[a.t];
    if !Taken(s.pool, pc.alias) { UntakenAtStart(start, s.pool, pc.alias); }
  }

  lemma RegisterKeepsInv(globs: seq<Path>, installed: string, start: P.PoolState, s: State, a: Action)
    requires Inv(start, s) && Enabled(s, a) && a.Register?
    ensures Inv(start, Next(globs, installed, s, a))
    ensures KeepsPaths(s.pool, Next(globs, installed, s, a).pool)
  {
    var pc := s.pcs[a.t];
    var cfg := ConfigFor(pc.alias, pc.path);
    P.RegisterKeepsSound(s.pool, cfg, installed, a.opens);
    RegisterKeeps(start, s.pool, Next(globs, installed, s, a).pool, cfg, installed, a.opens);
  }

  lemma UntakenAtStart(start: P.PoolState, s: P.PoolState, alias: string)
    requires Extends(start, s) && !Taken(s, alias)
    ensures !Taken(start, alias)
  {
  }

  /** Over every interleaving before the pool is closed: listed aliases stay distinct up
      to case, a listed path never changes, every open handle was opened from the
      path listed for its alias, and the calls that returned true are those that
      listed a new alias plus those that lost a race for one. */
  lemma {:induction false} InterleavingsAreSafe(globs: seq<Path>, installed: string, start: P.PoolState, s: State,
                                                run: seq<Action>)
    requires Inv(start, s) && Possible(globs, installed, s, run)
    ensures var s' := After(globs, installed, s, run);
            && FoldDistinct(s'.pool) && P.Sound(s'.pool)
            && KeepsPaths(s.pool, s'.pool)
            && |s'.pool.paths| + s'.lost == |start.paths| + s'.claimed
    decreases |run|
  {
    if run == [] {
    } else {
      StepKeepsInv(globs, installed, start, s, run[0]);
      InterleavingsAreSafe(globs, installed, start, Next(globs, installed, s, run[0]), run[1..]);
    }
  }

  // ---- the outcome does not depend on the interleaving ----

  /** Aliases of the paths taken up in a run. */
  ghost function Begun(globs: seq<Path>, run: seq<Action>): set<string> {
    if run == [] then {}
    else Begun(globs, run[1..]) + if run[0].Begin? then AliasSet(AliasFor(globs, run[0].path)) else {}
  }

  ghost function AliasSet(alias: Option<string>): set<string> {
    match alias case None => {} case Some(a) => {a}
  }

  ghost function InFlight(pcs: seq<Pc>): set<string> {
    set t | 0 <= t < |pcs| && !pcs[t].Idle? :: pcs[t].alias
  }

  ghost predicate AllOpening(run: seq<Action>) {
    forall a :: a in run && a.Register? ==> a.opens
  }

  lemma StepKeepsAliases(globs: seq<Path>, installed: string, start: P.PoolState, s: State, a: Action, k: string)
    requires Inv(start, s) && Enabled(s, a) && (a.Register? ==> a.opens)
    ensures var s' := Next(globs, installed, s, a);
            (k in Folded(s'.pool) || k in InFlight(s'.pcs))
            <==> k in Folded(s.pool) || k in InFlight(s.pcs) || (a.Begin? && AliasFor(globs, a.path) == Some(k))
  {
    var t, pc := a.t, s.pcs[a.t];
    var s' := Next(globs, installed, s, a);
    assert forall u :: 0 <= u < |s.pcs| && u != t ==> s'.pcs[u] == s.pcs[u];
    assert k in InFlight(s.pcs) <==> (!pc.Idle? && pc.alias == k) || OthersHold(s.pcs, t, k);
    assert k in InFlight(s'.pcs) <==> (!s'.pcs[t].Idle? && s'.pcs[t].alias == k) || OthersHold(s.pcs, t, k);
    match a
    case Begin(_, p) =>
      if AliasFor(globs, p).Some? { DerivedIsLower(globs, p); }
    case Check(_) =>
      assert Taken(s.pool, pc.alias) <==> pc.alias in Folded(s.pool);
    case Register(_, opens) =>
      RegisterLists(start, s.pool, pc.alias, pc.path, installed, k);
  }

  ghost predicate OthersHold(pcs: seq<Pc>, t: nat, k: string) {
    exists u :: 0 <= u < |pcs| && u != t && !pcs[u].Idle? && pcs[u].alias == k
  }

  lemma RegisterLists(start: P.PoolState, s: P.PoolState, alias: string, p: Path, installed: string, k: string)
    requires P.Sound(s) && Extends(start, s) && Lower(alias) == alias && !Taken(start, alias)
    ensures k in Folded(P.RegisterState(s, ConfigFor(alias, p), installed, true)) <==> k in Folded(s) || k == alias
  {
    var s' := P.RegisterState(s, ConfigFor(alias, p), installed, true);
    if alias in s.dbs {
      assert alias in s.paths;
    } else {
      assert s'.paths.Keys == s.paths.Keys + {alias};
    }
  }

  lemma {:induction false} RunKeepsAliases(globs: seq<Path>, installed: string, start: P.PoolState, s: State,
                                           run: seq<Action>, k: string)
    requires Inv(start, s) && Possible(globs, installed, s, run) && AllOpening(run)
    ensures var s' := After(globs, installed, s, run);
            (k in Folded(s'.pool) || k in InFlight(s'.pcs))
            <==> k in Folded(s.pool) || k in InFlight(s.pcs) || k in Begun(globs, run)
    decreases |run|
  {
    if run == [] {
    } else {
      assert run[0] in run && AllOpening(run[1..]);
      StepKeepsInv(globs, installed, start, s, run[0]);
      StepKeepsAliases(globs, installed, start, s, run[0], k);
      RunKeepsAliases(globs, installed, start, Next(globs, installed, s, run[0]), run[1..], k);
    }
  }

  lemma AliasAfterRun(globs: seq<Path>, installed: string, s: State, s': State, run: seq<Action>, k: string)
    requires Inv(s.pool, s) && InFlight(s.pcs) == {}
    requires Possible(globs, installed, s, run) && AllOpening(run) && s' == After(globs, installed, s, run)
    requires InFlight(s'.pcs) == {}
    ensures k in Folded(s'.pool) <==> k in Folded(s.pool) || k in Begun(globs, run)
  {
    RunKeepsAliases(globs, installed, s.pool, s, run, k);
  }

  /** When every opening succeeds and every call has returned, the listed aliases are the
      old ones and those of the paths taken up, however the goroutines interleaved. */
  lemma AliasesAreInterleavingIndependent(globs: seq<Path>, installed: string, s: State, s': State, goroutines: nat,
                                          run: seq<Action>)
    requires s == Start(s.pool, goroutines) && P.Sound(s.pool) && FoldDistinct(s.pool)
    requires Possible(globs, installed, s, run) && AllOpening(run) && s' == After(globs, installed, s, run)
    requires InFlight(s'.pcs) == {}
    ensures Folded(s'.pool) == Folded(s.pool) + Begun(globs, run)
  {
    StartInv(s.pool, goroutines);
    forall k: string ensures k in Folded(s'.pool) <==> k in Folded(s.pool) || k in Begun(globs, run) {
      AliasAfterRun(globs, installed, s, s', run, k);
    }
  }

  // ---- one goroutine alone ----

  /** The three steps of one goroutine, uninterrupted, are the sequential tryRegister. */
  lemma UninterruptedIsTry(globs: seq<Path>, installed: string, pool: P.PoolState, p: Path, opens: bool)
    ensures var s := Start(pool, 1);
            var t := Attempt(p, AliasFor(globs, p), opens);
            var s1 := Next(globs, installed, s, Begin(0, p));
            var s2 := if Enabled(s1, Check(0)) then Next(globs, installed, s1, Check(0)) else s1;
            var s3 := if Enabled(s2, Register(0, opens)) then Next(globs, installed, s2, Register(0, opens)) else s2;
            s3.pool == TryState(pool, t, installed) && s3.claimed == (if TryResult(pool, t) then 1 else 0)
  {
  }

  // ---- two goroutines that find one file ----

  /** Both read the list before either registers: both calls report a new database,
      one alias is added. */
  lemma RaceIsCountedTwice(globs: seq<Path>, installed: string, pool: P.PoolState, p: Path, run: seq<Action>)
    requires P.Sound(pool) && FoldDistinct(pool)
    requires AliasFor(globs, p).Some? && !Taken(pool, AliasFor(globs, p).value)
    requires run == [Begin(0, p), Begin(1, p), Check(0), Check(1), Register(0, true), Register(1, true)]
    ensures Possible(globs, installed, Start(pool, 2), run)
    ensures var s := After(globs, installed, Start(pool, 2), run);
            s.claimed == 2 && s.lost == 1 && |s.pool.paths| == |pool.paths| + 1
  {
    RaceIsPossible(globs, installed, pool, p, AliasFor(globs, p).value, run[4..], run[2..], run);
    RaceIsSafe(globs, installed, pool, run);
  }

  lemma RaceIsPossible(globs: seq<Path>, installed: string, pool: P.PoolState, p: Path, alias: string,
                       registers: seq<Action>, checks: seq<Action>, run: seq<Action>)
    requires AliasFor(globs, p) == Some(alias) && !Taken(pool, alias) && pool.dbs.Keys <= pool.paths.Keys
    requires registers == [Register(0, true), Register(1, true)]
    requires checks == [Check(0), Check(1)] + registers && run == [Begin(0, p), Begin(1, p)] + checks
    ensures Possible(globs, installed, Start(pool, 2), run)
    ensures After(globs, installed, Start(pool, 2), run).claimed == 2
    ensures After(globs, installed, Start(pool, 2), run).lost == 1
  {
    var derived := State(pool, [Derived(p, alias), Derived(p, alias)], 0, 0);
    var checked := State(pool, [Checked(p, alias), Checked(p, alias)], 0, 0);
    BothRegister(globs, installed, p, alias, checked, registers);
    BothCheck(globs, installed, p, p, alias, derived, checked, registers, checks);
    BothBegin(globs, installed, p, p, alias, pool, derived, checks, run);
  }

  lemma RaceIsSafe(globs: seq<Path>, installed: string, pool: P.PoolState, run: seq<Action>)
    requires P.Sound(pool) && FoldDistinct(pool) && Possible(globs, installed, Start(pool, 2), run)
    ensures var s := After(globs, installed, Start(pool, 2), run);
            |s.pool.paths| + s.lost == |pool.paths| + s.claimed
  {
    StartInv(pool, 2);
    InterleavingsAreSafe(globs, installed, pool, Start(pool, 2), run);
  }

  lemma BothRegister(globs: seq<Path>, installed: string, p: Path, alias: string, s: State, run: seq<Action>)
    requires s.pcs == [Checked(p, alias), Checked(p, alias)] && s.claimed == 0 && s.lost == 0 && !Taken(s.pool, alias)
    requires s.pool.dbs.Keys <= s.pool.paths.Keys && run == [Register(0, true), Register(1, true)]
    ensures Possible(globs, installed, s, run)
    ensures After(globs, installed, s, run).claimed == 2 && After(globs, installed, s, run).lost == 1
  {
    assert alias !in s.pool.dbs;
    var s1 := Next(globs, installed, s, Register(0, true));
    assert s1.pcs == [Idle, Checked(p, alias)] && alias in s1.pool.dbs;
    LastStep(globs, installed, s1, Register(1, true));
    FirstStep(globs, installed, s, s1, [Register(1, true)], run);
  }

  lemma BothCheck(globs: seq<Path>, installed: string, p: Path, q: Path, alias: string, derived: State, checked: State,
                  rest: seq<Action>, run: seq<Action>)
    requires derived.pcs == [Derived(p, alias), Derived(q, alias)] && !Taken(derived.pool, alias)
    requires checked == derived.(pcs := [Checked(p, alias), Checked(q, alias)])
    requires Possible(globs, installed, checked, rest) && run == [Check(0), Check(1)] + rest
    ensures Possible(globs, installed, derived, run)
    ensures After(globs, installed, derived, run) == After(globs, installed, checked, rest)
  {
    var middle := Next(globs, installed, derived, Check(0));
    assert middle.pcs == [Checked(p, alias), Derived(q, alias)];
    assert Next(globs, installed, middle, Check(1)) == checked;
    TwoSteps(globs, installed, derived, middle, checked, Check(0), Check(1), rest, run);
  }

  lemma BothBegin(globs: seq<Path>, installed: string, p: Path, q: Path, alias: string, pool: P.PoolState,
                  derived: State,
                  rest: seq<Action>, run: seq<Action>)
    requires AliasFor(globs, p) == Some(alias) && AliasFor(globs, q) == Some(alias)
    requires derived == State(pool, [Derived(p, alias), Derived(q, alias)], 0, 0)
    requires Possible(globs, installed, derived, rest) && run == [Begin(0, p), Begin(1, q)] + rest
    ensures Possible(globs, installed, Start(pool, 2), run)
    ensures After(globs, installed, Start(pool, 2), run) == After(globs, installed, derived, rest)
  {
    var start, middle := State(pool, [Idle, Idle], 0, 0), State(pool, [Derived(p, alias), Idle], 0, 0);
    StartTwo(pool);
    BeginDerives(globs, installed, start, 0, p, alias);
    BeginDerives(globs, installed, middle, 1, q, alias);
    SetTwo(Derived(p, alias), Derived(q, alias));
    TwoSteps(globs, installed, start, middle, derived, Begin(0, p), Begin(1, q), rest, run);
  }

  lemma StartTwo(pool: P.PoolState)
    ensures Start(pool, 2) == State(pool, [Idle, Idle], 0, 0)
  {
    assert Start(pool, 2).pcs == [Idle, Idle];
  }

  lemma SetTwo(x: Pc, y: Pc)
    ensures [Idle, Idle][0 := x] == [x, Idle] && [x, Idle][1 := y] == [x, y]
  {
  }

  lemma BeginDerives(globs: seq<Path>, installed: string, s: State, t: nat, p: Path, alias: string)
    requires t < |s.pcs| && s.pcs[t] == Idle && AliasFor(globs, p) == Some(alias)
    ensures Next(globs, installed, s, Begin(t, p)) == s.(pcs := s.pcs[t := Derived(p, alias)])
  {
  }

  /** The first action of a run leads to the state from which the rest runs. */
  lemma FirstStep(globs: seq<Path>, installed: string, s: State, next: State, rest: seq<Action>, run: seq<Action>)
    requires run != [] && Enabled(s, run[0]) && run[1..] == rest && next == Next(globs, installed, s, run[0])
    requires Possible(globs, installed, next, rest)
    ensures Possible(globs, installed, s, run) && After(globs, installed, s, run) == After(globs, installed, next, rest)
  {
  }

  lemma TwoSteps(globs: seq<Path>, installed: string, s: State, middle: State, next: State, a: Action, b: Action,
                 rest: seq<Action>, run: seq<Action>)
    requires Enabled(s, a) && middle == Next(globs, installed, s, a)
    requires Enabled(middle, b) && next == Next(globs, installed, middle, b)
    requires Possible(globs, installed, next, rest) && run == [a, b] + rest
    ensures Possible(globs, installed, s, run) && After(globs, installed, s, run) == After(globs, installed, next, rest)
  {
    assert run[1..] == [b] + rest && ([b] + rest)[1..] == rest;
    FirstStep(globs, installed, middle, next, rest, [b] + rest);
    FirstStep(globs, installed, s, middle, [b] + rest, run);
  }

  lemma LastStep(globs: seq<Path>, installed: string, s: State, a: Action)
    requires Enabled(s, a)
    ensures Possible(globs, installed, s, [a]) && After(globs, installed, s, [a]) == Next(globs, installed, s, a)
  {
    assert [a][1..] == [];
  }
}
