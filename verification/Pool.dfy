/** internal/mdb/pool.go and `openDB`: the pool of open database handles. */
module Pool {
  import opened Results
  import opened Text

  datatype DBConfig = DBConfig(alias: string, path: string, driver: string)

  /** One open `*sql.DB`; the number tells apart two openings of one file. */
  datatype Handle = Handle(id: nat, path: string, driver: string)

  /** The pool's three maps, the handles the driver holds open on its behalf, and the
      number the next opening gets. */
  datatype PoolState = PoolState(
    dbs: map<string, Handle>,
    paths: map<string, string>,
    connStrs: map<string, string>,
    live: set<Handle>,
    next: nat)

  function ConnStr(driver: string, path: string): string {
    "DRIVER={" + driver + "};DBQ=" + path + ";Uid=Admin;Pwd=;"
  }

  /** The first installed driver serves entries that name none. */
  function DriverFor(cfg: DBConfig, installed: string): string {
    if cfg.driver == "" then installed else cfg.driver
  }

  // ---- invariants ----

  /** The handles held open are exactly the values of dbs, one per alias. */
  ghost predicate Conserved(s: PoolState) {
    && s.live == s.dbs.Values
    && (forall a, b :: a in s.dbs && b in s.dbs && a != b ==> s.dbs[a] != s.dbs[b])
  }

  /** Every open handle was opened from the path and with the connection string
      recorded for its alias. */
  ghost predicate Truthful(s: PoolState) {
    && s.dbs.Keys <= s.paths.Keys && s.dbs.Keys <= s.connStrs.Keys
    && (forall a :: a in s.dbs ==> s.dbs[a].path == s.paths[a])
    && (forall a :: a in s.dbs ==> s.connStrs[a] == ConnStr(s.dbs[a].driver, s.dbs[a].path))
  }

  ghost predicate Numbered(s: PoolState) {
    && (forall h :: h in s.live ==> h.id < s.next)
    && (forall a :: a in s.dbs ==> s.dbs[a].id < s.next)
  }

  ghost predicate Sound(s: PoolState) {
    Conserved(s) && Truthful(s) && Numbered(s)
  }

  // ---- steps on the state ----

  const EMPTY := PoolState(map[], map[], map[], {}, 0)

  /** openDB takes a number and, if the ping succeeds, leaves one more handle open. */
  function OpenState(s: PoolState, opens: bool, h: Handle): PoolState {
    s.(live := if opens then s.live + {h} else s.live, next := s.next + 1)
  }

  /** A database that is opened enters all three maps. */
  function AddState(s: PoolState, cfg: DBConfig, h: Handle): PoolState {
    s.(dbs := s.dbs[cfg.alias := h],
       paths := s.paths[cfg.alias := cfg.path],
       connStrs := s.connStrs[cfg.alias := ConnStr(h.driver, h.path)])
  }

  function HandleFor(s: PoolState, cfg: DBConfig, installed: string): Handle {
    Handle(s.next, cfg.path, DriverFor(cfg, installed))
  }

  /** One round of NewPool's loop: a database that fails to open is still listed. */
  function StartOne(s: PoolState, cfg: DBConfig, installed: string, opens: bool): PoolState {
    var h := HandleFor(s, cfg, installed);
    if opens then AddState(OpenState(s, true, h), cfg, h)
    else OpenState(s, false, h).(paths := s.paths[cfg.alias := cfg.path])
  }

  function StartAll(cfgs: seq<DBConfig>, installed: string, opens: seq<bool>): PoolState
    requires |opens| == |cfgs|
  {
    if cfgs == [] then EMPTY
    else
      var n := |cfgs| - 1;
      StartOne(StartAll(cfgs[..n], installed, opens[..n]), cfgs[n], installed, opens[n])
  }

  function RegisterState(s: PoolState, cfg: DBConfig, installed: string, opens: bool): PoolState {
    var h := HandleFor(s, cfg, installed);
    if cfg.alias in s.dbs then s
    else if opens then AddState(OpenState(s, true, h), cfg, h)
    else OpenState(s, false, h)
  }

  function CloseState(s: PoolState): PoolState {
    s.(dbs := map[], live := s.live - s.dbs.Values)
  }

  // ---- the code ----

  /** The ODBC driver manager as `database/sql` presents it. */
  class Driver {
    var live: set<Handle>
    var next: nat

    constructor ()
      ensures live == {} && next == 0
    {
      live, next := {}, 0;
    }

    /** openDBWithDriver: a handle whose ping fails is closed before returning. */
    method OpenDB(cfg: DBConfig, installed: string, pings: bool) returns (r: Result<Handle>)
      modifies this
      ensures next == old(next) + 1
      ensures r.Ok? == pings
      ensures r.Ok? ==>
                r.value == Handle(old(next), cfg.path, DriverFor(cfg, installed)) && live == old(live) + {r.value}
      ensures r.Err? ==> live == old(live) - {Handle(old(next), cfg.path, DriverFor(cfg, installed))}
    {
      var h := Handle(next, cfg.path, DriverFor(cfg, installed));
      live, next := live + {h}, next + 1;
      if !pings {
        live := live - {h};
        return Err("open database");
      }
      return Ok(h);
    }

    method CloseDB(h: Handle)
      modifies this
      ensures live == old(live) - {h} && next == old(next)
    {
      live := live - {h};
    }
  }

  class Pool {
    var dbs: map<string, Handle>
    var paths: map<string, string>
    var connStrs: map<string, string>
    const driver: Driver

    ghost function State(): PoolState
      reads this, driver
    {
      PoolState(dbs, paths, connStrs, driver.live, driver.next)
    }

    /** NewPool: opens every configured database, listing those that fail. */
    constructor (cfgs: seq<DBConfig>, installed: string, pings: seq<bool>)
      requires |pings| == |cfgs|
      ensures fresh(driver) && State() == StartAll(cfgs, installed, pings)
    {
      dbs, paths, connStrs := map[], map[], map[];
      driver := new Driver();
      new;
      for i := 0 to |cfgs|
        invariant fresh(driver)
        invariant State() == StartAll(cfgs[..i], installed, pings[..i])
        invariant Numbered(State())
      {
        var cfg := cfgs[i];
        assert cfgs[..i + 1][..i] == cfgs[..i] && pings[..i + 1][..i] == pings[..i];
        var r := driver.OpenDB(cfg, installed, pings[i]);
        if r.Err? {
          paths := paths[cfg.alias := cfg.path];
        } else {
          dbs := dbs[cfg.alias := r.value];
          paths := paths[cfg.alias := cfg.path];
          connStrs := connStrs[cfg.alias := ConnStr(r.value.driver, r.value.path)];
        }
      }
      assert cfgs[..|cfgs|] == cfgs && pings[..|pings|] == pings;
    }

    /** A failed Register changes nothing but the opening count. */
    method Register(cfg: DBConfig, installed: string, pings: bool) returns (r: Result<()>)
      requires Numbered(State())
      modifies this, driver
      ensures State() == RegisterState(old(State()), cfg, installed, pings)
      ensures r.Ok? <==> cfg.alias in old(dbs) || pings
      ensures r.Err? ==> State() == old(State()).(next := old(State()).next + 1)
      ensures cfg.alias in old(dbs) ==> State() == old(State())
      ensures cfg.alias !in old(dbs) && pings ==>
                && paths == old(paths)[cfg.alias := cfg.path]
                && dbs == old(dbs)[cfg.alias := dbs[cfg.alias]] && dbs[cfg.alias].path == cfg.path
                && dbs[cfg.alias].id == old(driver.next) && driver.live == old(driver.live) + {dbs[cfg.alias]}
                && dbs[cfg.alias].driver == (if cfg.driver != "" then cfg.driver else installed)
      ensures Numbered(State())
    {
      if cfg.alias in dbs {
        return Ok(());
      }
      var answer := driver.OpenDB(cfg, installed, pings);
      if answer.Err? {
        return Err(answer.error);
      }
      dbs := dbs[cfg.alias := answer.value];
      paths := paths[cfg.alias := cfg.path];
      connStrs := connStrs[cfg.alias := ConnStr(answer.value.driver, answer.value.path)];
      return Ok(());
    }

    /** Closes every handle, in whatever order the map is iterated. */
    method Close()
      modifies this, driver
      ensures State() == CloseState(old(State()))
      ensures dbs == map[] && paths == old(paths) && connStrs == old(connStrs)
      ensures driver.live == old(driver.live) - old(dbs).Values
    {
      ghost var closed: set<Handle> := {};
      while dbs.Keys != {}
        invariant paths == old(paths) && connStrs == old(connStrs) && driver.next == old(driver.next)
        invariant dbs.Keys <= old(dbs).Keys && forall a :: a in dbs ==> dbs[a] == old(dbs)[a]
        invariant forall a :: a in old(dbs) ==> a in dbs || old(dbs)[a] in closed
        invariant closed <= old(dbs).Values
        invariant driver.live == old(driver.live) - closed
        decreases |dbs.Keys|
      {
        var alias :| alias in dbs.Keys;
        driver.CloseDB(dbs[alias]);
        closed := closed + {dbs[alias]};
        var rest := dbs - {alias};
        assert rest.Keys == dbs.Keys - {alias};
        dbs := rest;
      }
      assert closed == old(dbs).Values;
      assert dbs == map[];
    }

    method Get(alias: string) returns (r: Result<Handle>)
      ensures r.Ok? <==> alias in dbs
      ensures r.Ok? ==> r.value == dbs[alias]
      ensures r.Err? ==> r.error == "unknown database alias"
    {
      r := if alias in dbs then Ok(dbs[alias]) else Err("unknown database alias");
    }

    /** The listed aliases, each once, in whatever order the map is iterated. */
    method Aliases() returns (out: seq<string>)
      ensures forall a :: a in out <==> a in paths
      ensures |out| == |paths|
    {
      out := [];
      var rest := paths.Keys;
      while rest != {}
        invariant rest <= paths.Keys
        invariant forall a :: a in paths <==> a in out || a in rest
        invariant |out| + |rest| == |paths.Keys|
        decreases |rest|
      {
        var a :| a in rest;
        out := out + [a];
        rest := rest - {a};
      }
    }
  }

  // ---- the connection string ----

  /** What a connection string names: a driver in braces, up to the first closing one, and a
      database up to the next semicolon. */
  function ReadConnStr(s: string): Option<(string, string)> {
    if !("DRIVER={" <= s) then None
    else
      var rest := s[8..];
      var end := Index(rest, "}");
      if end == -1 || !(";DBQ=" <= rest[end + 1..]) then None
      else
        var path := rest[end + 6..];
        var stop := Index(path, ";");
        if stop == -1 then None else Some((rest[..end], path[..stop]))
  }

  lemma FirstMark(name: string, mark: char, rest: string)
    ensures mark !in name ==> Index(name + [mark] + rest, [mark]) == |name|
    ensures mark in name ==> 0 <= Index(name + [mark] + rest, [mark]) < |name|
  {
    var s := name + [mark] + rest;
    forall i | 0 <= i < |s| ensures OccursAt(s, [mark], i) <==> s[i] == mark {
      assert s[i..i + 1] == [s[i]];
    }
    if mark !in name {
      assert OccursAt(s, [mark], |name|);
      IndexIs(s, [mark], |name|);
    } else {
      var i :| 0 <= i < |name| && name[i] == mark;
      assert OccursAt(s, [mark], i);
    }
  }

  /** Driver and path can be read back from the connection string exactly if the driver's
      name holds no closing brace and the path no semicolon. */
  lemma ConnStrReadsBackIff(driver: string, path: string)
    ensures ReadConnStr(ConnStr(driver, path)) == Some((driver, path)) <==> '}' !in driver && ';' !in path
  {
    var s := ConnStr(driver, path);
    var tail := path + ";" + "Uid=Admin;Pwd=;";
    var rest := driver + "}" + (";DBQ=" + tail);
    assert s == "DRIVER={" + rest && s[8..] == rest;
    FirstMark(driver, '}', ";DBQ=" + tail);
    FirstMark(path, ';', "Uid=Admin;Pwd=;");
    if '}' !in driver {
      assert rest[|driver| + 1..] == ";DBQ=" + tail;
      assert rest[|driver| + 6..] == tail;
      assert rest[..|driver|] == driver;
      assert ';' !in path ==> tail[..|path|] == path;
    }
  }

  /** A handle is opened with the driver that the entry names, and with the installed one if
      it names none. */
  lemma NamedDriverWins(s: PoolState, cfg: DBConfig, installed: string)
    requires cfg.alias !in s.dbs
    ensures var t := RegisterState(s, cfg, installed, true);
            && t.dbs[cfg.alias].driver == (if cfg.driver != "" then cfg.driver else installed)
            && t.connStrs[cfg.alias] == "DRIVER={" + t.dbs[cfg.alias].driver + "};DBQ=" + cfg.path + ";Uid=Admin;Pwd=;"
    ensures StartOne(s, cfg, installed, true).dbs[cfg.alias] == RegisterState(s, cfg, installed, true).dbs[cfg.alias]
    ensures StartOne(s, cfg, installed, true).connStrs == RegisterState(s, cfg, installed, true).connStrs
  {
  }

  // ---- what every step keeps ----

  lemma RegisterKeepsSound(s: PoolState, cfg: DBConfig, installed: string, opens: bool)
    requires Sound(s)
    ensures Sound(RegisterState(s, cfg, installed, opens))
  {
    var h := HandleFor(s, cfg, installed);
    if cfg.alias !in s.dbs && opens {
      AddKeepsSound(s, cfg, h);
    }
  }

  lemma AddKeepsSound(s: PoolState, cfg: DBConfig, h: Handle)
    requires Sound(s) && h.id == s.next && h.path == cfg.path && cfg.alias !in s.dbs
    ensures Sound(AddState(OpenState(s, true, h), cfg, h))
  {
    var t := AddState(OpenState(s, true, h), cfg, h);
    AddKeepsConserved(s, t, cfg.alias, h);
    assert Truthful(t) && Numbered(t);
  }

  lemma AddKeepsConserved(s: PoolState, t: PoolState, alias: string, h: Handle)
    requires Conserved(s) && Numbered(s) && h.id == s.next && alias !in s.dbs
    requires t.dbs == s.dbs[alias := h] && t.live == s.live + {h}
    ensures Conserved(t)
  {
    AddedValue(s.dbs, alias, h);
  }

  lemma AddedValue(dbs: map<string, Handle>, alias: string, h: Handle)
    requires alias !in dbs
    ensures dbs[alias := h].Values == dbs.Values + {h}
  {
    var t := dbs[alias := h];
    assert t[alias] == h;
    assert forall a :: a in dbs ==> a in t && t[a] == dbs[a];
  }

  lemma CloseKeepsSound(s: PoolState)
    requires Sound(s)
    ensures Sound(CloseState(s)) && CloseState(s).live == {}
  {
  }

  datatype Op = RegisterOp(cfg: DBConfig, installed: string, opens: bool) | CloseOp

  function Apply(s: PoolState, op: Op): PoolState {
    match op
    case RegisterOp(cfg, installed, opens) => RegisterState(s, cfg, installed, opens)
    case CloseOp => CloseState(s)
  }

  function Run(s: PoolState, ops: seq<Op>): PoolState
    decreases |ops|
  {
    if ops == [] then s else Run(Apply(s, ops[0]), ops[1..])
  }

  /** Over any run of registrations and closings, the open handles are exactly those in
      dbs, one per alias, each opened from its recorded path. */
  lemma {:induction false} RunKeepsSound(s: PoolState, ops: seq<Op>)
    requires Sound(s)
    ensures Sound(Run(s, ops))
    decreases |ops|
  {
    if ops == [] {
    } else {
      match ops[0] {
        case RegisterOp(cfg, installed, opens) => RegisterKeepsSound(s, cfg, installed, opens);
        case CloseOp => CloseKeepsSound(s);
      }
      RunKeepsSound(Apply(s, ops[0]), ops[1..]);
    }
  }

  /** Until the pool is closed, an open alias keeps its handle and its path, and no listed alias goes away. */
  lemma {:induction false} RunKeepsOpen(s: PoolState, ops: seq<Op>)
    requires CloseOp !in ops
    ensures forall a :: a in s.dbs ==> a in Run(s, ops).dbs && Run(s, ops).dbs[a] == s.dbs[a]
    ensures forall a :: a in s.dbs && a in s.paths ==> a in Run(s, ops).paths && Run(s, ops).paths[a] == s.paths[a]
    ensures s.paths.Keys <= Run(s, ops).paths.Keys
    decreases |ops|
  {
    if ops == [] {
    } else {
      assert ops[0] in ops && ops[0].RegisterOp?;
      assert CloseOp !in ops[1..];
      RunKeepsOpen(Apply(s, ops[0]), ops[1..]);
    }
  }

  /** Before the pool is closed, a listed path can never change if and only if its database
      is open: one that failed to open at start-up can come back with another path. */
  lemma PathIsFixedIffOpen(s: PoolState, alias: string)
    requires Sound(s) && alias in s.paths
    ensures (forall ops :: CloseOp !in ops ==> alias in Run(s, ops).paths && Run(s, ops).paths[alias] == s.paths[alias])
            <==> alias in s.dbs
  {
    if alias in s.dbs {
      forall ops | CloseOp !in ops ensures alias in Run(s, ops).paths && Run(s, ops).paths[alias] == s.paths[alias] {
        RunKeepsOpen(s, ops);
      }
    } else {
      var ops := RegistrationMoves(s, alias, s.paths[alias] + "x");
      assert |s.paths[alias] + "x"| != |s.paths[alias]|;
    }
  }

  lemma RegistrationMoves(s: PoolState, alias: string, path: string) returns (ops: seq<Op>)
    requires alias !in s.dbs
    ensures CloseOp !in ops && alias in Run(s, ops).paths && Run(s, ops).paths[alias] == path
    ensures HandleFor(s, DBConfig(alias, path, ""), "") in Run(s, ops).live
  {
    var op := RegisterOp(DBConfig(alias, path, ""), "", true);
    ops := [op];
    assert ops[1..] == [];
    assert Run(s, ops) == Apply(s, op);
  }

  /** Once the pool is closed, every listed alias can come back with any path, and a handle
      is open again. */
  lemma AfterCloseAPathCanChange(s: PoolState, alias: string, path: string) returns (late: seq<Op>)
    requires Sound(s) && alias in s.paths
    ensures CloseOp !in late
    ensures var t := Run(s, [CloseOp] + late);
            alias in t.paths && t.paths[alias] == path && t.live != {}
  {
    late := RegistrationMoves(CloseState(s), alias, path);
    assert ([CloseOp] + late)[1..] == late;
  }

  // ---- NewPool: exactly when nothing leaks ----

  /** No two databases that opened share an alias. */
  ghost predicate OpenedApart(cfgs: seq<DBConfig>, opens: seq<bool>)
    requires |opens| == |cfgs|
  {
    forall i, j :: 0 <= i < j < |cfgs| && opens[i] && opens[j] ==> cfgs[i].alias != cfgs[j].alias
  }

  ghost predicate AliasesApart(cfgs: seq<DBConfig>) {
    forall i, j :: 0 <= i < j < |cfgs| ==> cfgs[i].alias != cfgs[j].alias
  }

  /** The handle that the i-th opening produces. */
  function HandleAt(cfgs: seq<DBConfig>, installed: string, i: nat): Handle
    requires i < |cfgs|
  {
    Handle(i, cfgs[i].path, DriverFor(cfgs[i], installed))
  }

  /** The handles held open after start-up are those of the openings that succeeded. */
  lemma {:induction false} StartedLive(cfgs: seq<DBConfig>, installed: string, opens: seq<bool>, h: Handle)
    requires |opens| == |cfgs|
    ensures StartAll(cfgs, installed, opens).next == |cfgs|
    ensures h in StartAll(cfgs, installed, opens).live
       <==> h.id < |cfgs| && opens[h.id] && h == HandleAt(cfgs, installed, h.id)
  {
    if cfgs == [] {
    } else {
      var n := |cfgs| - 1;
      StartedLive(cfgs[..n], installed, opens[..n], h);
    }
  }

  /** dbs holds, for each alias that opened, the handle of its last opening. */
  lemma {:induction false} StartedDbs(cfgs: seq<DBConfig>, installed: string, opens: seq<bool>, alias: string)
    requires |opens| == |cfgs|
    ensures var s := StartAll(cfgs, installed, opens);
            alias in s.dbs ==>
              var h := s.dbs[alias];
              h.id < |cfgs| && opens[h.id] && cfgs[h.id].alias == alias && h == HandleAt(cfgs, installed, h.id)
    ensures var s := StartAll(cfgs, installed, opens);
            forall i :: 0 <= i < |cfgs| && opens[i] && cfgs[i].alias == alias ==> alias in s.dbs && i <= s.dbs[alias].id
  {
    if cfgs == [] {
    } else {
      var n := |cfgs| - 1;
      StartedDbs(cfgs[..n], installed, opens[..n], alias);
      StartedLive(cfgs[..n], installed, opens[..n], HandleAt(cfgs, installed, n));
    }
  }

  lemma StartedDbsAreLive(cfgs: seq<DBConfig>, installed: string, opens: seq<bool>, a: string)
    requires |opens| == |cfgs|
    requires a in StartAll(cfgs, installed, opens).dbs
    ensures var h := StartAll(cfgs, installed, opens).dbs[a];
            h in StartAll(cfgs, installed, opens).live && h.id < |cfgs| && opens[h.id] && cfgs[h.id].alias == a
  {
    StartedDbs(cfgs, installed, opens, a);
    StartedLive(cfgs, installed, opens, StartAll(cfgs, installed, opens).dbs[a]);
  }

  lemma OpenedApartConserves(cfgs: seq<DBConfig>, installed: string, opens: seq<bool>, h: Handle)
    requires |opens| == |cfgs| && OpenedApart(cfgs, opens)
    requires h in StartAll(cfgs, installed, opens).live
    ensures h in StartAll(cfgs, installed, opens).dbs.Values
  {
    StartedLive(cfgs, installed, opens, h);
    var alias := cfgs[h.id].alias;
    StartedDbs(cfgs, installed, opens, alias);
    StartedDbsAreLive(cfgs, installed, opens, alias);
    assert StartAll(cfgs, installed, opens).dbs[alias] == h;
  }

  lemma SharedAliasLeaks(cfgs: seq<DBConfig>, installed: string, opens: seq<bool>, i: nat, j: nat)
    requires |opens| == |cfgs|
    requires i < j < |cfgs| && opens[i] && opens[j] && cfgs[i].alias == cfgs[j].alias
    ensures HandleAt(cfgs, installed, i) in StartAll(cfgs, installed, opens).live
    ensures HandleAt(cfgs, installed, i) !in StartAll(cfgs, installed, opens).dbs.Values
  {
    var h := HandleAt(cfgs, installed, i);
    StartedLive(cfgs, installed, opens, h);
    StartedDbs(cfgs, installed, opens, cfgs[j].alias);
    forall a | a in StartAll(cfgs, installed, opens).dbs ensures StartAll(cfgs, installed, opens).dbs[a] != h {
      StartedDbsAreLive(cfgs, installed, opens, a);
    }
  }

  /** NewPool holds exactly one handle per alias if and only if no two databases that
      opened share an alias; otherwise the earlier handle is lost without being closed. */
  lemma NewPoolConservesExactly(cfgs: seq<DBConfig>, installed: string, opens: seq<bool>)
    requires |opens| == |cfgs|
    ensures Conserved(StartAll(cfgs, installed, opens)) <==> OpenedApart(cfgs, opens)
  {
    var s := StartAll(cfgs, installed, opens);
    forall a | a in s.dbs ensures s.dbs[a] in s.live && s.dbs[a].id < |cfgs| && cfgs[s.dbs[a].id].alias == a {
      StartedDbsAreLive(cfgs, installed, opens, a);
    }
    if OpenedApart(cfgs, opens) {
      forall h | h in s.live ensures h in s.dbs.Values {
        OpenedApartConserves(cfgs, installed, opens, h);
      }
    } else {
      var i, j :| 0 <= i < j < |cfgs| && opens[i] && opens[j] && cfgs[i].alias == cfgs[j].alias;
      SharedAliasLeaks(cfgs, installed, opens, i, j);
    }
  }

  /** With distinct aliases the new pool is sound whichever databases open. */
  lemma {:induction false} NewPoolIsSound(cfgs: seq<DBConfig>, installed: string, opens: seq<bool>)
    requires |opens| == |cfgs| && AliasesApart(cfgs)
    ensures Sound(StartAll(cfgs, installed, opens))
  {
    if cfgs == [] {
    } else {
      var n := |cfgs| - 1;
      var s := StartAll(cfgs[..n], installed, opens[..n]);
      NewPoolIsSound(cfgs[..n], installed, opens[..n]);
      StartedAliases(cfgs[..n], installed, opens[..n]);
      assert cfgs[n].alias !in AliasSet(cfgs[..n]);
      if opens[n] {
        AddKeepsSound(s, cfgs[n], HandleFor(s, cfgs[n], installed));
      }
    }
  }

  ghost function AliasSet(cfgs: seq<DBConfig>): set<string> {
    set c | c in cfgs :: c.alias
  }

  lemma StartOnePaths(s: PoolState, cfg: DBConfig, installed: string, opens: bool)
    ensures StartOne(s, cfg, installed, opens).paths == s.paths[cfg.alias := cfg.path]
    ensures StartOne(s, cfg, installed, opens).dbs.Keys <= s.dbs.Keys + {cfg.alias}
  {
  }

  lemma AliasSetStep(init: seq<DBConfig>, last: DBConfig)
    ensures AliasSet(init + [last]) == AliasSet(init) + {last.alias}
  {
    assert forall c :: c in init + [last] <==> c in init || c == last;
  }

  lemma {:induction false} StartedAliases(cfgs: seq<DBConfig>, installed: string, opens: seq<bool>)
    requires |opens| == |cfgs|
    ensures StartAll(cfgs, installed, opens).paths.Keys == AliasSet(cfgs)
    ensures StartAll(cfgs, installed, opens).dbs.Keys <= AliasSet(cfgs)
  {
    if cfgs == [] {
    } else {
      var n := |cfgs| - 1;
      var s := StartAll(cfgs[..n], installed, opens[..n]);
      StartedAliases(cfgs[..n], installed, opens[..n]);
      StartOnePaths(s, cfgs[n], installed, opens[n]);
      assert cfgs == cfgs[..n] + [cfgs[n]];
      AliasSetStep(cfgs[..n], cfgs[n]);
      assert StartAll(cfgs, installed, opens).paths == s.paths[cfgs[n].alias := cfgs[n].path];
    }
  }

  /** Every configured database is listed with its path, opened or not. */
  lemma {:induction false} StartedPath(cfgs: seq<DBConfig>, installed: string, opens: seq<bool>, i: nat)
    requires |opens| == |cfgs| && AliasesApart(cfgs) && i < |cfgs|
    ensures cfgs[i].alias in StartAll(cfgs, installed, opens).paths
    ensures StartAll(cfgs, installed, opens).paths[cfgs[i].alias] == cfgs[i].path
  {
    var n := |cfgs| - 1;
    StartOnePaths(StartAll(cfgs[..n], installed, opens[..n]), cfgs[n], installed, opens[n]);
    if i == n {
    } else {
      StartedPath(cfgs[..n], installed, opens[..n], i);
    }
  }
}
