/** internal/mdb/store.go: the pool with one lazily created column cache per alias. */
module Store {
  import opened Results
  import opened Pool
  import opened Schema
  import opened Query

  datatype CacheState = CacheState(db: Option<Handle>, cache: map<string, seq<ColumnMeta>>)

  datatype StoreState = StoreState(pool: PoolState, caches: map<string, CacheState>)

  /** The databases behind the handles at one moment. */
  type World = Handle -> Engine

  /** describeTable runs on the handle of the cache, which need not be the pool's. */
  function DescribeOn(world: World, db: Option<Handle>): Describe {
    if db.Some? then world(db.value).describe else _ => Err("no database")
  }

  function NewCache(pool: PoolState, alias: string): CacheState {
    CacheState(if alias in pool.dbs then Some(pool.dbs[alias]) else None, map[])
  }

  function CacheOf(s: StoreState, alias: string): CacheState {
    if alias in s.caches then s.caches[alias] else NewCache(s.pool, alias)
  }

  function WithCache(s: StoreState, alias: string): StoreState {
    s.(caches := s.caches[alias := CacheOf(s, alias)])
  }

  /** The effect of one query on the cache of its alias. */
  function Looked(s: StoreState, alias: string, world: World, table: string, opts: QueryOpts): StoreState
    requires alias in s.caches
  {
    var c := s.caches[alias];
    s.(caches := s.caches[alias := c.(cache := CacheAfter(c.cache, DescribeOn(world, c.db), table, opts))])
  }

  /** A query on an alias the pool does not hold leaves no cache behind. */
  function QueryState(s: StoreState, alias: string, world: World, table: string, opts: QueryOpts): StoreState {
    if alias !in s.pool.dbs then s else Looked(WithCache(s, alias), alias, world, table, opts)
  }

  /** The column list a query on an alias works with. */
  function ColumnsOf(s: StoreState, alias: string, world: World, table: string): Result<seq<ColumnMeta>> {
    var c := CacheOf(s, alias);
    Answer(c.cache, DescribeOn(world, c.db), table)
  }

  lemma OneListChanged(s: StoreState, t: StoreState, alias: string, c: CacheState)
    requires t.pool == s.pool && t.caches.Keys == s.caches.Keys && alias in t.caches && t.caches[alias] == c
    requires forall a :: a in s.caches && a != alias ==> t.caches[a] == s.caches[a]
    ensures t == s.(caches := s.caches[alias := c])
  {
    assert t.caches == s.caches[alias := c];
  }

  class PoolStore {
    const pool: Pool
    var caches: map<string, ColumnCache>

    /** No two aliases share a cache. */
    ghost predicate Valid()
      reads this
    {
      forall a, b :: a in caches && b in caches && a != b ==> caches[a] != caches[b]
    }

    ghost function State(): StoreState
      reads this, caches.Values, pool, pool.driver
    {
      StoreState(pool.State(), map a | a in caches :: CacheState(caches[a].db, caches[a].cache))
    }

    constructor (pool: Pool)
      ensures Valid() && this.pool == pool && State() == StoreState(pool.State(), map[])
    {
      this.pool := pool;
      caches := map[];
    }

    /** The cache of an alias, created on first use with the handle the pool then holds. */
    method Cache(alias: string) returns (c: ColumnCache)
      requires Valid()
      modifies this
      ensures Valid() && alias in caches && caches[alias] == c
      ensures forall a :: a in old(caches) ==> a in caches && caches[a] == old(caches)[a]
      ensures alias !in old(caches) ==> fresh(c)
      ensures State() == WithCache(old(State()), alias)
    {
      ghost var before := State();
      if alias in caches {
        assert before.caches[alias := before.caches[alias]] == before.caches;
        return caches[alias];
      }
      var db := pool.Get(alias);
      c := new ColumnCache(if db.Ok? then Some(db.value) else None);
      assert CacheState(c.db, c.cache) == CacheOf(before, alias);
      caches := caches[alias := c];
      assert State().pool == before.pool;
      assert State().caches == before.caches[alias := CacheOf(before, alias)];
    }

    /** A query through a cache of the store changes that cache's list and nothing else. */
    method QueryThrough(c: ColumnCache, db: Handle, alias: string, table: string, opts: QueryOpts, maxRows: Int64,
                        world: World)
      returns (r: Result<QueryResult>)
      requires Valid() && alias in caches && caches[alias] == c
      modifies c
      ensures State() == Looked(old(State()), alias, world, table, opts)
      ensures MayAnswer(EngineFor(world, db, c.db), ColumnsOf(old(State()), alias, world, table), table, opts,
                        maxRows, r)
    {
      ghost var before := State();
      r := Query.QueryTable(EngineFor(world, db, c.db), c, table, opts, maxRows);
      OneListChanged(before, State(), alias, CacheState(c.db, c.cache));
    }

    method QueryTable(alias: string, table: string, opts: QueryOpts, maxRows: Int64, world: World)
      returns (r: Result<QueryResult>)
      requires Valid()
      modifies this, caches.Values
      ensures Valid() && State() == QueryState(old(State()), alias, world, table, opts)
      ensures if alias !in pool.dbs then r == Err("unknown database alias")
              else MayAnswer(EngineFor(world, pool.dbs[alias], CacheOf(old(State()), alias).db),
                             ColumnsOf(old(State()), alias, world, table), table, opts, maxRows, r)
    {
      var db :- pool.Get(alias);
      var c := Cache(alias);
      r := QueryThrough(c, db, alias, table, opts, maxRows, world);
    }
  }

  /** Rows come from the pool's handle, column lists from the cache's. */
  function EngineFor(world: World, db: Handle, cached: Option<Handle>): Engine {
    world(db).(describe := DescribeOn(world, cached))
  }

  // ---- runs ----

  datatype StoreOp = PoolOp(op: Op) | Ask(alias: string, table: string, opts: QueryOpts, world: World)

  function Step(s: StoreState, op: StoreOp): StoreState {
    match op
    case PoolOp(p) => s.(pool := Apply(s.pool, p))
    case Ask(alias, table, opts, world) => QueryState(s, alias, world, table, opts)
  }

  function StoreRun(s: StoreState, ops: seq<StoreOp>): StoreState
    decreases |ops|
  {
    if ops == [] then s else StoreRun(Step(s, ops[0]), ops[1..])
  }

  /** The cache of an alias is bound to the handle the pool holds for it. */
  predicate Current(s: StoreState, alias: string) {
    alias in s.caches && alias in s.pool.dbs && s.caches[alias].db == Some(s.pool.dbs[alias])
  }

  predicate AllCurrent(s: StoreState) {
    forall a :: a in s.caches ==> Current(s, a)
  }

  lemma StepKeepsCurrent(s: StoreState, op: StoreOp)
    requires AllCurrent(s) && op != PoolOp(CloseOp)
    ensures AllCurrent(Step(s, op)) && s.caches.Keys <= Step(s, op).caches.Keys
  {
    var t := Step(s, op);
    forall a | a in t.caches ensures Current(t, a) {
      assert a in s.caches ==> Current(s, a);
    }
  }

  /** A handle that was opened once and is held for no alias. */
  predicate Retired(s: StoreState, h: Handle) {
    h.id < s.pool.next && forall a :: a in s.pool.dbs ==> s.pool.dbs[a] != h
  }

  lemma StepKeepsRetired(s: StoreState, op: StoreOp, h: Handle)
    requires Retired(s, h)
    ensures Retired(Step(s, op), h)
  {
  }

  /** A cache whose handle is retired never becomes current again. */
  lemma {:induction false} StaysStale(s: StoreState, ops: seq<StoreOp>, alias: string)
    requires alias in s.caches && s.caches[alias].db.Some? && Retired(s, s.caches[alias].db.value)
    ensures !Current(StoreRun(s, ops), alias)
    decreases |ops|
  {
    if ops == [] {
    } else {
      StepKeepsRetired(s, ops[0], s.caches[alias].db.value);
      StaysStale(Step(s, ops[0]), ops[1..], alias);
    }
  }

  /** A cache that is current stays so over a run of registrations, queries and closings
      exactly when the run closes the pool nowhere: after that no registration of the same
      alias makes it current again. */
  lemma {:induction false} CurrentIffNeverClosed(s: StoreState, ops: seq<StoreOp>, alias: string)
    requires AllCurrent(s) && Numbered(s.pool) && alias in s.caches
    ensures Current(StoreRun(s, ops), alias) <==> PoolOp(CloseOp) !in ops
    decreases |ops|
  {
    assert Current(s, alias);
    if ops == [] {
    } else {
      var t := Step(s, ops[0]);
      if ops[0] == PoolOp(CloseOp) {
        StaysStale(t, ops[1..], alias);
      } else {
        StepKeepsCurrent(s, ops[0]);
        CurrentIffNeverClosed(t, ops[1..], alias);
        assert ops == [ops[0]] + ops[1..];
      }
    }
  }

  /** A query that names a column of a table the pool can describe has its list cached. */
  lemma QueryCaches(s: StoreState, alias: string, world: World, table: string, opts: QueryOpts)
    requires alias in s.pool.dbs && (opts.filters != map[] || opts.sortBy != "")
    requires ColumnsOf(s, alias, world, table).Ok?
    ensures var t := QueryState(s, alias, world, table, opts);
            && alias in t.caches && table in t.caches[alias].cache
            && t.caches[alias].cache[table] == ColumnsOf(s, alias, world, table).value
  {
  }

  /** A cached list stays, over every run, closings included, and every later query works
      with it, whatever the database would say. */
  lemma {:induction false} CachedListStays(s: StoreState, ops: seq<StoreOp>, alias: string, table: string, world: World)
    requires alias in s.caches && table in s.caches[alias].cache
    ensures ColumnsOf(StoreRun(s, ops), alias, world, table) == Ok(s.caches[alias].cache[table])
    decreases |ops|
  {
    if ops == [] {
    } else {
      var t := Step(s, ops[0]);
      assert alias in t.caches && table in t.caches[alias].cache;
      assert t.caches[alias].cache[table] == s.caches[alias].cache[table];
      CachedListStays(t, ops[1..], alias, table, world);
    }
  }

  // ---- cached column lists ----

  type SchemaOf = (Handle, string) -> seq<ColumnMeta>

  /** A description that succeeds shows the schema; any may fail. */
  ghost predicate Shows(world: World, schema: SchemaOf) {
    forall h: Handle, t: string :: world(h).describe(t).Ok? ==> world(h).describe(t).value == schema(h, t)
  }

  ghost predicate ShowsThroughout(ops: seq<StoreOp>, schema: SchemaOf) {
    forall i :: 0 <= i < |ops| && ops[i].Ask? ==> Shows(ops[i].world, schema)
  }

  /** What is cached for a handle is its schema. */
  ghost predicate Faithful(s: StoreState, schema: SchemaOf) {
    forall a, t :: a in s.caches && t in s.caches[a].cache ==>
      s.caches[a].db.Some? && s.caches[a].cache[t] == schema(s.caches[a].db.value, t)
  }

  lemma StepKeepsFaithful(s: StoreState, op: StoreOp, schema: SchemaOf)
    requires Faithful(s, schema) && (op.Ask? ==> Shows(op.world, schema))
    ensures Faithful(Step(s, op), schema)
  {
    if op.Ask? && op.alias in s.pool.dbs {
      var c := CacheOf(s, op.alias);
      var d := DescribeOn(op.world, c.db);
      assert d(op.table).Ok? ==> c.db.Some? && d(op.table).value == schema(c.db.value, op.table);
    }
  }

  lemma {:induction false} RunKeepsFaithful(s: StoreState, ops: seq<StoreOp>, schema: SchemaOf)
    requires Faithful(s, schema) && ShowsThroughout(ops, schema)
    ensures Faithful(StoreRun(s, ops), schema)
    decreases |ops|
  {
    if ops == [] {
    } else {
      StepKeepsFaithful(s, ops[0], schema);
      RunKeepsFaithful(Step(s, ops[0]), ops[1..], schema);
    }
  }

  lemma {:induction false} RunKeepsCurrent(s: StoreState, ops: seq<StoreOp>)
    requires AllCurrent(s) && PoolOp(CloseOp) !in ops
    ensures AllCurrent(StoreRun(s, ops))
    decreases |ops|
  {
    if ops == [] {
    } else {
      StepKeepsCurrent(s, ops[0]);
      RunKeepsCurrent(Step(s, ops[0]), ops[1..]);
    }
  }

  /** Before the pool is closed, a column is known to a query on an open database exactly
      when the live schema has it, whatever was cached and whichever descriptions failed:
      the only other outcome is that nothing is cached yet and describing fails now. */
  lemma KnownColumnsAreLive(pool: PoolState, ops: seq<StoreOp>, schema: SchemaOf, world: World, alias: string,
                            table: string, column: string)
    requires PoolOp(CloseOp) !in ops && ShowsThroughout(ops, schema) && Shows(world, schema)
    ensures var s := StoreRun(StoreState(pool, map[]), ops);
            alias in s.pool.dbs ==>
              var cols := ColumnsOf(s, alias, world, table);
              && (cols.Ok? ==> cols.value == schema(s.pool.dbs[alias], table))
              && (world(s.pool.dbs[alias]).describe(table).Ok? ==> cols.Ok?)
              && (Known(cols, column) <==> cols.Ok? && HasColumn(schema(s.pool.dbs[alias], table), column))
  {
    var s0 := StoreState(pool, map[]);
    RunKeepsCurrent(s0, ops);
    RunKeepsFaithful(s0, ops, schema);
    var s := StoreRun(s0, ops);
    if alias in s.caches {
      assert Current(s, alias);
    }
  }
}
