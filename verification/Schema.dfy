/** internal/mdb/schema.go: the lazily filled cache of column lists. */
module Schema {
  import opened Results
  import opened Pool

  datatype ColumnMeta = ColumnMeta(name: string, typeName: string, nullable: bool)

  /** `describeTable` on one database: its answer for each table at one moment. */
  type Describe = string -> Result<seq<ColumnMeta>>

  /** What a lookup answers: the cached list, or a fresh description. */
  function Answer(cache: map<string, seq<ColumnMeta>>, describe: Describe, table: string): Result<seq<ColumnMeta>> {
    if table in cache then Ok(cache[table]) else describe(table)
  }

  /** What it leaves in the cache: a failed description is not kept. */
  function Remember(cache: map<string, seq<ColumnMeta>>, describe: Describe, table: string)
    : map<string, seq<ColumnMeta>>
  {
    var r := Answer(cache, describe, table);
    if r.Ok? then cache[table := r.value] else cache
  }

  predicate HasColumn(cols: seq<ColumnMeta>, name: string) {
    exists i :: 0 <= i < |cols| && cols[i].name == name
  }

  /** A lookup is repeatable: the second one answers the same, from whatever the database
      then says, once the first has succeeded. */
  lemma LookupSticks(cache: map<string, seq<ColumnMeta>>, first: Describe, then_: Describe, table: string)
    requires Answer(cache, first, table).Ok?
    ensures Answer(Remember(cache, first, table), then_, table) == Answer(cache, first, table)
    ensures Remember(Remember(cache, first, table), then_, table) == Remember(cache, first, table)
  {
  }

  /** A lookup adds at most the list of its own table, and a description that fails adds
      nothing. */
  lemma LookupAddsOne(cache: map<string, seq<ColumnMeta>>, describe: Describe, table: string)
    ensures forall t :: t in cache ==>
              t in Remember(cache, describe, table) && Remember(cache, describe, table)[t] == cache[t]
    ensures forall t :: t in Remember(cache, describe, table) && t !in cache ==>
              t == table && describe(table) == Ok(Remember(cache, describe, table)[t])
    ensures table !in cache && describe(table).Ok? ==> table in Remember(cache, describe, table)
  {
  }

  class ColumnCache {
    const db: Option<Handle>
    var cache: map<string, seq<ColumnMeta>>

    constructor (db: Option<Handle>)
      ensures this.db == db && cache == map[]
    {
      this.db := db;
      cache := map[];
    }

    /** Fetches on first access only. */
    method Columns(describe: Describe, table: string) returns (r: Result<seq<ColumnMeta>>)
      modifies this
      ensures r == Answer(old(cache), describe, table)
      ensures cache == Remember(old(cache), describe, table)
    {
      if table in cache {
        return Ok(cache[table]);
      }
      var cols :- describe(table);
      cache := cache[table := cols];
      return Ok(cols);
    }

    /** Nil exactly for a name in the table's column list. */
    method ValidateColumn(describe: Describe, table: string, name: string) returns (r: Result<()>)
      modifies this
      ensures r.Ok? <==>
                && Answer(old(cache), describe, table).Ok?
                && HasColumn(Answer(old(cache), describe, table).value, name)
      ensures cache == Remember(old(cache), describe, table)
    {
      var cols :- Columns(describe, table);
      for i := 0 to |cols|
        invariant forall j :: 0 <= j < i ==> cols[j].name != name
      {
        if cols[i].name == name {
          return Ok(());
        }
      }
      return Err("unknown column");
    }

    /** The type of the first column of that name. */
    method ColumnType(describe: Describe, table: string, name: string) returns (r: Result<string>)
      modifies this
      ensures cache == Remember(old(cache), describe, table)
      ensures r.Ok? <==>
                && Answer(old(cache), describe, table).Ok?
                && HasColumn(Answer(old(cache), describe, table).value, name)
      ensures r.Ok? ==> var cols := Answer(old(cache), describe, table).value;
                        exists i :: 0 <= i < |cols| && cols[i].name == name && cols[i].typeName == r.value
                                    && forall j :: 0 <= j < i ==> cols[j].name != name
    {
      var cols :- Columns(describe, table);
      for i := 0 to |cols|
        invariant forall j :: 0 <= j < i ==> cols[j].name != name
      {
        if cols[i].name == name {
          return Ok(cols[i].typeName);
        }
      }
      return Err("column not found");
    }
  }
}
