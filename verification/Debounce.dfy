/** internal/watcher/watcher.go, `fsnotifyLoop`: Create events are buffered and flushed
    after a quiet period or a maximum wait. Times are milliseconds. */
module Debounce {
  import opened Results
  import opened Text
  import opened Paths
  import opened Alias
  import opened Watcher
  import P = Pool

  const DEBOUNCE_QUIET: nat := 500
  const DEBOUNCE_MAX: nat := 2000

  /** A file system notification. */
  datatype FsEvent = FsEvent(isCreate: bool, name: Path)

  /** What one round of the select statement receives, and when. */
  datatype Input =
    | Arrive(at: nat, path: Path)  // the creation of a database file
    | Ignored(at: nat)             // any other notification
    | QuietFires(at: nat)
    | MaxFires(at: nat)
    | Failed(at: nat)              // an error event, logged
    | Cancelled(at: nat)           // ctx.Done
    | Closed(at: nat)              // an event channel was closed

  /** A creation of a file whose text ends in a database extension, in any case. */
  predicate CreatesDatabase(e: FsEvent) {
    && e.isCreate
    && (EndsWith(Lower(Render(e.name)), ".mdb") || EndsWith(Lower(Render(e.name)), ".accdb"))
  }

  /** Only Create events for database extensions are buffered. */
  function Classify(e: FsEvent, at: nat): Input {
    if e.isCreate && IsDatabase(e.name) then Arrive(at, e.name) else Ignored(at)
  }

  /** The loop's variables; a timer is its deadline. */
  datatype Loop = Loop(pending: set<Path>, quiet: Option<nat>, max: Option<nat>, running: bool)

  const FRESH := Loop({}, None, None, true)

  /** An input can be received while the loop runs; a timer only once its deadline has come. */
  predicate Enabled(l: Loop, i: Input) {
    && l.running
    && (i.QuietFires? ==> l.quiet.Some? && l.quiet.value <= i.at)
    && (i.MaxFires? ==> l.max.Some? && l.max.value <= i.at)
  }

  predicate Flushes(i: Input) {
    i.QuietFires? || i.MaxFires? || i.Cancelled?
  }

  function Step(l: Loop, i: Input): Loop {
    if i.Arrive? then
      Loop(l.pending + {i.path}, Some(i.at + DEBOUNCE_QUIET),
           if l.max.None? then Some(i.at + DEBOUNCE_MAX) else l.max, true)
    else if Flushes(i) then Loop({}, None, None, !i.Cancelled?)
    else if i.Closed? then l.(running := false)
    else l
  }

  // ---- the code ----

  class FsnotifyLoop {
    const watcher: Watcher
    var pending: set<Path>
    var quietTimer: Option<nat>
    var maxTimer: Option<nat>
    var running: bool

    ghost function State(): Loop
      reads this
    {
      Loop(pending, quietTimer, maxTimer, running)
    }

    constructor (watcher: Watcher)
      ensures this.watcher == watcher && State() == FRESH
    {
      this.watcher := watcher;
      pending, quietTimer, maxTimer, running := {}, None, None, true;
    }

    /** Hands every pending path to tryRegister once, in whatever order the map is iterated. */
    method Flush(installed: string, opens: Path -> bool) returns (order: seq<Path>)
      requires P.Numbered(watcher.pool.State())
      modifies this, watcher.pool, watcher.pool.driver
      ensures State() == old(State()).(pending := {}, quiet := None, max := None)
      ensures forall p :: p in order <==> p in old(pending)
      ensures |order| == |old(pending)|
      ensures watcher.pool.State()
           == TryAll(old(watcher.pool.State()), Attempts(Deriver(watcher.globs), opens, order), installed)
      ensures P.Numbered(watcher.pool.State())
    {
      order := [];
      var rest := pending;
      while rest != {}
        invariant forall p :: p in pending <==> p in order || p in rest
        invariant |order| + |rest| == |pending|
        decreases |rest|
      {
        var p :| p in rest;
        order, rest := order + [p], rest - {p};
      }
      var found := watcher.TryMatches(order, installed, opens);
      pending, quietTimer, maxTimer := {}, None, None;
    }

    /** The filter in front of the buffer. */
    method ReceiveEvent(e: FsEvent, at: nat)
      requires running
      modifies this
      ensures State() == Step(old(State()), Classify(e, at))
      ensures running && pending == old(pending) + if CreatesDatabase(e) then {e.name} else {}
      ensures CreatesDatabase(e) ==> quietTimer == Some(at + 500)
      ensures CreatesDatabase(e) ==> maxTimer == if old(maxTimer).Some? then old(maxTimer) else Some(at + 2000)
      ensures !CreatesDatabase(e) ==> quietTimer == old(quietTimer) && maxTimer == old(maxTimer)
    {
      DatabaseByEnding(e.name);
      if !e.isCreate {
        return;
      }
      if !IsDatabase(e.name) {
        return;
      }
      Buffer(e.name, at);
    }

    /** Resets the quiet timer on each event, starts the maximum timer on the first. */
    method Buffer(path: Path, at: nat)
      requires running
      modifies this
      ensures State() == Step(old(State()), Arrive(at, path))
    {
      pending := pending + {path};
      quietTimer := Some(at + DEBOUNCE_QUIET);
      if maxTimer.None? {
        maxTimer := Some(at + DEBOUNCE_MAX);
      }
    }

    method Receive(i: Input, installed: string, opens: Path -> bool) returns (handed: seq<Path>)
      requires Enabled(State(), i) && P.Numbered(watcher.pool.State())
      modifies this, watcher.pool, watcher.pool.driver
      ensures State() == Step(old(State()), i)
      ensures forall p :: p in handed <==> Flushes(i) && p in old(pending)
      ensures |handed| == if Flushes(i) then |old(pending)| else 0
      ensures watcher.pool.State()
           == TryAll(old(watcher.pool.State()), Attempts(Deriver(watcher.globs), opens, handed), installed)
      ensures P.Numbered(watcher.pool.State())
    {
      handed := [];
      match i
      case Cancelled(_) =>
        handed := Flush(installed, opens);
        running := false;
      case Closed(_) =>
        running := false;
      case Arrive(at, path) =>
        Buffer(path, at);
      case Ignored(_) =>
      case QuietFires(_) =>
        handed := Flush(installed, opens);
      case MaxFires(_) =>
        handed := Flush(installed, opens);
      case Failed(_) =>
    }
  }

  // ---- runs ----

  function After(run: seq<Input>): Loop {
    if run == [] then FRESH else Step(After(run[..|run| - 1]), run[|run| - 1])
  }

  ghost predicate Possible(run: seq<Input>) {
    run == [] || (Possible(run[..|run| - 1]) && Enabled(After(run[..|run| - 1]), run[|run| - 1]))
  }

  // ---- history, told without timers or the pending set ----

  datatype Arrival = Arrival(path: Path, at: nat)

  /** The arrivals handed over by one flush, its time, and what caused it. */
  datatype Block = Block(arrivals: seq<Arrival>, cause: Input)

  function Received(run: seq<Input>): seq<Arrival> {
    if run == [] then []
    else
      var i := run[|run| - 1];
      Received(run[..|run| - 1]) + if i.Arrive? then [Arrival(i.path, i.at)] else []
  }

  /** Arrivals since the last flush. */
  function Waiting(run: seq<Input>): seq<Arrival> {
    if run == [] then []
    else
      var i := run[|run| - 1];
      if Flushes(i) then []
      else Waiting(run[..|run| - 1]) + if i.Arrive? then [Arrival(i.path, i.at)] else []
  }

  function Blocks(run: seq<Input>): seq<Block> {
    if run == [] then []
    else
      var init, i := run[..|run| - 1], run[|run| - 1];
      Blocks(init) + if Flushes(i) then [Block(Waiting(init), i)] else []
  }

  function Flatten(blocks: seq<Block>): seq<Arrival> {
    if blocks == [] then [] else Flatten(blocks[..|blocks| - 1]) + blocks[|blocks| - 1].arrivals
  }

  ghost function PathsOf(arrivals: seq<Arrival>): set<Path> {
    set a | a in arrivals :: a.path
  }

  /** What the real loop hands over at each flush of a run. */
  ghost function Handed(run: seq<Input>): seq<set<Path>> {
    if run == [] then []
    else
      var init, i := run[..|run| - 1], run[|run| - 1];
      Handed(init) + if Flushes(i) then [After(init).pending] else []
  }

  // ---- conservation ----

  /** The pending set is the paths waiting, it is non-empty exactly when each timer is
      armed, and the deadlines are set by the first and the last of them. */
  lemma {:induction false} PendingIsWaiting(run: seq<Input>)
    ensures var l, w := After(run), Waiting(run);
            && l.pending == PathsOf(w)
            && (l.pending != {} <==> l.quiet.Some?) && (l.pending != {} <==> l.max.Some?)
            && (w != [] <==> l.pending != {})
            && (w != [] ==> l.quiet == Some(w[|w| - 1].at + 500) && l.max == Some(w[0].at + 2000))
  {
    if run == [] {
    } else {
      var init, i := run[..|run| - 1], run[|run| - 1];
      PendingIsWaiting(init);
      if i.Arrive? {
        var w := Waiting(init);
        assert PathsOf(w + [Arrival(i.path, i.at)]) == PathsOf(w) + {i.path};
      } else if !Flushes(i) {
        assert Waiting(run) == Waiting(init);
      }
    }
  }

  lemma FlattenStep(blocks: seq<Block>, b: Block)
    ensures Flatten(blocks + [b]) == Flatten(blocks) + b.arrivals
  {
    assert (blocks + [b])[..|blocks|] == blocks;
  }

  /** The arrivals received are those before the flushes so far, in order, and those since. */
  lemma {:induction false} HistorySplits(run: seq<Input>)
    ensures Received(run) == Flatten(Blocks(run)) + Waiting(run)
  {
    if run == [] {
    } else {
      var init, i := run[..|run| - 1], run[|run| - 1];
      HistorySplits(init);
      if Flushes(i) {
        FlattenStep(Blocks(init), Block(Waiting(init), i));
        assert Received(run) == Received(init);
      } else {
        assert Blocks(run) == Blocks(init);
        if i.Arrive? {
          Regroup(Flatten(Blocks(init)), Waiting(init), Arrival(i.path, i.at));
        }
      }
    }
  }

  lemma Regroup(before: seq<Arrival>, since: seq<Arrival>, a: Arrival)
    ensures (before + since) + [a] == before + (since + [a])
  {
  }

  ghost function Union(sets: seq<set<Path>>): set<Path> {
    if sets == [] then {} else Union(sets[..|sets| - 1]) + sets[|sets| - 1]
  }

  /** Nothing is lost and nothing is made up: at every moment of every run, the paths that
      the loop has handed to tryRegister and those in its buffer are exactly the database
      files whose creation it received. */
  lemma {:induction false} NothingIsLost(run: seq<Input>)
    ensures PathsOf(Received(run)) == Union(Handed(run)) + After(run).pending
  {
    if run == [] {
    } else {
      var init, i := run[..|run| - 1], run[|run| - 1];
      NothingIsLost(init);
      if i.Arrive? {
        var a := Arrival(i.path, i.at);
        assert PathsOf(Received(init) + [a]) == PathsOf(Received(init)) + {i.path};
        assert Handed(run) == Handed(init);
      } else if Flushes(i) {
        assert (Handed(init) + [After(init).pending])[..|Handed(init)|] == Handed(init);
        assert Received(run) == Received(init);
      } else {
        assert Handed(run) == Handed(init) && Received(run) == Received(init);
      }
    }
  }

  // ---- from raw notifications ----

  /** What the select statement of the loop receives. */
  datatype Signal =
    | Notified(e: FsEvent, at: nat)
    | QuietTimer(at: nat)
    | MaxTimer(at: nat)
    | WatchError(at: nat)
    | ContextDone(at: nat)
    | ChannelClosed(at: nat)

  function Perceived(s: Signal): Input {
    match s
    case Notified(e, at) => Classify(e, at)
    case QuietTimer(at) => QuietFires(at)
    case MaxTimer(at) => MaxFires(at)
    case WatchError(at) => Failed(at)
    case ContextDone(at) => Cancelled(at)
    case ChannelClosed(at) => Closed(at)
  }

  function Inputs(signals: seq<Signal>): (r: seq<Input>)
    ensures |r| == |signals|
    ensures forall k :: 0 <= k < |signals| ==> r[k] == Perceived(signals[k])
  {
    seq(|signals|, k requires 0 <= k < |signals| => Perceived(signals[k]))
  }

  /** The databases whose creation was notified. */
  ghost function CreatedDatabases(signals: seq<Signal>): set<Path> {
    set s | s in signals && s.Notified? && CreatesDatabase(s.e) :: s.e.name
  }

  lemma InputsStep(signals: seq<Signal>)
    requires signals != []
    ensures var n := |signals| - 1;
            Inputs(signals) != [] && Inputs(signals)[..n] == Inputs(signals[..n])
            && Inputs(signals)[n] == Perceived(signals[n])
  {
  }

  lemma CreatedStep(signals: seq<Signal>, s: Signal)
    ensures CreatedDatabases(signals + [s])
         == CreatedDatabases(signals) + if s.Notified? && CreatesDatabase(s.e) then {s.e.name} else {}
  {
    assert forall t :: t in signals + [s] <==> t in signals || t == s;
  }

  lemma {:induction false} CreatedAreReceived(signals: seq<Signal>)
    ensures PathsOf(Received(Inputs(signals))) == CreatedDatabases(signals)
  {
    if signals == [] {
    } else {
      var n := |signals| - 1;
      var init, s := signals[..n], signals[n];
      CreatedAreReceived(init);
      InputsStep(signals);
      assert signals == init + [s];
      CreatedStep(init, s);
      if s.Notified? { DatabaseByEnding(s.e.name); }
      if Perceived(s).Arrive? {
        PathsOfMore(Received(Inputs(init)), Arrival(Perceived(s).path, Perceived(s).at));
      } else {
        assert Received(Inputs(signals)) == Received(Inputs(init));
      }
    }
  }

  lemma PathsOfMore(arrivals: seq<Arrival>, a: Arrival)
    ensures PathsOf(arrivals + [a]) == PathsOf(arrivals) + {a.path}
  {
    assert forall b :: b in arrivals + [a] <==> b in arrivals || b == a;
  }

  /** Whatever the loop is notified of, and whenever its timers fire: the paths it has handed
      over and those in its buffer are the databases whose creation was notified, and after
      a timer or the cancellation all of them are handed over. */
  lemma CreatedAreHandedOver(signals: seq<Signal>)
    ensures Union(Handed(Inputs(signals))) + After(Inputs(signals)).pending == CreatedDatabases(signals)
    ensures signals != [] ==>
              var last := signals[|signals| - 1];
              last.QuietTimer? || last.MaxTimer? || last.ContextDone? ==>
                Union(Handed(Inputs(signals))) == CreatedDatabases(signals)
  {
    NothingIsLost(Inputs(signals));
    CreatedAreReceived(signals);
    if signals != [] {
      InputsStep(signals);
    }
  }

  /** Each flush hands over the set of the paths that arrived since the flush before. */
  lemma {:induction false} FlushesHandBlocks(run: seq<Input>)
    ensures |Handed(run)| == |Blocks(run)|
    ensures forall b :: 0 <= b < |Blocks(run)| ==> Handed(run)[b] == PathsOf(Blocks(run)[b].arrivals)
  {
    if run == [] {
    } else {
      FlushesHandBlocks(run[..|run| - 1]);
      PendingIsWaiting(run[..|run| - 1]);
    }
  }

  /** A run that ends because the context was cancelled leaves nothing unhanded; one that
      ends on a closed channel drops exactly the paths waiting. */
  lemma DroppedOnlyWhenClosed(run: seq<Input>)
    requires run != [] && !After(run).running && Possible(run)
    ensures run[|run| - 1].Cancelled? ==> After(run).pending == {} && PathsOf(Received(run)) == Union(Handed(run))
    ensures Received(run) == Flatten(Blocks(run)) <==> After(run).pending == {}
    ensures run[|run| - 1].Cancelled? || run[|run| - 1].Closed?
  {
    NothingIsLost(run);
    HistorySplits(run);
    PendingIsWaiting(run);
    if Waiting(run) != [] {
      assert |Received(run)| == |Flatten(Blocks(run))| + |Waiting(run)|;
    }
  }

  // ---- timing ----

  /** Time does not run backwards and no input is received after an armed deadline:
      timers that come due are served at once. */
  ghost predicate Prompt(run: seq<Input>) {
    run == [] ||
      var init, i := run[..|run| - 1], run[|run| - 1];
      && Prompt(init)
      && (init != [] ==> init[|init| - 1].at <= i.at)
      && (After(init).quiet.Some? ==> i.at <= After(init).quiet.value)
      && (After(init).max.Some? ==> i.at <= After(init).max.value)
  }

  /** Arrivals in order, each at most the quiet period after the one before. */
  ghost predicate Burst(w: seq<Arrival>) {
    forall j :: 0 <= j < |w| - 1 ==> w[j].at <= w[j + 1].at <= w[j].at + DEBOUNCE_QUIET
  }

  lemma {:induction false} BurstIsOrdered(w: seq<Arrival>, j: nat)
    requires Burst(w) && j < |w|
    ensures w[0].at <= w[j].at <= w[|w| - 1].at
  {
    if |w| <= 1 {
    } else {
      var init := w[..|w| - 1];
      assert Burst(init);
      BurstIsOrdered(init, if j < |init| then j else |init| - 1);
    }
  }

  lemma BurstGrows(w: seq<Arrival>, a: Arrival)
    requires Burst(w) && (w != [] ==> w[|w| - 1].at <= a.at <= w[|w| - 1].at + DEBOUNCE_QUIET)
    ensures Burst(w + [a])
  {
    var w' := w + [a];
    forall j | 0 <= j < |w'| - 1 ensures w'[j].at <= w'[j + 1].at <= w'[j].at + DEBOUNCE_QUIET {
      if j < |w| - 1 { assert w'[j + 1] == w[j + 1]; }
    }
  }

  lemma {:induction false} WaitingIsBurst(run: seq<Input>)
    requires Possible(run) && Prompt(run)
    ensures Burst(Waiting(run))
    ensures Waiting(run) != [] ==> Waiting(run)[|Waiting(run)| - 1].at <= run[|run| - 1].at
  {
    if run == [] {
    } else {
      var init, i := run[..|run| - 1], run[|run| - 1];
      WaitingIsBurst(init);
      PendingIsWaiting(init);
      if i.Arrive? {
        assert Waiting(run) == Waiting(init) + [Arrival(i.path, i.at)];
        BurstGrows(Waiting(init), Arrival(i.path, i.at));
      } else if !Flushes(i) {
        assert Waiting(run) == Waiting(init);
      }
    }
  }

  /** A batch flushed by a timer: a burst, flushed the quiet period after its last arrival
      or the maximum wait after its first, whichever comes first. */
  ghost predicate TimelyBlock(b: Block) {
    var w := b.arrivals;
    && w != [] && Burst(w)
    && b.cause.at == Min(w[|w| - 1].at + 500, w[0].at + 2000)
    && (forall a :: a in w ==> a.at <= b.cause.at <= a.at + 2000)
  }

  /** Whatever comes next comes within two seconds of every path waiting. */
  lemma WaitingIsBounded(run: seq<Input>, i: Input, a: Arrival)
    requires Possible(run + [i]) && Prompt(run + [i]) && a in Waiting(run)
    ensures a.at <= i.at <= a.at + 2000
  {
    var all := run + [i];
    assert all[..|all| - 1] == run && all[|all| - 1] == i;
    PendingIsWaiting(run);
    WaitingIsBurst(run);
    var w := Waiting(run);
    var j :| 0 <= j < |w| && w[j] == a;
    BurstIsOrdered(w, j);
  }

  lemma TimerFlushTime(run: seq<Input>, i: Input)
    requires Possible(run + [i]) && Prompt(run + [i]) && (i.QuietFires? || i.MaxFires?)
    ensures var w := Waiting(run);
            && w != [] && Burst(w) && w[|w| - 1].at <= i.at
            && i.at == Min(w[|w| - 1].at + DEBOUNCE_QUIET, w[0].at + DEBOUNCE_MAX)
  {
    var all := run + [i];
    assert all[..|all| - 1] == run && all[|all| - 1] == i;
    PendingIsWaiting(run);
    WaitingIsBurst(run);
  }

  /** In a prompt run every timer flush is timely: no path waits more than two seconds. */
  lemma {:induction false} FlushesAreTimely(run: seq<Input>)
    requires Possible(run) && Prompt(run)
    ensures forall b :: b in Blocks(run) && !b.cause.Cancelled? ==> TimelyBlock(b)
  {
    if run == [] {
    } else {
      var init, i := run[..|run| - 1], run[|run| - 1];
      FlushesAreTimely(init);
      assert run == init + [i];
      if i.QuietFires? || i.MaxFires? {
        FlushIsTimely(init, i);
      }
    }
  }

  lemma FlushIsTimely(run: seq<Input>, i: Input)
    requires Possible(run + [i]) && Prompt(run + [i]) && (i.QuietFires? || i.MaxFires?)
    ensures TimelyBlock(Block(Waiting(run), i))
  {
    TimerFlushTime(run, i);
    BatchIsTimely(Block(Waiting(run), i));
  }

  lemma BatchIsTimely(b: Block)
    requires var w := b.arrivals;
             && w != [] && Burst(w) && w[|w| - 1].at <= b.cause.at
             && b.cause.at == Min(w[|w| - 1].at + DEBOUNCE_QUIET, w[0].at + DEBOUNCE_MAX)
    ensures TimelyBlock(b)
  {
    var w := b.arrivals;
    forall a | a in w ensures a.at <= b.cause.at <= a.at + DEBOUNCE_MAX {
      var j :| 0 <= j < |w| && w[j] == a;
      BurstIsOrdered(w, j);
    }
  }
}
