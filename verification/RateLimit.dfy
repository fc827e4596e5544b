/** internal/api/middleware.go, lines 134-193: the token bucket of each client address, and
    the sweep that forgets idle ones. Times are seconds, levels are exact reals. */
module RateLimit {

  /** One `rate.Limiter`: its level when it last let a request pass. */
  datatype Bucket = Bucket(tokens: real, last: real)

  datatype Entry = Entry(bucket: Bucket, lastSeen: real)

  type Limiters = map<string, Entry>

  const IDLE := 600.0

  datatype Rate = Rate(rps: real, burst: int)

  /** The tokens that flow in over some time. */
  function Inflow(r: Rate, t: real): real {
    t * r.rps
  }

  /** What has flowed in since then, up to the burst. */
  function Level(r: Rate, b: Bucket, now: real): real {
    if Full(r, b, now) then r.burst as real else b.tokens + Inflow(r, now - b.last)
  }

  predicate Full(r: Rate, b: Bucket, now: real) {
    b.tokens + Inflow(r, now - b.last) >= r.burst as real
  }

  /** `rate.NewLimiter`: a bucket starts full. */
  function NewBucket(r: Rate, now: real): Bucket {
    Bucket(r.burst as real, now)
  }

  /** `Allow`: one token if there is one; a denied request leaves the bucket as it was. */
  function Allows(r: Rate, b: Bucket, now: real): bool {
    1 <= r.burst && Level(r, b, now) >= 1.0
  }

  function Draw(r: Rate, b: Bucket, now: real): Bucket {
    if Allows(r, b, now) then Bucket(Level(r, b, now) - 1.0, now) else b
  }

  function BucketOf(r: Rate, m: Limiters, ip: string, now: real): Bucket {
    if ip in m then m[ip].bucket else NewBucket(r, now)
  }

  function HandleState(r: Rate, m: Limiters, ip: string, now: real): Limiters {
    m[ip := Entry(Draw(r, BucketOf(r, m, ip, now), now), now)]
  }

  function SweepState(m: Limiters, now: real): Limiters {
    map ip | ip in m && now - m[ip].lastSeen <= IDLE :: m[ip]
  }

  // ---- the code ----

  class Middleware {
    const rate: Rate
    var limiters: Limiters

    constructor (rate: Rate)
      ensures this.rate == rate && limiters == map[]
    {
      this.rate := rate;
      limiters := map[];
    }

    /** One request; true if it is passed on. A rate that is not positive limits nothing. */
    method Handle(ip: string, now: real) returns (ok: bool)
      modifies this
      ensures rate.rps <= 0.0 ==> ok && limiters == old(limiters)
      ensures rate.rps > 0.0 ==>
                && ok == Allows(rate, BucketOf(rate, old(limiters), ip, now), now)
                && limiters == HandleState(rate, old(limiters), ip, now)
    {
      if rate.rps <= 0.0 {
        return true;
      }
      var entry;
      if ip in limiters {
        entry := limiters[ip];
      } else {
        entry := Entry(NewBucket(rate, now), now);
        limiters := limiters[ip := entry];
      }
      entry := entry.(lastSeen := now);
      ok := Allows(rate, entry.bucket, now);
      if ok {
        entry := entry.(bucket := Bucket(Level(rate, entry.bucket, now) - 1.0, now));
      }
      limiters := limiters[ip := entry];
    }

    /** The clean-up, in whatever order the map is iterated. */
    method Sweep(now: real)
      modifies this
      ensures limiters == SweepState(old(limiters), now)
      ensures forall ip :: ip in limiters <==> ip in old(limiters) && now - old(limiters)[ip].lastSeen <= 600.0
      ensures forall ip :: ip in limiters ==> limiters[ip] == old(limiters)[ip]
    {
      var rest := limiters.Keys;
      while rest != {}
        invariant rest <= old(limiters).Keys
        invariant limiters.Keys <= old(limiters).Keys
        invariant forall ip :: ip in limiters ==> limiters[ip] == old(limiters)[ip]
        invariant forall ip :: ip in old(limiters) ==>
                    (ip in limiters <==> ip in rest || now - old(limiters)[ip].lastSeen <= IDLE)
        decreases |rest|
      {
        var ip :| ip in rest;
        if now - limiters[ip].lastSeen > IDLE {
          limiters := limiters - {ip};
        }
        rest := rest - {ip};
      }
      assert limiters == SweepState(old(limiters), now);
    }
  }

  // ---- runs ----

  datatype Event = Request(ip: string, at: real) | Sweeping(at: real)

  function After(r: Rate, m: Limiters, e: Event): Limiters {
    match e
    case Request(ip, t) => HandleState(r, m, ip, t)
    case Sweeping(t) => SweepState(m, t)
  }

  /** The answers to the requests of a run, in order. */
  function Decisions(r: Rate, m: Limiters, run: seq<Event>): seq<bool>
    decreases |run|
  {
    if run == [] then []
    else
      var e := run[0];
      (if e.Request? then [Allows(r, BucketOf(r, m, e.ip, e.at), e.at)] else [])
      + Decisions(r, After(r, m, e), run[1..])
  }

  /** The same run with nothing ever forgotten. */
  function WithoutSweeps(run: seq<Event>): seq<Event> {
    if run == [] then []
    else (if run[0].Request? then [run[0]] else []) + WithoutSweeps(run[1..])
  }

  /** The clock does not go back. */
  predicate InOrder(now: real, run: seq<Event>)
    decreases |run|
  {
    run == [] || (now <= run[0].at && InOrder(run[0].at, run[1..]))
  }

  // ---- forgetting an idle address changes no answer ----

  /** An entry of the past. */
  predicate Sane(r: Rate, e: Entry, now: real) {
    && e.bucket.last <= e.lastSeen <= now
    && (e.bucket.tokens >= 0.0 || e.bucket.tokens >= r.burst as real)
  }

  /** Equal, or no longer distinguishable. */
  predicate Alike(r: Rate, b: Bucket, c: Bucket, now: real) {
    b == c || (Full(r, b, now) && Full(r, c, now))
  }

  /** The map with sweeps against the map without. */
  ghost predicate Mirrors(r: Rate, m: Limiters, n: Limiters, now: real) {
    && m.Keys <= n.Keys
    && (forall ip :: ip in n ==> Sane(r, n[ip], now))
    && (forall ip :: ip in m ==>
          && Sane(r, m[ip], now) && m[ip].lastSeen == n[ip].lastSeen
          && Alike(r, m[ip].bucket, n[ip].bucket, now))
    && (forall ip :: ip in n && ip !in m ==> Full(r, n[ip].bucket, now))
  }

  lemma Grows(r: Rate, from: real, to: real)
    requires r.rps > 0.0 && from <= to
    ensures Inflow(r, from) <= Inflow(r, to)
  {
  }

  lemma Flow(r: Rate, t: real)
    requires r.rps > 0.0 && t >= 0.0
    ensures Inflow(r, t) >= 0.0
  {
  }

  lemma FullStays(r: Rate, b: Bucket, now: real, then_: real)
    requires r.rps > 0.0 && now <= then_ && Full(r, b, now)
    ensures Full(r, b, then_) && Level(r, b, then_) == r.burst as real
  {
    Grows(r, now - b.last, then_ - b.last);
  }

  /** After ten idle minutes a bucket is full, if the burst fills up in that time. */
  lemma IdleIsFull(r: Rate, e: Entry, now: real)
    requires r.rps > 0.0 && r.burst as real <= IDLE * r.rps
    requires Sane(r, e, now) && now - e.lastSeen > IDLE
    ensures Full(r, e.bucket, now)
  {
    var inflow := Inflow(r, now - e.bucket.last);
    Grows(r, IDLE, now - e.bucket.last);
    Flow(r, now - e.bucket.last);
    assert inflow >= Inflow(r, IDLE) && inflow >= 0.0;
    assert e.bucket.tokens + inflow >= r.burst as real;
  }

  lemma MirrorsLater(r: Rate, m: Limiters, n: Limiters, now: real, then_: real)
    requires r.rps > 0.0 && now <= then_ && Mirrors(r, m, n, now)
    ensures Mirrors(r, m, n, then_)
  {
    forall ip | ip in n
      ensures Sane(r, n[ip], then_)
      ensures ip in m ==> Sane(r, m[ip], then_) && Alike(r, m[ip].bucket, n[ip].bucket, then_)
      ensures ip !in m ==> Full(r, n[ip].bucket, then_)
    {
      if Full(r, n[ip].bucket, now) { FullStays(r, n[ip].bucket, now, then_); }
      if ip in m && Full(r, m[ip].bucket, now) { FullStays(r, m[ip].bucket, now, then_); }
    }
  }

  lemma DrawIsAlike(r: Rate, b: Bucket, c: Bucket, now: real)
    requires r.rps > 0.0 && Alike(r, b, c, now)
    ensures Allows(r, b, now) == Allows(r, c, now) && Alike(r, Draw(r, b, now), Draw(r, c, now), now)
  {
  }

  /** A drawn bucket is an entry of the past again. */
  lemma DrawIsSane(r: Rate, e: Entry, b: Bucket, now: real)
    requires e == Entry(Draw(r, b, now), now) && b.last <= now && (b.tokens >= 0.0 || b.tokens >= r.burst as real)
    ensures Sane(r, e, now)
  {
  }

  lemma NewIsFullToo(r: Rate, now: real)
    ensures Full(r, NewBucket(r, now), now)
  {
    NoInflow(r, now - NewBucket(r, now).last);
  }

  lemma HandleMirrors(r: Rate, m: Limiters, n: Limiters, ip: string, now: real)
    requires r.rps > 0.0 && Mirrors(r, m, n, now)
    ensures Allows(r, BucketOf(r, m, ip, now), now) == Allows(r, BucketOf(r, n, ip, now), now)
    ensures Mirrors(r, HandleState(r, m, ip, now), HandleState(r, n, ip, now), now)
  {
    var b, c := BucketOf(r, m, ip, now), BucketOf(r, n, ip, now);
    NewIsFullToo(r, now);
    assert Alike(r, b, c, now);
    DrawIsAlike(r, b, c, now);
    DrawIsSane(r, Entry(Draw(r, b, now), now), b, now);
    DrawIsSane(r, Entry(Draw(r, c, now), now), c, now);
  }

  lemma SweepMirrors(r: Rate, m: Limiters, n: Limiters, now: real)
    requires r.rps > 0.0 && r.burst as real <= IDLE * r.rps && Mirrors(r, m, n, now)
    ensures Mirrors(r, SweepState(m, now), n, now)
  {
    forall ip | ip in m && ip !in SweepState(m, now) ensures Full(r, n[ip].bucket, now) {
      IdleIsFull(r, n[ip], now);
    }
  }

  lemma {:induction false} DecisionsMirror(r: Rate, m: Limiters, n: Limiters, now: real, run: seq<Event>)
    requires r.rps > 0.0 && r.burst as real <= IDLE * r.rps && Mirrors(r, m, n, now) && InOrder(now, run)
    ensures Decisions(r, m, run) == Decisions(r, n, WithoutSweeps(run))
    decreases |run|
  {
    if run == [] {
    } else {
      var e := run[0];
      MirrorsLater(r, m, n, now, e.at);
      if e.Request? {
        HandleMirrors(r, m, n, e.ip, e.at);
        DecisionsMirror(r, After(r, m, e), After(r, n, e), e.at, run[1..]);
        assert WithoutSweeps(run)[1..] == WithoutSweeps(run[1..]);
      } else {
        SweepMirrors(r, m, n, e.at);
        DecisionsMirror(r, After(r, m, e), n, e.at, run[1..]);
        assert WithoutSweeps(run) == WithoutSweeps(run[1..]);
      }
    }
  }

  // ---- if the burst takes longer to fill up, a sweep shows ----

  function Repeat(e: Event, k: nat): seq<Event> {
    if k == 0 then [] else [e] + Repeat(e, k - 1)
  }

  function Ask(at: real, k: nat): seq<Event> {
    Repeat(Request("a", at), k)
  }

  lemma LevelAtOnce(r: Rate, b: Bucket, now: real)
    requires b.last == now
    ensures Level(r, b, now) == if b.tokens >= r.burst as real then r.burst as real else b.tokens
  {
    NoInflow(r, now - b.last);
  }

  lemma NoInflow(r: Rate, t: real)
    requires t == 0.0
    ensures Inflow(r, t) == 0.0
  {
  }

  lemma AskOne(r: Rate, m: Limiters, now: real, b: Bucket, n: Limiters)
    requires b == BucketOf(r, m, "a", now) && Allows(r, b, now) && n == After(r, m, Request("a", now))
    ensures "a" in n && n["a"] == Entry(Bucket(Level(r, b, now) - 1.0, now), now)
    ensures BucketOf(r, n, "a", now) == n["a"].bucket && Level(r, n["a"].bucket, now) == Level(r, b, now) - 1.0
  {
    LevelAtOnce(r, n["a"].bucket, now);
  }

  /** k requests at one moment, of a bucket that holds at least k, all pass and leave k less. */
  lemma {:induction false} AskAll(r: Rate, m: Limiters, k: nat, now: real, more: seq<Event>, b: Bucket, level: real)
    returns (n: Limiters)
    requires r.burst >= 1 && k >= 1
    requires b == BucketOf(r, m, "a", now) && level == Level(r, b, now) && k as real <= level
    ensures |Decisions(r, m, Ask(now, k) + more)| == k + |Decisions(r, n, more)|
    ensures forall i :: 0 <= i < k ==> Decisions(r, m, Ask(now, k) + more)[i]
    ensures Decisions(r, m, Ask(now, k) + more)[k..] == Decisions(r, n, more)
    ensures "a" in n && n["a"] == Entry(Bucket(level - k as real, now), now)
    decreases k
  {
    n := After(r, m, Request("a", now));
    AskOne(r, m, now, b, n);
    var run, rest := Ask(now, k) + more, Ask(now, k - 1) + more;
    assert run[0] == Request("a", now) && run[1..] == rest;
    var after_ := n;
    assert Decisions(r, m, run) == [true] + Decisions(r, after_, rest);
    if k == 1 {
      assert rest == more;
    } else {
      n := AskAll(r, n, k - 1, now, more, n["a"].bucket, level - 1.0);
    }
  }

  /** More requests at one moment than a bucket holds: one is denied. */
  lemma {:induction false} AskTooMany(r: Rate, m: Limiters, k: nat, now: real, b: Bucket, level: real)
    requires b == BucketOf(r, m, "a", now) && level == Level(r, b, now) && 0.0 <= level < k as real
    ensures false in Decisions(r, m, Ask(now, k))
    decreases k
  {
    if !Allows(r, b, now) {
    } else {
      var n := After(r, m, Request("a", now));
      AskOne(r, m, now, b, n);
      AskTooMany(r, n, k - 1, now, n["a"].bucket, level - 1.0);
      assert Ask(now, k)[1..] == Ask(now, k - 1);
    }
  }

  lemma {:induction false} RepeatInOrder(now: real, e: Event, k: nat, more: seq<Event>)
    requires now <= e.at && InOrder(e.at, more)
    ensures InOrder(now, Repeat(e, k) + more) && InOrder(e.at, Repeat(e, k) + more)
    decreases k
  {
    if k == 0 {
      assert Repeat(e, k) + more == more;
      if more != [] { assert now <= more[0].at; }
    } else {
      RepeatInOrder(e.at, e, k - 1, more);
      assert (Repeat(e, k) + more)[1..] == Repeat(e, k - 1) + more;
    }
  }

  lemma {:induction false} RepeatHasNoSweeps(e: Event, k: nat, more: seq<Event>)
    requires e.Request?
    ensures WithoutSweeps(Repeat(e, k) + more) == Repeat(e, k) + WithoutSweeps(more)
  {
    if k == 0 {
      assert Repeat(e, k) + more == more;
      assert Repeat(e, k) + WithoutSweeps(more) == WithoutSweeps(more);
    } else {
      RepeatHasNoSweeps(e, k - 1, more);
      assert (Repeat(e, k) + more)[1..] == Repeat(e, k - 1) + more;
    }
  }

  /** The run that empties a bucket, waits through a sweep, and asks for the burst again. */
  function EmptyWaitAsk(r: Rate, wait: real): seq<Event>
    requires r.burst >= 0
  {
    Ask(0.0, r.burst) + ([Sweeping(wait)] + Ask(wait, r.burst))
  }

  lemma NewIsFull(r: Rate, now: real)
    ensures Level(r, NewBucket(r, now), now) == r.burst as real
  {
    LevelAtOnce(r, NewBucket(r, now), now);
  }

  lemma WithSweepAllPass(r: Rate, wait: real)
    requires r.rps > 0.0 && r.burst >= 1 && wait > IDLE
    ensures false !in Decisions(r, map[], EmptyWaitAsk(r, wait))
  {
    var again := [Sweeping(wait)] + Ask(wait, r.burst);
    NewIsFull(r, 0.0);
    NewIsFull(r, wait);
    var m := AskAll(r, map[], r.burst, 0.0, again, NewBucket(r, 0.0), r.burst as real);
    var n := SweepState(m, wait);
    assert again[1..] == Ask(wait, r.burst);
    assert Decisions(r, m, again) == Decisions(r, n, Ask(wait, r.burst));
    assert Ask(wait, r.burst) + [] == Ask(wait, r.burst);
    var last := AskAll(r, n, r.burst, wait, [], NewBucket(r, wait), r.burst as real);
  }

  lemma SweepDropped(r: Rate, wait: real)
    requires r.burst >= 0
    ensures WithoutSweeps(EmptyWaitAsk(r, wait)) == Ask(0.0, r.burst) + Ask(wait, r.burst)
  {
    var again := [Sweeping(wait)] + Ask(wait, r.burst);
    RepeatHasNoSweeps(Request("a", 0.0), r.burst, again);
    RepeatHasNoSweeps(Request("a", wait), r.burst, []);
    assert again[1..] == Ask(wait, r.burst) == Ask(wait, r.burst) + [];
    assert WithoutSweeps(again) == WithoutSweeps(Ask(wait, r.burst));
  }

  lemma LevelOfEmptied(r: Rate, wait: real)
    requires Inflow(r, wait) < r.burst as real
    ensures Level(r, Bucket(0.0, 0.0), wait) == Inflow(r, wait)
  {
  }

  lemma WithoutSweepOneFails(r: Rate, wait: real, level: real)
    requires r.burst >= 1 && 0.0 <= level < r.burst as real && level == Level(r, Bucket(0.0, 0.0), wait)
    ensures false in Decisions(r, map[], Ask(0.0, r.burst) + Ask(wait, r.burst))
  {
    NewIsFull(r, 0.0);
    var m := AskAll(r, map[], r.burst, 0.0, Ask(wait, r.burst), NewBucket(r, 0.0), r.burst as real);
    AskTooMany(r, m, r.burst, wait, Bucket(0.0, 0.0), level);
  }

  lemma EmptyWaitAskInOrder(r: Rate, wait: real)
    requires r.burst >= 0 && wait >= 0.0
    ensures InOrder(0.0, EmptyWaitAsk(r, wait))
  {
    RepeatInOrder(wait, Request("a", wait), r.burst, []);
    var again := [Sweeping(wait)] + Ask(wait, r.burst);
    assert Ask(wait, r.burst) + [] == Ask(wait, r.burst) == again[1..];
    RepeatInOrder(0.0, Request("a", 0.0), r.burst, again);
  }

  /** A wait that is long enough to be forgotten and too short to fill the bucket. */
  function Wait(r: Rate): real
    requires r.rps > 0.0
  {
    (IDLE * r.rps + r.burst as real) / (2.0 * r.rps)
  }

  lemma SweepShows(r: Rate) returns (run: seq<Event>)
    requires r.rps > 0.0 && r.burst as real > IDLE * r.rps
    ensures InOrder(0.0, run) && Decisions(r, map[], run) != Decisions(r, map[], WithoutSweeps(run))
  {
    var wait := Wait(r);
    Halfway(IDLE, r.rps, r.burst as real, wait);
    run := EmptyWaitAsk(r, wait);
    EmptyWaitAskInOrder(r, wait);
    WithSweepAllPass(r, wait);
    SweepDropped(r, wait);
    LevelOfEmptied(r, wait);
    WithoutSweepOneFails(r, wait, Inflow(r, wait));
  }

  lemma Halfway(idle: real, rps: real, burst: real, wait: real)
    requires rps > 0.0 && idle > 0.0 && burst > idle * rps && wait == (idle * rps + burst) / (2.0 * rps)
    ensures wait > idle && 0.0 <= wait * rps < burst
  {
    assert wait * (2.0 * rps) == idle * rps + burst;
    assert wait * (2.0 * rps) == 2.0 * (wait * rps);
    if wait <= idle { Grows(Rate(rps, 0), wait, idle); }
    assert idle * rps > 0.0;
  }

  /** Forgetting addresses idle for ten minutes changes no answer in any run exactly when
      ten minutes fill a bucket. */
  lemma SweepsAreInvisibleIff(r: Rate)
    requires r.rps > 0.0
    ensures (forall run :: InOrder(0.0, run) ==> Decisions(r, map[], run) == Decisions(r, map[], WithoutSweeps(run)))
            <==> r.burst as real <= 600.0 * r.rps
  {
    if r.burst as real <= IDLE * r.rps {
      forall run | InOrder(0.0, run) ensures Decisions(r, map[], run) == Decisions(r, map[], WithoutSweeps(run)) {
        DecisionsMirror(r, map[], map[], 0.0, run);
      }
    } else {
      var run := SweepShows(r);
    }
  }

  // ---- how much passes in a window of time ----

  predicate NoSweeps(run: seq<Event>) {
    forall i :: 0 <= i < |run| ==> run[i].Request?
  }

  lemma {:induction false} WithoutSweepsHasNone(run: seq<Event>, now: real)
    requires InOrder(now, run)
    ensures NoSweeps(WithoutSweeps(run)) && InOrder(now, WithoutSweeps(run))
    decreases |run|
  {
    if run == [] {
    } else {
      WithoutSweepsHasNone(run[1..], run[0].at);
      var rest := WithoutSweeps(run[1..]);
      if run[0].Request? {
        assert WithoutSweeps(run)[1..] == rest;
      } else {
        assert WithoutSweeps(run) == rest;
        if rest != [] { assert now <= rest[0].at; }
      }
    }
  }

  lemma {:induction false} OneAnswerEach(r: Rate, m: Limiters, run: seq<Event>)
    ensures |Decisions(r, m, run)| == |WithoutSweeps(run)|
    decreases |run|
  {
    if run == [] {
    } else {
      OneAnswerEach(r, After(r, m, run[0]), run[1..]);
    }
  }

  /** The requests of one address let through between two moments. */
  function Admitted(requests: seq<Event>, answers: seq<bool>, ip: string, from: real, to: real): nat
    requires |requests| == |answers|
  {
    if requests == [] then 0
    else
      var e := requests[0];
      (if e.Request? && e.ip == ip && answers[0] && from <= e.at <= to then 1 else 0)
      + Admitted(requests[1..], answers[1..], ip, from, to)
  }

  lemma {:induction false} NoneAfter(run: seq<Event>, answers: seq<bool>, ip: string, from: real, to: real)
    requires |run| == |answers| && InOrder(to, run) && (run != [] ==> run[0].at > to)
    ensures Admitted(run, answers, ip, from, to) == 0
    decreases |run|
  {
    if |run| <= 1 {
    } else {
      assert InOrder(run[0].at, run[1..]) && run[1..][0] == run[1];
      NoneAfter(run[1..], answers[1..], ip, from, to);
    }
  }

  /** What passes in a window of a run, sweeps and all. */
  function LetThrough(r: Rate, run: seq<Event>, ip: string, from: real, to: real): nat {
    OneAnswerEach(r, map[], run);
    Admitted(WithoutSweeps(run), Decisions(r, map[], run), ip, from, to)
  }

  /** What a full bucket gives. */
  function Capacity(r: Rate): real {
    if r.burst < 0 then 0.0 else r.burst as real
  }

  /** What a bucket can still give, never less than nothing. */
  function Stock(r: Rate, b: Bucket, now: real): real {
    if Level(r, b, now) < 0.0 then 0.0 else Level(r, b, now)
  }

  lemma StockIs(r: Rate, b: Bucket, now: real, x: real)
    requires x == b.tokens + Inflow(r, now - b.last)
    ensures Stock(r, b, now) ==
            var level := if x >= r.burst as real then r.burst as real else x;
            if level < 0.0 then 0.0 else level
  {
  }

  /** A bucket's stock grows at most at the rate. */
  lemma StockGrows(r: Rate, b: Bucket, now: real, then_: real, inflow: real)
    requires r.rps > 0.0 && now <= then_ && inflow == Inflow(r, then_ - now)
    ensures Stock(r, b, then_) <= Stock(r, b, now) + inflow
  {
    InflowSplits(r, b.last, now, then_);
    Flow(r, then_ - now);
    var x, y := b.tokens + Inflow(r, now - b.last), b.tokens + Inflow(r, then_ - b.last);
    assert y == x + inflow && inflow >= 0.0;
    StockIs(r, b, now, x);
    StockIs(r, b, then_, y);
  }

  lemma InflowSplits(r: Rate, s: real, t: real, u: real)
    ensures Inflow(r, t - s) + Inflow(r, u - t) == Inflow(r, u - s)
  {
  }

  /** One request costs what it is given. */
  lemma DrawCosts(r: Rate, b: Bucket, now: real)
    ensures Stock(r, Draw(r, b, now), now) + (if Allows(r, b, now) then 1.0 else 0.0) <= Stock(r, b, now)
  {
    if Allows(r, b, now) {
      LevelAtOnce(r, Draw(r, b, now), now);
    }
  }

  lemma StockOfNew(r: Rate, m: Limiters, ip: string, now: real, then_: real, inflow: real)
    requires r.rps > 0.0 && now <= then_ && inflow == Inflow(r, then_ - now)
    ensures Stock(r, BucketOf(r, m, ip, then_), then_) <= Stock(r, BucketOf(r, m, ip, now), now) + inflow
  {
    Flow(r, then_ - now);
    if ip in m {
      StockGrows(r, m[ip].bucket, now, then_, inflow);
    } else {
      LevelAtOnce(r, NewBucket(r, now), now);
      LevelAtOnce(r, NewBucket(r, then_), then_);
    }
  }

  lemma DrawnStock(r: Rate, m: Limiters, e: Event, ip: string, one: real, before: real, after_: real)
    requires e.Request?
    requires one == if e.ip == ip && Allows(r, BucketOf(r, m, e.ip, e.at), e.at) then 1.0 else 0.0
    requires before == Stock(r, BucketOf(r, m, ip, e.at), e.at)
    requires after_ == Stock(r, BucketOf(r, After(r, m, e), ip, e.at), e.at)
    ensures after_ + one <= before
  {
    if e.ip == ip {
      DrawCosts(r, BucketOf(r, m, ip, e.at), e.at);
    }
  }

  /** A request pays for what it is given out of the stock of its address. */
  lemma RequestPays(r: Rate, m: Limiters, e: Event, ip: string, now: real, one: real, inflow: real)
    requires r.rps > 0.0 && e.Request? && now <= e.at && inflow == Inflow(r, e.at - now)
    requires one == if e.ip == ip && Allows(r, BucketOf(r, m, e.ip, e.at), e.at) then 1.0 else 0.0
    ensures Stock(r, BucketOf(r, After(r, m, e), ip, e.at), e.at) + one
         <= Stock(r, BucketOf(r, m, ip, now), now) + inflow
  {
    StockOfNew(r, m, ip, now, e.at, inflow);
    DrawnStock(r, m, e, ip, one, Stock(r, BucketOf(r, m, ip, e.at), e.at),
               Stock(r, BucketOf(r, After(r, m, e), ip, e.at), e.at));
  }

  ghost predicate Flows(flow: (real, real) -> real) {
    && (forall s, t :: s <= t ==> flow(s, t) >= 0.0)
    && (forall s, t, u :: flow(s, t) + flow(t, u) == flow(s, u))
  }

  /** A stock that is never negative, is filled by a flow, and pays for every request. */
  ghost predicate Pays(r: Rate, ip: string, stock: (Limiters, real) -> real, flow: (real, real) -> real) {
    && (forall m, t :: stock(m, t) >= 0.0)
    && (forall m, e: Event, now :: e.Request? && now <= e.at ==>
          stock(After(r, m, e), e.at) + (if e.ip == ip && Allows(r, BucketOf(r, m, e.ip, e.at), e.at) then 1.0 else 0.0)
          <= stock(m, now) + flow(now, e.at))
  }

  /** Such a stock, with what flows in, bounds the number of requests let through. */
  lemma {:induction false} PaidFor(r: Rate, m: Limiters, run: seq<Event>, ip: string, now: real, from: real, to: real,
                                   ds: seq<bool>, stock: (Limiters, real) -> real, flow: (real, real) -> real)
    requires NoSweeps(run) && InOrder(now, run) && now <= to && Flows(flow) && Pays(r, ip, stock, flow)
    requires ds == Decisions(r, m, run) && |ds| == |run|
    ensures Admitted(run, ds, ip, from, to) as real <= stock(m, now) + flow(now, to)
    decreases |run|
  {
    assert stock(m, now) >= 0.0 && flow(now, to) >= 0.0;
    if run == [] {
    } else if run[0].at > to {
      NoneAfter(run, ds, ip, from, to);
    } else {
      PaidFor(r, After(r, m, run[0]), run[1..], ip, run[0].at, from, to, ds[1..], stock, flow);
      assert flow(now, run[0].at) + flow(run[0].at, to) == flow(now, to);
    }
  }

  lemma RateFlows(r: Rate, flow: (real, real) -> real)
    requires r.rps > 0.0 && flow == ((s: real, t: real) => Inflow(r, t - s))
    ensures Flows(flow)
  {
    forall s, t | s <= t ensures flow(s, t) >= 0.0 {
      Flow(r, t - s);
    }
    forall s, t, u ensures flow(s, t) + flow(t, u) == flow(s, u) {
      InflowSplits(r, s, t, u);
    }
  }

  lemma StockPays(r: Rate, ip: string, stock: (Limiters, real) -> real, flow: (real, real) -> real)
    requires r.rps > 0.0
    requires stock == ((m: Limiters, t: real) => Stock(r, BucketOf(r, m, ip, t), t))
    requires flow == ((s: real, t: real) => Inflow(r, t - s))
    ensures Pays(r, ip, stock, flow)
  {
    forall m, e: Event, now | e.Request? && now <= e.at
      ensures stock(After(r, m, e), e.at)
              + (if e.ip == ip && Allows(r, BucketOf(r, m, e.ip, e.at), e.at) then 1.0 else 0.0)
              <= stock(m, now) + flow(now, e.at)
    {
      var one := if e.ip == ip && Allows(r, BucketOf(r, m, e.ip, e.at), e.at) then 1.0 else 0.0;
      RequestPays(r, m, e, ip, now, one, flow(now, e.at));
    }
  }

  /** From the first request inside the window on, the stock is at most the burst. */
  lemma {:induction false} AdmittedInWindow(r: Rate, m: Limiters, run: seq<Event>, ip: string, now: real, from: real,
                                            to: real,
                                            ds: seq<bool>, stock: (Limiters, real) -> real, flow: (real, real) -> real)
    requires NoSweeps(run) && InOrder(now, run) && from <= to && Flows(flow) && Pays(r, ip, stock, flow)
    requires ds == Decisions(r, m, run) && |ds| == |run|
    requires forall n, t :: stock(n, t) <= Capacity(r)
    ensures Admitted(run, ds, ip, from, to) as real <= Capacity(r) + flow(from, to)
    decreases |run|
  {
    if run != [] && run[0].at < from {
      AdmittedInWindow(r, After(r, m, run[0]), run[1..], ip, run[0].at, from, to, ds[1..], stock, flow);
    } else {
      PaidFor(r, m, run, ip, from, from, to, ds, stock, flow);
      assert stock(m, from) <= Capacity(r);
    }
  }

  lemma PlainRunIsBounded(r: Rate, run: seq<Event>, ip: string, from: real, to: real, ds: seq<bool>)
    requires r.rps > 0.0 && NoSweeps(run) && InOrder(0.0, run) && from <= to
    requires ds == Decisions(r, map[], run) && |ds| == |run|
    ensures Admitted(run, ds, ip, from, to) as real <= Capacity(r) + Inflow(r, to - from)
  {
    var stock := (m: Limiters, t: real) => Stock(r, BucketOf(r, m, ip, t), t);
    var flow := (s: real, t: real) => Inflow(r, t - s);
    RateFlows(r, flow);
    StockPays(r, ip, stock, flow);
    AdmittedInWindow(r, map[], run, ip, 0.0, from, to, ds, stock, flow);
    assert flow(from, to) == Inflow(r, to - from);
  }

  /** In any window of T seconds an address gets at most burst + T * rps requests through,
      sweeps or not, if ten minutes fill a bucket. */
  lemma AdmittedAtMostBurstPlusRate(r: Rate, run: seq<Event>, ip: string, from: real, to: real)
    requires r.rps > 0.0 && r.burst as real <= 600.0 * r.rps
    requires InOrder(0.0, run) && from <= to
    ensures LetThrough(r, run, ip, from, to) as real <= Capacity(r) + Inflow(r, to - from)
  {
    OneAnswerEach(r, map[], run);
    DecisionsMirror(r, map[], map[], 0.0, run);
    WithoutSweepsHasNone(run, 0.0);
    PlainRunIsBounded(r, WithoutSweeps(run), ip, from, to, Decisions(r, map[], run));
  }

  // ---- if the burst takes longer to fill up, a sweep gives it twice ----

  lemma {:induction false} RepeatIs(e: Event, k: nat)
    ensures |Repeat(e, k)| == k && forall i :: 0 <= i < k ==> Repeat(e, k)[i] == e
  {
    if k == 0 {
    } else {
      RepeatIs(e, k - 1);
    }
  }

  lemma {:induction false} AllAdmitted(requests: seq<Event>, answers: seq<bool>, ip: string, from: real, to: real)
    requires |requests| == |answers| && false !in answers
    requires forall e :: e in requests ==> e.Request? && e.ip == ip && from <= e.at <= to
    ensures Admitted(requests, answers, ip, from, to) == |requests|
    decreases |requests|
  {
    if requests == [] {
    } else {
      assert answers[0] in answers && requests[0] in requests;
      AllAdmitted(requests[1..], answers[1..], ip, from, to);
    }
  }

  /** Emptied, forgotten and emptied again. */
  lemma BurstPassesTwice(r: Rate, wait: real)
    requires r.rps > 0.0 && r.burst >= 1 && wait > IDLE
    ensures LetThrough(r, EmptyWaitAsk(r, wait), "a", 0.0, wait) == r.burst + r.burst
  {
    var run := EmptyWaitAsk(r, wait);
    OneAnswerEach(r, map[], run);
    WithSweepAllPass(r, wait);
    SweepDropped(r, wait);
    RepeatIs(Request("a", 0.0), r.burst);
    RepeatIs(Request("a", wait), r.burst);
    AllAdmitted(WithoutSweeps(run), Decisions(r, map[], run), "a", 0.0, wait);
  }

  lemma TooManyPass(r: Rate) returns (run: seq<Event>, wait: real)
    requires r.rps > 0.0 && r.burst as real > IDLE * r.rps
    ensures InOrder(0.0, run) && 0.0 <= wait
    ensures LetThrough(r, run, "a", 0.0, wait) as real > Capacity(r) + Inflow(r, wait - 0.0)
  {
    wait := Wait(r);
    Halfway(IDLE, r.rps, r.burst as real, wait);
    run := EmptyWaitAsk(r, wait);
    EmptyWaitAskInOrder(r, wait);
    BurstPassesTwice(r, wait);
    assert Inflow(r, wait - 0.0) < r.burst as real;
  }

  /** The bound on every window of every run holds exactly when ten minutes fill a bucket. */
  lemma WindowsAreBoundedIff(r: Rate)
    requires r.rps > 0.0
    ensures (forall run, ip, from, to :: InOrder(0.0, run) && from <= to ==>
              LetThrough(r, run, ip, from, to) as real <= Capacity(r) + Inflow(r, to - from))
            <==> r.burst as real <= 600.0 * r.rps
  {
    if r.burst as real <= IDLE * r.rps {
      forall run, ip, from, to | InOrder(0.0, run) && from <= to
        ensures LetThrough(r, run, ip, from, to) as real <= Capacity(r) + Inflow(r, to - from)
      {
        AdmittedAtMostBurstPlusRate(r, run, ip, from, to);
      }
    } else {
      var run, wait := TooManyPass(r);
    }
  }
}
