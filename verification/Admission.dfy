/** internal/api/middleware.go, lines 162-186: exactly which requests the rate limiter lets
    through, and what the denied ones cost. */
module Admission {
  import opened RateLimit

  // ---- exactly when a request passes ----

  /** The map after a run. */
  function Through(r: Rate, m: Limiters, run: seq<Event>): Limiters
    decreases |run|
  {
    if run == [] then m else Through(r, After(r, m, run[0]), run[1..])
  }

  lemma {:induction false} RunSnoc(r: Rate, m: Limiters, run: seq<Event>, e: Event)
    ensures Through(r, m, run + [e]) == After(r, Through(r, m, run), e)
    ensures e.Request? ==>
              Decisions(r, m, run + [e])
              == Decisions(r, m, run) + [Allows(r, BucketOf(r, Through(r, m, run), e.ip, e.at), e.at)]
    decreases |run|
  {
    if run == [] {
      assert run + [e] == [e] && [e][1..] == [];
    } else {
      RunSnoc(r, After(r, m, run[0]), run[1..], e);
      assert (run + [e])[1..] == run[1..] + [e];
    }
  }

  lemma {:induction false} AdmittedSnoc(run: seq<Event>, ds: seq<bool>, e: Event, d: bool, ip: string,
                                        from: real, to: real)
    requires |run| == |ds|
    ensures Admitted(run + [e], ds + [d], ip, from, to)
         == Admitted(run, ds, ip, from, to) + if e.Request? && e.ip == ip && d && from <= e.at <= to then 1 else 0
    decreases |run|
  {
    if run == [] {
      assert run + [e] == [e] && ds + [d] == [d] && [e][1..] == [] && [d][1..] == [];
    } else {
      AdmittedSnoc(run[1..], ds[1..], e, d, ip, from, to);
      assert (run + [e])[1..] == run[1..] + [e] && (ds + [d])[1..] == ds[1..] + [d];
    }
  }

  predicate UpTo(run: seq<Event>, t: real) {
    forall e :: e in run ==> e.at <= t
  }

  /** Nothing passes after the last request. */
  lemma {:induction false} AdmittedUpTo(run: seq<Event>, ds: seq<bool>, ip: string, from: real, s: real, t: real)
    requires |run| == |ds| && UpTo(run, s) && s <= t
    ensures Admitted(run, ds, ip, from, t) == Admitted(run, ds, ip, from, s)
    ensures from > s ==> Admitted(run, ds, ip, from, t) == 0
    decreases |run|
  {
    if run == [] {
    } else {
      assert run[0] in run;
      AdmittedUpTo(run[1..], ds[1..], ip, from, s, t);
    }
  }

  /** What a window that opens at from leaves of the bound at t. */
  function Slack(r: Rate, run: seq<Event>, ds: seq<bool>, ip: string, from: real, t: real): real
    requires |run| == |ds|
  {
    r.burst as real + Inflow(r, t - from) - Admitted(run, ds, ip, from, t) as real
  }

  /** level is the least that any window up to t leaves. */
  ghost predicate LeastSlack(r: Rate, run: seq<Event>, ds: seq<bool>, ip: string, t: real, level: real)
    requires |run| == |ds|
  {
    && (forall from :: from <= t ==> level <= Slack(r, run, ds, ip, from, t))
    && (exists from :: from <= t && level == Slack(r, run, ds, ip, from, t))
  }

  /** A level grows with time, up to the burst. */
  function Later(r: Rate, level: real, s: real, t: real): real {
    if level + Inflow(r, t - s) >= r.burst as real then r.burst as real else level + Inflow(r, t - s)
  }

  lemma LevelLater(r: Rate, b: Bucket, s: real, t: real)
    requires r.rps > 0.0 && s <= t
    ensures Level(r, b, t) == Later(r, Level(r, b, s), s, t)
  {
    InflowSplits(r, b.last, s, t);
    Flow(r, t - s);
  }

  lemma LevelOfLater(r: Rate, m: Limiters, ip: string, s: real, t: real)
    requires r.rps > 0.0 && s <= t
    ensures Level(r, BucketOf(r, m, ip, t), t) == Later(r, Level(r, BucketOf(r, m, ip, s), s), s, t)
  {
    if ip in m {
      LevelLater(r, m[ip].bucket, s, t);
    } else {
      NewIsFull(r, s);
      NewIsFull(r, t);
      Flow(r, t - s);
    }
  }

  lemma SlackLater(r: Rate, run: seq<Event>, ds: seq<bool>, ip: string, from: real, s: real, t: real)
    requires |run| == |ds| && UpTo(run, s) && s <= t
    ensures from <= s ==> Slack(r, run, ds, ip, from, t) == Slack(r, run, ds, ip, from, s) + Inflow(r, t - s)
    ensures from > s ==> Slack(r, run, ds, ip, from, t) == r.burst as real + Inflow(r, t - from)
  {
    AdmittedUpTo(run, ds, ip, from, s, t);
    InflowSplits(r, from, s, t);
  }

  lemma LeastLater(r: Rate, run: seq<Event>, ds: seq<bool>, ip: string, s: real, t: real, level: real)
    requires r.rps > 0.0 && |run| == |ds| && UpTo(run, s) && s <= t
    requires LeastSlack(r, run, ds, ip, s, level) && level <= r.burst as real
    ensures LeastSlack(r, run, ds, ip, t, Later(r, level, s, t))
  {
    var later := Later(r, level, s, t);
    Flow(r, t - s);
    forall from | from <= t ensures later <= Slack(r, run, ds, ip, from, t) {
      SlackLater(r, run, ds, ip, from, s, t);
      Flow(r, t - from);
    }
    var best :| best <= s && level == Slack(r, run, ds, ip, best, s);
    SlackLater(r, run, ds, ip, best, s, t);
    SlackLater(r, run, ds, ip, t, s, t);
    NoInflow(r, t - t);
    if s == t {
      NoInflow(r, t - s);
      assert later == Slack(r, run, ds, ip, best, t);
    }
  }

  /** A request that passes takes one from every window that holds it; others take none. */
  lemma LeastAfter(r: Rate, run: seq<Event>, ds: seq<bool>, e: Event, d: bool, ip: string, level: real)
    requires |run| == |ds| && e.Request? && LeastSlack(r, run, ds, ip, e.at, level)
    ensures LeastSlack(r, run + [e], ds + [d], ip, e.at, if e.ip == ip && d then level - 1.0 else level)
  {
    forall from | from <= e.at
      ensures Slack(r, run + [e], ds + [d], ip, from, e.at)
           == Slack(r, run, ds, ip, from, e.at) - if e.ip == ip && d then 1.0 else 0.0
    {
      AdmittedSnoc(run, ds, e, d, ip, from, e.at);
    }
    var best :| best <= e.at && level == Slack(r, run, ds, ip, best, e.at);
    assert Slack(r, run + [e], ds + [d], ip, best, e.at) == if e.ip == ip && d then level - 1.0 else level;
  }

  lemma LevelAfter(r: Rate, m: Limiters, e: Event, ip: string)
    requires e.Request?
    ensures var d := Allows(r, BucketOf(r, m, e.ip, e.at), e.at);
            Level(r, BucketOf(r, After(r, m, e), ip, e.at), e.at)
            == Level(r, BucketOf(r, m, ip, e.at), e.at) - if e.ip == ip && d then 1.0 else 0.0
  {
    var b := BucketOf(r, m, e.ip, e.at);
    if e.ip == ip && Allows(r, b, e.at) {
      LevelAtOnce(r, Draw(r, b, e.at), e.at);
    }
  }

  lemma LevelIsAtMostBurst(r: Rate, b: Bucket, t: real)
    ensures Level(r, b, t) <= r.burst as real
  {
  }

  lemma StartIsLeast(r: Rate, ip: string, t: real)
    requires r.rps > 0.0
    ensures LeastSlack(r, [], [], ip, t, Level(r, BucketOf(r, map[], ip, t), t))
  {
    NewIsFull(r, t);
    NoInflow(r, t - t);
    forall from | from <= t ensures r.burst as real <= Slack(r, [], [], ip, from, t) {
      Flow(r, t - from);
    }
    assert Slack(r, [], [], ip, t, t) == r.burst as real;
  }

  lemma {:induction false} OrderedSnoc(now: real, run: seq<Event>, e: Event)
    requires InOrder(now, run + [e])
    ensures InOrder(now, run) && UpTo(run, e.at) && now <= e.at
    decreases |run|
  {
    if run == [] {
      assert (run + [e])[0] == e;
    } else {
      assert (run + [e])[1..] == run[1..] + [e] && (run + [e])[0] == run[0];
      OrderedSnoc(run[0].at, run[1..], e);
      assert forall x :: x in run ==> x == run[0] || x in run[1..];
    }
  }

  /** The level of an address is what the tightest window up to now leaves. */
  lemma {:induction false} LevelIsLeastSlack(r: Rate, run: seq<Event>, ds: seq<bool>, ip: string, t: real)
    requires r.rps > 0.0 && NoSweeps(run) && InOrder(0.0, run) && UpTo(run, t)
    requires ds == Decisions(r, map[], run) && |ds| == |run|
    ensures LeastSlack(r, run, ds, ip, t, Level(r, BucketOf(r, Through(r, map[], run), ip, t), t))
    decreases |run|
  {
    if run == [] {
      StartIsLeast(r, ip, t);
    } else {
      var init, e := run[..|run| - 1], run[|run| - 1];
      assert run == init + [e];
      LevelStep(r, init, e, ip, t);
    }
  }

  lemma LevelStep(r: Rate, init: seq<Event>, e: Event, ip: string, t: real)
    requires r.rps > 0.0 && NoSweeps(init + [e]) && InOrder(0.0, init + [e]) && e.at <= t
    ensures |Decisions(r, map[], init + [e])| == |init + [e]|
    ensures LeastSlack(r, init + [e], Decisions(r, map[], init + [e]), ip, t,
                       Level(r, BucketOf(r, Through(r, map[], init + [e]), ip, t), t))
    decreases |init| + 1, 0
  {
    var m, ds := Through(r, map[], init), Decisions(r, map[], init);
    var d := Allows(r, BucketOf(r, m, e.ip, e.at), e.at);
    assert (init + [e])[|init|] == e && forall i :: 0 <= i < |init| ==> (init + [e])[i] == init[i];
    OrderedSnoc(0.0, init, e);
    PlainAnswers(r, map[], init);
    RunSnoc(r, map[], init, e);
    LevelIsLeastSlack(r, init, ds, ip, e.at);
    LeastAfter(r, init, ds, e, d, ip, Level(r, BucketOf(r, m, ip, e.at), e.at));
    LevelAfter(r, m, e, ip);
    var level := Level(r, BucketOf(r, After(r, m, e), ip, e.at), e.at);
    LevelIsAtMostBurst(r, BucketOf(r, After(r, m, e), ip, e.at), e.at);
    UpToSnoc(init, e);
    LeastLater(r, init + [e], ds + [d], ip, e.at, t, level);
    LevelOfLater(r, After(r, m, e), ip, e.at, t);
  }

  lemma UpToSnoc(init: seq<Event>, e: Event)
    requires UpTo(init, e.at)
    ensures UpTo(init + [e], e.at)
  {
    assert forall x :: x in init + [e] ==> x in init || x == e;
  }

  /** Without sweeps every event gets an answer. */
  lemma {:induction false} PlainAnswers(r: Rate, m: Limiters, run: seq<Event>)
    requires NoSweeps(run)
    ensures |Decisions(r, m, run)| == |run| && WithoutSweeps(run) == run
    decreases |run|
  {
    if run == [] {
    } else {
      assert forall i :: 0 <= i < |run[1..]| ==> run[1..][i] == run[i + 1];
      PlainAnswers(r, After(r, m, run[0]), run[1..]);
    }
  }

  predicate HasRoom(r: Rate, run: seq<Event>, ds: seq<bool>, ip: string, from: real, t: real)
    requires |run| == |ds|
  {
    Slack(r, run, ds, ip, from, t) >= 1.0
  }

  lemma PlainPassesIff(r: Rate, run: seq<Event>, ds: seq<bool>, ip: string, t: real)
    requires r.rps > 0.0 && NoSweeps(run) && InOrder(0.0, run + [Request(ip, t)])
    requires ds == Decisions(r, map[], run) && |ds| == |run|
    ensures Allows(r, BucketOf(r, Through(r, map[], run), ip, t), t) <==>
              forall from :: from <= t ==> HasRoom(r, run, ds, ip, from, t)
  {
    OrderedSnoc(0.0, run, Request(ip, t));
    LevelIsLeastSlack(r, run, ds, ip, t);
    var level := Level(r, BucketOf(r, Through(r, map[], run), ip, t), t);
    LevelIsAtMostBurst(r, BucketOf(r, Through(r, map[], run), ip, t), t);
    if level >= 1.0 {
      forall from | from <= t ensures HasRoom(r, run, ds, ip, from, t) {
        assert level <= Slack(r, run, ds, ip, from, t);
      }
    } else {
      var best :| best <= t && level == Slack(r, run, ds, ip, best, t);
      assert !HasRoom(r, run, ds, ip, best, t);
    }
  }

  lemma {:induction false} WithoutSweepsSnoc(run: seq<Event>, e: Event)
    requires e.Request?
    ensures WithoutSweeps(run + [e]) == WithoutSweeps(run) + [e]
  {
    if run == [] {
      assert run + [e] == [e] && [e][1..] == [];
    } else {
      WithoutSweepsSnoc(run[1..], e);
      assert (run + [e])[1..] == run[1..] + [e];
    }
  }

  /** Sweeps do not matter in this run. */
  predicate SweepsShowNot(r: Rate, run: seq<Event>) {
    NoSweeps(run) || r.burst as real <= 600.0 * r.rps
  }

  lemma PlainDecides(r: Rate, run: seq<Event>)
    requires r.rps > 0.0 && SweepsShowNot(r, run) && InOrder(0.0, run)
    ensures Decisions(r, map[], run) == Decisions(r, map[], WithoutSweeps(run))
  {
    if NoSweeps(run) {
      PlainAnswers(r, map[], run);
    } else {
      DecisionsMirror(r, map[], map[], 0.0, run);
    }
  }

  /** One more request in the window from there to t keeps to the burst and what flows in. */
  predicate WindowAllows(r: Rate, run: seq<Event>, ip: string, from: real, t: real) {
    LetThrough(r, run, ip, from, t) as real + 1.0 <= r.burst as real + (t - from) * r.rps
  }

  lemma WindowOfPlain(r: Rate, run: seq<Event>, ip: string, from: real, t: real, ds: seq<bool>)
    requires ds == Decisions(r, map[], run) && |ds| == |WithoutSweeps(run)|
    ensures WindowAllows(r, run, ip, from, t) <==> HasRoom(r, WithoutSweeps(run), ds, ip, from, t)
  {
  }

  lemma WindowsOfPlain(r: Rate, run: seq<Event>, ip: string, t: real, ds: seq<bool>)
    requires ds == Decisions(r, map[], run) && |ds| == |WithoutSweeps(run)|
    ensures (forall from :: from <= t ==> WindowAllows(r, run, ip, from, t))
            <==> forall from :: from <= t ==> HasRoom(r, WithoutSweeps(run), ds, ip, from, t)
  {
    forall from ensures WindowAllows(r, run, ip, from, t) <==> HasRoom(r, WithoutSweeps(run), ds, ip, from, t) {
      WindowOfPlain(r, run, ip, from, t, ds);
    }
  }

  lemma PlainRun(r: Rate, run: seq<Event>, e: Event, plain: seq<Event>)
    requires r.rps > 0.0 && SweepsShowNot(r, run) && e.Request? && InOrder(0.0, run + [e])
    requires plain == WithoutSweeps(run)
    ensures NoSweeps(plain) && InOrder(0.0, plain + [e]) && |plain| == |Decisions(r, map[], run)|
    ensures Decisions(r, map[], run) == Decisions(r, map[], plain)
    ensures Decisions(r, map[], run + [e]) == Decisions(r, map[], plain + [e])
  {
    OrderedSnoc(0.0, run, e);
    assert NoSweeps(run) ==> NoSweeps(run + [e]);
    PlainDecides(r, run);
    PlainDecides(r, run + [e]);
    WithoutSweepsSnoc(run, e);
    WithoutSweepsHasNone(run, 0.0);
    WithoutSweepsHasNone(run + [e], 0.0);
    OneAnswerEach(r, map[], run);
  }

  /** A request passes exactly if, with it, no window that ends now lets more through than
      the burst and what flows in meanwhile: in every run if ten minutes fill a bucket, and
      otherwise in every run without a sweep. */
  lemma PassesIffEveryWindowAllows(r: Rate, run: seq<Event>, ip: string, t: real, passes: bool)
    requires r.rps > 0.0 && SweepsShowNot(r, run) && InOrder(0.0, run + [Request(ip, t)])
    requires passes <==> forall from :: from <= t ==> WindowAllows(r, run, ip, from, t)
    ensures Decisions(r, map[], run + [Request(ip, t)]) == Decisions(r, map[], run) + [passes]
  {
    var e, plain, ds := Request(ip, t), WithoutSweeps(run), Decisions(r, map[], run);
    PlainRun(r, run, e, plain);
    RunSnoc(r, map[], plain, e);
    PlainPassesIff(r, plain, ds, ip, t);
    WindowsOfPlain(r, run, ip, t, ds);
  }

  // ---- a denied request costs nothing ----

  /** Without a request that was denied, all other answers are the same. */
  ghost predicate DenialsCostNothing(r: Rate) {
    forall a, ip, t, b, rest: seq<bool> :: DeniedIn(r, a, ip, t, b, rest) ==>
      Decisions(r, map[], a + b) == Decisions(r, map[], a) + rest
  }

  ghost predicate DeniedIn(r: Rate, a: seq<Event>, ip: string, t: real, b: seq<Event>, rest: seq<bool>) {
    && InOrder(0.0, a + [Request(ip, t)] + b)
    && Decisions(r, map[], a + [Request(ip, t)] + b) == Decisions(r, map[], a) + [false] + rest
  }

  lemma {:induction false} DecisionsAppend(r: Rate, m: Limiters, a: seq<Event>, b: seq<Event>)
    ensures Decisions(r, m, a + b) == Decisions(r, m, a) + Decisions(r, Through(r, m, a), b)
    ensures Through(r, m, a + b) == Through(r, Through(r, m, a), b)
    decreases |a|
  {
    if a == [] {
      assert a + b == b;
    } else {
      DecisionsAppend(r, After(r, m, a[0]), a[1..], b);
      assert (a + b)[1..] == a[1..] + b;
    }
  }

  /** Two maps that hold buckets which no later request tells apart. */
  ghost predicate AlikeMaps(r: Rate, m: Limiters, n: Limiters, now: real) {
    forall ip, t :: now <= t ==> Alike(r, BucketOf(r, m, ip, t), BucketOf(r, n, ip, t), t)
  }

  lemma HandleKeepsAlike(r: Rate, m: Limiters, n: Limiters, e: Event)
    requires r.rps > 0.0 && e.Request? && AlikeMaps(r, m, n, e.at)
    ensures Allows(r, BucketOf(r, m, e.ip, e.at), e.at) == Allows(r, BucketOf(r, n, e.ip, e.at), e.at)
    ensures AlikeMaps(r, After(r, m, e), After(r, n, e), e.at)
  {
    var b, c := BucketOf(r, m, e.ip, e.at), BucketOf(r, n, e.ip, e.at);
    DrawIsAlike(r, b, c, e.at);
    forall ip, t | e.at <= t
      ensures Alike(r, BucketOf(r, After(r, m, e), ip, t), BucketOf(r, After(r, n, e), ip, t), t)
    {
      if ip == e.ip {
        AlikeLater(r, Draw(r, b, e.at), Draw(r, c, e.at), e.at, t);
      } else {
        assert Alike(r, BucketOf(r, m, ip, t), BucketOf(r, n, ip, t), t);
      }
    }
  }

  lemma AlikeLater(r: Rate, b: Bucket, c: Bucket, s: real, t: real)
    requires r.rps > 0.0 && s <= t && Alike(r, b, c, s)
    ensures Alike(r, b, c, t)
  {
    if b != c {
      FullStays(r, b, s, t);
      FullStays(r, c, s, t);
    }
  }

  lemma {:induction false} AlikeAnswers(r: Rate, m: Limiters, n: Limiters, now: real, run: seq<Event>)
    requires r.rps > 0.0 && NoSweeps(run) && InOrder(now, run) && AlikeMaps(r, m, n, now)
    ensures Decisions(r, m, run) == Decisions(r, n, run)
    decreases |run|
  {
    if run == [] {
    } else {
      assert AlikeMaps(r, m, n, run[0].at);
      HandleKeepsAlike(r, m, n, run[0]);
      AlikeAnswers(r, After(r, m, run[0]), After(r, n, run[0]), run[0].at, run[1..]);
    }
  }

  /** A denied request leaves all buckets as they were, but for one that it makes full. */
  lemma DeniedKeepsAlike(r: Rate, m: Limiters, ip: string, t: real)
    requires r.rps > 0.0 && !Allows(r, BucketOf(r, m, ip, t), t)
    ensures AlikeMaps(r, After(r, m, Request(ip, t)), m, t)
  {
    var n := After(r, m, Request(ip, t));
    forall i, u | t <= u ensures Alike(r, BucketOf(r, n, i, u), BucketOf(r, m, i, u), u) {
      if i == ip && ip !in m {
        NewIsFullToo(r, t);
        NewIsFullToo(r, u);
        FullStays(r, NewBucket(r, t), t, u);
      }
    }
  }

  lemma {:induction false} OrderedTail(now: real, a: seq<Event>, e: Event, b: seq<Event>)
    requires InOrder(now, a + [e] + b)
    ensures InOrder(e.at, b) && InOrder(now, a + b) && InOrder(now, a + [e])
    decreases |a|
  {
    if a == [] {
      assert a + [e] + b == [e] + b && ([e] + b)[1..] == b && a + b == b && a + [e] == [e];
      if b != [] { assert now <= e.at <= b[0].at; }
    } else {
      assert (a + [e] + b)[1..] == a[1..] + [e] + b && (a + b)[1..] == a[1..] + b;
      assert (a + [e])[1..] == a[1..] + [e];
      OrderedTail(a[0].at, a[1..], e, b);
    }
  }

  lemma PlainDenialCostsNothing(r: Rate, a: seq<Event>, ip: string, t: real, b: seq<Event>, rest: seq<bool>)
    requires r.rps > 0.0 && NoSweeps(a) && NoSweeps(b) && DeniedIn(r, a, ip, t, b, rest)
    ensures Decisions(r, map[], a + b) == Decisions(r, map[], a) + rest
  {
    var e, m := Request(ip, t), Through(r, map[], a);
    OrderedTail(0.0, a, e, b);
    DecisionsAppend(r, map[], a + [e], b);
    RunSnoc(r, map[], a, e);
    DecisionsAppend(r, map[], a, b);
    var d := Allows(r, BucketOf(r, m, ip, t), t);
    SplitsAlike(Decisions(r, map[], a), d, Decisions(r, After(r, m, e), b), rest);
    DeniedKeepsAlike(r, m, ip, t);
    AlikeAnswers(r, After(r, m, e), m, t, b);
  }

  lemma SplitsAlike(da: seq<bool>, d: bool, db: seq<bool>, rest: seq<bool>)
    requires da + [d] + db == da + [false] + rest
    ensures d == false && db == rest
  {
    assert (da + [d] + db)[|da|] == d && (da + [false] + rest)[|da|] == false;
    assert (da + [d] + db)[|da| + 1..] == db && (da + [false] + rest)[|da| + 1..] == rest;
  }

  lemma {:induction false} WithoutSweepsAppend(a: seq<Event>, b: seq<Event>)
    ensures WithoutSweeps(a + b) == WithoutSweeps(a) + WithoutSweeps(b)
  {
    if a == [] {
      assert a + b == b;
    } else {
      WithoutSweepsAppend(a[1..], b);
      assert (a + b)[1..] == a[1..] + b;
    }
  }

  lemma DenialCostsNothing(r: Rate, a: seq<Event>, ip: string, t: real, b: seq<Event>, rest: seq<bool>)
    requires r.rps > 0.0 && r.burst as real <= 600.0 * r.rps && DeniedIn(r, a, ip, t, b, rest)
    ensures Decisions(r, map[], a + b) == Decisions(r, map[], a) + rest
  {
    var e := Request(ip, t);
    OrderedTail(0.0, a, e, b);
    OrderedSnoc(0.0, a, e);
    DecisionsMirror(r, map[], map[], 0.0, a + [e] + b);
    DecisionsMirror(r, map[], map[], 0.0, a + b);
    DecisionsMirror(r, map[], map[], 0.0, a);
    WithoutSweepsAppend(a + [e], b);
    WithoutSweepsSnoc(a, e);
    WithoutSweepsAppend(a, b);
    WithoutSweepsHasNone(a + [e] + b, 0.0);
    WithoutSweepsHasNone(a, 0.0);
    WithoutSweepsHasNone(b, t);
    PlainDenialCostsNothing(r, WithoutSweeps(a), ip, t, WithoutSweeps(b), rest);
  }

  /** With a longer time to fill up, a denied request can keep an address from being
      forgotten, so that its bucket is not full again. */
  lemma DenialShows(r: Rate, x: real) returns (a: seq<Event>, b: seq<Event>, rest: seq<bool>)
    requires r.rps > 0.0 && r.burst >= 1 && 0.0 < x
    requires Inflow(r, x) < 1.0 && Inflow(r, IDLE + x) < r.burst as real
    ensures DeniedIn(r, a, "a", x, b, rest)
    ensures Decisions(r, map[], a + b) != Decisions(r, map[], a) + rest
  {
    var wait, e := IDLE + x, Request("a", x);
    a, b := Ask(0.0, r.burst), [Sweeping(wait)] + Ask(wait, r.burst);
    KeptAwake(r, x, a, b);
    var m := Through(r, map[], a);
    var n := After(r, m, e);
    DecisionsAppend(r, map[], a + [e], b);
    RunSnoc(r, map[], a, e);
    rest := Decisions(r, n, b);
    WithSweepAllPass(r, wait);
    DecisionsAppend(r, map[], a, b);
    assert a + b == EmptyWaitAsk(r, wait);
    SleptOrder(r, x);
    FalseStays(Decisions(r, map[], a), rest);
  }

  lemma FalseStays(front: seq<bool>, rest: seq<bool>)
    requires false in rest
    ensures false in front + rest
  {
    var i :| 0 <= i < |rest| && rest[i] == false;
    assert (front + rest)[|front| + i] == false;
  }

  lemma KeptAwake(r: Rate, x: real, a: seq<Event>, b: seq<Event>)
    requires r.rps > 0.0 && r.burst >= 1 && 0.0 < x
    requires Inflow(r, x) < 1.0 && Inflow(r, IDLE + x) < r.burst as real
    requires a == Ask(0.0, r.burst) && b == [Sweeping(IDLE + x)] + Ask(IDLE + x, r.burst)
    ensures var m := Through(r, map[], a);
            && !Allows(r, BucketOf(r, m, "a", x), x)
            && false in Decisions(r, After(r, m, Request("a", x)), b)
  {
    var m := Emptied(r, a);
    var n := After(r, m, Request("a", x));
    LevelOfEmptied(r, x);
    LevelOfEmptied(r, IDLE + x);
    Flow(r, IDLE + x);
    assert n["a"] == Entry(Bucket(0.0, 0.0), x);
    var swept := SweepState(n, IDLE + x);
    assert swept["a"] == Entry(Bucket(0.0, 0.0), x);
    AskTooMany(r, swept, r.burst, IDLE + x, Bucket(0.0, 0.0), Inflow(r, IDLE + x));
    assert b[1..] == Ask(IDLE + x, r.burst);
  }

  /** After the burst at once the bucket is empty. */
  lemma Emptied(r: Rate, a: seq<Event>) returns (m: Limiters)
    requires r.rps > 0.0 && r.burst >= 1 && a == Ask(0.0, r.burst)
    ensures m == Through(r, map[], a) && "a" in m && m["a"] == Entry(Bucket(0.0, 0.0), 0.0)
  {
    m := Through(r, map[], a);
    NewIsFull(r, 0.0);
    AskedThrough(r, map[], r.burst, 0.0, NewBucket(r, 0.0), r.burst as real);
  }

  lemma {:induction false} AskedThrough(r: Rate, m: Limiters, k: nat, now: real, b: Bucket, level: real)
    requires r.burst >= 1 && k >= 1
    requires b == BucketOf(r, m, "a", now) && level == Level(r, b, now) && k as real <= level
    ensures "a" in Through(r, m, Ask(now, k))
    ensures Through(r, m, Ask(now, k))["a"] == Entry(Bucket(level - k as real, now), now)
    decreases k
  {
    var n := After(r, m, Request("a", now));
    AskOne(r, m, now, b, n);
    assert Ask(now, k)[1..] == Ask(now, k - 1);
    if k == 1 {
    } else {
      AskedThrough(r, n, k - 1, now, n["a"].bucket, level - 1.0);
    }
  }

  lemma SleptOrder(r: Rate, x: real)
    requires r.burst >= 0 && 0.0 < x
    ensures InOrder(0.0, Ask(0.0, r.burst) + [Request("a", x)] + ([Sweeping(IDLE + x)] + Ask(IDLE + x, r.burst)))
  {
    var asks := Ask(IDLE + x, r.burst);
    RepeatInOrder(IDLE + x, Request("a", IDLE + x), r.burst, []);
    assert asks + [] == asks;
    var later := [Sweeping(IDLE + x)] + asks;
    assert later[1..] == asks;
    var after_ := [Request("a", x)] + later;
    assert after_[1..] == later;
    RepeatInOrder(0.0, Request("a", 0.0), r.burst, after_);
    Reassociate(Ask(0.0, r.burst), [Request("a", x)], later);
  }

  lemma Reassociate(a: seq<Event>, b: seq<Event>, c: seq<Event>)
    ensures a + b + c == a + (b + c)
  {
  }

  /** A short time: not enough for one token, nor for the rest of the burst. */
  lemma ShortTime(r: Rate) returns (x: real)
    requires r.rps > 0.0 && r.burst as real > 600.0 * r.rps
    ensures 0.0 < x && Inflow(r, x) < 1.0 && Inflow(r, IDLE + x) < r.burst as real
    ensures r.burst >= 1
  {
    var spare := (r.burst as real - 600.0 * r.rps) / 2.0;
    var tokens := if spare < 0.5 then spare else 0.5;
    x := tokens / r.rps;
    assert Inflow(r, x) == tokens;
    InflowSplits(r, 0.0, IDLE, IDLE + x);
    assert Inflow(r, IDLE) == 600.0 * r.rps > 0.0;
    if x <= 0.0 { Grows(r, x, 0.0); }
    NoInflow(r, 0.0);
  }

  /** Removing a denied request never changes another answer exactly if ten minutes fill a
      bucket. */
  lemma DenialsCostNothingIff(r: Rate)
    requires r.rps > 0.0
    ensures DenialsCostNothing(r) <==> r.burst as real <= 600.0 * r.rps
  {
    if r.burst as real <= 600.0 * r.rps {
      forall a, ip, t, b, rest: seq<bool> | DeniedIn(r, a, ip, t, b, rest)
        ensures Decisions(r, map[], a + b) == Decisions(r, map[], a) + rest
      {
        DenialCostsNothing(r, a, ip, t, b, rest);
      }
    } else {
      var x := ShortTime(r);
      var a, b, rest := DenialShows(r, x);
    }
  }
}
