/**
 Whole runs of the /metrics endpoint: any interleaving of requests arriving at the gate, admitted
 requests entering the handler, and callers, upstream task and invalidations moving the cache on.
 */
module PipelineRuns {
  import opened Basics
  import opened MetricsPipeline
  import RL = RateLimit
  import LR = LimiterRuns
  import LA = LimiterArrivals
  import LC = LimiterCapacity
  import SF = SingleFlight
  import SP = SlotPayload
  import FH = FlightHistory

  /** The two process-wide objects, the admitted requests that have not reached `get` yet, and what
      the gate answered so far. */
  datatype Pipe<+T> = Pipe(limiter: LR.Sys, cache: SF.State<T>, waiting: nat, log: seq<Gate>)

  datatype Event<+T> =
    | Arrive(caller: RL.Key, settings: Settings, presented: Option<string>, time: real)
    | Enter(configured: bool, t1: real, t2: real)
    | Inside(e: SF.Event<T>)

  function Boot<T>(now: real): Pipe<T> {
    Pipe(LR.Start(LIMITS, now), SF.Init(METRICS_CACHE_TTL_SECONDS, now), 0, [])
  }

  predicate Genuine<T>(e: Event<T>) {
    e.Arrive? ==> Authentic(e.settings, e.presented)
  }

  /** If it is a request, it presents the token the service has. */
  ghost predicate Trusted<T>(e: Event<T>) {
    e.Arrive? ==> RightToken(e.settings, e.presented)
  }

  lemma GenuineIsTrusted<T>(e: Event<T>)
    ensures Genuine(e) <==> Trusted(e)
    ensures e.Arrive? && !Trusted(e) ==>
              Refusal(e.settings) == if Unset(e.settings) then Deny(503, None) else Deny(401, None)
  {}

  predicate Enabled<T>(s: Pipe<T>, e: Event<T>) {
    match e
    case Arrive(_, _, _, t) => Genuine(e) ==> s.limiter.clock <= t
    case Enter(configured, t1, t2) => s.waiting > 0 && (configured ==> SF.Enabled(s.cache, SF.Get(t1, t2)))
    case Inside(c) => !c.Get? && SF.Enabled(s.cache, c)
  }

  /** The gate lets a request through, or not, without ever touching the cache. */
  function Pass<T>(s: Pipe<T>, e: Event<T>): Pipe<T>
    requires s.limiter.cfg.Valid() && e.Arrive?
  {
    if !Genuine(e) then s.(log := s.log + [Refusal(e.settings)])
    else
      var gate := OfVerdict(RL.Check(s.limiter.cfg, s.limiter.st, e.caller, e.time).verdict);
      Pipe(LR.Step(s.limiter, LR.Attempt(e.caller, e.time)), s.cache,
           if gate.Admit? then s.waiting + 1 else s.waiting, s.log + [gate])
  }

  function Step<T>(s: Pipe<T>, e: Event<T>): (r: Pipe<T>)
    requires s.limiter.cfg.Valid() && Enabled(s, e)
    ensures r.limiter.cfg == s.limiter.cfg
  {
    match e
    case Arrive(_, _, _, _) => Pass(s, e)
    case Enter(configured, t1, t2) =>
      s.(waiting := s.waiting - 1, cache := if configured then SF.Step(s.cache, SF.Get(t1, t2)) else s.cache)
    case Inside(c) => s.(cache := SF.Step(s.cache, c))
  }

  predicate ValidRun<T>(s: Pipe<T>, es: seq<Event<T>>)
    requires s.limiter.cfg.Valid()
    decreases |es|
  {
    es != [] ==> Enabled(s, es[0]) && ValidRun(Step(s, es[0]), es[1..])
  }

  function Exec<T>(s: Pipe<T>, es: seq<Event<T>>): (r: Pipe<T>)
    requires s.limiter.cfg.Valid() && ValidRun(s, es)
    ensures r.limiter.cfg == s.limiter.cfg
    decreases |es|
  {
    if es == [] then s else Exec(Step(s, es[0]), es[1..])
  }

  lemma {:induction false} PrefixRuns<T>(s: Pipe<T>, es: seq<Event<T>>, n: nat)
    requires s.limiter.cfg.Valid() && ValidRun(s, es) && n <= |es|
    ensures ValidRun(s, es[..n])
    decreases n
  {
    if n > 0 {
      PrefixRuns(Step(s, es[0]), es[1..], n - 1);
      assert es[..n][1..] == es[1..][..n - 1];
    }
  }

  // ---------------------------------------------------------------- the parts run on their own

  /** What the cache sees of a run. */
  function CacheEvents<T>(es: seq<Event<T>>): seq<SF.Event<T>> {
    if es == [] then []
    else
      var e := es[0];
      (if e.Inside? then [e.e] else if e.Enter? && e.configured then [SF.Get(e.t1, e.t2)] else [])
      + CacheEvents(es[1..])
  }

  /** What the limiter sees of a run. */
  ghost function LimiterEvents<T>(es: seq<Event<T>>): seq<LR.Event> {
    if es == [] then []
    else
      var e := es[0];
      (if e.Arrive? && Trusted(e) then [LR.Attempt(e.caller, e.time)] else []) + LimiterEvents(es[1..])
  }

  lemma {:induction false} CacheRuns<T>(s: Pipe<T>, es: seq<Event<T>>)
    requires s.limiter.cfg.Valid() && ValidRun(s, es)
    ensures SF.ValidRun(s.cache, CacheEvents(es))
    ensures SF.Exec(s.cache, CacheEvents(es)) == Exec(s, es).cache
    decreases |es|
  {
    if es != [] {
      CacheRuns(Step(s, es[0]), es[1..]);
      var first := CacheEvents(es)[..|CacheEvents(es)| - |CacheEvents(es[1..])|];
      assert first != [] ==> CacheEvents(es)[1..] == CacheEvents(es[1..]);
      assert first == [] ==> CacheEvents(es) == CacheEvents(es[1..]);
    }
  }

  lemma {:induction false} LimiterRunsToo<T>(s: Pipe<T>, es: seq<Event<T>>)
    requires s.limiter.cfg.Valid() && ValidRun(s, es)
    ensures LR.ValidRun(s.limiter, LimiterEvents(es))
    ensures LR.Exec(s.limiter, LimiterEvents(es)) == Exec(s, es).limiter
    decreases |es|
  {
    if es != [] {
      LimiterRunsToo(Step(s, es[0]), es[1..]);
      if es[0].Arrive? && Trusted(es[0]) {
        assert LimiterEvents(es)[1..] == LimiterEvents(es[1..]);
      } else {
        assert LimiterEvents(es) == LimiterEvents(es[1..]);
      }
    }
  }

  /** So everything proved of the limiter and of the cache holds at every moment of the endpoint. */
  lemma PartsKeepTheirInvariants<T>(now: real, es: seq<Event<T>>)
    requires ValidRun(Boot<T>(now), es)
    ensures LR.Inv(Exec(Boot<T>(now), es).limiter) && SF.Inv(Exec(Boot<T>(now), es).cache)
  {
    CacheRuns(Boot<T>(now), es);
    LimiterRunsToo(Boot<T>(now), es);
    SF.ReachableInv(METRICS_CACHE_TTL_SECONDS, now, CacheEvents(es));
    LR.ReachableInv(LIMITS, now, LimiterEvents(es));
  }

  // ---------------------------------------------------------------- what a 200 says

  /** Whenever in a run a caller is sent a 200, its max-age is the longest whole number of seconds (0 if
      there is none) that does not reach past the stored value's expiry, and an age is never missing. If
      no call of the run found nothing fresh while a success was on its way, the payload is that value. */
  lemma RepliesWithinExpiry<T>(now: real, es: seq<Event<T>>, e: SF.Event<T>, c: nat, t: real)
    requires ValidRun(Boot<T>(now), es) && SF.Enabled(Exec(Boot<T>(now), es).cache, e)
    requires SP.Returns(Exec(Boot<T>(now), es).cache, e, c)
    requires
      var s' := SF.Step(Exec(Boot<T>(now), es).cache, e);
      c < |s'.callers| && s'.clock <= t && ReplyTo(s', c, t).Some? && ReplyTo(s', c, t).value.Served?
    ensures
      var s' := SF.Step(Exec(Boot<T>(now), es).cache, e);
      var reply := ReplyTo(s', c, t).value;
      && s'.storedAt.Some?
      && reply.maxAge <= 45
      && (reply.maxAge > 0 ==> t + reply.maxAge as real <= s'.storedAt.value + METRICS_CACHE_TTL_SECONDS)
      && s'.storedAt.value + METRICS_CACHE_TTL_SECONDS < t + (reply.maxAge + 1) as real
    ensures SF.ValidRun(SF.Init(METRICS_CACHE_TTL_SECONDS, now), CacheEvents(es))
    ensures
      var s' := SF.Step(Exec(Boot<T>(now), es).cache, e);
      SP.InTurn(SF.Init(METRICS_CACHE_TTL_SECONDS, now), CacheEvents(es)) ==>
        s'.value == Some(ReplyTo(s', c, t).value.payload)
  {
    PartsKeepTheirInvariants(now, es);
    CacheRuns(Boot<T>(now), es);
    MaxAgeNeverPastExpiry(Exec(Boot<T>(now), es).cache, e, c, t);
    if SP.InTurn(SF.Init(METRICS_CACHE_TTL_SECONDS, now), CacheEvents(es)) {
      SP.PayloadIsStored(METRICS_CACHE_TTL_SECONDS, now, CacheEvents(es), e, c);
    }
  }

  // ---------------------------------------------------------------- what a failure says

  lemma {:induction false} CacheEventsInside<T>(es: seq<Event<T>>, e: SF.Event<T>)
    requires e in CacheEvents(es) && !e.Get?
    ensures Inside(e) in es
  {
    if e in CacheEvents(es[1..]) {
      CacheEventsInside(es[1..], e);
      assert Inside(e) in es[1..];
    } else {
      assert es[0] == Inside(e);
    }
  }

  /** Whoever goes on after its `await` is answered by what the upstream task it waited for ended with in
      this run: a value with 200, a timeout with 504, a Graph failure with 502, anything else with 500. */
  lemma AnsweredByUpstream<T>(now: real, es: seq<Event<T>>, c: nat, t1: real, t2: real, t: real)
    requires ValidRun(Boot<T>(now), es) && SF.Enabled(Exec(Boot<T>(now), es).cache, SF.Resume(c, t1, t2))
    ensures
      var s := Exec(Boot<T>(now), es).cache;
      var s' := SF.Step(s, SF.Resume(c, t1, t2));
      && c < |s'.callers| && ReplyTo(s', c, t).Some?
      && exists o, at :: Inside(SF.Complete(s.callers[c].flight, o, at)) in es && AnsweredBy(o, ReplyTo(s', c, t).value)
  {
    var s := Exec(Boot<T>(now), es).cache;
    var f := s.callers[c].flight;
    CacheRuns(Boot<T>(now), es);
    FH.OutcomeWasBrought(SF.Init(METRICS_CACHE_TTL_SECONDS, now), CacheEvents(es), f);
    var o, at := s.flights[f].outcome.value, s.flights[f].endedAt.value;
    CacheEventsInside(es, SF.Complete(f, o, at));
    ReplyAfterwards(s, c, t1, t2, t);
    assert Inside(SF.Complete(f, o, at)) in es;
  }

  lemma ReplyAfterwards<T>(s: SF.State<T>, c: nat, t1: real, t2: real, t: real)
    requires SF.Enabled(s, SF.Resume(c, t1, t2))
    ensures
      var s' := SF.Step(s, SF.Resume(c, t1, t2));
      && c < |s'.callers| && ReplyTo(s', c, t).Some?
      && AnsweredBy(s.flights[s.callers[c].flight].outcome.value, ReplyTo(s', c, t).value)
  {}

  // ---------------------------------------------------------------- what the gate says

  /** The requests of a run, in order. */
  ghost function Requests<T>(es: seq<Event<T>>): seq<Event<T>> {
    if es == [] then [] else (if es[0].Arrive? then [es[0]] else []) + Requests(es[1..])
  }

  /** Only the right token gets past the token check; without one to compare with it is 503, else 401. */
  ghost predicate FairlyAnswered<T>(e: Event<T>, g: Gate)
    requires e.Arrive?
  {
    && (g.Admit? || g.status == 429 <==> RightToken(e.settings, e.presented))
    && (Unset(e.settings) ==> g == Deny(503, None))
    && (!Unset(e.settings) && !RightToken(e.settings, e.presented) ==> g == Deny(401, None))
  }

  lemma PassFairly<T>(s: Pipe<T>, e: Event<T>)
    requires s.limiter.cfg.Valid() && e.Arrive?
    ensures |Pass(s, e).log| == |s.log| + 1 && s.log == Pass(s, e).log[..|s.log|]
    ensures FairlyAnswered(e, Pass(s, e).log[|s.log|])
  {
    GenuineIsTrusted(e);
  }

  /** Every request of a run has its own answer in the log, in order, and a fair one: whatever the load, no
      request without the right token is let through or counted, and none with it is turned away but by 429. */
  lemma {:induction false} GateAnswers<T>(s: Pipe<T>, es: seq<Event<T>>)
    requires s.limiter.cfg.Valid() && ValidRun(s, es)
    ensures
      var log := Exec(s, es).log;
      && |log| == |s.log| + |Requests(es)| && s.log == log[..|s.log|]
      && forall i :: 0 <= i < |Requests(es)| ==>
           Requests(es)[i].Arrive? && FairlyAnswered(Requests(es)[i], log[|s.log| + i])
    decreases |es|
  {
    if es != [] {
      GateAnswers(Step(s, es[0]), es[1..]);
      if es[0].Arrive? {
        PassFairly(s, es[0]);
        assert Requests(es) == [es[0]] + Requests(es[1..]);
        FirstAnswer(s.log, Step(s, es[0]).log, Exec(s, es).log);
      }
    }
  }

  lemma FirstAnswer(a: seq<Gate>, b: seq<Gate>, c: seq<Gate>)
    requires |a| < |b| <= |c| && a == b[..|a|] && b == c[..|b|]
    ensures a == c[..|a|] && c[|a|] == b[|a|]
  {}

  // ---------------------------------------------------------------- refusals change nothing

  lemma PassTrusted<T>(s: Pipe<T>, e: Event<T>)
    requires s.limiter.cfg.Valid() && e.Arrive? && Trusted(e)
    ensures
      var g := OfVerdict(RL.Check(s.limiter.cfg, s.limiter.st, e.caller, e.time).verdict);
      && (g.Deny? ==> g.status == 429)
      && Pass(s, e) == Pipe(LR.Step(s.limiter, LR.Attempt(e.caller, e.time)), s.cache,
                            if g.Admit? then s.waiting + 1 else s.waiting, s.log + [g])
  {}

  /** An authentic request is told 429 exactly when its window is full, and a 429 changes neither the cache
      nor what any caller has used of its allowance. */
  lemma ThrottledChangesNothing<T>(s: Pipe<T>, e: Event<T>, k: RL.Key)
    requires LR.Inv(s.limiter) && e.Arrive? && Trusted(e) && Enabled(s, e)
    ensures
      var s' := Step(s, e);
      var gate := s'.log[|s.log|];
      && s'.log == s.log + [gate] && s'.cache == s.cache
      && (gate.Deny? <==>
            |RL.Later(LR.Log(s.limiter.trace, e.caller), e.time - s.limiter.cfg.window)| == s.limiter.cfg.limit)
      && (gate.Deny? ==>
            gate.status == 429 && s'.waiting == s.waiting && LR.Log(s'.limiter.trace, k) == LR.Log(s.limiter.trace, k))
      && (gate.Admit? ==> s'.waiting == s.waiting + 1)
  {
    PassTrusted(s, e);
    LR.AllowedWhen(s.limiter, e.caller, e.time);
    FullIsLimit(s.limiter, e.caller, e.time);
    RefusedLeavesLogs(s.limiter, e.caller, e.time, k);
  }

  lemma FullIsLimit(s: LR.Sys, k: RL.Key, t: real)
    requires LR.Inv(s) && s.clock <= t
    ensures |RL.Later(LR.Log(s.trace, k), t - s.cfg.window)| <= s.cfg.limit
  {
    LR.PrunedIsWindow(s, k, t);
  }

  lemma RefusedLeavesLogs(s: LR.Sys, caller: RL.Key, t: real, k: RL.Key)
    requires s.cfg.Valid()
    ensures
      var v := RL.Check(s.cfg, s.st, caller, t).verdict;
      && OfVerdict(v).Deny? == v.Refused? && (v.Refused? ==> OfVerdict(v).status == 429)
      && (v.Refused? ==> LR.Log(LR.Step(s, LR.Attempt(caller, t)).trace, k) == LR.Log(s.trace, k))
  {
    LR.LogAfterCheck(s, caller, t, k);
  }

  ghost function Erase<T>(es: seq<Event<T>>): seq<Event<T>> {
    if es == [] then [] else (if Trusted(es[0]) then [es[0]] else []) + Erase(es[1..])
  }

  predicate TurnedAway(g: Gate) {
    g.Deny? && g.status in {401, 503}
  }

  /** The gate's answers of the one kind or the other, in order. */
  function Answers(log: seq<Gate>, away: bool): seq<Gate> {
    if log == [] then []
    else
      var g := log[|log| - 1];
      Answers(log[..|log| - 1], away) + if TurnedAway(g) == away then [g] else []
  }

  /** What a request without the right token deserves: 503 if the service has none, 401 otherwise. */
  ghost function Deserved<T>(es: seq<Event<T>>): seq<Gate> {
    if es == [] then []
    else
      var e := es[0];
      (if Trusted(e) then [] else if Unset(e.settings) then [Deny(503, None)] else [Deny(401, None)])
      + Deserved(es[1..])
  }

  /** Alike but for what the gate told the unauthenticated. */
  ghost predicate Alike<T>(a: Pipe<T>, b: Pipe<T>) {
    && a.limiter == b.limiter && a.cache == b.cache && a.waiting == b.waiting
    && Answers(a.log, false) == Answers(b.log, false)
  }

  lemma AnswersSnoc(log: seq<Gate>, g: Gate, away: bool)
    ensures Answers(log + [g], away) == Answers(log, away) + if TurnedAway(g) == away then [g] else []
  {
    assert (log + [g])[..|log|] == log;
  }

  lemma AlikePass<T>(a: Pipe<T>, b: Pipe<T>, limiter: LR.Sys, waiting: nat, g: Gate)
    requires Alike(a, b) && !TurnedAway(g)
    ensures Alike(Pipe(limiter, a.cache, waiting, a.log + [g]), Pipe(limiter, b.cache, waiting, b.log + [g]))
    ensures Answers(a.log + [g], true) == Answers(a.log, true)
  {
    AnswersSnoc(a.log, g, false);
    AnswersSnoc(b.log, g, false);
    AnswersSnoc(a.log, g, true);
  }

  lemma AlikeTrusted<T>(a: Pipe<T>, b: Pipe<T>, e: Event<T>)
    requires a.limiter.cfg.Valid() && Alike(a, b) && Enabled(a, e) && e.Arrive? && Trusted(e)
    ensures Enabled(b, e) && Alike(Step(a, e), Step(b, e))
    ensures Answers(Step(a, e).log, true) == Answers(a.log, true)
  {
    PassTrusted(a, e);
    PassTrusted(b, e);
    AlikePass(a, b, Pass(a, e).limiter, Pass(a, e).waiting, Pass(a, e).log[|a.log|]);
  }

  lemma AlikeEnter<T>(a: Pipe<T>, b: Pipe<T>, e: Event<T>)
    requires a.limiter.cfg.Valid() && Alike(a, b) && Enabled(a, e) && e.Enter?
    ensures Enabled(b, e) && Alike(Step(a, e), Step(b, e)) && Step(a, e).log == a.log
  {}

  lemma AlikeInside<T>(a: Pipe<T>, b: Pipe<T>, e: Event<T>)
    requires a.limiter.cfg.Valid() && Alike(a, b) && Enabled(a, e) && e.Inside?
    ensures Enabled(b, e) && Alike(Step(a, e), Step(b, e)) && Step(a, e).log == a.log
  {}

  lemma AlikeStep<T>(a: Pipe<T>, b: Pipe<T>, e: Event<T>)
    requires a.limiter.cfg.Valid() && Alike(a, b) && Enabled(a, e) && Trusted(e)
    ensures Enabled(b, e) && Alike(Step(a, e), Step(b, e))
    ensures Answers(Step(a, e).log, true) == Answers(a.log, true)
  {
    match e
    case Arrive(_, _, _, _) => AlikeTrusted(a, b, e);
    case Enter(_, _, _) => AlikeEnter(a, b, e);
    case Inside(_) => AlikeInside(a, b, e);
  }

  lemma TurnAway<T>(a: Pipe<T>, b: Pipe<T>, e: Event<T>)
    requires a.limiter.cfg.Valid() && Alike(a, b) && Enabled(a, e) && !Trusted(e)
    ensures Alike(Step(a, e), b)
    ensures Answers(Step(a, e).log, true) == Answers(a.log, true) + [Refusal(e.settings)]
  {
    AnswersSnoc(a.log, Refusal(e.settings), false);
    AnswersSnoc(a.log, Refusal(e.settings), true);
  }

  lemma {:induction false} EraseRun<T>(a: Pipe<T>, b: Pipe<T>, es: seq<Event<T>>)
    requires a.limiter.cfg.Valid() && Alike(a, b) && ValidRun(a, es)
    ensures ValidRun(b, Erase(es)) && Alike(Exec(a, es), Exec(b, Erase(es)))
    ensures Answers(Exec(a, es).log, true) == Answers(a.log, true) + Deserved(es)
    decreases |es|
  {
    if es == [] {
      assert Answers(a.log, true) + [] == Answers(a.log, true);
    } else if Trusted(es[0]) {
      AlikeStep(a, b, es[0]);
      EraseFirst(es);
      EraseRun(Step(a, es[0]), Step(b, es[0]), es[1..]);
    } else {
      TurnAway(a, b, es[0]);
      EraseFirst(es);
      EraseRun(Step(a, es[0]), b, es[1..]);
      LR.Associative(Answers(a.log, true), [Refusal(es[0].settings)], Deserved(es[1..]));
    }
  }

  lemma EraseFirst<T>(es: seq<Event<T>>)
    requires es != []
    ensures if Trusted(es[0]) then Erase(es) != [] && Erase(es)[0] == es[0] && Erase(es)[1..] == Erase(es[1..])
            else Erase(es) == Erase(es[1..])
    ensures Deserved(es) ==
            if Trusted(es[0]) then Deserved(es[1..]) else [Refusal(es[0].settings)] + Deserved(es[1..])
  {}

  lemma {:induction false} NoneDeserved<T>(es: seq<Event<T>>)
    ensures Deserved(Erase(es)) == []
  {
    if es != [] {
      NoneDeserved(es[1..]);
      EraseFirst(es);
      if Trusted(es[0]) {
        EraseFirst(Erase(es));
      }
    }
  }

  lemma {:induction false} AnswersAll(log: seq<Gate>)
    requires Answers(log, true) == []
    ensures Answers(log, false) == log
  {
    if log != [] {
      var n := |log| - 1;
      assert log == log[..n] + [log[n]];
      AnswersSnoc(log[..n], log[n], true);
      AnswersSnoc(log[..n], log[n], false);
      AnswersAll(log[..n]);
    }
  }

  lemma ErasedAlike<T>(s: Pipe<T>, es: seq<Event<T>>)
    requires s.limiter.cfg.Valid() && s.log == [] && ValidRun(s, es)
    ensures ValidRun(s, Erase(es)) && Alike(Exec(s, es), Exec(s, Erase(es)))
    ensures Answers(Exec(s, es).log, true) == Deserved(es)
  {
    EraseRun(s, s, es);
    assert [] + Deserved(es) == Deserved(es);
  }

  lemma ErasedLog<T>(s: Pipe<T>, es: seq<Event<T>>)
    requires s.limiter.cfg.Valid() && s.log == [] && ValidRun(s, Erase(es))
    ensures Answers(Exec(s, Erase(es)).log, false) == Exec(s, Erase(es)).log
  {
    EraseAgain(s, es);
    AnswersAll(Exec(s, Erase(es)).log);
  }

  /** Unauthenticated traffic is invisible, whatever the load: leaving it out of any run changes neither
      limiter nor cache, and the gate's answers to the others, in order, are all it says in the run
      without it. Its own answers are 503s and 401s that depend on its token and the settings alone. */
  lemma UnauthenticatedInvisible<T>(now: real, es: seq<Event<T>>)
    requires ValidRun(Boot<T>(now), es)
    ensures ValidRun(Boot<T>(now), Erase(es))
    ensures
      var all, without := Exec(Boot<T>(now), es), Exec(Boot<T>(now), Erase(es));
      && all.limiter == without.limiter && all.cache == without.cache && all.waiting == without.waiting
      && Answers(all.log, false) == without.log
      && Answers(all.log, true) == Deserved(es)
  {
    ErasedAlike(Boot<T>(now), es);
    ErasedLog(Boot<T>(now), es);
  }

  lemma EraseAgain<T>(s: Pipe<T>, es: seq<Event<T>>)
    requires s.limiter.cfg.Valid() && s.log == [] && ValidRun(s, Erase(es))
    ensures Answers(Exec(s, Erase(es)).log, true) == []
  {
    NoneDeserved(es);
    ErasedAlike(s, Erase(es));
  }

  // ---------------------------------------------------------------- upstream calls against admissions

  function IsAdmit(): Gate -> bool {
    (g: Gate) => g.Admit?
  }

  function IsAdmitted(): LR.Entry -> bool {
    (e: LR.Entry) => e.Admitted?
  }

  ghost predicate Bounded<T>(s: Pipe<T>) {
    && |s.cache.callers| + s.waiting <= Count(IsAdmit(), s.log)
    && Count(IsAdmit(), s.log) == Count(IsAdmitted(), s.limiter.trace)
  }

  lemma {:induction false} NoneAdmittedInDrops(keys: seq<RL.Key>, t: real)
    ensures Count(IsAdmitted(), LR.Drops(keys, t)) == 0
  {
    if keys != [] {
      var n := |keys| - 1;
      NoneAdmittedInDrops(keys[..n], t);
      CountSnoc(IsAdmitted(), LR.Drops(keys[..n], t), LR.Dropped(keys[n], t));
    }
  }

  lemma AttemptCount(s: LR.Sys, k: RL.Key, t: real)
    requires s.cfg.Valid()
    ensures Count(IsAdmitted(), LR.Step(s, LR.Attempt(k, t)).trace)
              == Count(IsAdmitted(), s.trace) + if RL.Check(s.cfg, s.st, k, t).verdict.Allowed? then 1 else 0
  {
    var c := RL.Check(s.cfg, s.st, k, t);
    var entry := LR.VerdictEntry(k, t, c.verdict);
    CountSnoc(IsAdmitted(), s.trace, entry);
    CountConcat(IsAdmitted(), s.trace + [entry], LR.Drops(c.dropped, t));
    NoneAdmittedInDrops(c.dropped, t);
  }

  lemma BoundedStep<T>(s: Pipe<T>, e: Event<T>)
    requires s.limiter.cfg.Valid() && Bounded(s) && Enabled(s, e)
    ensures Bounded(Step(s, e))
  {
    if e.Arrive? {
      CountSnoc(IsAdmit(), s.log, Step(s, e).log[|s.log|]);
      assert Step(s, e).log == s.log + [Step(s, e).log[|s.log|]];
      if Genuine(e) {
        AttemptCount(s.limiter, e.caller, e.time);
      }
    }
  }

  lemma {:induction false} BoundedRun<T>(s: Pipe<T>, es: seq<Event<T>>)
    requires s.limiter.cfg.Valid() && Bounded(s) && ValidRun(s, es)
    ensures Bounded(Exec(s, es))
    decreases |es|
  {
    if es != [] {
      BoundedStep(s, es[0]);
      BoundedRun(Step(s, es[0]), es[1..]);
    }
  }

  /** At every moment of every run the upstream calls so far are no more than the calls of `get`, and
      those no more than the requests the gate has let through, each of which the limiter has logged. */
  lemma UpstreamWithinAdmissions<T>(now: real, es: seq<Event<T>>, n: nat)
    requires ValidRun(Boot<T>(now), es) && n <= |es|
    ensures ValidRun(Boot<T>(now), es[..n])
    ensures
      var s := Exec(Boot<T>(now), es[..n]);
      && s.cache.upstream == |s.cache.flights| <= |s.cache.callers|
      && |s.cache.callers| + s.waiting <= Count(IsAdmit(), s.log)
      && Count(IsAdmit(), s.log) == Count(IsAdmitted(), s.limiter.trace)
  {
    PrefixRuns(Boot<T>(now), es, n);
    PartsKeepTheirInvariants<T>(now, es[..n]);
    BoundedRun(Boot<T>(now), es[..n]);
  }

  lemma {:induction false} LimiterNeverCleared<T>(es: seq<Event<T>>)
    ensures LC.NoClear(LimiterEvents(es))
  {
    if es != [] {
      LimiterNeverCleared(es[1..]);
    }
  }

  /** A caller that is never evicted gets at most 30 requests through in any minute, however it spaces
      them and whatever unauthenticated traffic uses its name. */
  lemma ThirtyAMinute<T>(now: real, es: seq<Event<T>>, k: RL.Key, lo: real)
    requires ValidRun(Boot<T>(now), es)
    ensures
      var tr := Exec(Boot<T>(now), es).limiter.trace;
      Count(LR.AdmittedIn(k, lo, lo + 60.0), tr) <= 30 * (1 + Count(LR.DroppedIn(k, lo, lo + 60.0), tr))
  {
    LimiterRunsToo(Boot<T>(now), es);
    LR.WindowBound(LIMITS, now, LimiterEvents(es), k, lo, lo + 60.0);
  }

  lemma DropsAtEndpoint(now: real, es: seq<LR.Event>, k: RL.Key, lo: real)
    requires LR.ValidRun(LR.Start(LIMITS, now), es) && LC.NoClear(es)
    ensures Count(LR.DroppedIn(k, lo, lo + 60.0), LR.Exec(LR.Start(LIMITS, now), es).trace)
              <= LA.Parts(LA.Arrivals(LR.Start(LIMITS, now), es, lo, lo + 60.0), 1024)
  {
    LA.DropsByArrivals(LIMITS, now, es, k, lo, lo + 60.0, 1024);
  }

  /** An evicted one gets at most 30 more through for every 1024 authentic attempts in that minute, or part
      of 1024, by callers the limiter does not remember. */
  lemma ThirtyAndArrivals<T>(now: real, es: seq<Event<T>>, k: RL.Key, lo: real)
    requires ValidRun(Boot<T>(now), es)
    ensures LR.ValidRun(LR.Start(LIMITS, now), LimiterEvents(es))
    ensures
      var arrivals := LA.Arrivals(LR.Start(LIMITS, now), LimiterEvents(es), lo, lo + 60.0);
      Count(LR.AdmittedIn(k, lo, lo + 60.0), Exec(Boot<T>(now), es).limiter.trace)
        <= 30 * (1 + LA.Parts(arrivals, 1024))
  {
    LimiterRunsToo(Boot<T>(now), es);
    LimiterNeverCleared(es);
    ThirtyAMinute(now, es, k, lo);
    DropsAtEndpoint(now, LimiterEvents(es), k, lo);
  }

  // ---------------------------------------------------------------- the Retry-After header

  lemma HeaderBounds(r: real, window: real)
    requires 0.0 < r <= window
    ensures 1 <= Header(r) && r < (Header(r) + 1) as real
    ensures window >= 1.0 ==> Header(r) as real <= window
    ensures r <= Header(r) as real <==> r <= 1.0 || r == r.Floor as real
  {}

  /** A client that waits one second more than the header says is always let in, if nobody used or
      cleared its allowance meanwhile. Waiting exactly as long as it says is enough if and only if the
      wait was at most one second or a whole number of seconds. */
  lemma HeaderWait(s: LR.Sys, k: RL.Key, now: real, es: seq<LR.Event>, t: real)
    requires LR.Inv(s) && s.clock <= now && RL.Check(s.cfg, s.st, k, now).verdict.Refused?
    requires LR.ValidRun(LR.Step(s, LR.Attempt(k, now)), es)
    requires LR.Exec(LR.Step(s, LR.Attempt(k, now)), es).clock <= t
    requires LR.LeavesAlone(LR.Step(s, LR.Attempt(k, now)), LR.Exec(LR.Step(s, LR.Attempt(k, now)), es), k)
    ensures
      var r := RL.Check(s.cfg, s.st, k, now).verdict.retryAfter;
      var h := Header(r);
      var end := LR.Exec(LR.Step(s, LR.Attempt(k, now)), es);
      var admitted := OfVerdict(RL.Check(end.cfg, end.st, k, t).verdict).Admit?;
      && OfVerdict(RL.Check(s.cfg, s.st, k, now).verdict) == Deny(429, Some(h))
      && 1 <= h && (s.cfg.window >= 1.0 ==> h as real <= s.cfg.window)
      && (t >= now + (h + 1) as real ==> admitted)
      && (t == now + h as real ==> (admitted <==> r <= 1.0 || r == r.Floor as real))
  {
    LR.RetryAfterExact(s, k, now, es, t);
    HeaderBounds(RL.Check(s.cfg, s.st, k, now).verdict.retryAfter, s.cfg.window);
  }

  /** A full window of times 0 refuses at 30.5, for 29.5 seconds, and at 59.5, for half a second. */
  lemma FullAtZero(cfg: RL.Config, s: RL.State, k: RL.Key)
    requires cfg.Valid() && cfg.window == 60.0 && k in s.hits && LC.AllZero(s.hits[k], cfg.limit)
    ensures
      var first := RL.Check(cfg, s, k, 30.5);
      && first.verdict == RL.Refused(29.5) && first.dropped == []
      && k in first.next.hits && LC.AllZero(first.next.hits[k], cfg.limit)
    ensures RL.Check(cfg, s, k, 59.5).verdict == RL.Refused(0.5)
  {
    LC.ZerosPruned(s.hits[k], cfg.limit, 30.5 - cfg.window);
    LC.ZerosPruned(s.hits[k], cfg.limit, 59.5 - cfg.window);
  }

  /** For one, on the endpoint's own limiter: after 30 admissions of a key at 0, it is refused at 30.5
      with 29.5 seconds to go, told 29, and refused again 29 seconds later. */
  lemma HeaderCanBeShort(k: RL.Key) returns (keys: seq<RL.Key>)
    ensures |keys| == 30 && forall i :: 0 <= i < 30 ==> keys[i] == k
    ensures LR.ValidRun(LR.Start(LIMITS, 0.0), LC.AttemptAll(keys))
    ensures
      var s := LR.Exec(LR.Start(LIMITS, 0.0), LC.AttemptAll(keys));
      var first := RL.Check(LIMITS, s.st, k, 30.5);
      && LR.FullLog(s.trace, k) == seq(30, _ => 0.0)
      && OfVerdict(first.verdict) == Deny(429, Some(29))
      && OfVerdict(RL.Check(LIMITS, first.next, k, 30.5 + 29.0).verdict) == Deny(429, Some(1))
  {
    keys := LC.FillWindow(LIMITS, k);
    LC.AtOnceRuns(LIMITS, keys);
    var s := LC.AtOnce(LIMITS, keys);
    assert LR.FullLog(s.trace, k) == seq(30, _ => 0.0);
    FullAtZero(LIMITS, s.st, k);
    FullAtZero(LIMITS, RL.Check(LIMITS, s.st, k, 30.5).next, k);
  }
}
