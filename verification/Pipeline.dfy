/**
 The /metrics endpoint as a whole: app/security.py lets a request through to the handler of app/main.py,
 which drives the cache. A run interleaves requests arriving at the gate, admitted requests entering the
 handler, and the cache's own steps.
 */
module MetricsPipeline {
  import opened Basics
  import RL = RateLimit
  import SF = SingleFlight

  const RATE_LIMIT_REQUESTS := 30
  const RATE_LIMIT_WINDOW_SECONDS := 60.0
  const MAX_KEYS := 4096
  const METRICS_CACHE_TTL_SECONDS := 45.0

  const LIMITS := RL.Config(RATE_LIMIT_REQUESTS, RATE_LIMIT_WINDOW_SECONDS, MAX_KEYS)

  /** What `get_settings()` gives the gate: a ConfigError, or the token (empty when not set). */
  datatype Settings = Unconfigured | Token(expected: string)

  datatype Gate = Admit | Deny(status: int, retryAfter: Option<int>)

  datatype Reply<+T> = Served(payload: T, fromCache: bool, maxAge: nat) | Failure(status: int)

  // ---------------------------------------------------------------- the gate

  predicate Authentic(settings: Settings, presented: Option<string>) {
    settings.Token? && settings.expected != "" && presented == Some(settings.expected)
  }

  /** The Retry-After header: whole seconds, at least one. */
  function Header(wait: real): int {
    if wait.Floor < 1 then 1 else wait.Floor
  }

  /** What a request that did not authenticate is told. */
  function Refusal(settings: Settings): Gate {
    if settings.Unconfigured? || settings.expected == "" then Deny(503, None) else Deny(401, None)
  }

  function OfVerdict(v: RL.Verdict): Gate {
    match v
    case Allowed => Admit
    case Refused(r) => Deny(429, Some(Header(r)))
  }

  /** The service has a token, and that is what was presented. */
  ghost predicate RightToken(settings: Settings, presented: Option<string>) {
    presented.Some? && presented.value != "" && settings == Token(presented.value)
  }

  /** The service has no token to compare with. */
  ghost predicate Unset(settings: Settings) {
    settings == Unconfigured || settings == Token("")
  }

  /** `h` is `wait` in whole seconds, rounded down, but at least one. */
  ghost predicate WholeSeconds(wait: real, h: int) {
    if wait < 1.0 then h == 1 else h as real <= wait < h as real + 1.0
  }

  /** `require_metrics_auth` over the process-wide limiter. */
  method RequireMetricsAuth(limiter: RL.RateLimiter, settings: Settings, presented: Option<string>,
                            caller: RL.Key, now: real) returns (gate: Gate)
    requires limiter.cfg.Valid()
    modifies limiter
    ensures gate.Admit? || gate.status == 429 ==> RightToken(settings, presented)
    ensures Unset(settings) ==> gate == Deny(503, None) && limiter.View() == old(limiter.View())
    ensures !Unset(settings) && !RightToken(settings, presented) ==>
              gate == Deny(401, None) && limiter.View() == old(limiter.View())
    ensures RightToken(settings, presented) ==>
              var c := RL.Check(limiter.cfg, old(limiter.View()), caller, now);
              && limiter.View() == c.next
              && (c.verdict.Allowed? ==> gate == Admit)
              && (c.verdict.Refused? ==> gate.Deny? && gate.status == 429 && gate.retryAfter.Some?
                                         && WholeSeconds(c.verdict.retryAfter, gate.retryAfter.value))
    ensures !Authentic(settings, presented) ==> gate == Refusal(settings) && limiter.View() == old(limiter.View())
    ensures Authentic(settings, presented) ==>
              var c := RL.Check(limiter.cfg, old(limiter.View()), caller, now);
              gate == OfVerdict(c.verdict) && limiter.View() == c.next
  {
    if settings.Unconfigured? {
      return Deny(503, None);
    }
    if settings.expected == "" {
      return Deny(503, None);
    }
    if presented.None? {
      return Deny(401, None);
    }
    if presented.value != settings.expected {
      return Deny(401, None);
    }
    var verdict := limiter.CheckKey(caller, now);
    if verdict.Refused? {
      var whole := verdict.retryAfter.Floor;
      return Deny(429, Some(if whole > 1 then whole else 1));
    }
    gate := Admit;
  }

  // ---------------------------------------------------------------- the handler

  /** `max(0, int(TTL - age))`. */
  function MaxAge(age: Option<real>): nat {
    var left := METRICS_CACHE_TTL_SECONDS - if age.Some? then age.value else 0.0;
    if left <= 0.0 then 0 else left.Floor
  }

  function StatusOf(e: Exn): int {
    match e
    case TimeoutError => 504
    case GraphAuthError => 502
    case GraphError => 502
    case OtherError => 500
  }

  /** The reply to caller `c` of the cache, made at `now` without any suspension in between. */
  function ReplyTo<T>(s: SF.State<T>, c: nat, now: real): Option<Reply<T>>
    requires c < |s.callers|
  {
    match s.callers[c]
    case Hit(v) => if v.None? then None else Some(Served(v.value, true, MaxAge(s.Age(now))))
    case Waiting(_) => None
    case Cancelled(_) => None
    case Finished(_, o) =>
      Some(if o.Ok? then Served(o.value, false, MaxAge(s.Age(now))) else Failure(StatusOf(o.error)))
  }

  method AddHeaders<T>(cache: SF.SingleFlightCache<T>, payload: T, fromCache: bool, now: real) returns (reply: Reply<T>)
    ensures reply == Served(payload, fromCache, MaxAge(cache.View().Age(now)))
  {
    var age := cache.AgeSeconds(now);
    var seconds := if age.Some? then age.value else 0.0;
    var left := METRICS_CACHE_TTL_SECONDS - seconds;
    var whole := if left >= 0.0 then left.Floor else 0;
    reply := Served(payload, fromCache, if whole > 0 then whole else 0);
  }

  /** The handler up to the suspension inside `get`; a cache hit answers at once. */
  method EnterHandler<T>(cache: SF.SingleFlightCache<T>, t1: real, t2: real, now: real)
    returns (c: nat, reply: Option<Reply<T>>)
    requires SF.Inv(cache.View()) && SF.Enabled(cache.View(), SF.Get(t1, t2))
    modifies cache
    ensures cache.View() == SF.Step(old(cache.View()), SF.Get(t1, t2)) && SF.Inv(cache.View())
    ensures c == |old(cache.callers)| < |cache.callers| && reply == ReplyTo(cache.View(), c, now)
    ensures reply.Some? <==> old(cache.View()).Fresh(t1)
    ensures reply.Some? ==>
              && old(cache.value).Some? && reply.value.Served?
              && reply.value.payload == old(cache.value).value && reply.value.fromCache
  {
    ghost var s := cache.View();
    c := cache.BeginGet(t1, t2);
    HitServes(s, t1, t2);
    if cache.callers[c].Hit? {
      var r := AddHeaders(cache, cache.callers[c].served.value, true, now);
      return c, Some(r);
    }
    reply := None;
  }

  lemma HitServes<T>(s: SF.State<T>, t1: real, t2: real)
    requires SF.Inv(s) && SF.Enabled(s, SF.Get(t1, t2))
    ensures
      var s' := SF.Step(s, SF.Get(t1, t2));
      var c := s'.callers[|s.callers|];
      && |s'.callers| == |s.callers| + 1 && (c.Hit? || c.Waiting?)
      && (c.Hit? <==> s.Fresh(t1)) && (c.Hit? ==> c.served.Some?)
  {}

  /** What a caller whose flight ended with `o` is answered. */
  ghost predicate AnsweredBy<T>(o: Outcome<T>, reply: Reply<T>) {
    && (o.Ok? ==> reply.Served? && reply.payload == o.value && !reply.fromCache)
    && (o == Raised(TimeoutError) ==> reply == Failure(504))
    && (o == Raised(GraphAuthError) || o == Raised(GraphError) ==> reply == Failure(502))
    && (o == Raised(OtherError) ==> reply == Failure(500))
  }

  /** The handler from that suspension to its end. */
  method LeaveHandler<T>(cache: SF.SingleFlightCache<T>, c: nat, t1: real, t2: real, now: real)
    returns (reply: Reply<T>)
    requires SF.Inv(cache.View()) && SF.Enabled(cache.View(), SF.Resume(c, t1, t2))
    modifies cache
    ensures cache.View() == SF.Step(old(cache.View()), SF.Resume(c, t1, t2)) && SF.Inv(cache.View())
    ensures c < |cache.callers| && ReplyTo(cache.View(), c, now) == Some(reply)
    ensures AnsweredBy(old(cache.flights[cache.callers[c].flight]).outcome.value, reply)
  {
    var o := cache.FinishGet(c, t1, t2);
    if o.Ok? {
      reply := AddHeaders(cache, o.value, false, now);
    } else if o.error.TimeoutError? {
      reply := Failure(504);
    } else if o.error.GraphAuthError? || o.error.GraphError? {
      reply := Failure(502);
    } else {
      reply := Failure(500);
    }
  }

  // ---------------------------------------------------------------- what max-age promises

  lemma MaxAgeFits(storedAt: real, now: real)
    requires storedAt <= now
    ensures
      var m := MaxAge(Some(now - storedAt));
      && m <= 45
      && (m > 0 ==> now + m as real <= storedAt + METRICS_CACHE_TTL_SECONDS)
      && storedAt + METRICS_CACHE_TTL_SECONDS < now + (m + 1) as real
  {}

  /** Every 200 tells the client to keep the answer for the longest whole number of seconds that does not
      reach past `stored_at` + TTL; when a 200 is sent there is always a stored value to measure from. */
  lemma MaxAgeNeverPastExpiry<T>(s: SF.State<T>, e: SF.Event<T>, c: nat, now: real)
    requires SF.Inv(s) && SF.Enabled(s, e)
    requires (e.Get? && c == |s.callers|) || (e.Resume? && c == e.caller)
    requires c < |SF.Step(s, e).callers| && SF.Step(s, e).clock <= now
    requires ReplyTo(SF.Step(s, e), c, now).Some? && ReplyTo(SF.Step(s, e), c, now).value.Served?
    ensures
      var s' := SF.Step(s, e);
      var m := ReplyTo(s', c, now).value.maxAge;
      && s'.storedAt.Some?
      && m <= 45
      && (m > 0 ==> now + m as real <= s'.storedAt.value + METRICS_CACHE_TTL_SECONDS)
      && s'.storedAt.value + METRICS_CACHE_TTL_SECONDS < now + (m + 1) as real
  {
    SF.StepKeepsInv(s, e);
    ServedMeansStored(s, e, c);
    MaxAgeFits(SF.Step(s, e).storedAt.value, now);
  }

  lemma ServedMeansStored<T>(s: SF.State<T>, e: SF.Event<T>, c: nat)
    requires SF.Inv(s) && SF.Enabled(s, e)
    requires (e.Get? && c == |s.callers|) || (e.Resume? && c == e.caller)
    requires c < |SF.Step(s, e).callers|
    requires
      var k := SF.Step(s, e).callers[c];
      k.Hit? || (k.Finished? && k.outcome.Ok?)
    ensures SF.Step(s, e).storedAt.Some? && SF.Step(s, e).storedAt.value <= SF.Step(s, e).clock
  {
    SF.StepKeepsInv(s, e);
  }

  /** The cache after a call landed between the end of a flight and its first delivery, which came next. */
  function Overtaken(): SF.State<int> {
    SF.State(METRICS_CACHE_TTL_SECONDS, Some(7), Some(0.0), Some(1), 0, 2, 0, 2,
             [SF.Flight(0.0, Some(Ok(7)), Some(0.0)), SF.Flight(0.0, None, None)],
             [SF.Finished(0, Ok(7)), SF.Waiting(1)], 0.0)
  }

  lemma OvertakenFirst() returns (es: seq<SF.Event<int>>)
    ensures es == [SF.Get(0.0, 0.0), SF.Complete(0, Ok(7), 0.0), SF.Get(0.0, 0.0), SF.Resume(0, 0.0, 0.0)]
    ensures SF.ValidRun(SF.Init<int>(METRICS_CACHE_TTL_SECONDS, 0.0), es)
    ensures SF.Exec(SF.Init<int>(METRICS_CACHE_TTL_SECONDS, 0.0), es) == Overtaken()
  {
    var s0 := SF.Init<int>(METRICS_CACHE_TTL_SECONDS, 0.0);
    var s1 := SF.Step(s0, SF.Get(0.0, 0.0));
    var s2 := SF.Step(s1, SF.Complete(0, Ok(7), 0.0));
    var s3 := SF.Step(s2, SF.Get(0.0, 0.0));
    var e2 := SF.RunOn(s3, SF.Resume(0, 0.0, 0.0), []);
    var e1 := SF.RunOn(s2, SF.Get(0.0, 0.0), e2);
    var e0 := SF.RunOn(s1, SF.Complete(0, Ok(7), 0.0), e1);
    es := SF.RunOn(s0, SF.Get(0.0, 0.0), e0);
  }

  lemma OvertakenThen() returns (es: seq<SF.Event<int>>)
    ensures es == [SF.Complete(1, Ok(8), 5.0), SF.Resume(1, 5.0, 5.0), SF.Get(6.0, 6.0)]
    ensures SF.ValidRun(Overtaken(), es)
    ensures
      var s := SF.Exec(Overtaken(), es);
      && s.storedAt == Some(0.0)
      && s.callers == [SF.Finished(0, Ok(7)), SF.Finished(1, Ok(8)), SF.Hit(Some(7))]
  {
    var s1 := SF.Step(Overtaken(), SF.Complete(1, Ok(8), 5.0));
    var s2 := SF.Step(s1, SF.Resume(1, 5.0, 5.0));
    var e1 := SF.RunOn(s2, SF.Get(6.0, 6.0), []);
    var e0 := SF.RunOn(s1, SF.Resume(1, 5.0, 5.0), e1);
    es := SF.RunOn(Overtaken(), SF.Complete(1, Ok(8), 5.0), e0);
  }

  /** The age behind max-age is that of the stored value, which need not be the payload: a call that lands
      between the end of a flight and its first delivery starts another one, whose caller is sent the
      newer value under the age of the older one. The next hit goes back to the older. */
  lemma PayloadCanDiffer() returns (es: seq<SF.Event<int>>)
    ensures es == [SF.Get(0.0, 0.0), SF.Complete(0, Ok(7), 0.0), SF.Get(0.0, 0.0), SF.Resume(0, 0.0, 0.0)]
                  + [SF.Complete(1, Ok(8), 5.0), SF.Resume(1, 5.0, 5.0), SF.Get(6.0, 6.0)]
    ensures SF.ValidRun(SF.Init<int>(METRICS_CACHE_TTL_SECONDS, 0.0), es)
    ensures
      var s := SF.Exec(SF.Init<int>(METRICS_CACHE_TTL_SECONDS, 0.0), es);
      && |s.callers| == 3
      && ReplyTo(s, 0, 0.0) == Some(Served(7, false, 45))
      && ReplyTo(s, 1, 5.0) == Some(Served(8, false, 40))
      && ReplyTo(s, 2, 6.0) == Some(Served(7, true, 39))
  {
    var first := OvertakenFirst();
    var second := OvertakenThen();
    SF.RunConcat(SF.Init<int>(METRICS_CACHE_TTL_SECONDS, 0.0), first, second);
    es := first + second;
  }
}
