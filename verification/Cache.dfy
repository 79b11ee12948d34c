/**
 The single-slot, single-flight cache of app/cache.py as interleaved steps.

 The code between two suspension points runs alone, so it is one step: `Get` is a call of `get` up
 to its `await`, `Resume` and `Cancel` are what runs when that `await` returns or is cancelled,
 `Complete` is the shared upstream task ending, and `Invalidate` is `invalidate()`. Every reading
 of the clock is an argument of the step that makes it.
 */
module SingleFlight {
  import opened Basics

  /** One upstream task, in the order they were created. */
  datatype Flight<+T> = Flight(startedAt: real, outcome: Option<Outcome<T>>, endedAt: Option<real>) {
    predicate Done() { outcome.Some? }
  }

  /** One call of `get`, in the order they were made. */
  datatype Caller<+T> =
    | Hit(served: Option<T>)
    | Waiting(flight: nat)
    | Finished(flight: nat, outcome: Outcome<T>)
    | Cancelled(flight: nat)
  {
    predicate Joined(f: nat) { !Hit? && flight == f }
  }

  datatype State<+T> = State(
    ttl: real,
    value: Option<T>,
    storedAt: Option<real>,
    inflight: Option<nat>,
    hits: nat,
    misses: nat,
    coalesced: nat,
    upstream: nat,
    flights: seq<Flight<T>>,
    callers: seq<Caller<T>>,
    clock: real)
  {
    predicate Fresh(now: real) {
      storedAt.Some? && now - storedAt.value < ttl
    }

    predicate Unfinished(f: nat) {
      f < |flights| && !flights[f].Done()
    }

    /** The in-flight slot as `get` sees it: a finished task counts as an empty slot. */
    function Live(): Option<nat> {
      if inflight.Some? && Unfinished(inflight.value) then inflight else None
    }

    function Age(now: real): Option<real> {
      if storedAt.None? then None else Some(now - storedAt.value)
    }
  }

  datatype Event<+T> =
    | Get(t1: real, t2: real)
    | Complete(flight: nat, outcome: Outcome<T>, at: real)
    | Resume(caller: nat, t1: real, t2: real)
    | Cancel(caller: nat)
    | Invalidate

  function Init<T>(ttl: real, now: real): State<T> {
    State(ttl, None, None, None, 0, 0, 0, 0, [], [], now)
  }

  /** The body of `get` that runs under the lock: check again, then join or start. */
  function BeginLocked<T>(s: State<T>, t2: real): State<T> {
    if s.Fresh(t2) then
      s.(hits := s.hits + 1, callers := s.callers + [Hit(s.value)], clock := t2)
    else if s.inflight.Some? && s.Unfinished(s.inflight.value) then
      s.(coalesced := s.coalesced + 1, callers := s.callers + [Waiting(s.inflight.value)], clock := t2)
    else
      s.(misses := s.misses + 1,
         upstream := s.upstream + 1,
         flights := s.flights + [Flight(t2, None, None)],
         inflight := Some(|s.flights|),
         callers := s.callers + [Waiting(|s.flights|)],
         clock := t2)
  }

  /** `get` up to its first suspension: the fast path, then the locked body. */
  function Begin<T>(s: State<T>, t1: real, t2: real): State<T> {
    if s.Fresh(t1) then
      s.(hits := s.hits + 1, callers := s.callers + [Hit(s.value)], clock := t1)
    else
      BeginLocked(s, t2)
  }

  /** The `finally` clause. */
  function Release<T>(s: State<T>, f: nat): State<T> {
    if s.inflight == Some(f) && !s.Unfinished(f) then s.(inflight := None) else s
  }

  /** `get` from its suspension to its end, once the flight it awaits is done. */
  function Finish<T>(s: State<T>, c: nat, t1: real, t2: real): State<T>
    requires Enabled(s, Resume(c, t1, t2))
  {
    var f := s.callers[c].flight;
    var o := s.flights[f].outcome.value;
    var r := Release(s, f).(callers := s.callers[c := Finished(f, o)]);
    match o
    case Raised(_) => r
    case Ok(v) =>
      if !s.Fresh(t1) then r.(value := Some(v), storedAt := Some(t2), clock := t2)
      else r.(clock := t1)
  }

  predicate Enabled<T>(s: State<T>, e: Event<T>) {
    match e
    case Get(t1, t2) => s.clock <= t1 <= t2
    case Complete(f, _, at) => s.Unfinished(f) && s.clock <= at
    case Resume(c, t1, t2) =>
      && c < |s.callers| && s.callers[c].Waiting?
      && s.callers[c].flight < |s.flights| && s.flights[s.callers[c].flight].Done()
      && s.clock <= t1 <= t2
    case Cancel(c) => c < |s.callers| && s.callers[c].Waiting?
    case Invalidate => true
  }

  function Step<T>(s: State<T>, e: Event<T>): State<T>
    requires Enabled(s, e)
  {
    match e
    case Get(t1, t2) => Begin(s, t1, t2)
    case Complete(f, o, at) =>
      s.(flights := s.flights[f := s.flights[f].(outcome := Some(o), endedAt := Some(at))], clock := at)
    case Resume(c, t1, t2) => Finish(s, c, t1, t2)
    case Cancel(c) =>
      Release(s, s.callers[c].flight).(callers := s.callers[c := Cancelled(s.callers[c].flight)])
    case Invalidate => s.(value := None, storedAt := None)
  }

  predicate ValidRun<T>(s: State<T>, es: seq<Event<T>>)
    decreases |es|
  {
    es != [] ==> Enabled(s, es[0]) && ValidRun(Step(s, es[0]), es[1..])
  }

  function Exec<T>(s: State<T>, es: seq<Event<T>>): State<T>
    requires ValidRun(s, es)
    decreases |es|
  {
    if es == [] then s else Exec(Step(s, es[0]), es[1..])
  }

  // ---------------------------------------------------------------- what every step keeps

  /** Some successful flight, started no later than `upTo`, produced `v`. */
  ghost predicate Produced<T>(s: State<T>, v: T, upTo: real) {
    exists f :: 0 <= f < |s.flights| && s.flights[f].outcome == Some(Ok(v)) && s.flights[f].startedAt <= upTo
  }

  ghost predicate CallerOk<T>(s: State<T>, c: Caller<T>) {
    match c
    case Hit(x) => x.Some? && Produced(s, x.value, s.clock)
    case Waiting(f) => f < |s.flights|
    case Finished(f, o) => f < |s.flights| && s.flights[f].outcome == Some(o)
    case Cancelled(f) => f < |s.flights|
  }

  predicate EndOk<T>(f: Flight<T>, clock: real) {
    && (f.endedAt.Some? <==> f.Done())
    && (f.endedAt.Some? ==> f.startedAt <= f.endedAt.value <= clock)
  }

  ghost predicate FlightsOk<T>(s: State<T>) {
    && (s.inflight.Some? ==> s.inflight.value + 1 == |s.flights|)
    && (forall f :: 0 <= f < |s.flights| && !s.flights[f].Done() ==> s.inflight == Some(f))
    && (forall f :: 0 <= f < |s.flights| ==> s.flights[f].startedAt <= s.clock)
    && (forall f, g :: 0 <= f < g < |s.flights| ==> s.flights[f].startedAt <= s.flights[g].startedAt)
    && (forall f :: 0 <= f < |s.flights| ==> EndOk(s.flights[f], s.clock))
  }

  ghost predicate ValueOk<T>(s: State<T>) {
    && (s.value.Some? <==> s.storedAt.Some?)
    && (s.storedAt.Some? ==>
          && s.storedAt.value <= s.clock
          && Produced(s, s.value.value, s.storedAt.value)
          // whatever was stored before a flight began had expired by then
          && forall f :: 0 <= f < |s.flights| && s.storedAt.value < s.flights[f].startedAt ==>
               s.storedAt.value + s.ttl <= s.flights[f].startedAt)
  }

  ghost predicate CountersOk<T>(s: State<T>) {
    && s.hits == Count((c: Caller<T>) => c.Hit?, s.callers)
    && s.hits + s.misses + s.coalesced == |s.callers|
    && s.upstream == s.misses == |s.flights|
  }

  ghost predicate Inv<T>(s: State<T>) {
    && s.ttl >= 0.0
    && FlightsOk(s)
    && ValueOk(s)
    && CountersOk(s)
    && forall c :: 0 <= c < |s.callers| ==> CallerOk(s, s.callers[c])
  }

  /** A step never changes the outcome of a finished flight, nor any flight's start. */
  ghost predicate FlightsGrow<T>(a: State<T>, b: State<T>) {
    && |a.flights| <= |b.flights| && a.clock <= b.clock
    && forall f :: 0 <= f < |a.flights| ==>
         && a.flights[f].startedAt == b.flights[f].startedAt
         && (a.flights[f].Done() ==> a.flights[f] == b.flights[f])
  }

  lemma ProducedStays<T>(a: State<T>, b: State<T>, v: T, upTo: real, later: real)
    requires FlightsGrow(a, b) && Produced(a, v, upTo) && upTo <= later
    ensures Produced(b, v, later)
  {
    var f :| 0 <= f < |a.flights| && a.flights[f].outcome == Some(Ok(v)) && a.flights[f].startedAt <= upTo;
    assert b.flights[f].outcome == Some(Ok(v));
  }

  lemma CallersStay<T>(a: State<T>, b: State<T>, c: Caller<T>)
    requires FlightsGrow(a, b) && CallerOk(a, c)
    ensures CallerOk(b, c)
  {
    if c.Hit? {
      ProducedStays(a, b, c.served.value, a.clock, b.clock);
    }
  }

  lemma StepGrows<T>(s: State<T>, e: Event<T>)
    requires Enabled(s, e)
    ensures FlightsGrow(s, Step(s, e))
    ensures Step(s, e).ttl == s.ttl
  {}

  lemma StepCounters<T>(s: State<T>, e: Event<T>)
    requires CountersOk(s) && Enabled(s, e)
    ensures CountersOk(Step(s, e))
  {
    var p := (c: Caller<T>) => c.Hit?;
    match e
    case Get(t1, t2) => GetCounters(s, t1, t2);
    case Resume(c, _, _) => CountUpdate(p, s.callers, c, Step(s, e).callers[c]);
    case Cancel(c) => CountUpdate(p, s.callers, c, Step(s, e).callers[c]);
    case _ =>
  }

  lemma GetCounters<T>(s: State<T>, t1: real, t2: real)
    requires CountersOk(s) && Enabled(s, Get(t1, t2))
    ensures CountersOk(Begin(s, t1, t2))
  {
    var c := Begin(s, t1, t2).callers[|s.callers|];
    CountSnoc((c: Caller<T>) => c.Hit?, s.callers, c);
    assert Begin(s, t1, t2).callers == s.callers + [c];
  }

  lemma StepValue<T>(s: State<T>, e: Event<T>)
    requires Inv(s) && Enabled(s, e)
    ensures ValueOk(Step(s, e))
  {
    var s' := Step(s, e);
    StepGrows(s, e);
    if s'.storedAt.Some? {
      if s'.storedAt == s.storedAt && s'.value == s.value {
        ProducedStays(s, s', s.value.value, s.storedAt.value, s.storedAt.value);
      } else {
        var f := s.callers[e.caller].flight;
        assert CallerOk(s, s.callers[e.caller]);
        assert s'.flights[f].outcome == Some(Ok(s'.value.value));
      }
    }
  }

  lemma StepCallers<T>(s: State<T>, e: Event<T>)
    requires Inv(s) && Enabled(s, e)
    ensures forall c :: 0 <= c < |Step(s, e).callers| ==> CallerOk(Step(s, e), Step(s, e).callers[c])
  {
    var s' := Step(s, e);
    StepGrows(s, e);
    forall c | 0 <= c < |s'.callers| ensures CallerOk(s', s'.callers[c]) {
      if c < |s.callers| && s'.callers[c] == s.callers[c] {
        CallersStay(s, s', s.callers[c]);
      } else if c < |s.callers| {
        assert CallerOk(s, s.callers[c]);
      } else if s'.callers[c].Hit? {
        ProducedStays(s, s', s.value.value, s.storedAt.value, s'.clock);
      }
    }
  }

  lemma StepFlights<T>(s: State<T>, e: Event<T>)
    requires FlightsOk(s) && Enabled(s, e) && (e.Cancel? ==> CallerOk(s, s.callers[e.caller]))
    ensures FlightsOk(Step(s, e))
  {
    match e
    case Get(t1, t2) => BeginFlights(s, t1, t2);
    case Complete(f, o, at) => CompleteFlights(s, f, o, at);
    case Resume(c, t1, t2) =>
      ReleaseFlights(s, s.callers[c].flight);
      FlightsOkFrom(Release(s, s.callers[c].flight), Step(s, e));
    case Cancel(c) =>
      ReleaseFlights(s, s.callers[c].flight);
      FlightsOkFrom(Release(s, s.callers[c].flight), Step(s, e));
    case Invalidate => FlightsOkFrom(s, Step(s, e));
  }

  lemma FlightsOkFrom<T>(a: State<T>, b: State<T>)
    requires FlightsOk(a) && b.flights == a.flights && b.inflight == a.inflight && a.clock <= b.clock
    ensures FlightsOk(b)
  {}

  lemma BeginFlights<T>(s: State<T>, t1: real, t2: real)
    requires FlightsOk(s) && s.clock <= t1 <= t2
    ensures FlightsOk(Begin(s, t1, t2))
  {}

  lemma CompleteFlights<T>(s: State<T>, f: nat, o: Outcome<T>, at: real)
    requires FlightsOk(s) && s.Unfinished(f) && s.clock <= at
    ensures FlightsOk(Step(s, Complete(f, o, at)))
  {}

  lemma ReleaseFlights<T>(s: State<T>, f: nat)
    requires FlightsOk(s) && f < |s.flights|
    ensures FlightsOk(Release(s, f))
  {}

  lemma StepKeepsInv<T>(s: State<T>, e: Event<T>)
    requires Inv(s) && Enabled(s, e)
    ensures Inv(Step(s, e))
  {
    StepCounters(s, e);
    StepValue(s, e);
    StepCallers(s, e);
    StepFlights(s, e);
    StepGrows(s, e);
  }

  lemma {:induction false} RunKeepsInv<T>(s: State<T>, es: seq<Event<T>>)
    requires Inv(s) && ValidRun(s, es)
    ensures Inv(Exec(s, es))
    decreases |es|
  {
    if es != [] {
      StepKeepsInv(s, es[0]);
      RunKeepsInv(Step(s, es[0]), es[1..]);
    }
  }

  /** Every state any interleaving can lead to. */
  lemma ReachableInv<T>(ttl: real, now: real, es: seq<Event<T>>)
    requires ttl >= 0.0 && ValidRun(Init(ttl, now), es)
    ensures Inv(Exec(Init(ttl, now), es))
  {
    RunKeepsInv(Init(ttl, now), es);
  }

  // ---------------------------------------------------------------- single flight

  /** At most one upstream call is unfinished, and it is the one in the slot. */
  lemma AtMostOneUnfinished<T>(ttl: real, now: real, es: seq<Event<T>>, f: nat, g: nat)
    requires ttl >= 0.0 && ValidRun(Init(ttl, now), es)
    requires Exec(Init(ttl, now), es).Unfinished(f) && Exec(Init(ttl, now), es).Unfinished(g)
    ensures f == g && Exec(Init(ttl, now), es).inflight == Some(f)
  {
    ReachableInv(ttl, now, es);
  }

  /** A call starts an upstream call exactly when nothing is fresh and every earlier one has ended;
      otherwise it is served the fresh value or waits for the one that has not ended. */
  lemma GetStartsExactlyWhen<T>(ttl: real, now: real, es: seq<Event<T>>, t1: real, t2: real)
    requires ttl >= 0.0 && ValidRun(Init(ttl, now), es) && Enabled(Exec(Init(ttl, now), es), Get(t1, t2))
    ensures
      var s := Exec(Init(ttl, now), es);
      var s' := Step(s, Get(t1, t2));
      var c := s'.callers[|s.callers|];
      && |s'.callers| == |s.callers| + 1
      && (|s'.flights| > |s.flights| <==>
            !s.Fresh(t1) && forall f :: 0 <= f < |s.flights| ==> s.flights[f].Done())
      && (|s'.flights| > |s.flights| ==>
            s'.flights == s.flights + [Flight(t2, None, None)] && c == Waiting(|s.flights|))
      && (c.Hit? <==> s.Fresh(t1))
      && (forall f :: !s.Fresh(t1) && s.Unfinished(f) ==> c == Waiting(f) && s'.flights == s.flights)
  {
    ReachableInv(ttl, now, es);
  }

  /** Nothing can refresh the value between the two checks, so the second one never hits. */
  lemma SecondCheckNeverHits<T>(s: State<T>, t1: real, t2: real)
    requires Enabled(s, Get(t1, t2)) && !s.Fresh(t1)
    ensures !s.Fresh(t2)
    ensures Step(s, Get(t1, t2)).hits == s.hits
  {}

  /** A waiting caller can always go on as soon as its flight has ended. */
  lemma NoStuckCaller<T>(ttl: real, now: real, es: seq<Event<T>>, c: nat)
    requires ttl >= 0.0 && ValidRun(Init(ttl, now), es)
    requires c < |Exec(Init(ttl, now), es).callers| && Exec(Init(ttl, now), es).callers[c].Waiting?
    ensures
      var s := Exec(Init(ttl, now), es);
      var f := s.callers[c].flight;
      Enabled(s, Resume(c, s.clock, s.clock)) || (s.Unfinished(f) && s.inflight == Some(f))
  {
    var s := Exec(Init(ttl, now), es);
    ReachableInv(ttl, now, es);
    assert CallerOk(s, s.callers[c]);
  }

  /** A caller that goes on never leaves its ended flight in the slot, and never empties the slot of a
      flight that has not ended. */
  lemma SlotReleased<T>(ttl: real, now: real, es: seq<Event<T>>, e: Event<T>)
    requires ttl >= 0.0 && ValidRun(Init(ttl, now), es)
    requires Enabled(Exec(Init(ttl, now), es), e) && (e.Resume? || e.Cancel?)
    ensures
      var s := Exec(Init(ttl, now), es);
      var f := s.callers[e.caller].flight;
      && (Step(s, e).inflight == Some(f) <==> s.Unfinished(f))
      && Step(s, e).Live() == s.Live()
  {
    var s := Exec(Init(ttl, now), es);
    ReachableInv(ttl, now, es);
    assert CallerOk(s, s.callers[e.caller]);
    ReleaseKeepsLive(s, s.callers[e.caller].flight);
  }

  /** hits + misses + coalesced is the number of calls; upstream is the number of flights. */
  lemma Accounting<T>(ttl: real, now: real, es: seq<Event<T>>)
    requires ttl >= 0.0 && ValidRun(Init(ttl, now), es)
    ensures
      var s := Exec(Init(ttl, now), es);
      && s.hits + s.misses + s.coalesced == |s.callers| == Count((e: Event<T>) => e.Get?, es)
      && s.upstream == s.misses == |s.flights|
      && s.hits == Count((c: Caller<T>) => c.Hit?, s.callers)
  {
    ReachableInv(ttl, now, es);
    CallersCountGets(Init(ttl, now), es);
  }

  lemma {:induction false} CallersCountGets<T>(s: State<T>, es: seq<Event<T>>)
    requires ValidRun(s, es)
    ensures |Exec(s, es).callers| == |s.callers| + Count((e: Event<T>) => e.Get?, es)
    decreases |es|
  {
    if es != [] {
      CallersCountGets(Step(s, es[0]), es[1..]);
    }
  }

  // ---------------------------------------------------------------- what callers receive

  /** The ways the caller `was` may have become `later`. */
  ghost predicate Becomes<T>(s: State<T>, was: Caller<T>, later: Caller<T>) {
    match was
    case Waiting(f) =>
      || later == Waiting(f)
      || later == Cancelled(f)
      || (later.Finished? && later.flight == f && f < |s.flights| && s.flights[f].outcome == Some(later.outcome))
    case _ => later == was
  }

  lemma {:induction false} CallerFate<T>(s: State<T>, es: seq<Event<T>>, c: nat)
    requires Inv(s) && ValidRun(s, es) && c < |s.callers|
    ensures c < |Exec(s, es).callers|
    ensures Becomes(Exec(s, es), s.callers[c], Exec(s, es).callers[c])
    ensures Exec(s, es).callers[c].Cancelled? ==> s.callers[c].Cancelled? || Cancel(c) in es
    decreases |es|
  {
    if es != [] {
      CallerStep(s, es[0], c);
      StepKeepsInv(s, es[0]);
      CallerFate(Step(s, es[0]), es[1..], c);
      RunGrows(Step(s, es[0]), es[1..]);
    }
  }

  lemma CallerStep<T>(s: State<T>, e: Event<T>, c: nat)
    requires Inv(s) && Enabled(s, e) && c < |s.callers|
    ensures c < |Step(s, e).callers| && Becomes(Step(s, e), s.callers[c], Step(s, e).callers[c])
    ensures Step(s, e).callers[c].Cancelled? ==> s.callers[c].Cancelled? || e == Cancel(c)
  {}

  /** A caller is given the value that was fresh when it called, or exactly the outcome of the one
      flight it joined on entry: never another flight's, and never nothing unless it was cancelled. */
  lemma CallerReceives<T>(s: State<T>, t1: real, t2: real, es: seq<Event<T>>)
    requires Inv(s) && Enabled(s, Get(t1, t2)) && ValidRun(Step(s, Get(t1, t2)), es)
    ensures
      var s1 := Step(s, Get(t1, t2));
      var end := Exec(s1, es);
      var c := |s.callers|;
      && c < |end.callers|
      && (s.Fresh(t1) ==> s.value.Some? && end.callers[c] == Hit(s.value))
      && (!s.Fresh(t1) ==>
            && s1.inflight.Some?
            && s1.inflight.value < |end.flights|
            && end.callers[c].Joined(s1.inflight.value)
            && (end.callers[c].Finished? ==>
                  end.flights[s1.inflight.value].outcome == Some(end.callers[c].outcome))
            && (end.callers[c].Cancelled? ==> Cancel(c) in es))
  {
    StepKeepsInv(s, Get(t1, t2));
    CallerFate(Step(s, Get(t1, t2)), es, |s.callers|);
    RunKeepsInv(Step(s, Get(t1, t2)), es);
    assert CallerOk(Exec(Step(s, Get(t1, t2)), es), Exec(Step(s, Get(t1, t2)), es).callers[|s.callers|]);
  }

  /** Two states that differ in caller `c`, and in whether a finished flight still sits in the slot. */
  ghost predicate SameExcept<T>(a: State<T>, b: State<T>, c: nat) {
    && a.ttl == b.ttl && a.clock == b.clock
    && a.value == b.value && a.storedAt == b.storedAt
    && a.hits == b.hits && a.misses == b.misses && a.coalesced == b.coalesced && a.upstream == b.upstream
    && a.flights == b.flights
    && a.Live() == b.Live()
    && |a.callers| == |b.callers| && c < |a.callers|
    && forall i :: 0 <= i < |a.callers| && i != c ==> a.callers[i] == b.callers[i]
  }

  predicate Concerns<T>(e: Event<T>, c: nat) {
    (e.Resume? || e.Cancel?) && e.caller == c
  }

  lemma SameExceptStep<T>(a: State<T>, b: State<T>, c: nat, e: Event<T>)
    requires SameExcept(a, b, c) && Enabled(a, e) && !Concerns(e, c)
    ensures Enabled(b, e) && SameExcept(Step(a, e), Step(b, e), c)
  {
    match e
    case Get(t1, t2) => SameExceptBegin(a, b, c, t1, t2);
    case Resume(i, t1, t2) => SameExceptFinish(a, b, c, i, t1, t2);
    case Cancel(i) => ReleaseKeepsLive(a, a.callers[i].flight); ReleaseKeepsLive(b, b.callers[i].flight);
    case _ =>
  }

  lemma ReleaseKeepsLive<T>(s: State<T>, f: nat)
    ensures Release(s, f) == s.(inflight := Release(s, f).inflight)
    ensures Release(s, f).Live() == s.Live()
  {}

  lemma SameExceptBegin<T>(a: State<T>, b: State<T>, c: nat, t1: real, t2: real)
    requires SameExcept(a, b, c)
    ensures SameExcept(Begin(a, t1, t2), Begin(b, t1, t2), c)
  {
    var a', b' := Begin(a, t1, t2), Begin(b, t1, t2);
    assert a.Fresh(t1) == b.Fresh(t1) && a.Fresh(t2) == b.Fresh(t2);
    assert a'.flights == b'.flights;
    assert a'.callers[|a.callers|] == b'.callers[|b.callers|];
  }

  lemma SameExceptFinish<T>(a: State<T>, b: State<T>, c: nat, i: nat, t1: real, t2: real)
    requires SameExcept(a, b, c) && i != c && Enabled(a, Resume(i, t1, t2))
    ensures Enabled(b, Resume(i, t1, t2))
    ensures SameExcept(Finish(a, i, t1, t2), Finish(b, i, t1, t2), c)
  {
    assert a.callers[i] == b.callers[i];
    var f := a.callers[i].flight;
    var o := a.flights[f].outcome.value;
    SameExceptRelease(a, b, c, f, i, Finished(f, o));
    assert a.Fresh(t1) == b.Fresh(t1);
  }

  lemma SameExceptRelease<T>(a: State<T>, b: State<T>, c: nat, f: nat, i: nat, x: Caller<T>)
    requires SameExcept(a, b, c) && i != c && i < |a.callers|
    ensures SameExcept(Release(a, f).(callers := a.callers[i := x]), Release(b, f).(callers := b.callers[i := x]), c)
  {
    ReleaseKeepsLive(a, f);
    ReleaseKeepsLive(b, f);
  }

  lemma {:induction false} SameExceptRun<T>(a: State<T>, b: State<T>, c: nat, es: seq<Event<T>>)
    requires SameExcept(a, b, c) && ValidRun(a, es)
    requires forall e :: e in es ==> !Concerns(e, c)
    ensures ValidRun(b, es) && SameExcept(Exec(a, es), Exec(b, es), c)
    decreases |es|
  {
    if es != [] {
      SameExceptStep(a, b, c, es[0]);
      SameExceptRun(Step(a, es[0]), Step(b, es[0]), c, es[1..]);
    }
  }

  /** Cancelling a caller is invisible: whatever happens afterwards, flights, cached value, counters
      and every other caller end exactly as if it had been left waiting. */
  lemma CancelIsInvisible<T>(s: State<T>, c: nat, es: seq<Event<T>>)
    requires Enabled(s, Cancel(c)) && ValidRun(s, es)
    requires forall e :: e in es ==> !Concerns(e, c)
    ensures ValidRun(Step(s, Cancel(c)), es)
    ensures SameExcept(Exec(s, es), Exec(Step(s, Cancel(c)), es), c)
  {
    SameExceptRun(s, Step(s, Cancel(c)), c, es);
  }

  // ---------------------------------------------------------------- what is stored, and when

  /** The slot changes only by invalidation, or when a waiter of a successful flight finds it stale. */
  lemma StoredOnlyBySuccess<T>(ttl: real, now: real, es: seq<Event<T>>, e: Event<T>)
    requires ttl >= 0.0 && ValidRun(Init(ttl, now), es) && Enabled(Exec(Init(ttl, now), es), e)
    ensures
      var s := Exec(Init(ttl, now), es);
      var s' := Step(s, e);
      && ((s'.value != s.value || s'.storedAt != s.storedAt) ==>
            || (e.Invalidate? && s'.value.None? && s'.storedAt.None?)
            || (&& e.Resume? && !s.Fresh(e.t1)
                && s'.value.Some? && s'.storedAt == Some(e.t2)
                && s.flights[s.callers[e.caller].flight].outcome == Some(Ok(s'.value.value))))
      && (s'.storedAt.Some? ==> s'.value.Some? && Produced(s', s'.value.value, s'.storedAt.value))
  {
    ReachableInv(ttl, now, es);
    StepKeepsInv(Exec(Init(ttl, now), es), e);
  }

  /** A caller that goes on stores exactly when its flight succeeded and nothing younger than `ttl` is
      there, whether it started that flight or joined it. With a positive `ttl` that always shows. */
  lemma ResumeStoresExactly<T>(ttl: real, now: real, es: seq<Event<T>>, c: nat, t1: real, t2: real)
    requires ttl >= 0.0 && ValidRun(Init(ttl, now), es) && Enabled(Exec(Init(ttl, now), es), Resume(c, t1, t2))
    ensures
      var s := Exec(Init(ttl, now), es);
      var s' := Step(s, Resume(c, t1, t2));
      var o := s.flights[s.callers[c].flight].outcome.value;
      var stores := o.Ok? && (s.storedAt.Some? ==> t1 - s.storedAt.value >= ttl);
      && (s'.storedAt != s.storedAt <==> stores && s.storedAt != Some(t2))
      && (stores ==> s'.storedAt == Some(t2) && s'.value == Some(o.value) && (ttl > 0.0 ==> s.storedAt != Some(t2)))
      && (!stores ==> s'.value == s.value)
  {
    ReachableInv(ttl, now, es);
    RunGrows(Init(ttl, now), es);
  }

  /** A caller that only joined stores: the one that started the flight was cancelled. */
  lemma JoinerCanStore()
    ensures
      var es := [Get(0.0, 0.0), Get(0.0, 0.0), Cancel(0), Complete(0, Ok(7), 0.0), Resume(1, 0.0, 0.0)];
      && ValidRun(Init<int>(45.0, 0.0), es)
      && var s := Exec(Init<int>(45.0, 0.0), es);
         && s.misses == 1 && s.coalesced == 1
         && s.callers == [Cancelled(0), Finished(0, Ok(7))]
         && s.value == Some(7) && s.storedAt == Some(0.0)
  {
    var s0 := Init<int>(45.0, 0.0);
    var s1 := Step(s0, Get(0.0, 0.0));
    var s2 := Step(s1, Get(0.0, 0.0));
    var s3 := Step(s2, Cancel(0));
    var s4 := Step(s3, Complete(0, Ok(7), 0.0));
    var e3 := RunOn(s4, Resume(1, 0.0, 0.0), []);
    var e2 := RunOn(s3, Complete(0, Ok(7), 0.0), e3);
    var e1 := RunOn(s2, Cancel(0), e2);
    var e0 := RunOn(s1, Get(0.0, 0.0), e1);
    var es := RunOn(s0, Get(0.0, 0.0), e0);
    assert es == [Get(0.0, 0.0), Get(0.0, 0.0), Cancel(0), Complete(0, Ok(7), 0.0), Resume(1, 0.0, 0.0)];
  }

  lemma RunOn<T>(s: State<T>, e: Event<T>, rest: seq<Event<T>>) returns (es: seq<Event<T>>)
    requires Enabled(s, e) && ValidRun(Step(s, e), rest)
    ensures es == [e] + rest && ValidRun(s, es) && Exec(s, es) == Exec(Step(s, e), rest)
  {
    es := [e] + rest;
    assert es[1..] == rest;
  }

  lemma {:induction false} RunConcat<T>(s: State<T>, a: seq<Event<T>>, b: seq<Event<T>>)
    requires ValidRun(s, a) && ValidRun(Exec(s, a), b)
    ensures ValidRun(s, a + b) && Exec(s, a + b) == Exec(Exec(s, a), b)
    decreases |a|
  {
    if a == [] {
      assert a + b == b;
    } else {
      assert (a + b)[1..] == a[1..] + b;
      RunConcat(Step(s, a[0]), a[1..], b);
    }
  }

  /** No caller is about to deliver a success. */
  ghost predicate NothingToStore<T>(s: State<T>) {
    forall c :: 0 <= c < |s.callers| && s.callers[c].Waiting? ==>
      && s.callers[c].flight < |s.flights|
      && (s.flights[s.callers[c].flight].Done() ==> s.flights[s.callers[c].flight].outcome.value.Raised?)
  }

  /** However often the upstream fails, the stored value and its time stay as they were. */
  lemma {:induction false} FailuresStoreNothing<T>(s: State<T>, es: seq<Event<T>>)
    requires Inv(s) && NothingToStore(s) && ValidRun(s, es)
    requires forall e :: e in es ==> !e.Invalidate? && (e.Complete? ==> e.outcome.Raised?)
    ensures Exec(s, es).value == s.value && Exec(s, es).storedAt == s.storedAt
    decreases |es|
  {
    if es != [] {
      var s' := Step(s, es[0]);
      StepKeepsInv(s, es[0]);
      assert es[0] in es;
      FailureStep(s, es[0]);
      FailuresStoreNothing(s', es[1..]);
    }
  }

  lemma FailureStep<T>(s: State<T>, e: Event<T>)
    requires Inv(s) && NothingToStore(s) && Enabled(s, e)
    requires !e.Invalidate? && (e.Complete? ==> e.outcome.Raised?)
    ensures NothingToStore(Step(s, e))
    ensures Step(s, e).value == s.value && Step(s, e).storedAt == s.storedAt
  {
    match e
    case Get(t1, t2) =>
      var s' := Begin(s, t1, t2);
      assert forall c :: 0 <= c < |s.callers| ==> s'.callers[c] == s.callers[c];
    case _ =>
  }

  /** While nothing is invalidated, what is stored at `u` keeps the next upstream call away until
      `u + ttl`; a late waiter storing again can only move that later. */
  lemma {:induction false} NextStartAfterExpiry<T>(s: State<T>, es: seq<Event<T>>)
    requires Inv(s) && ValidRun(s, es) && s.storedAt.Some?
    requires forall e :: e in es ==> !e.Invalidate?
    ensures Exec(s, es).storedAt.Some? && Exec(s, es).storedAt.value >= s.storedAt.value
    ensures |Exec(s, es).flights| >= |s.flights|
    ensures forall f :: |s.flights| <= f < |Exec(s, es).flights| ==>
              Exec(s, es).flights[f].startedAt >= s.storedAt.value + s.ttl
    decreases |es|
  {
    if es != [] {
      var s' := Step(s, es[0]);
      StepKeepsInv(s, es[0]);
      StartAfterExpiryStep(s, es[0]);
      assert es[0] in es;
      NextStartAfterExpiry(s', es[1..]);
      RunGrows(s', es[1..]);
    }
  }

  lemma StartAfterExpiryStep<T>(s: State<T>, e: Event<T>)
    requires Inv(s) && Enabled(s, e) && s.storedAt.Some? && !e.Invalidate?
    ensures Step(s, e).ttl == s.ttl && |s.flights| <= |Step(s, e).flights|
    ensures Step(s, e).storedAt.Some? && Step(s, e).storedAt.value >= s.storedAt.value
    ensures forall f :: |s.flights| <= f < |Step(s, e).flights| ==>
              Step(s, e).flights[f].startedAt >= s.storedAt.value + s.ttl
  {}

  lemma {:induction false} RunGrows<T>(s: State<T>, es: seq<Event<T>>)
    requires ValidRun(s, es)
    ensures FlightsGrow(s, Exec(s, es)) && Exec(s, es).ttl == s.ttl
    decreases |es|
  {
    if es != [] {
      StepGrows(s, es[0]);
      RunGrows(Step(s, es[0]), es[1..]);
    }
  }

  // ---------------------------------------------------------------- "at most once per TTL window"

  /** The promise fails: between the end of a flight and its first waiter going on, a new call finds
      nothing fresh and nothing in flight, and starts a second flight at the same moment. */
  lemma OncePerTtlCanFail()
    ensures
      var es := [Get(0.0, 0.0), Complete(0, Ok(7), 0.0), Get(0.0, 0.0)];
      && ValidRun(Init<int>(45.0, 0.0), es)
      && Exec(Init<int>(45.0, 0.0), es).flights == [Flight(0.0, Some(Ok(7)), Some(0.0)), Flight(0.0, None, None)]
  {
    var s0 := Init<int>(45.0, 0.0);
    var s1 := Step(s0, Get(0.0, 0.0));
    var s2 := Step(s1, Complete(0, Ok(7), 0.0));
    var s3 := Step(s2, Get(0.0, 0.0));
    assert ValidRun(s3, []);
    assert ValidRun(s2, [Get(0.0, 0.0)]);
    assert [Complete(0, Ok(7), 0.0), Get(0.0, 0.0)][1..] == [Get(0.0, 0.0)];
    assert ValidRun(s1, [Complete(0, Ok(7), 0.0), Get(0.0, 0.0)]);
    assert [Get(0.0, 0.0), Complete(0, Ok(7), 0.0), Get(0.0, 0.0)][1..] == [Complete(0, Ok(7), 0.0), Get(0.0, 0.0)];
  }

  /** Exactly when a call starts a flight less than `ttl` after the last one began: that one has
      ended and nothing has been stored since it began. */
  lemma OncePerTtlExact<T>(ttl: real, now: real, es: seq<Event<T>>, t1: real, t2: real)
    requires ttl >= 0.0 && ValidRun(Init(ttl, now), es) && Enabled(Exec(Init(ttl, now), es), Get(t1, t2))
    requires
      var s := Exec(Init(ttl, now), es);
      s.flights != [] && t2 - s.flights[|s.flights| - 1].startedAt < ttl
    ensures
      var s := Exec(Init(ttl, now), es);
      var last := s.flights[|s.flights| - 1];
      |Step(s, Get(t1, t2)).flights| > |s.flights| <==>
      last.Done() && (s.storedAt.None? || s.storedAt.value < last.startedAt)
  {
    ReachableInv(ttl, now, es);
    RunGrows(Init(ttl, now), es);
  }

  /** Some caller of the latest flight has been given its value. */
  ghost predicate LatestDelivered<T>(s: State<T>) {
    s.flights != [] &&
    exists c :: 0 <= c < |s.callers| && s.callers[c].Finished? && s.callers[c].flight == |s.flights| - 1
                && s.callers[c].outcome.Ok?
  }

  /** The scheduling hypothesis: no call of `get` lands after the end of the latest flight unless its
      value has reached a caller (so none follows a failure), and nothing is invalidated. */
  ghost predicate Prompt<T>(s: State<T>, es: seq<Event<T>>)
    requires ValidRun(s, es)
    decreases |es|
  {
    es != [] ==>
      && !es[0].Invalidate?
      && (es[0].Get? && s.flights != [] && s.flights[|s.flights| - 1].Done() ==> LatestDelivered(s))
      && Prompt(Step(s, es[0]), es[1..])
  }

  ghost predicate Spaced<T>(s: State<T>) {
    && (forall k :: 0 <= k < |s.flights| - 1 ==> s.flights[k].startedAt + s.ttl <= s.flights[k + 1].startedAt)
    && (LatestDelivered(s) ==>
          s.storedAt.Some? && s.flights[|s.flights| - 1].startedAt <= s.storedAt.value)
  }

  lemma SpacedStep<T>(s: State<T>, e: Event<T>)
    requires Inv(s) && Spaced(s) && Enabled(s, e) && !e.Invalidate?
    requires e.Get? && s.flights != [] && s.flights[|s.flights| - 1].Done() ==> LatestDelivered(s)
    ensures Spaced(Step(s, e))
  {
    match e
    case Get(t1, t2) => SpacedBegin(s, t1, t2);
    case Resume(c, t1, t2) => SpacedFinish(s, c, t1, t2);
    case _ => SpacedOther(s, e);
  }

  lemma SpacedOther<T>(s: State<T>, e: Event<T>)
    requires Inv(s) && Spaced(s) && Enabled(s, e) && (e.Complete? || e.Cancel?)
    ensures Spaced(Step(s, e))
  {
    var s' := Step(s, e);
    assert forall c :: 0 <= c < |s.callers| && s'.callers[c].Finished? ==> s'.callers[c] == s.callers[c];
    DeliveredBefore(s, s');
  }

  /** What no step adds a delivery to keeps its spacing. */
  lemma DeliveredBefore<T>(s: State<T>, s': State<T>)
    requires Spaced(s) && s'.ttl == s.ttl && s'.storedAt == s.storedAt
    requires |s'.flights| == |s.flights|
    requires forall k :: 0 <= k < |s.flights| ==> s'.flights[k].startedAt == s.flights[k].startedAt
    requires |s'.callers| >= |s.callers|
    requires forall c :: 0 <= c < |s.callers| && s'.callers[c].Finished? ==> s'.callers[c] == s.callers[c]
    requires forall c :: |s.callers| <= c < |s'.callers| ==> !s'.callers[c].Finished?
    ensures Spaced(s')
  {
    if LatestDelivered(s') {
      var c :| 0 <= c < |s'.callers| && s'.callers[c].Finished? && s'.callers[c].flight == |s'.flights| - 1
               && s'.callers[c].outcome.Ok?;
      assert s.callers[c] == s'.callers[c];
    }
  }

  lemma SpacedBegin<T>(s: State<T>, t1: real, t2: real)
    requires Inv(s) && Spaced(s) && Enabled(s, Get(t1, t2))
    requires s.flights != [] && s.flights[|s.flights| - 1].Done() ==> LatestDelivered(s)
    ensures Spaced(Begin(s, t1, t2))
  {
    var s' := Begin(s, t1, t2);
    if |s'.flights| == |s.flights| {
      DeliveredBefore(s, s');
    } else {
      assert forall c :: 0 <= c < |s.callers| ==> CallerOk(s, s.callers[c]);
      NewFlightSpaced(s, s', t2);
    }
  }

  /** A flight started once the stored value has expired is far enough from the one before. */
  lemma NewFlightSpaced<T>(s: State<T>, s': State<T>, t2: real)
    requires Spaced(s) && s'.ttl == s.ttl && s'.storedAt == s.storedAt
    requires s'.flights == s.flights + [Flight(t2, None, None)]
    requires s'.callers == s.callers + [Waiting(|s.flights|)]
    requires forall c :: 0 <= c < |s.callers| && s.callers[c].Finished? ==> s.callers[c].flight < |s.flights|
    requires s.flights != [] ==> LatestDelivered(s)
    requires s.storedAt.Some? ==> s.storedAt.value + s.ttl <= t2
    ensures Spaced(s')
  {
    assert !LatestDelivered(s');
  }

  lemma SpacedFinish<T>(s: State<T>, c: nat, t1: real, t2: real)
    requires Inv(s) && Spaced(s) && Enabled(s, Resume(c, t1, t2))
    ensures Spaced(Finish(s, c, t1, t2))
  {
    var s' := Finish(s, c, t1, t2);
    FinishOnlyStores(s, c, t1, t2);
    if LatestDelivered(s') {
      if s'.callers[c].flight == |s.flights| - 1 && s'.callers[c].outcome.Ok? {
        DeliveryStores(s, c, t1, t2);
      } else {
        var i :| 0 <= i < |s'.callers| && s'.callers[i].Finished? && s'.callers[i].flight == |s'.flights| - 1
                 && s'.callers[i].outcome.Ok?;
        assert s.callers[i] == s'.callers[i];
      }
    }
  }

  lemma FinishOnlyStores<T>(s: State<T>, c: nat, t1: real, t2: real)
    requires Inv(s) && Enabled(s, Resume(c, t1, t2))
    ensures
      var s' := Finish(s, c, t1, t2);
      && s'.flights == s.flights && s'.ttl == s.ttl
      && s'.callers == s.callers[c := s'.callers[c]] && s'.callers[c].Finished?
      && (s.storedAt.Some? ==> s'.storedAt.Some? && s.storedAt.value <= s'.storedAt.value)
  {}

  /** Delivering a success leaves something stored since the delivered flight began. */
  lemma DeliveryStores<T>(s: State<T>, c: nat, t1: real, t2: real)
    requires Inv(s) && Enabled(s, Resume(c, t1, t2))
    requires s.flights[s.callers[c].flight].outcome.value.Ok?
    ensures
      var s' := Step(s, Resume(c, t1, t2));
      s'.storedAt.Some? && s.flights[s.callers[c].flight].startedAt <= s'.storedAt.value
  {}

  lemma {:induction false} SpacedRun<T>(s: State<T>, es: seq<Event<T>>)
    requires Inv(s) && Spaced(s) && ValidRun(s, es) && Prompt(s, es)
    ensures Spaced(Exec(s, es))
    decreases |es|
  {
    if es != [] {
      SpacedStep(s, es[0]);
      StepKeepsInv(s, es[0]);
      SpacedRun(Step(s, es[0]), es[1..]);
    }
  }

  lemma {:induction false} SpanOf<T>(s: State<T>, n: nat)
    requires s.ttl >= 0.0 && Spaced(s) && n < |s.flights|
    ensures s.flights[n].startedAt - s.flights[0].startedAt >= n as real * s.ttl
  {
    if n > 0 {
      SpanOf(s, n - 1);
      assert s.flights[n - 1].startedAt + s.ttl <= s.flights[n - 1 + 1].startedAt;
      assert n as real * s.ttl == (n - 1) as real * s.ttl + s.ttl;
    }
  }

  lemma SpacedFromStart<T>(ttl: real, now: real, es: seq<Event<T>>)
    requires ttl >= 0.0 && ValidRun(Init(ttl, now), es) && Prompt(Init(ttl, now), es)
    ensures
      var s := Exec(Init(ttl, now), es);
      Inv(s) && Spaced(s) && s.ttl == ttl
  {
    ReachableInv(ttl, now, es);
    SpacedRun(Init(ttl, now), es);
    RunGrows(Init(ttl, now), es);
  }

  /** Under the scheduling hypothesis upstream calls start at least `ttl` apart, so N of them span
      at least (N - 1) * ttl, whatever the number of callers, cancellations and late waiters. */
  lemma UpstreamSpacing<T>(ttl: real, now: real, es: seq<Event<T>>)
    requires ttl >= 0.0 && ValidRun(Init(ttl, now), es) && Prompt(Init(ttl, now), es)
    ensures
      var s := Exec(Init(ttl, now), es);
      var n := s.upstream;
      && n == |s.flights|
      && (forall k :: 0 <= k < n - 1 ==> s.flights[k].startedAt + ttl <= s.flights[k + 1].startedAt)
      && (n > 0 ==> s.flights[n - 1].startedAt - s.flights[0].startedAt >= (n - 1) as real * ttl)
  {
    SpacedFromStart(ttl, now, es);
    var s := Exec(Init(ttl, now), es);
    if s.upstream > 0 {
      SpanOf(s, s.upstream - 1);
    }
  }

  // ---------------------------------------------------------------- the class

  /** The cache object, together with the flights and callers the event loop keeps for it. */
  class SingleFlightCache<T> {
    const ttl: real
    var value: Option<T>
    var storedAt: Option<real>
    var inflight: Option<nat>
    var hits: nat
    var misses: nat
    var coalesced: nat
    var upstream: nat
    // the event loop's side
    var flights: seq<Flight<T>>
    var callers: seq<Caller<T>>
    var clock: real

    constructor (ttl: real, now: real)
      requires ttl >= 0.0
      ensures View() == Init(ttl, now) && Inv(View())
    {
      this.ttl := ttl;
      value, storedAt, inflight := None, None, None;
      hits, misses, coalesced, upstream := 0, 0, 0, 0;
      flights, callers, clock := [], [], now;
    }

    ghost function View(): State<T>
      reads this
    {
      State(ttl, value, storedAt, inflight, hits, misses, coalesced, upstream, flights, callers, clock)
    }

    predicate IsFresh(now: real)
      reads this
    {
      if storedAt.None? then false else now - storedAt.value < ttl
    }

    method Invalidate()
      modifies this
      ensures View() == Step(old(View()), Event.Invalidate)
      ensures View() == old(View()).(value := None, storedAt := None)
    {
      value, storedAt := None, None;
    }

    /** `get` up to its suspension; `c` is the new caller. */
    method BeginGet(t1: real, t2: real) returns (c: nat)
      requires Inv(View()) && Enabled(View(), Get(t1, t2))
      modifies this
      ensures View() == Step(old(View()), Get(t1, t2)) && Inv(View())
      ensures c == |old(callers)|
      ensures old(IsFresh(t1)) <==> callers[c].Hit?
      ensures old(IsFresh(t1)) ==> callers == old(callers) + [Hit(old(value))] && flights == old(flights)
      ensures !old(IsFresh(t1)) ==> inflight.Some? && callers == old(callers) + [Waiting(inflight.value)]
      ensures !old(IsFresh(t1)) ==>
                if old(View()).Live().Some? then inflight == old(inflight) && flights == old(flights)
                else inflight == Some(|old(flights)|) && flights == old(flights) + [Flight(t2, None, None)]
    {
      StepKeepsInv(View(), Get(t1, t2));
      c := |callers|;
      if IsFresh(t1) {
        hits := hits + 1;
        callers := callers + [Hit(value)];
        clock := t1;
      } else {
        LockedBody(t2);
      }
    }

    /** The body under the lock. */
    method LockedBody(t2: real)
      requires inflight.Some? ==> inflight.value < |flights|
      modifies this
      ensures View() == BeginLocked(old(View()), t2)
    {
      clock := t2;
      if IsFresh(t2) {
        hits := hits + 1;
        callers := callers + [Hit(value)];
        return;
      }
      var flight: nat;
      if inflight.Some? && !flights[inflight.value].Done() {
        flight := inflight.value;
        coalesced := coalesced + 1;
      } else {
        misses := misses + 1;
        upstream := upstream + 1;
        flight := |flights|;
        flights := flights + [Flight(t2, None, None)];
        inflight := Some(flight);
      }
      callers := callers + [Waiting(flight)];
    }

    /** The upstream task ends. */
    method CompleteFlight(f: nat, o: Outcome<T>, at: real)
      requires Inv(View()) && Enabled(View(), Complete(f, o, at))
      modifies this
      ensures View() == Step(old(View()), Complete(f, o, at)) && Inv(View())
      ensures View() == old(View()).(flights := flights, clock := at)
      ensures flights == old(flights)[f := Flight(old(flights[f].startedAt), Some(o), Some(at))]
    {
      StepKeepsInv(View(), Complete(f, o, at));
      flights := flights[f := flights[f].(outcome := Some(o), endedAt := Some(at))];
      clock := at;
    }

    /** The `finally` clause of `get`. */
    method ReleaseSlot(f: nat)
      requires f < |flights|
      modifies this`inflight
      ensures View() == Release(old(View()), f)
    {
      if flights[f].Done() && inflight == Some(f) {
        inflight := None;
      }
    }

    /** `get` from its suspension on: what the caller is given or what is raised in it. */
    method FinishGet(c: nat, t1: real, t2: real) returns (r: Outcome<T>)
      requires Inv(View()) && Enabled(View(), Resume(c, t1, t2))
      modifies this
      ensures View() == Step(old(View()), Resume(c, t1, t2)) && Inv(View())
      ensures callers[c] == Finished(old(callers[c].flight), r)
      ensures flights == old(flights) && flights[old(callers[c].flight)].outcome == Some(r)
      ensures if r.Ok? && !old(IsFresh(t1)) then value == Some(r.value) && storedAt == Some(t2)
              else value == old(value) && storedAt == old(storedAt)
    {
      StepKeepsInv(View(), Resume(c, t1, t2));
      var flight := callers[c].flight;
      r := flights[flight].outcome.value;
      callers := callers[c := Finished(flight, r)];
      ReleaseSlot(flight);
      if r.Ok? {
        Store(r.value, t1, t2);
      }
    }

    /** What follows a successful `await`: keep the value unless a fresh one is already there. */
    method Store(v: T, t1: real, t2: real)
      modifies this`value, this`storedAt, this`clock
      ensures View() == if old(IsFresh(t1)) then old(View()).(clock := t1)
                        else old(View()).(value := Some(v), storedAt := Some(t2), clock := t2)
    {
      clock := t1;
      if !IsFresh(t1) {
        value := Some(v);
        storedAt := Some(t2);
        clock := t2;
      }
    }

    /** A waiting caller is cancelled: only the `finally` clause runs. */
    method AbandonGet(c: nat)
      requires Inv(View()) && Enabled(View(), Cancel(c))
      modifies this
      ensures View() == Step(old(View()), Cancel(c)) && Inv(View())
      ensures View() == old(View()).(callers := callers, inflight := inflight)
      ensures callers == old(callers)[c := Cancelled(old(callers[c].flight))]
      ensures View().Live() == old(View()).Live()
    {
      StepKeepsInv(View(), Cancel(c));
      assert CallerOk(View(), callers[c]);
      var flight := callers[c].flight;
      callers := callers[c := Cancelled(flight)];
      ReleaseSlot(flight);
    }

    /** Age of the cached value, if any. */
    function AgeSeconds(now: real): (age: Option<real>)
      reads this
      ensures age.Some? ==> (IsFresh(now) <==> age.value < ttl)
      ensures age.None? <==> storedAt.None?
    {
      if storedAt.None? then None else Some(now - storedAt.value)
    }
  }

  /** Construction is refused exactly for a negative time to live. */
  method NewCache<T>(ttl: real, now: real) returns (cache: Option<SingleFlightCache<T>>)
    ensures cache.None? <==> ttl < 0.0
    ensures cache.Some? ==> fresh(cache.value) && cache.value.View() == Init(ttl, now)
  {
    if ttl < 0.0 {
      return None;
    }
    var c := new SingleFlightCache<T>(ttl, now);
    cache := Some(c);
  }
}
