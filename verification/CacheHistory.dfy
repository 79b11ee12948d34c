/**
 What a run of the cache brings in from outside, and where it ends up: the outcomes the upstream tasks
 end with, the moments they begin and end, and who is given what.
 */
module FlightHistory {
  import opened Basics
  import opened SingleFlight

  // ---------------------------------------------------------------- flights

  lemma CompletedStep<T>(s: State<T>, f: nat, o: Outcome<T>, at: real)
    requires Enabled(s, Complete(f, o, at))
    ensures
      var s' := Step(s, Complete(f, o, at));
      f < |s'.flights| && s'.flights[f] == Flight(s.flights[f].startedAt, Some(o), Some(at))
  {}

  /** An upstream task that ends with `o` at `at` leaves its flight with exactly that for good. */
  lemma {:induction false} OutcomeAsBrought<T>(s: State<T>, es: seq<Event<T>>, f: nat, o: Outcome<T>, at: real)
    requires ValidRun(s, es) && Complete(f, o, at) in es
    ensures
      var end := Exec(s, es);
      f < |end.flights| && end.flights[f].outcome == Some(o) && end.flights[f].endedAt == Some(at)
    decreases |es|
  {
    if es[0] == Complete(f, o, at) {
      CompletedStep(s, f, o, at);
      RunGrows(Step(s, es[0]), es[1..]);
    } else {
      OutcomeAsBrought(Step(s, es[0]), es[1..], f, o, at);
    }
  }

  lemma EndStep<T>(s: State<T>, e: Event<T>, f: nat)
    requires Enabled(s, e) && f < |Step(s, e).flights| && Step(s, e).flights[f].Done()
    ensures
      || (f < |s.flights| && s.flights[f] == Step(s, e).flights[f])
      || exists o, at :: e == Complete(f, o, at) && Step(s, e).flights[f].outcome == Some(o)
                         && Step(s, e).flights[f].endedAt == Some(at)
  {
    if e.Complete? {
      assert e == Complete(e.flight, e.outcome, e.at);
    }
  }

  /** And a flight that has ended, ended like that before the run or with an upstream task of the run. */
  lemma {:induction false} OutcomeWasBrought<T>(s: State<T>, es: seq<Event<T>>, f: nat)
    requires ValidRun(s, es) && f < |Exec(s, es).flights| && Exec(s, es).flights[f].Done()
    ensures
      var end := Exec(s, es).flights[f];
      || (f < |s.flights| && s.flights[f] == end)
      || (end.endedAt.Some? && Complete(f, end.outcome.value, end.endedAt.value) in es)
    decreases |es|
  {
    if es != [] {
      var mid := Step(s, es[0]);
      OutcomeWasBrought(mid, es[1..], f);
      if f < |mid.flights| && mid.flights[f] == Exec(s, es).flights[f] {
        EndStep(s, es[0], f);
      }
    }
  }

  /** So from the start on the flights that have ended are those whose end the run brought, and as it brought it. */
  lemma FromTheStart<T>(ttl: real, now: real, es: seq<Event<T>>, f: nat, o: Outcome<T>, at: real)
    requires ValidRun(Init(ttl, now), es)
    ensures
      var flights := Exec(Init(ttl, now), es).flights;
      Complete(f, o, at) in es <==>
        f < |flights| && flights[f].outcome == Some(o) && flights[f].endedAt == Some(at)
  {
    if Complete(f, o, at) in es {
      OutcomeAsBrought(Init(ttl, now), es, f, o, at);
    }
    var flights := Exec(Init(ttl, now), es).flights;
    if f < |flights| && flights[f].outcome == Some(o) && flights[f].endedAt == Some(at) {
      OutcomeWasBrought(Init(ttl, now), es, f);
    }
  }

  lemma StartStep<T>(s: State<T>, e: Event<T>, f: nat)
    requires Enabled(s, e) && f < |Step(s, e).flights|
    ensures
      || (f < |s.flights| && s.flights[f].startedAt == Step(s, e).flights[f].startedAt)
      || exists t1 :: e == Get(t1, Step(s, e).flights[f].startedAt)
  {
    if f >= |s.flights| {
      assert e.Get? && e == Get(e.t1, Step(s, e).flights[f].startedAt);
    }
  }

  /** Every flight of a run began when a call of `get` of the run read the clock under the lock. */
  lemma {:induction false} StartWasCall<T>(s: State<T>, es: seq<Event<T>>, f: nat)
    requires ValidRun(s, es) && f < |Exec(s, es).flights|
    ensures
      var start := Exec(s, es).flights[f].startedAt;
      || (f < |s.flights| && s.flights[f].startedAt == start)
      || exists t1 :: Get(t1, start) in es
    decreases |es|
  {
    if es != [] {
      var mid := Step(s, es[0]);
      var start := Exec(s, es).flights[f].startedAt;
      StartWasCall(mid, es[1..], f);
      if f < |mid.flights| && mid.flights[f].startedAt == start {
        StartStep(s, es[0], f);
        if !(f < |s.flights| && s.flights[f].startedAt == start) {
          var t1 :| es[0] == Get(t1, start);
          assert Get(t1, start) in es;
        }
      } else {
        var t1 :| Get(t1, start) in es[1..];
        assert Get(t1, start) in es;
      }
    }
  }

  // ---------------------------------------------------------------- callers

  /** A caller waiting on a flight is given exactly what the upstream task ends with: what it had ended
      with already, or what the run brings. */
  lemma WaiterIsGiven<T>(s: State<T>, es: seq<Event<T>>, c: nat, o: Outcome<T>)
    requires Inv(s) && ValidRun(s, es) && c < |s.callers| && s.callers[c].Waiting?
    requires c < |Exec(s, es).callers| && Exec(s, es).callers[c].Finished? && Exec(s, es).callers[c].outcome == o
    ensures
      var f := s.callers[c].flight;
      && Exec(s, es).callers[c].flight == f
      && ((f < |s.flights| && s.flights[f].outcome == Some(o)) || exists at :: Complete(f, o, at) in es)
  {
    CallerFate(s, es, c);
    OutcomeWasBrought(s, es, s.callers[c].flight);
  }

  lemma CallerEndsStep<T>(s: State<T>, e: Event<T>)
    requires Inv(s) && Enabled(s, e)
    ensures e.Resume? ==>
              var f := s.callers[e.caller].flight;
              s.flights[f].outcome.Some? && Step(s, e).callers[e.caller] == Finished(f, s.flights[f].outcome.value)
    ensures e.Cancel? ==> Step(s, e).callers[e.caller] == Cancelled(s.callers[e.caller].flight)
  {}

  /** Going on or being cancelled ends a caller for good, with its flight's outcome or with nothing. */
  lemma {:induction false} CallerEnds<T>(s: State<T>, es: seq<Event<T>>, e: Event<T>)
    requires Inv(s) && ValidRun(s, es) && e in es && (e.Resume? || e.Cancel?)
    ensures e.caller < |Exec(s, es).callers|
    ensures
      var end := Exec(s, es);
      var c := end.callers[e.caller];
      && (e.Resume? ==> c.Finished? && c.flight < |end.flights| && end.flights[c.flight].outcome == Some(c.outcome))
      && (e.Cancel? ==> c.Cancelled?)
    decreases |es|
  {
    StepKeepsInv(s, es[0]);
    if es[0] == e {
      CallerEndsStep(s, e);
      CallerFate(Step(s, e), es[1..], e.caller);
      RunKeepsInv(Step(s, e), es[1..]);
      assert CallerOk(Exec(s, es), Exec(s, es).callers[e.caller]);
    } else {
      CallerEnds(Step(s, es[0]), es[1..], e);
    }
  }

  /** Whatever an unfinished flight ends with reaches a caller that waits for it. */
  lemma AnyOutcomeArrives<T>(s: State<T>, c: nat, o: Outcome<T>, at: real, t1: real, t2: real)
    returns (es: seq<Event<T>>)
    requires Inv(s) && c < |s.callers| && s.callers[c].Waiting? && s.Unfinished(s.callers[c].flight)
    requires s.clock <= at <= t1 <= t2
    ensures es == [Complete(s.callers[c].flight, o, at), Resume(c, t1, t2)] && ValidRun(s, es)
    ensures
      var end := Exec(s, es);
      && c < |end.callers| && end.callers[c] == Finished(s.callers[c].flight, o)
      && (o.Ok? && (s.storedAt.Some? ==> t1 - s.storedAt.value >= s.ttl) ==>
            end.value == Some(o.value) && end.storedAt == Some(t2))
      && (o.Raised? ==> end.value == s.value && end.storedAt == s.storedAt)
  {
    var f := s.callers[c].flight;
    var s1 := Step(s, Complete(f, o, at));
    var e1 := RunOn(s1, Resume(c, t1, t2), []);
    es := RunOn(s, Complete(f, o, at), e1);
  }

  // ---------------------------------------------------------------- what is served

  /** A value served from the cache is one an upstream task of the run ended with. */
  lemma ServedWasBrought<T>(ttl: real, now: real, es: seq<Event<T>>, c: nat)
    requires ttl >= 0.0 && ValidRun(Init(ttl, now), es)
    requires c < |Exec(Init(ttl, now), es).callers| && Exec(Init(ttl, now), es).callers[c].Hit?
    ensures
      var served := Exec(Init(ttl, now), es).callers[c].served;
      served.Some? && exists f, at :: Complete(f, Ok(served.value), at) in es
  {
    ReachableInv(ttl, now, es);
    var s := Exec(Init(ttl, now), es);
    assert CallerOk(s, s.callers[c]);
    var v := s.callers[c].served.value;
    var f :| 0 <= f < |s.flights| && s.flights[f].outcome == Some(Ok(v)) && s.flights[f].startedAt <= s.clock;
    OutcomeWasBrought(Init(ttl, now), es, f);
  }

  /** After an invalidation no call hits until some caller has stored a value again. */
  lemma {:induction false} NothingAfterInvalidate<T>(s: State<T>, es: seq<Event<T>>, t: real)
    requires Inv(s) && ValidRun(Step(s, Invalidate), es)
    requires forall e :: e in es ==> !e.Resume?
    ensures Exec(Step(s, Invalidate), es).value.None? && !Exec(Step(s, Invalidate), es).Fresh(t)
  {
    EmptyStays(Step(s, Invalidate), es);
  }

  lemma {:induction false} EmptyStays<T>(s: State<T>, es: seq<Event<T>>)
    requires ValidRun(s, es) && s.value.None? && s.storedAt.None? && forall e :: e in es ==> !e.Resume?
    ensures Exec(s, es).value.None? && Exec(s, es).storedAt.None?
    decreases |es|
  {
    if es != [] {
      assert es[0] in es;
      EmptyStays(Step(s, es[0]), es[1..]);
    }
  }
}
