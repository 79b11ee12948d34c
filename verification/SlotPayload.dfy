/**
 Whether what a caller is given is what the slot then holds. It need not be: a flight may end while an
 earlier success is still on its way to its callers, and whichever comes second is not stored.
 */
module SlotPayload {
  import opened Basics
  import opened SingleFlight

  /** What caller `c` was given, if it was given a value. */
  function PayloadOf<T>(s: State<T>, c: nat): Option<T>
    requires c < |s.callers|
  {
    match s.callers[c]
    case Hit(v) => v
    case Finished(_, o) => if o.Ok? then Some(o.value) else None
    case Waiting(_) => None
    case Cancelled(_) => None
  }

  /** The step after which caller `c` returns. */
  predicate Returns<T>(s: State<T>, e: Event<T>, c: nat) {
    (e.Get? && c == |s.callers|) || (e.Resume? && c == e.caller)
  }

  // ---------------------------------------------------------------- which flight filled the slot

  function Fill<T>(s: State<T>, held: Option<nat>, e: Event<T>): Option<nat>
    requires Enabled(s, e)
  {
    match e
    case Invalidate => None
    case Resume(c, t1, _) =>
      if s.flights[s.callers[c].flight].outcome.value.Ok? && !s.Fresh(t1) then Some(s.callers[c].flight) else held
    case _ => held
  }

  /** The flight whose value the slot holds at the end of a run, if it was `held`'s at the start. */
  function Filler<T>(s: State<T>, held: Option<nat>, es: seq<Event<T>>): Option<nat>
    requires ValidRun(s, es)
    decreases |es|
  {
    if es == [] then held else Filler(Step(s, es[0]), Fill(s, held, es[0]), es[1..])
  }

  ghost predicate FilledBy<T>(s: State<T>, held: Option<nat>) {
    && (held.Some? <==> s.value.Some?)
    && (held.Some? ==> held.value < |s.flights| && s.flights[held.value].outcome == Some(Ok(s.value.value)))
  }

  lemma FillStep<T>(s: State<T>, held: Option<nat>, e: Event<T>)
    requires Inv(s) && FilledBy(s, held) && Enabled(s, e)
    ensures FilledBy(Step(s, e), Fill(s, held, e))
  {
    StepGrows(s, e);
    if e.Resume? {
      assert CallerOk(s, s.callers[e.caller]);
    }
  }

  lemma {:induction false} FillRun<T>(s: State<T>, held: Option<nat>, es: seq<Event<T>>)
    requires Inv(s) && FilledBy(s, held) && ValidRun(s, es)
    ensures FilledBy(Exec(s, es), Filler(s, held, es))
    decreases |es|
  {
    if es != [] {
      FillStep(s, held, es[0]);
      StepKeepsInv(s, es[0]);
      FillRun(Step(s, es[0]), Fill(s, held, es[0]), es[1..]);
    }
  }

  /** In any run the slot holds the outcome of the flight that filled it last. A waiter that is given a
      value leaves the slot filled by its own flight if and only if nothing fresh was there or its own
      flight had filled it. */
  lemma WaiterAndSlot<T>(ttl: real, now: real, es: seq<Event<T>>, c: nat, t1: real, t2: real)
    requires ttl >= 0.0 && ValidRun(Init(ttl, now), es) && Enabled(Exec(Init(ttl, now), es), Resume(c, t1, t2))
    requires PayloadOf(Step(Exec(Init(ttl, now), es), Resume(c, t1, t2)), c).Some?
    ensures
      var s := Exec(Init(ttl, now), es);
      var s' := Step(s, Resume(c, t1, t2));
      var before := Filler(Init(ttl, now), None, es);
      var filler := Fill(s, before, Resume(c, t1, t2));
      && FilledBy(s, before) && FilledBy(s', filler) && filler.Some?
      && s'.flights[s.callers[c].flight].outcome == Some(Ok(PayloadOf(s', c).value))
      && (filler == Some(s.callers[c].flight) <==> !s.Fresh(t1) || before == Some(s.callers[c].flight))
  {
    ReachableInv(ttl, now, es);
    FillRun(Init(ttl, now), None, es);
    FillStep(Exec(Init(ttl, now), es), Filler(Init(ttl, now), None, es), Resume(c, t1, t2));
  }

  // ---------------------------------------------------------------- how old a hit can be

  /** Every caller of the run goes on within `d` of the end of its flight. */
  predicate Brisk<T>(s: State<T>, es: seq<Event<T>>, d: real)
    requires ValidRun(s, es)
    decreases |es|
  {
    es != [] ==>
      && (es[0].Resume? ==>
            var end := s.flights[s.callers[es[0].caller].flight].endedAt;
            end.Some? && es[0].t2 <= end.value + d)
      && Brisk(Step(s, es[0]), es[1..], d)
  }

  /** The slot was filled within `d` of the end of the flight that filled it. */
  ghost predicate FilledWithin<T>(s: State<T>, held: Option<nat>, d: real) {
    && FilledBy(s, held)
    && (held.Some? ==> s.storedAt.Some? && s.flights[held.value].endedAt.Some?
                       && s.storedAt.value <= s.flights[held.value].endedAt.value + d)
  }

  lemma FilledWithinStep<T>(s: State<T>, held: Option<nat>, e: Event<T>, d: real)
    requires Inv(s) && FilledWithin(s, held, d) && Enabled(s, e)
    requires e.Resume? ==>
               var end := s.flights[s.callers[e.caller].flight].endedAt;
               end.Some? && e.t2 <= end.value + d
    ensures FilledWithin(Step(s, e), Fill(s, held, e), d)
  {
    FillStep(s, held, e);
    StepGrows(s, e);
  }

  lemma {:induction false} FilledWithinRun<T>(s: State<T>, held: Option<nat>, es: seq<Event<T>>, d: real)
    requires Inv(s) && FilledWithin(s, held, d) && ValidRun(s, es) && Brisk(s, es, d)
    ensures FilledWithin(Exec(s, es), Filler(s, held, es), d)
    decreases |es|
  {
    if es != [] {
      FilledWithinStep(s, held, es[0], d);
      StepKeepsInv(s, es[0]);
      FilledWithinRun(Step(s, es[0]), Fill(s, held, es[0]), es[1..], d);
    }
  }

  /** If every caller goes on within `d` of the end of its flight, a hit serves the value of a flight that
      ended less than `ttl` + `d` ago. */
  lemma HitIsRecent<T>(ttl: real, now: real, es: seq<Event<T>>, d: real, t1: real, t2: real)
    requires ttl >= 0.0 && ValidRun(Init(ttl, now), es) && Brisk(Init(ttl, now), es, d)
    requires Enabled(Exec(Init(ttl, now), es), Get(t1, t2))
    requires Step(Exec(Init(ttl, now), es), Get(t1, t2)).callers[|Exec(Init(ttl, now), es).callers|].Hit?
    ensures
      var s := Exec(Init(ttl, now), es);
      var f := Filler(Init(ttl, now), None, es);
      && f.Some? && f.value < |s.flights| && s.flights[f.value].endedAt.Some?
      && s.value.Some? && s.flights[f.value].outcome == Some(Ok(s.value.value))
      && PayloadOf(Step(s, Get(t1, t2)), |s.callers|) == s.value
      && t1 - s.flights[f.value].endedAt.value < ttl + d
  {
    ReachableInv(ttl, now, es);
    RunGrows(Init(ttl, now), es);
    FilledWithinRun(Init(ttl, now), None, es, d);
  }

  /** Without that it can be as old as one likes: a late waiter stores an old value under a new time. */
  lemma HitCanBeOld(age: real) returns (es: seq<Event<int>>)
    requires age >= 0.0
    ensures es == [Get(0.0, 0.0), Complete(0, Ok(7), 0.0), Resume(0, age, age), Get(age, age)]
    ensures ValidRun(Init<int>(45.0, 0.0), es)
    ensures
      var s := Exec(Init<int>(45.0, 0.0), es);
      s.flights == [Flight(0.0, Some(Ok(7)), Some(0.0))] && s.clock == age
      && s.callers == [Finished(0, Ok(7)), Hit(Some(7))]
  {
    var s0 := Init<int>(45.0, 0.0);
    var s1 := Step(s0, Get(0.0, 0.0));
    var s2 := Step(s1, Complete(0, Ok(7), 0.0));
    var s3 := Step(s2, Resume(0, age, age));
    var e2 := RunOn(s3, Get(age, age), []);
    var e1 := RunOn(s2, Resume(0, age, age), e2);
    var e0 := RunOn(s1, Complete(0, Ok(7), 0.0), e1);
    es := RunOn(s0, Get(0.0, 0.0), e0);
  }

  // ---------------------------------------------------------------- when the two always agree

  /** A success is still on its way to a caller. */
  ghost predicate Undelivered<T>(s: State<T>) {
    exists c :: 0 <= c < |s.callers| && Awaits(s, c)
  }

  predicate Awaits<T>(s: State<T>, c: nat)
    requires c < |s.callers|
  {
    && s.callers[c].Waiting? && s.callers[c].flight < |s.flights|
    && s.flights[s.callers[c].flight].Done() && s.flights[s.callers[c].flight].outcome.value.Ok?
  }

  /** A call finds nothing fresh while a success is on its way. */
  ghost predicate Overtakes<T>(s: State<T>, e: Event<T>) {
    e.Get? && !s.Fresh(e.t1) && Undelivered(s)
  }

  /** No call of the run does. */
  ghost predicate InTurn<T>(s: State<T>, es: seq<Event<T>>)
    requires ValidRun(s, es)
    decreases |es|
  {
    es != [] ==> !Overtakes(s, es[0]) && InTurn(Step(s, es[0]), es[1..])
  }

  /** Waiters wait for the latest flight, or for one that failed; and what was stored since the latest
      flight began is its value. */
  ghost predicate Settled<T>(s: State<T>) {
    && (forall c :: 0 <= c < |s.callers| && s.callers[c].Waiting? ==> WaitsInTurn(s, s.callers[c].flight))
    && (s.storedAt.Some? && s.flights != [] && s.flights[|s.flights| - 1].startedAt <= s.storedAt.value ==>
          s.value.Some? && s.flights[|s.flights| - 1].outcome == Some(Ok(s.value.value)))
  }

  predicate WaitsInTurn<T>(s: State<T>, f: nat) {
    f < |s.flights| && (f == |s.flights| - 1 || (s.flights[f].Done() && s.flights[f].outcome.value.Raised?))
  }

  lemma SettledGet<T>(s: State<T>, t1: real, t2: real)
    requires s.ttl > 0.0 && Inv(s) && Settled(s) && Enabled(s, Get(t1, t2)) && !Overtakes(s, Get(t1, t2))
    ensures Settled(Step(s, Get(t1, t2)))
  {
    var s' := Step(s, Get(t1, t2));
    forall c | 0 <= c < |s'.callers| && s'.callers[c].Waiting? ensures WaitsInTurn(s', s'.callers[c].flight) {
      if c < |s.callers| {
        assert s'.callers[c] == s.callers[c] && WaitsInTurn(s, s.callers[c].flight);
        assert !s.Fresh(t1) ==> !Awaits(s, c);
      }
    }
  }

  lemma SettledComplete<T>(s: State<T>, f: nat, o: Outcome<T>, at: real)
    requires Inv(s) && Settled(s) && Enabled(s, Complete(f, o, at))
    ensures Settled(Step(s, Complete(f, o, at)))
  {
    var s' := Step(s, Complete(f, o, at));
    forall c | 0 <= c < |s'.callers| && s'.callers[c].Waiting? ensures WaitsInTurn(s', s'.callers[c].flight) {
      assert WaitsInTurn(s, s.callers[c].flight);
    }
  }

  lemma SettledResume<T>(s: State<T>, c: nat, t1: real, t2: real)
    requires Inv(s) && Settled(s) && Enabled(s, Resume(c, t1, t2))
    ensures Settled(Step(s, Resume(c, t1, t2)))
  {
    var s' := Step(s, Resume(c, t1, t2));
    assert WaitsInTurn(s, s.callers[c].flight);
    forall i | 0 <= i < |s'.callers| && s'.callers[i].Waiting? ensures WaitsInTurn(s', s'.callers[i].flight) {
      assert s'.callers[i] == s.callers[i] && WaitsInTurn(s, s.callers[i].flight);
    }
  }

  lemma SettledOther<T>(s: State<T>, e: Event<T>)
    requires Inv(s) && Settled(s) && Enabled(s, e) && (e.Cancel? || e.Invalidate?)
    ensures Settled(Step(s, e))
  {
    var s' := Step(s, e);
    forall i | 0 <= i < |s'.callers| && s'.callers[i].Waiting? ensures WaitsInTurn(s', s'.callers[i].flight) {
      assert s'.callers[i] == s.callers[i] && WaitsInTurn(s, s.callers[i].flight);
    }
  }

  lemma SettledStep<T>(s: State<T>, e: Event<T>)
    requires s.ttl > 0.0 && Inv(s) && Settled(s) && Enabled(s, e) && !Overtakes(s, e)
    ensures Settled(Step(s, e))
  {
    match e
    case Get(t1, t2) => SettledGet(s, t1, t2);
    case Complete(f, o, at) => SettledComplete(s, f, o, at);
    case Resume(c, t1, t2) => SettledResume(s, c, t1, t2);
    case _ => SettledOther(s, e);
  }

  lemma {:induction false} SettledRun<T>(s: State<T>, es: seq<Event<T>>)
    requires s.ttl > 0.0 && Inv(s) && Settled(s) && ValidRun(s, es) && InTurn(s, es)
    ensures Inv(Exec(s, es)) && Settled(Exec(s, es)) && Exec(s, es).ttl == s.ttl
    decreases |es|
  {
    if es != [] {
      SettledStep(s, es[0]);
      StepKeepsInv(s, es[0]);
      StepGrows(s, es[0]);
      SettledRun(Step(s, es[0]), es[1..]);
    }
  }

  /** With a ttl of 0 nothing is ever fresh, and every success delivered is stored. */
  lemma ZeroTtlPayload<T>(s: State<T>, e: Event<T>, c: nat)
    requires s.ttl == 0.0 && Inv(s) && Enabled(s, e) && Returns(s, e, c)
    requires c < |Step(s, e).callers| && PayloadOf(Step(s, e), c).Some?
    ensures e.Resume? && Step(s, e).value == PayloadOf(Step(s, e), c) && Step(s, e).storedAt == Some(e.t2)
  {}

  lemma SettledPayload<T>(s: State<T>, e: Event<T>, c: nat)
    requires s.ttl > 0.0 && Inv(s) && Settled(s) && Enabled(s, e) && Returns(s, e, c)
    requires c < |Step(s, e).callers| && PayloadOf(Step(s, e), c).Some?
    ensures Step(s, e).value == PayloadOf(Step(s, e), c)
  {
    if e.Resume? {
      assert WaitsInTurn(s, s.callers[c].flight);
    }
  }

  /** In a run whose calls never find nothing fresh while a success is on its way, every value a caller
      is given is the value the slot then holds; with a ttl of 0, in every run. */
  lemma PayloadIsStored<T>(ttl: real, now: real, es: seq<Event<T>>, e: Event<T>, c: nat)
    requires ttl >= 0.0 && ValidRun(Init(ttl, now), es) && (ttl > 0.0 ==> InTurn(Init(ttl, now), es))
    requires Enabled(Exec(Init(ttl, now), es), e) && Returns(Exec(Init(ttl, now), es), e, c)
    requires c < |Step(Exec(Init(ttl, now), es), e).callers|
    requires PayloadOf(Step(Exec(Init(ttl, now), es), e), c).Some?
    ensures Step(Exec(Init(ttl, now), es), e).value == PayloadOf(Step(Exec(Init(ttl, now), es), e), c)
  {
    if ttl > 0.0 {
      SettledRun(Init(ttl, now), es);
      SettledPayload(Exec(Init(ttl, now), es), e, c);
    } else {
      ReachableInv(ttl, now, es);
      RunGrows(Init(ttl, now), es);
      ZeroTtlPayload(Exec(Init(ttl, now), es), e, c);
    }
  }

  // ---------------------------------------------------------------- and when they need not

  /** From `s`, the calls of `es` staying in turn, caller `c` is given something else than the slot has
      when it returns. */
  ghost predicate Strays<T>(s: State<T>, es: seq<Event<T>>, e: Event<T>, c: nat) {
    && ValidRun(s, es) && InTurn(s, es)
    && Enabled(Exec(s, es), e) && Returns(Exec(s, es), e, c) && c < |Step(Exec(s, es), e).callers|
    && PayloadOf(Step(Exec(s, es), e), c).Some?
    && Step(Exec(s, es), e).value != PayloadOf(Step(Exec(s, es), e), c)
  }

  /** The call just made waits for a flight that has not ended. */
  lemma StaleGetWaits<T>(s: State<T>, t1: real, t2: real)
    requires Inv(s) && Enabled(s, Get(t1, t2)) && !s.Fresh(t1)
    ensures
      var s' := Step(s, Get(t1, t2));
      var c := |s.callers|;
      && |s'.callers| == c + 1 && s'.callers[..c] == s.callers
      && s'.callers[c].Waiting? && s'.Unfinished(s'.callers[c].flight)
      && !s'.Fresh(t2) && s'.clock == t2 && s'.ttl == s.ttl
      && |s.flights| <= |s'.flights| && s'.flights[..|s.flights|] == s.flights
  {}

  /** The late success goes first, and is stored. */
  lemma LateSuccessStored<T>(s: State<T>, c: nat, t: real)
    requires Inv(s) && c < |s.callers| && Awaits(s, c) && !s.Fresh(t) && s.clock <= t
    ensures Enabled(s, Resume(c, t, t))
    ensures
      var s' := Step(s, Resume(c, t, t));
      && s'.value == Some(s.flights[s.callers[c].flight].outcome.value.value) && s'.storedAt == Some(t)
      && s'.flights == s.flights && s'.callers == s.callers[c := s'.callers[c]] && s'.clock == t && s'.ttl == s.ttl
  {}

  /** Then the flight of the overtaking call ends, and its value is not stored. */
  lemma SecondNotStored<T>(s: State<T>, c: nat, t: real, w: T)
    requires s.ttl > 0.0 && c < |s.callers| && s.callers[c].Waiting? && s.Unfinished(s.callers[c].flight)
    requires s.storedAt == Some(t) && s.clock == t
    ensures Enabled(s, Complete(s.callers[c].flight, Ok(w), t))
    ensures
      var s1 := Step(s, Complete(s.callers[c].flight, Ok(w), t));
      && Enabled(s1, Resume(c, t, t))
      && var s2 := Step(s1, Resume(c, t, t));
         s2.value == s.value && c < |s2.callers| && PayloadOf(s2, c) == Some(w)
  {}

  lemma NoGetsInTurn<T>(s: State<T>, e1: Event<T>, e2: Event<T>)
    requires Enabled(s, e1) && Enabled(Step(s, e1), e2) && !e1.Get? && !e2.Get?
    ensures ValidRun(s, [e1, e2]) && InTurn(s, [e1, e2])
    ensures Exec(s, [e1, e2]) == Step(Step(s, e1), e2)
  {
    assert [e1, e2][1..] == [e2] && [e2][1..] == [];
    var s2 := Step(Step(s, e1), e2);
    assert ValidRun(s2, []) && InTurn(s2, []) && Exec(s2, []) == s2;
    assert ValidRun(Step(s, e1), [e2]) && InTurn(Step(s, e1), [e2]) && Exec(Step(s, e1), [e2]) == s2;
  }

  /** Whenever a call overtakes, the late success, the end of the overtaking flight and its first caller
      are three steps after which a caller has been given what the slot does not hold. */
  lemma OvertakingStrays<T>(s: State<T>, t1: real, t2: real, a: T, b: T) returns (es: seq<Event<T>>, e: Event<T>)
    requires s.ttl > 0.0 && Inv(s) && Enabled(s, Get(t1, t2)) && Overtakes(s, Get(t1, t2)) && a != b
    ensures Strays(Step(s, Get(t1, t2)), es, e, |s.callers|)
  {
    var c :| 0 <= c < |s.callers| && Awaits(s, c);
    var late := |s.callers|;
    var s1 := Step(s, Get(t1, t2));
    StepKeepsInv(s, Get(t1, t2));
    StaleGetWaits(s, t1, t2);
    assert s1.callers[c] == s.callers[c] && s1.flights[s.callers[c].flight] == s.flights[s.callers[c].flight];
    LateSuccessStored(s1, c, t2);
    var s2 := Step(s1, Resume(c, t2, t2));
    var w := if s2.value == Some(a) then b else a;
    SecondNotStored(s2, late, t2, w);
    NoGetsInTurn(s1, Resume(c, t2, t2), Complete(s2.callers[late].flight, Ok(w), t2));
    es, e := [Resume(c, t2, t2), Complete(s2.callers[late].flight, Ok(w), t2)], Resume(late, t2, t2);
  }

  /** Exactly so: after a run in turn, a call can lead to a caller being given something else than the
      slot holds, with no other call out of turn, if and only if it finds nothing fresh while a success
      is on its way and the ttl is not 0. */
  lemma StraysExactly<T(!new)>(ttl: real, now: real, es: seq<Event<T>>, t1: real, t2: real, a: T, b: T)
    requires ttl >= 0.0 && ValidRun(Init(ttl, now), es) && (ttl > 0.0 ==> InTurn(Init(ttl, now), es)) && a != b
    requires Enabled(Exec(Init(ttl, now), es), Get(t1, t2))
    ensures
      var s := Exec(Init(ttl, now), es);
      (exists more, e, c :: Strays(Step(s, Get(t1, t2)), more, e, c)) <==> ttl > 0.0 && Overtakes(s, Get(t1, t2))
  {
    var s := Exec(Init(ttl, now), es);
    ReachableInv(ttl, now, es);
    RunGrows(Init(ttl, now), es);
    StepKeepsInv(s, Get(t1, t2));
    if ttl > 0.0 {
      SettledRun(Init(ttl, now), es);
      StraysFromSettled(s, t1, t2, a, b);
    } else {
      forall more, e, c ensures !Strays(Step(s, Get(t1, t2)), more, e, c) {
        ZeroTtlNeverStrays(Step(s, Get(t1, t2)), more, e, c);
      }
    }
  }

  lemma ZeroTtlNeverStrays<T>(s: State<T>, es: seq<Event<T>>, e: Event<T>, c: nat)
    requires s.ttl == 0.0 && Inv(s)
    ensures !Strays(s, es, e, c)
  {
    if Strays(s, es, e, c) {
      RunKeepsInv(s, es);
      RunGrows(s, es);
      ZeroTtlPayload(Exec(s, es), e, c);
    }
  }

  lemma StraysFromSettled<T(!new)>(s: State<T>, t1: real, t2: real, a: T, b: T)
    requires s.ttl > 0.0 && Inv(s) && Settled(s) && Enabled(s, Get(t1, t2)) && a != b
    ensures (exists more, e, c :: Strays(Step(s, Get(t1, t2)), more, e, c)) <==> Overtakes(s, Get(t1, t2))
  {
    var s1 := Step(s, Get(t1, t2));
    if Overtakes(s, Get(t1, t2)) {
      var more, e := OvertakingStrays(s, t1, t2, a, b);
    } else {
      SettledGet(s, t1, t2);
      StepKeepsInv(s, Get(t1, t2));
      forall more, e, c ensures !Strays(s1, more, e, c) {
        InTurnNeverStrays(s1, more, e, c);
      }
    }
  }

  lemma InTurnNeverStrays<T>(s: State<T>, es: seq<Event<T>>, e: Event<T>, c: nat)
    requires s.ttl > 0.0 && Inv(s) && Settled(s)
    ensures !Strays(s, es, e, c)
  {
    if Strays(s, es, e, c) {
      SettledRun(s, es);
      SettledPayload(Exec(s, es), e, c);
    }
  }
}
