/**
 Keys are isolated: as long as its bucket is not dropped, a key is answered exactly as if nobody else
 used the limiter.
 */
module LimiterIsolation {
  import opened RateLimit
  import opened LimiterRuns

  /** What happened to one key. */
  function Own(tr: seq<Entry>, k: Key): seq<Entry> {
    if tr == [] then []
    else Own(tr[..|tr| - 1], k) + if tr[|tr| - 1].key == k then [tr[|tr| - 1]] else []
  }

  /** The attempts of one key. */
  function Mine(es: seq<Event>, k: Key): seq<Event> {
    if es == [] then []
    else (if es[0].Attempt? && es[0].key == k then [es[0]] else []) + Mine(es[1..], k)
  }

  ghost predicate NotDropped(tr: seq<Entry>, k: Key) {
    forall e :: e in tr && e.Dropped? ==> e.key != k
  }

  lemma OwnSnoc(tr: seq<Entry>, e: Entry, k: Key)
    ensures Own(tr + [e], k) == Own(tr, k) + if e.key == k then [e] else []
  {
    assert (tr + [e])[..|tr|] == tr;
  }

  lemma {:induction false} OwnLog(tr: seq<Entry>, k: Key)
    ensures Log(Own(tr, k), k) == Log(tr, k)
  {
    if tr != [] {
      var n := |tr| - 1;
      OwnLog(tr[..n], k);
      assert tr == tr[..n] + [tr[n]];
      LogSnoc(tr[..n], tr[n], k);
      LogSnoc(Own(tr[..n], k), tr[n], k);
      assert Own(tr[..n], k) + [] == Own(tr[..n], k);
    }
  }

  lemma {:induction false} OwnDrops(tr: seq<Entry>, keys: seq<Key>, t: real, k: Key)
    requires k !in keys
    ensures Own(tr + Drops(keys, t), k) == Own(tr, k)
  {
    if keys == [] {
      assert tr + [] == tr;
    } else {
      var n := |keys| - 1;
      DropsSnoc(tr, keys, t);
      OwnDrops(tr, keys[..n], t, k);
      OwnSnoc(tr + Drops(keys[..n], t), Dropped(keys[n], t), k);
    }
  }

  lemma {:induction false} DropsName(keys: seq<Key>, t: real, k: Key)
    ensures Dropped(k, t) in Drops(keys, t) <==> k in keys
  {
    if keys != [] {
      var n := |keys| - 1;
      DropsName(keys[..n], t, k);
      assert keys == keys[..n] + [keys[n]];
    }
  }

  lemma {:induction false} TraceGrows(s: Sys, es: seq<Event>)
    requires s.cfg.Valid() && ValidRun(s, es)
    ensures forall e :: e in s.trace ==> e in Exec(s, es).trace
    decreases |es|
  {
    if es != [] {
      TraceGrows(Step(s, es[0]), es[1..]);
    }
  }

  /** A map with one key at most evicts nobody, whatever `maxKeys` is. */
  lemma LoneKeyStays(cfg: Config, s: State)
    requires WellKeyed(s) && |s.hits| <= 1
    ensures Victims(cfg, s) == []
  {
    ByLengthDistinct(s.order, s.hits);
  }

  ghost predicate Alone(s: Sys, k: Key) {
    forall j :: j in s.st.hits ==> j == k
  }

  lemma AloneSize(s: State, k: Key)
    requires forall j :: j in s.hits ==> j == k
    ensures |s.hits| <= 1
  {
    SubsetSize(s.hits.Keys, {k});
  }

  lemma AloneStep(b: Sys, k: Key, t: real)
    requires Inv(b) && b.clock <= t && Alone(b, k)
    ensures Check(b.cfg, b.st, k, t).dropped == [] && Alone(Step(b, Attempt(k, t)), k)
  {
    var pruned := Pruned(b.cfg, b.st, k, t);
    if |pruned| < b.cfg.limit {
      var s2 := Put(Touch(b.st, k), k, pruned + [t]);
      TouchKeepsKeys(b.st, k, pruned + [t]);
      AloneSize(s2, k);
      LoneKeyStays(b.cfg, s2);
    }
  }

  /** The busy limiter `a` and the quiet one `b` know the same of `k`. */
  ghost predicate Agree(a: Sys, b: Sys, k: Key) {
    && Inv(a) && Inv(b) && a.cfg == b.cfg && b.clock <= a.clock
    && Alone(b, k) && Own(a.trace, k) == Own(b.trace, k)
  }

  /** The verdict a log asks for. */
  function Decide(cfg: Config, log: seq<real>, t: real): Verdict
    requires cfg.Valid()
  {
    var window := Later(log, t - cfg.window);
    if |window| < cfg.limit then Allowed else Refused(window[0] + cfg.window - t)
  }

  lemma VerdictFromLog(s: Sys, k: Key, t: real)
    requires Inv(s) && s.clock <= t
    ensures Check(s.cfg, s.st, k, t).verdict == Decide(s.cfg, Log(s.trace, k), t)
  {
    CheckVerdict(s, k, t);
    var v := Check(s.cfg, s.st, k, t).verdict;
    assert v == Allowed || v == Refused(v.retryAfter);
  }

  lemma SameVerdict(a: Sys, b: Sys, k: Key, t: real)
    requires Agree(a, b, k) && a.clock <= t
    ensures Check(a.cfg, a.st, k, t).verdict == Check(b.cfg, b.st, k, t).verdict
  {
    OwnLog(a.trace, k);
    OwnLog(b.trace, k);
    VerdictFromLog(a, k, t);
    VerdictFromLog(b, k, t);
  }

  lemma OwnStep(s: Sys, e: Event, k: Key)
    requires s.cfg.Valid() && NotDropped(Step(s, e).trace, k)
    ensures Own(Step(s, e).trace, k) == Own(s.trace, k)
              + if e.Attempt? && e.key == k
                then [VerdictEntry(k, e.time, Check(s.cfg, s.st, k, e.time).verdict)] else []
  {
    match e
    case Attempt(j, t) =>
      var c := Check(s.cfg, s.st, j, t);
      DropsName(c.dropped, t, k);
      OwnSnoc(s.trace, VerdictEntry(j, t, c.verdict), k);
      OwnDrops(s.trace + [VerdictEntry(j, t, c.verdict)], c.dropped, t, k);
    case Clear(t) =>
      DropsName(s.st.order, t, k);
      OwnDrops(s.trace, s.st.order, t, k);
  }

  lemma AgreeMine(a: Sys, b: Sys, k: Key, t: real)
    requires Agree(a, b, k) && a.clock <= t
    requires NotDropped(Step(a, Attempt(k, t)).trace, k)
    ensures Agree(Step(a, Attempt(k, t)), Step(b, Attempt(k, t)), k)
  {
    StepKeepsInv(a, Attempt(k, t));
    StepKeepsInv(b, Attempt(k, t));
    SameVerdict(a, b, k, t);
    AloneStep(b, k, t);
    OwnStep(a, Attempt(k, t), k);
    var entry := VerdictEntry(k, t, Check(b.cfg, b.st, k, t).verdict);
    OwnSnoc(b.trace, entry, k);
    assert Step(b, Attempt(k, t)).trace == b.trace + [entry] + [] == b.trace + [entry];
  }

  lemma AgreeOther(a: Sys, b: Sys, k: Key, e: Event)
    requires Agree(a, b, k) && a.clock <= e.time && !(e.Attempt? && e.key == k)
    requires NotDropped(Step(a, e).trace, k)
    ensures Agree(Step(a, e), b, k)
  {
    StepKeepsInv(a, e);
    OwnStep(a, e, k);
    assert Own(a.trace, k) + [] == Own(a.trace, k);
  }

  lemma {:induction false} AgreeRun(a: Sys, b: Sys, k: Key, es: seq<Event>)
    requires Agree(a, b, k) && ValidRun(a, es) && NotDropped(Exec(a, es).trace, k)
    ensures ValidRun(b, Mine(es, k)) && Agree(Exec(a, es), Exec(b, Mine(es, k)), k)
    decreases |es|
  {
    if es != [] {
      var a' := Step(a, es[0]);
      TraceGrows(a', es[1..]);
      if es[0].Attempt? && es[0].key == k {
        AgreeMine(a, b, k, es[0].time);
        AgreeRun(a', Step(b, es[0]), k, es[1..]);
        assert Mine(es, k)[1..] == Mine(es[1..], k);
      } else {
        AgreeOther(a, b, k, es[0]);
        AgreeRun(a', b, k, es[1..]);
        assert Mine(es, k) == Mine(es[1..], k);
      }
    }
  }

  /** In any run that never drops the key's bucket, every answer the key gets, waits included, is the
      answer it gets in the run of its own attempts alone. */
  lemma KeysAreIsolated(cfg: Config, now: real, k: Key, es: seq<Event>)
    requires cfg.Valid() && ValidRun(Start(cfg, now), es) && NotDropped(Exec(Start(cfg, now), es).trace, k)
    ensures ValidRun(Start(cfg, now), Mine(es, k))
    ensures Own(Exec(Start(cfg, now), es).trace, k) == Own(Exec(Start(cfg, now), Mine(es, k)).trace, k)
  {
    ReachableInv(cfg, now, []);
    AgreeRun(Start(cfg, now), Start(cfg, now), k, es);
  }

  // ---------------------------------------------------------------- a refused key stays refused

  /** `b`'s trace continues `a`'s. */
  ghost predicate Continues(a: Sys, b: Sys) {
    |a.trace| <= |b.trace| && b.trace[..|a.trace|] == a.trace
  }

  lemma ContinuesOn(a: Sys, b: Sys, c: Sys)
    requires Continues(a, b) && Continues(b, c)
    ensures Continues(a, c)
  {
    assert c.trace[..|a.trace|] == c.trace[..|b.trace|][..|a.trace|];
  }

  lemma {:induction false} DropsEntries(keys: seq<Key>, t: real)
    ensures forall e :: e in Drops(keys, t) ==> e.Dropped? && e.time == t
  {
    if keys != [] {
      DropsEntries(keys[..|keys| - 1], t);
    }
  }

  /** What a step adds to the trace: its verdict, drops, and nothing from another time. */
  lemma StepEntries(s: Sys, e: Event)
    requires s.cfg.Valid()
    ensures Continues(s, Step(s, e))
    ensures forall i :: |s.trace| <= i < |Step(s, e).trace| ==>
              var x := Step(s, e).trace[i];
              && x.time == e.time
              && (x.Admitted? ==> e.Attempt? && x.key == e.key && Check(s.cfg, s.st, e.key, e.time).verdict.Allowed?)
  {
    match e
    case Attempt(k, t) =>
      var c := Check(s.cfg, s.st, k, t);
      DropsEntries(c.dropped, t);
      var entry := VerdictEntry(k, t, c.verdict);
      forall i | |s.trace| <= i < |Step(s, e).trace|
        ensures Step(s, e).trace[i] == entry || Step(s, e).trace[i] in Drops(c.dropped, t)
      {
        assert Step(s, e).trace == s.trace + [entry] + Drops(c.dropped, t);
      }
    case Clear(t) =>
      DropsEntries(s.st.order, t);
      assert forall i :: |s.trace| <= i < |Step(s, e).trace| ==> Step(s, e).trace[i] in Drops(s.st.order, t);
  }

  lemma {:induction false} RunContinues(s: Sys, es: seq<Event>)
    requires s.cfg.Valid() && ValidRun(s, es)
    ensures Continues(s, Exec(s, es))
    ensures forall i :: |s.trace| <= i < |Exec(s, es).trace| && es != [] ==> es[0].time <= Exec(s, es).trace[i].time
    decreases |es|
  {
    if es != [] {
      var s' := Step(s, es[0]);
      StepEntries(s, es[0]);
      RunContinues(s', es[1..]);
      ContinuesOn(s, s', Exec(s, es));
      assert forall i :: |s.trace| <= i < |s'.trace| ==> Exec(s, es).trace[i] == s'.trace[i];
    }
  }

  /** Since the refusal at `a` the key has been left alone, and the wait is `r` from `now`. */
  ghost predicate StillWaiting(a: Sys, b: Sys, k: Key, now: real, r: real) {
    && Inv(b) && a.cfg == b.cfg && LeavesAlone(a, b, k) && now <= b.clock
    && Ascending(Log(a.trace, k)) && |Later(Log(a.trace, k), now - a.cfg.window)| == a.cfg.limit
    && a.cfg.limit > 0 && r == Later(Log(a.trace, k), now - a.cfg.window)[0] + a.cfg.window - now
  }

  ghost predicate NotDroppedSince(a: Sys, b: Sys, k: Key) {
    forall i :: |a.trace| <= i < |b.trace| && b.trace[i].key == k ==> !b.trace[i].Dropped?
  }

  lemma WaitStep(a: Sys, b: Sys, k: Key, now: real, r: real, e: Event)
    requires StillWaiting(a, b, k, now, r) && b.clock <= e.time < now + r
    requires NotDroppedSince(b, Step(b, e), k)
    ensures StillWaiting(a, Step(b, e), k, now, r)
  {
    WaitExact(a, b, k, now, r, e.time);
    StepKeepsInv(b, e);
    StepEntries(b, e);
    ContinuesOn(a, b, Step(b, e));
    forall i | |a.trace| <= i < |Step(b, e).trace| && Step(b, e).trace[i].key == k
      ensures Step(b, e).trace[i].Rejected?
    {
      if i < |b.trace| {
        assert Step(b, e).trace[i] == b.trace[i];
      }
    }
  }

  /** From position `start` on, `k` is admitted only at or after `bound`. */
  ghost predicate AdmittedLate(tr: seq<Entry>, start: nat, k: Key, bound: real) {
    forall i :: start <= i < |tr| && tr[i].key == k && tr[i].Admitted? ==> bound <= tr[i].time
  }

  lemma LateOn(b: seq<Entry>, mid: seq<Entry>, end: seq<Entry>, k: Key, bound: real)
    requires |b| <= |mid| <= |end| && end[..|mid|] == mid
    requires AdmittedLate(mid, |b|, k, bound) && AdmittedLate(end, |mid|, k, bound)
    ensures AdmittedLate(end, |b|, k, bound)
  {
    assert forall i :: 0 <= i < |mid| ==> end[i] == mid[i];
  }

  lemma NotDroppedTail(b: Sys, mid: Sys, end: Sys, k: Key)
    requires Continues(b, mid) && Continues(mid, end) && NotDroppedSince(b, end, k)
    ensures NotDroppedSince(b, mid, k) && NotDroppedSince(mid, end, k)
  {
    assert forall i :: 0 <= i < |mid.trace| ==> end.trace[i] == mid.trace[i];
  }

  lemma LateRun(b: Sys, es: seq<Event>, k: Key, bound: real)
    requires b.cfg.Valid() && ValidRun(b, es) && es != [] && bound <= es[0].time
    ensures AdmittedLate(Exec(b, es).trace, |b.trace|, k, bound)
  {
    RunContinues(b, es);
  }

  lemma {:induction false} WaitRun(a: Sys, b: Sys, k: Key, now: real, r: real, es: seq<Event>)
    requires StillWaiting(a, b, k, now, r) && ValidRun(b, es) && NotDroppedSince(b, Exec(b, es), k)
    ensures AdmittedLate(Exec(b, es).trace, |b.trace|, k, now + r)
    decreases |es|
  {
    if es == [] {
    } else if now + r <= es[0].time {
      LateRun(b, es, k, now + r);
    } else {
      var mid := Step(b, es[0]);
      StepEntries(b, es[0]);
      RunContinues(mid, es[1..]);
      NotDroppedTail(b, mid, Exec(mid, es[1..]), k);
      WaitStep(a, b, k, now, r, es[0]);
      WaitRun(a, mid, k, now, r, es[1..]);
      StepLate(a, b, mid, k, now + r);
      LateOn(b.trace, mid.trace, Exec(mid, es[1..]).trace, k, now + r);
    }
  }

  lemma StepLate(a: Sys, b: Sys, mid: Sys, k: Key, bound: real)
    requires LeavesAlone(a, mid, k) && |a.trace| <= |b.trace|
    ensures AdmittedLate(mid.trace, |b.trace|, k, bound)
  {}

  /** After a refusal, in any run that does not drop the key, nothing it tries before the reported wait has
      passed is admitted. */
  lemma RefusedUntil(s: Sys, k: Key, now: real, es: seq<Event>)
    requires Inv(s) && s.clock <= now && Check(s.cfg, s.st, k, now).verdict.Refused?
    requires ValidRun(Step(s, Attempt(k, now)), es)
    requires NotDroppedSince(Step(s, Attempt(k, now)), Exec(Step(s, Attempt(k, now)), es), k)
    ensures
      var s1 := Step(s, Attempt(k, now));
      AdmittedLate(Exec(s1, es).trace, |s1.trace|, k, now + Check(s.cfg, s.st, k, now).verdict.retryAfter)
  {
    var s1 := Step(s, Attempt(k, now));
    RefusedWaits(s, k, now);
    WaitRun(s1, s1, k, now, Check(s.cfg, s.st, k, now).verdict.retryAfter, es);
  }

  lemma RefusedWaits(s: Sys, k: Key, now: real)
    requires Inv(s) && s.clock <= now && Check(s.cfg, s.st, k, now).verdict.Refused?
    ensures
      var s1 := Step(s, Attempt(k, now));
      StillWaiting(s1, s1, k, now, Check(s.cfg, s.st, k, now).verdict.retryAfter)
  {
    StepKeepsInv(s, Attempt(k, now));
    CheckVerdict(s, k, now);
    LogAfterCheck(s, k, now, k);
    LogPast(s.cfg, s.trace, s.clock, k);
  }
}
