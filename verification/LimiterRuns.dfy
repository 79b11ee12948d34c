/**
 Whole runs of the limiter: the dictionary of buckets against the full log of what was admitted,
 refused and dropped. A run is any sequence of checks and resets under a clock that never goes back.
 */
module LimiterRuns {
  import opened Basics
  import opened RateLimit

  datatype Entry =
    | Admitted(key: Key, time: real)
    | Rejected(key: Key, time: real, retryAfter: real)
    | Dropped(key: Key, time: real)

  datatype Event = Attempt(key: Key, time: real) | Clear(time: real)

  /** The limiter, the last time it was used, and everything that ever happened to it. */
  datatype Sys = Sys(cfg: Config, st: State, clock: real, trace: seq<Entry>)

  function Start(cfg: Config, now: real): Sys {
    Sys(cfg, State([], map[]), now, [])
  }

  function Drops(keys: seq<Key>, t: real): seq<Entry> {
    if keys == [] then [] else Drops(keys[..|keys| - 1], t) + [Dropped(keys[|keys| - 1], t)]
  }

  function VerdictEntry(key: Key, t: real, v: Verdict): Entry {
    match v
    case Allowed => Admitted(key, t)
    case Refused(r) => Rejected(key, t, r)
  }

  function Step(s: Sys, e: Event): Sys
    requires s.cfg.Valid()
  {
    match e
    case Attempt(k, t) =>
      var c := Check(s.cfg, s.st, k, t);
      Sys(s.cfg, c.next, t, s.trace + [VerdictEntry(k, t, c.verdict)] + Drops(c.dropped, t))
    case Clear(t) =>
      Sys(s.cfg, State([], map[]), t, s.trace + Drops(s.st.order, t))
  }

  predicate ValidRun(s: Sys, es: seq<Event>)
    requires s.cfg.Valid()
    decreases |es|
  {
    es != [] ==> s.clock <= es[0].time && ValidRun(Step(s, es[0]), es[1..])
  }

  function Exec(s: Sys, es: seq<Event>): (r: Sys)
    requires s.cfg.Valid() && ValidRun(s, es)
    ensures r.cfg == s.cfg
    decreases |es|
  {
    if es == [] then s else Exec(Step(s, es[0]), es[1..])
  }

  // ---------------------------------------------------------------- the log behind a bucket

  /** Every time `k` was ever admitted. */
  function FullLog(tr: seq<Entry>, k: Key): seq<real> {
    if tr == [] then []
    else
      var e := tr[|tr| - 1];
      FullLog(tr[..|tr| - 1], k) + if e.Admitted? && e.key == k then [e.time] else []
  }

  /** The times `k` was admitted since it was last evicted or reset. */
  function Log(tr: seq<Entry>, k: Key): seq<real> {
    if tr == [] then []
    else
      var e := tr[|tr| - 1];
      var before := Log(tr[..|tr| - 1], k);
      if e.key != k then before
      else match e
        case Admitted(_, t) => before + [t]
        case Rejected(_, _, _) => before
        case Dropped(_, _) => []
  }

  function Bucket(s: State, k: Key): seq<real> {
    if k in s.hits then s.hits[k] else []
  }

  lemma LogSnoc(tr: seq<Entry>, e: Entry, k: Key)
    ensures Log(tr + [e], k) ==
              if e.key == k && e.Admitted? then Log(tr, k) + [e.time]
              else if e.key == k && e.Dropped? then []
              else Log(tr, k)
    ensures FullLog(tr + [e], k) == FullLog(tr, k) + if e.Admitted? && e.key == k then [e.time] else []
  {
    assert (tr + [e])[..|tr|] == tr;
  }

  lemma DropsSnoc(tr: seq<Entry>, keys: seq<Key>, t: real)
    requires keys != []
    ensures tr + Drops(keys, t) ==
              tr + Drops(keys[..|keys| - 1], t) + [Dropped(keys[|keys| - 1], t)]
  {
    Associative(tr, Drops(keys[..|keys| - 1], t), [Dropped(keys[|keys| - 1], t)]);
  }

  lemma Associative<T>(a: seq<T>, b: seq<T>, c: seq<T>)
    ensures a + (b + c) == a + b + c
  {}

  lemma KeysSnoc(keys: seq<Key>, k: Key)
    requires keys != []
    ensures k in keys <==> k in keys[..|keys| - 1] || k == keys[|keys| - 1]
  {
    assert keys == keys[..|keys| - 1] + [keys[|keys| - 1]];
  }

  lemma {:induction false} LogDrops(tr: seq<Entry>, keys: seq<Key>, t: real, k: Key)
    ensures Log(tr + Drops(keys, t), k) == if k in keys then [] else Log(tr, k)
    ensures FullLog(tr + Drops(keys, t), k) == FullLog(tr, k)
  {
    if keys == [] {
      assert tr + [] == tr;
    } else {
      DropsSnoc(tr, keys, t);
      KeysSnoc(keys, k);
      var n := |keys| - 1;
      var before := tr + Drops(keys[..n], t);
      LogDrops(tr, keys[..n], t, k);
      LogSnoc(before, Dropped(keys[n], t), k);
    }
  }

  /** No time of `b` is later than `now`, and they are in order. */
  ghost predicate Past(b: seq<real>, now: real) {
    Ascending(b) && forall i :: 0 <= i < |b| ==> b[i] <= now
  }

  lemma PastSnoc(b: seq<real>, earlier: real, now: real)
    requires Past(b, earlier) && earlier <= now
    ensures Past(b, now) && Past(b + [now], now)
  {}

  /** The bucket holds the log's times later than some cutoff the window has passed. */
  ghost predicate Compressed(cfg: Config, s: State, tr: seq<Entry>, clock: real, k: Key) {
    && Past(Log(tr, k), clock)
    && |Bucket(s, k)| <= cfg.limit
    && exists cut :: cut <= clock - cfg.window && Bucket(s, k) == Later(Log(tr, k), cut)
  }

  ghost predicate Inv(s: Sys) {
    && s.cfg.Valid()
    && WellKeyed(s.st)
    && Lawful(s.cfg, s.trace, s.clock)
    && forall k :: Compressed(s.cfg, s.st, s.trace, s.clock, k)
  }

  /** What a trace alone shows: time goes forward, and every verdict is that of a limiter which keeps
      the whole log since the last drop. */
  ghost predicate Lawful(cfg: Config, tr: seq<Entry>, clock: real) {
    tr != [] ==>
      var n := |tr| - 1;
      var e := tr[n];
      && e.time <= clock
      && Lawful(cfg, tr[..n], e.time)
      && var window := Later(Log(tr[..n], e.key), e.time - cfg.window);
         && (e.Admitted? ==> |window| < cfg.limit)
         && (e.Rejected? ==>
               |window| == cfg.limit > 0 && e.retryAfter == window[0] + cfg.window - e.time > 0.0)
  }

  lemma LawfulSnoc(cfg: Config, tr: seq<Entry>, clock: real, e: Entry)
    requires Lawful(cfg, tr, clock) && clock <= e.time
    requires
      var window := Later(Log(tr, e.key), e.time - cfg.window);
      && (e.Admitted? ==> |window| < cfg.limit)
      && (e.Rejected? ==> |window| == cfg.limit > 0 && e.retryAfter == window[0] + cfg.window - e.time > 0.0)
    ensures Lawful(cfg, tr + [e], e.time)
  {
    assert (tr + [e])[..|tr|] == tr;
  }

  lemma {:induction false} LawfulDrops(cfg: Config, tr: seq<Entry>, clock: real, keys: seq<Key>, t: real)
    requires Lawful(cfg, tr, clock) && clock <= t
    ensures Lawful(cfg, tr + Drops(keys, t), t)
  {
    if keys == [] {
      assert tr + [] == tr;
    } else {
      var n := |keys| - 1;
      DropsSnoc(tr, keys, t);
      LawfulDrops(cfg, tr, clock, keys[..n], t);
      LawfulSnoc(cfg, tr + Drops(keys[..n], t), t, Dropped(keys[n], t));
    }
  }

  lemma PruneOfLater(log: seq<real>, cut: real, cutoff: real, clock: real)
    requires Past(log, clock) && cut <= cutoff
    ensures Prune(Later(log, cut), cutoff) == Later(log, cutoff)
    ensures |Later(log, cutoff)| <= |Later(log, cut)|
  {
    LaterMembers(log, cut);
    PruneIsLater(Later(log, cut), cutoff);
    LaterTwice(log, cut, cutoff);
    LaterShrinks(log, cut, cutoff);
  }

  lemma LaterIsPast(log: seq<real>, cutoff: real, clock: real, now: real)
    requires Past(log, clock) && clock <= now
    ensures Past(Later(log, cutoff), now)
  {
    LaterMembers(log, cutoff);
    var b := Later(log, cutoff);
    assert forall i :: 0 <= i < |b| ==> b[i] in b;
  }

  /** After each prune the bucket is exactly the part of the log inside the window. */
  lemma PrunedIsWindow(s: Sys, k: Key, t: real)
    requires Inv(s) && s.clock <= t
    ensures Pruned(s.cfg, s.st, k, t) == Later(Log(s.trace, k), t - s.cfg.window)
    ensures Past(Pruned(s.cfg, s.st, k, t), t)
    ensures |Pruned(s.cfg, s.st, k, t)| <= s.cfg.limit
  {
    var log := Log(s.trace, k);
    assert Compressed(s.cfg, s.st, s.trace, s.clock, k);
    var cut :| cut <= s.clock - s.cfg.window && Bucket(s.st, k) == Later(log, cut);
    PruneOfLater(log, cut, t - s.cfg.window, s.clock);
    LaterIsPast(log, t - s.cfg.window, s.clock, t);
  }

  /** `check` decides exactly as a limiter that keeps the whole log since the last drop; the wait it
      reports is until the oldest time in the window leaves it, and lies in (0, window]. */
  lemma CheckVerdict(s: Sys, k: Key, t: real)
    requires Inv(s) && s.clock <= t
    ensures
      var window := Later(Log(s.trace, k), t - s.cfg.window);
      var v := Check(s.cfg, s.st, k, t).verdict;
      && (v.Allowed? <==> |window| < s.cfg.limit)
      && (v.Refused? ==>
            && |window| == s.cfg.limit
            && v.retryAfter == window[0] + s.cfg.window - t
            && 0.0 < v.retryAfter <= s.cfg.window)
  {
    PrunedIsWindow(s, k, t);
    LaterMembers(Log(s.trace, k), t - s.cfg.window);
    var window := Later(Log(s.trace, k), t - s.cfg.window);
    assert window != [] ==> window[0] in window;
  }

  /** The log after a check: the new admission, then the evictions. */
  lemma LogAfterCheck(s: Sys, k: Key, t: real, j: Key)
    requires s.cfg.Valid()
    ensures
      var c := Check(s.cfg, s.st, k, t);
      Log(Step(s, Attempt(k, t)).trace, j) ==
      if j in c.dropped then []
      else if j == k && c.verdict.Allowed? then Log(s.trace, j) + [t]
      else Log(s.trace, j)
  {
    var c := Check(s.cfg, s.st, k, t);
    LogSnoc(s.trace, VerdictEntry(k, t, c.verdict), j);
    LogDrops(s.trace + [VerdictEntry(k, t, c.verdict)], c.dropped, t, j);
  }

  lemma BucketAfterCheck(s: State, cfg: Config, k: Key, t: real, j: Key)
    requires cfg.Valid()
    ensures
      var c := Check(cfg, s, k, t);
      Bucket(c.next, j) ==
      if j in c.dropped then []
      else if j == k then Pruned(cfg, s, k, t) + if c.verdict.Allowed? then [t] else []
      else Bucket(s, j)
  {}

  lemma CompressedNow(cfg: Config, s: State, tr: seq<Entry>, t: real, k: Key)
    requires Past(Log(tr, k), t) && |Bucket(s, k)| <= cfg.limit
    requires Bucket(s, k) == Later(Log(tr, k), t - cfg.window)
    ensures Compressed(cfg, s, tr, t, k)
  {}

  /** The bucket of the key just allowed. */
  lemma StepAllowedBucket(s: Sys, k: Key, t: real)
    requires Inv(s) && s.clock <= t && k !in Check(s.cfg, s.st, k, t).dropped
    requires Check(s.cfg, s.st, k, t).verdict.Allowed?
    ensures
      var s' := Step(s, Attempt(k, t));
      Compressed(s.cfg, s'.st, s'.trace, t, k)
  {
    var s' := Step(s, Attempt(k, t));
    AfterAllowed(s, k, t);
    AllowedWhen(s, k, t);
    LogIsPast(s, k);
    PastSnoc(Log(s.trace, k), s.clock, t);
    WindowSnoc(Log(s.trace, k), t, t - s.cfg.window);
    CompressedNow(s.cfg, s'.st, s'.trace, t, k);
  }

  lemma AfterAllowed(s: Sys, k: Key, t: real)
    requires Inv(s) && s.clock <= t && k !in Check(s.cfg, s.st, k, t).dropped
    requires Check(s.cfg, s.st, k, t).verdict.Allowed?
    ensures
      var s' := Step(s, Attempt(k, t));
      && Log(s'.trace, k) == Log(s.trace, k) + [t]
      && Bucket(s'.st, k) == Later(Log(s.trace, k), t - s.cfg.window) + [t]
  {
    LogAfterCheck(s, k, t, k);
    BucketAfterCheck(s.st, s.cfg, k, t, k);
    PrunedIsWindow(s, k, t);
  }

  /** The bucket of the key just refused. */
  lemma StepRefusedBucket(s: Sys, k: Key, t: real)
    requires Inv(s) && s.clock <= t && Check(s.cfg, s.st, k, t).verdict.Refused?
    ensures
      var s' := Step(s, Attempt(k, t));
      Compressed(s.cfg, s'.st, s'.trace, t, k)
  {
    var s' := Step(s, Attempt(k, t));
    AfterRefused(s, k, t);
    LogIsPast(s, k);
    PastSnoc(Log(s.trace, k), s.clock, t);
    CompressedNow(s.cfg, s'.st, s'.trace, t, k);
  }

  lemma AfterRefused(s: Sys, k: Key, t: real)
    requires Inv(s) && s.clock <= t && Check(s.cfg, s.st, k, t).verdict.Refused?
    ensures
      var s' := Step(s, Attempt(k, t));
      && Log(s'.trace, k) == Log(s.trace, k)
      && Bucket(s'.st, k) == Later(Log(s.trace, k), t - s.cfg.window) && |Bucket(s'.st, k)| <= s.cfg.limit
  {
    LogAfterCheck(s, k, t, k);
    BucketAfterCheck(s.st, s.cfg, k, t, k);
    PrunedIsWindow(s, k, t);
    assert Pruned(s.cfg, s.st, k, t) + [] == Pruned(s.cfg, s.st, k, t);
  }

  lemma LogIsPast(s: Sys, k: Key)
    requires Inv(s)
    ensures Past(Log(s.trace, k), s.clock)
  {
    assert Compressed(s.cfg, s.st, s.trace, s.clock, k);
  }

  lemma WindowSnoc(log: seq<real>, t: real, cut: real)
    requires cut < t
    ensures Later(log + [t], cut) == Later(log, cut) + [t]
    ensures Later(log, cut) + [] == Later(log, cut)
  {
    LaterConcat(log, [t], cut);
    assert Later([t], cut) == [t] + Later([t][1..], cut) == [t];
  }

  /** The bucket of a key the check left alone. */
  lemma StepOtherBucket(s: Sys, k: Key, t: real, j: Key)
    requires Inv(s) && s.clock <= t && j != k && j !in Check(s.cfg, s.st, k, t).dropped
    ensures
      var s' := Step(s, Attempt(k, t));
      Compressed(s.cfg, s'.st, s'.trace, t, j)
  {
    var s' := Step(s, Attempt(k, t));
    var log := Log(s.trace, j);
    assert Compressed(s.cfg, s.st, s.trace, s.clock, j);
    LogAfterCheck(s, k, t, j);
    BucketAfterCheck(s.st, s.cfg, k, t, j);
    PastSnoc(log, s.clock, t);
    var before :| before <= s.clock - s.cfg.window && Bucket(s.st, j) == Later(log, before);
    assert before <= t - s.cfg.window && Bucket(s'.st, j) == Later(Log(s'.trace, j), before);
  }

  lemma StepBucket(s: Sys, k: Key, t: real, j: Key)
    requires Inv(s) && s.clock <= t
    ensures
      var s' := Step(s, Attempt(k, t));
      Compressed(s.cfg, s'.st, s'.trace, t, j)
  {
    var s' := Step(s, Attempt(k, t));
    if j in Check(s.cfg, s.st, k, t).dropped {
      LogAfterCheck(s, k, t, j);
      BucketAfterCheck(s.st, s.cfg, k, t, j);
      assert Bucket(s'.st, j) == Later(Log(s'.trace, j), t - s.cfg.window);
    } else if j == k {
      if Check(s.cfg, s.st, k, t).verdict.Allowed? {
        StepAllowedBucket(s, k, t);
      } else {
        StepRefusedBucket(s, k, t);
      }
    } else {
      StepOtherBucket(s, k, t, j);
    }
  }

  lemma VerdictLawful(s: Sys, k: Key, t: real)
    requires Inv(s) && s.clock <= t
    ensures
      var e := VerdictEntry(k, t, Check(s.cfg, s.st, k, t).verdict);
      var window := Later(Log(s.trace, k), t - s.cfg.window);
      && e.key == k && e.time == t
      && (e.Admitted? ==> |window| < s.cfg.limit)
      && (e.Rejected? ==> |window| == s.cfg.limit > 0 && e.retryAfter == window[0] + s.cfg.window - t > 0.0)
  {
    CheckVerdict(s, k, t);
  }

  lemma LawfulAttempt(s: Sys, k: Key, t: real)
    requires Inv(s) && s.clock <= t
    ensures Lawful(s.cfg, Step(s, Attempt(k, t)).trace, t)
  {
    var c := Check(s.cfg, s.st, k, t);
    VerdictLawful(s, k, t);
    LawfulSnoc(s.cfg, s.trace, s.clock, VerdictEntry(k, t, c.verdict));
    LawfulDrops(s.cfg, s.trace + [VerdictEntry(k, t, c.verdict)], t, c.dropped, t);
  }

  lemma StepKeepsInv(s: Sys, e: Event)
    requires Inv(s) && s.clock <= e.time
    ensures Inv(Step(s, e)) && Step(s, e).clock == e.time && Step(s, e).cfg == s.cfg
  {
    match e
    case Attempt(k, t) =>
      CheckKeepsKeys(s.cfg, s.st, k, t);
      LawfulAttempt(s, k, t);
      forall j ensures Compressed(s.cfg, Step(s, e).st, Step(s, e).trace, t, j) {
        StepBucket(s, k, t, j);
      }
    case Clear(t) => ClearKeepsInv(s, t);
  }

  lemma ClearKeepsInv(s: Sys, t: real)
    requires Inv(s) && s.clock <= t
    ensures Inv(Step(s, Clear(t)))
  {
    LawfulDrops(s.cfg, s.trace, s.clock, s.st.order, t);
    forall j ensures Compressed(s.cfg, State([], map[]), Step(s, Clear(t)).trace, t, j) {
      LogDrops(s.trace, s.st.order, t, j);
      assert Compressed(s.cfg, s.st, s.trace, s.clock, j);
      if j !in s.st.order {
        var cut :| cut <= s.clock - s.cfg.window && Bucket(s.st, j) == Later(Log(s.trace, j), cut);
        assert cut <= t - s.cfg.window;
        PastSnoc(Log(s.trace, j), s.clock, t);
      } else {
        assert Later([], t - s.cfg.window) == [];
      }
    }
  }

  lemma {:induction false} RunKeepsInv(s: Sys, es: seq<Event>)
    requires Inv(s) && ValidRun(s, es)
    ensures Inv(Exec(s, es)) && Exec(s, es).cfg == s.cfg && s.clock <= Exec(s, es).clock
    decreases |es|
  {
    if es != [] {
      StepKeepsInv(s, es[0]);
      RunKeepsInv(Step(s, es[0]), es[1..]);
    }
  }

  lemma ReachableInv(cfg: Config, now: real, es: seq<Event>)
    requires cfg.Valid() && ValidRun(Start(cfg, now), es)
    ensures Inv(Exec(Start(cfg, now), es)) && Exec(Start(cfg, now), es).cfg == cfg
  {
    var s := Start(cfg, now);
    forall k ensures Compressed(cfg, s.st, s.trace, now, k) {
      assert Later([], now - cfg.window) == [];
    }
    RunKeepsInv(s, es);
  }

  // ---------------------------------------------------------------- how much a window can admit

  function AdmittedIn(k: Key, lo: real, hi: real): Entry -> bool {
    (e: Entry) => e.Admitted? && e.key == k && lo < e.time <= hi
  }

  function DroppedIn(k: Key, lo: real, hi: real): Entry -> bool {
    (e: Entry) => e.Dropped? && e.key == k && lo < e.time <= hi
  }

  lemma {:induction false} LogPast(cfg: Config, tr: seq<Entry>, clock: real, k: Key)
    requires Lawful(cfg, tr, clock)
    ensures Past(Log(tr, k), clock) && Past(FullLog(tr, k), clock)
  {
    if tr != [] {
      var e := tr[|tr| - 1];
      LogPast(cfg, tr[..|tr| - 1], e.time, k);
      PastSnoc(Log(tr[..|tr| - 1], k), e.time, e.time);
      PastSnoc(FullLog(tr[..|tr| - 1], k), e.time, e.time);
    }
  }

  lemma LaterSnoc(b: seq<real>, t: real, cutoff: real)
    ensures Later(b + [t], cutoff) == Later(b, cutoff) + if t > cutoff then [t] else []
  {
    LaterConcat(b, [t], cutoff);
    assert Later([t], cutoff) == (if t > cutoff then [t] else []) + Later([t][1..], cutoff);
  }

  lemma LaterOfPast(b: seq<real>, clock: real, cutoff: real)
    requires Past(b, clock) && clock <= cutoff
    ensures Later(b, cutoff) == []
  {
    LaterMembers(b, cutoff);
    assert forall x :: x in Later(b, cutoff) ==> x <= cutoff;
  }

  /** What is proved about a trace that has not passed the end of the interval. */
  ghost predicate Within(cfg: Config, tr: seq<Entry>, k: Key, lo: real, hi: real) {
    && |Later(Log(tr, k), lo)| <= cfg.limit
    && Count(AdmittedIn(k, lo, hi), tr) <= Quota(cfg, tr, k, lo, hi) + |Later(Log(tr, k), lo)|
  }

  /** One bucketful for each drop inside the interval. */
  function Quota(cfg: Config, tr: seq<Entry>, k: Key, lo: real, hi: real): int {
    cfg.limit * Count(DroppedIn(k, lo, hi), tr)
  }

  lemma QuotaSnoc(cfg: Config, tr: seq<Entry>, e: Entry, k: Key, lo: real, hi: real)
    ensures Quota(cfg, tr + [e], k, lo, hi) ==
              Quota(cfg, tr, k, lo, hi) + if DroppedIn(k, lo, hi)(e) then cfg.limit else 0
  {
    CountSnoc(DroppedIn(k, lo, hi), tr, e);
    var d := Count(DroppedIn(k, lo, hi), tr);
    assert cfg.limit * (d + 1) == cfg.limit * d + cfg.limit;
  }

  lemma WithinSnoc(cfg: Config, tr: seq<Entry>, clock: real, e: Entry, k: Key, lo: real, hi: real)
    requires cfg.Valid() && Lawful(cfg, tr, clock) && clock <= e.time <= hi <= lo + cfg.window
    requires Within(cfg, tr, k, lo, hi)
    requires e.Admitted? ==> |Later(Log(tr, e.key), e.time - cfg.window)| < cfg.limit
    ensures Within(cfg, tr + [e], k, lo, hi)
  {
    QuotaSnoc(cfg, tr, e, k, lo, hi);
    CountSnoc(AdmittedIn(k, lo, hi), tr, e);
    LogSnoc(tr, e, k);
    if e.key == k && e.Admitted? {
      LaterSnoc(Log(tr, k), e.time, lo);
      LaterShrinks(Log(tr, k), e.time - cfg.window, lo);
    } else if e.key == k && e.Dropped? && e.time <= lo {
      LogPast(cfg, tr, clock, k);
      LaterOfPast(Log(tr, k), clock, lo);
    }
  }

  lemma {:induction false} BoundWithin(cfg: Config, tr: seq<Entry>, clock: real, k: Key, lo: real, hi: real)
    requires cfg.Valid() && Lawful(cfg, tr, clock) && clock <= hi <= lo + cfg.window
    ensures Within(cfg, tr, k, lo, hi)
  {
    if tr != [] {
      var n := |tr| - 1;
      var before, e := tr[..n], tr[n];
      BoundWithin(cfg, before, e.time, k, lo, hi);
      WithinSnoc(cfg, before, e.time, e, k, lo, hi);
      assert tr == before + [e];
    }
  }

  lemma {:induction false} BoundTrace(cfg: Config, tr: seq<Entry>, clock: real, k: Key, lo: real, hi: real)
    requires cfg.Valid() && Lawful(cfg, tr, clock) && lo <= hi <= lo + cfg.window
    ensures Count(AdmittedIn(k, lo, hi), tr) <= Quota(cfg, tr, k, lo, hi) + cfg.limit
  {
    if tr != [] {
      var n := |tr| - 1;
      var before, e := tr[..n], tr[n];
      assert tr == before + [e];
      if e.time <= hi {
        BoundWithin(cfg, tr, e.time, k, lo, hi);
      } else {
        BoundTrace(cfg, before, e.time, k, lo, hi);
        CountSnoc(AdmittedIn(k, lo, hi), before, e);
        QuotaSnoc(cfg, before, e, k, lo, hi);
      }
    }
  }

  /** Over any run, in any half-open interval no longer than the window, a key is admitted at most
      `limit` times, plus `limit` more for each time its bucket was evicted or reset inside it. */
  lemma WindowBound(cfg: Config, now: real, es: seq<Event>, k: Key, lo: real, hi: real)
    requires cfg.Valid() && ValidRun(Start(cfg, now), es) && lo <= hi <= lo + cfg.window
    ensures
      var tr := Exec(Start(cfg, now), es).trace;
      Count(AdmittedIn(k, lo, hi), tr) <= cfg.limit * (1 + Count(DroppedIn(k, lo, hi), tr))
  {
    ReachableInv(cfg, now, es);
    BoundReached(Exec(Start(cfg, now), es), k, lo, hi);
  }

  lemma BoundReached(s: Sys, k: Key, lo: real, hi: real)
    requires Inv(s) && lo <= hi <= lo + s.cfg.window
    ensures Count(AdmittedIn(k, lo, hi), s.trace)
              <= s.cfg.limit * (1 + Count(DroppedIn(k, lo, hi), s.trace))
  {
    BoundTrace(s.cfg, s.trace, s.clock, k, lo, hi);
    var d := Count(DroppedIn(k, lo, hi), s.trace);
    assert s.cfg.limit * (1 + d) == s.cfg.limit * d + s.cfg.limit;
  }

  // ---------------------------------------------------------------- against a limiter that forgets nothing

  /** Every time `k` was admitted before it was last dropped. */
  function Forgotten(tr: seq<Entry>, k: Key): seq<real> {
    if tr == [] then []
    else if tr[|tr| - 1].Dropped? && tr[|tr| - 1].key == k then FullLog(tr, k)
    else Forgotten(tr[..|tr| - 1], k)
  }

  lemma {:induction false} LogSplits(tr: seq<Entry>, k: Key)
    ensures FullLog(tr, k) == Forgotten(tr, k) + Log(tr, k)
  {
    if tr != [] {
      LogSplits(tr[..|tr| - 1], k);
    }
  }

  /** Something forgotten that is later than the cutoff was forgotten in a drop later than the cutoff. */
  lemma {:induction false} ForgottenInDrop(cfg: Config, tr: seq<Entry>, clock: real, k: Key, cutoff: real)
    requires Lawful(cfg, tr, clock) && Later(Forgotten(tr, k), cutoff) != []
    ensures exists e :: e in tr && e.Dropped? && e.key == k && e.time > cutoff
  {
    var n := |tr| - 1;
    var e := tr[n];
    if e.Dropped? && e.key == k {
      LogPast(cfg, tr, e.time, k);
      if e.time <= cutoff {
        LaterOfPast(FullLog(tr, k), e.time, cutoff);
      }
    } else {
      ForgottenInDrop(cfg, tr[..n], e.time, k, cutoff);
      var d :| d in tr[..n] && d.Dropped? && d.key == k && d.time > cutoff;
      assert d in tr;
    }
  }

  /** Against a limiter that never forgets: `check` allows exactly when that one's count of the window is
      less than `limit` plus the admissions of the window that came before the key's last drop. So every
      refusal is one it would make too, and to allow what it refuses takes a drop inside the window. */
  lemma ForgetsOnlyByDropping(s: Sys, k: Key, t: real)
    requires Inv(s) && s.clock <= t
    ensures
      var cutoff := t - s.cfg.window;
      var full := |Later(FullLog(s.trace, k), cutoff)|;
      var lost := |Later(Forgotten(s.trace, k), cutoff)|;
      && (Check(s.cfg, s.st, k, t).verdict.Allowed? <==> full < s.cfg.limit + lost)
      && (lost > 0 ==> exists e :: e in s.trace && e.Dropped? && e.key == k && e.time > cutoff)
  {
    var cutoff := t - s.cfg.window;
    AllowedWhen(s, k, t);
    LogSplits(s.trace, k);
    LaterConcat(Forgotten(s.trace, k), Log(s.trace, k), cutoff);
    if Later(Forgotten(s.trace, k), cutoff) != [] {
      ForgottenInDrop(s.cfg, s.trace, s.clock, k, cutoff);
    }
  }

  // ---------------------------------------------------------------- the wait a refusal reports

  /** The run from `s` admits and drops nothing of `k`. */
  ghost predicate LeavesAlone(a: Sys, b: Sys, k: Key) {
    && |a.trace| <= |b.trace| && b.trace[..|a.trace|] == a.trace
    && forall i :: |a.trace| <= i < |b.trace| && b.trace[i].key == k ==> b.trace[i].Rejected?
  }

  lemma {:induction false} LogUntouched(a: seq<Entry>, b: seq<Entry>, k: Key)
    requires |a| <= |b| && b[..|a|] == a
    requires forall i :: |a| <= i < |b| && b[i].key == k ==> b[i].Rejected?
    ensures Log(b, k) == Log(a, k)
    decreases |b|
  {
    if |a| == |b| {
      assert a == b;
    } else {
      assert b[..|b| - 1][..|a|] == a;
      LogUntouched(a, b[..|b| - 1], k);
    }
  }

  /** If the oldest of a full window is still inside, the window is still the same; once it leaves,
      there is room. */
  lemma WindowFull(log: seq<real>, c: real, d: real, limit: int)
    requires c <= d && Ascending(log) && |Later(log, c)| == limit >= 1
    ensures |Later(log, d)| < limit <==> d >= Later(log, c)[0]
  {
    var w := Later(log, c);
    LaterTwice(log, c, d);
    LaterMembers(log, c);
    if d < w[0] {
      LaterOfLate(w, d);
    } else {
      LaterMembers(w[1..], d);
    }
  }

  /** A refusal's wait is exact: as long as nothing of the key is admitted or dropped meanwhile, a
      later check is admitted if and only if the wait has passed. */
  lemma RetryAfterExact(s: Sys, k: Key, now: real, es: seq<Event>, t: real)
    requires Inv(s) && s.clock <= now && Check(s.cfg, s.st, k, now).verdict.Refused?
    requires ValidRun(Step(s, Attempt(k, now)), es)
    requires Exec(Step(s, Attempt(k, now)), es).clock <= t
    requires LeavesAlone(Step(s, Attempt(k, now)), Exec(Step(s, Attempt(k, now)), es), k)
    ensures
      var r := Check(s.cfg, s.st, k, now).verdict.retryAfter;
      var end := Exec(Step(s, Attempt(k, now)), es);
      && 0.0 < r <= s.cfg.window
      && (Check(end.cfg, end.st, k, t).verdict.Allowed? <==> t >= now + r)
  {
    var s1 := Step(s, Attempt(k, now));
    StepKeepsInv(s, Attempt(k, now));
    RunKeepsInv(s1, es);
    CheckVerdict(s, k, now);
    LogAfterCheck(s, k, now, k);
    LogPast(s.cfg, s.trace, s.clock, k);
    WaitExact(s1, Exec(s1, es), k, now, Check(s.cfg, s.st, k, now).verdict.retryAfter, t);
  }

  lemma AllowedWhen(s: Sys, k: Key, t: real)
    requires Inv(s) && s.clock <= t
    ensures Check(s.cfg, s.st, k, t).verdict.Allowed? <==> |Later(Log(s.trace, k), t - s.cfg.window)| < s.cfg.limit
  {
    CheckVerdict(s, k, t);
  }

  lemma WaitExact(a: Sys, b: Sys, k: Key, now: real, r: real, t: real)
    requires Inv(b) && a.cfg == b.cfg && LeavesAlone(a, b, k) && now <= b.clock <= t
    requires Ascending(Log(a.trace, k)) && |Later(Log(a.trace, k), now - a.cfg.window)| == a.cfg.limit
    requires r == Later(Log(a.trace, k), now - a.cfg.window)[0] + a.cfg.window - now
    ensures Check(b.cfg, b.st, k, t).verdict.Allowed? <==> t >= now + r
  {
    AllowedWhen(b, k, t);
    LogUntouched(a.trace, b.trace, k);
    WindowFull(Log(a.trace, k), now - a.cfg.window, t - a.cfg.window, a.cfg.limit);
  }

  // ---------------------------------------------------------------- how many keys are kept

  lemma TouchSize(s: State, k: Key, b: seq<real>)
    requires WellKeyed(s)
    ensures |Put(Touch(s, k), k, b).hits| <= |s.hits| + 1
    ensures k !in s.hits ==> |Put(Touch(s, k), k, b).hits| == |s.hits| + 1
  {
    TouchKeepsKeys(s, k, b);
  }

  lemma PopSize(s: State, gone: seq<Key>)
    requires WellKeyed(s) && (forall v :: v in gone ==> v in s.hits)
    ensures |Pop(s, Elements(gone)).hits| <= |s.hits|
    ensures gone != [] ==> |Pop(s, Elements(gone)).hits| < |s.hits|
  {
    var rest := Pop(s, Elements(gone)).hits;
    assert rest.Keys <= s.hits.Keys;
    SubsetSize(rest.Keys, s.hits.Keys);
    assert |rest.Keys| == |rest| && |s.hits.Keys| == |s.hits|;
    if gone != [] {
      assert gone[0] in s.hits.Keys && gone[0] !in rest.Keys;
      SubsetSize(rest.Keys, s.hits.Keys - {gone[0]});
    }
  }

  lemma {:induction false} SubsetSize(a: set<Key>, b: set<Key>)
    requires a <= b
    ensures |a| <= |b|
  {
    if a != {} {
      var x :| x in a;
      SubsetSize(a - {x}, b - {x});
    }
  }

  lemma CheckSize(cfg: Config, s: State, k: Key, t: real)
    requires cfg.Valid() && cfg.maxKeys >= 4 && WellKeyed(s) && |s.hits| <= cfg.maxKeys
    ensures |Check(cfg, s, k, t).next.hits| <= cfg.maxKeys
  {
    var b := Pruned(cfg, s, k, t);
    if |b| < cfg.limit {
      var s2 := Put(Touch(s, k), k, b + [t]);
      TouchKeepsKeys(s, k, b + [t]);
      TouchSize(s, k, b + [t]);
      VictimsAreKeys(cfg, s2);
      PopSize(s2, Victims(cfg, s2));
    } else {
      assert k in s.hits;
      assert Put(Touch(s, k), k, b).hits.Keys == s.hits.Keys;
      assert |Put(Touch(s, k), k, b).hits.Keys| == |Put(Touch(s, k), k, b).hits| && |s.hits.Keys| == |s.hits|;
    }
  }

  lemma {:induction false} RunSize(s: Sys, es: seq<Event>)
    requires Inv(s) && ValidRun(s, es) && s.cfg.maxKeys >= 4 && |s.st.hits| <= s.cfg.maxKeys
    ensures |Exec(s, es).st.hits| <= s.cfg.maxKeys
    decreases |es|
  {
    if es != [] {
      if es[0].Attempt? {
        CheckSize(s.cfg, s.st, es[0].key, es[0].time);
      }
      StepKeepsInv(s, es[0]);
      RunSize(Step(s, es[0]), es[1..]);
    }
  }
}
