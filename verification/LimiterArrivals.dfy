/**
 How often keys can be dropped: evictions are paid for by keys that were not in the map. So the excess over
 the limit is bounded by what the rest of the world does, not only by the drops themselves.
 */
module LimiterArrivals {
  import opened Basics
  import opened RateLimit
  import opened LimiterRuns
  import opened LimiterCapacity

  /** The attempt is by a key the map does not have. */
  predicate Arrives(s: Sys, e: Event) {
    e.Attempt? && e.key !in s.st.hits
  }

  predicate Evicts(s: Sys, e: Event)
    requires s.cfg.Valid()
  {
    e.Attempt? && Check(s.cfg, s.st, e.key, e.time).dropped != []
  }

  /** How many attempts in the interval were by keys not in the map. */
  function Arrivals(s: Sys, es: seq<Event>, lo: real, hi: real): nat
    requires s.cfg.Valid() && ValidRun(s, es)
    decreases |es|
  {
    if es == [] then 0
    else (if Arrives(s, es[0]) && lo < es[0].time <= hi then 1 else 0) + Arrivals(Step(s, es[0]), es[1..], lo, hi)
  }

  /** Which attempts of the interval evicted somebody. */
  function Evicting(s: Sys, es: seq<Event>, lo: real, hi: real): seq<bool>
    requires s.cfg.Valid() && ValidRun(s, es)
    decreases |es|
  {
    if es == [] then []
    else [Evicts(s, es[0]) && lo < es[0].time <= hi] + Evicting(Step(s, es[0]), es[1..], lo, hi)
  }

  /** `q` for every mark. */
  function Weight(marks: seq<bool>, q: int): int {
    if marks == [] then 0 else (if marks[0] then q else 0) + Weight(marks[1..], q)
  }

  lemma WeightFirst(mark: bool, marks: seq<bool>, q: int)
    ensures Weight([mark] + marks, q) == (if mark then q else 0) + Weight(marks, q)
  {
    assert ([mark] + marks)[1..] == marks;
  }

  lemma {:induction false} WeightIsProduct(marks: seq<bool>, q: int)
    ensures Weight(marks, q) == q * Weight(marks, 1) && Weight(marks, 1) >= 0
  {
    if marks != [] {
      WeightIsProduct(marks[1..], q);
      assert q * (1 + Weight(marks[1..], 1)) == q + q * Weight(marks[1..], 1);
    }
  }

  // ---------------------------------------------------------------- the size of the map

  lemma PopExactly(s: State, gone: seq<Key>)
    requires NoDuplicates(gone) && forall v :: v in gone ==> v in s.hits
    ensures |Pop(s, Elements(gone)).hits| == |s.hits| - |gone|
  {
    ElementsCount(gone);
    var rest := Pop(s, Elements(gone)).hits;
    assert rest.Keys == s.hits.Keys - Elements(gone);
    assert s.hits.Keys == (s.hits.Keys - Elements(gone)) + Elements(gone);
    assert |rest.Keys| == |rest| && |s.hits.Keys| == |s.hits|;
  }

  lemma {:induction false} ElementsCount(s: seq<Key>)
    requires NoDuplicates(s)
    ensures |Elements(s)| == |s|
  {
    if s != [] {
      var n := |s| - 1;
      ElementsCount(s[..n]);
      assert s == s[..n] + [s[n]] && s[n] !in s[..n];
      assert Elements(s) == Elements(s[..n]) + {s[n]};
    }
  }

  /** Overwriting the bucket of a key in the map keeps the size. */
  lemma KnownKeySize(s: State, k: Key, b: seq<real>)
    requires k in s.hits
    ensures |Put(Touch(s, k), k, b).hits| == |s.hits|
  {
    var hits := Put(Touch(s, k), k, b).hits;
    assert hits.Keys == s.hits.Keys;
    assert |hits.Keys| == |hits| && |s.hits.Keys| == |s.hits|;
  }

  lemma SmallMapEvictsNobody(cfg: Config, s: State)
    requires |s.hits| <= cfg.maxKeys
    ensures Victims(cfg, s) == [] && Evict(cfg, s) == s
  {
    PopNone(s);
  }

  lemma KnownKeyCheck(cfg: Config, s: State, k: Key, t: real)
    requires cfg.Valid() && WellKeyed(s) && k in s.hits && |s.hits| <= cfg.maxKeys
    ensures Check(cfg, s, k, t).dropped == [] && |Check(cfg, s, k, t).next.hits| == |s.hits|
  {
    var b := Pruned(cfg, s, k, t);
    if |b| < cfg.limit {
      KnownKeySize(s, k, b + [t]);
      SmallMapEvictsNobody(cfg, Put(Touch(s, k), k, b + [t]));
    } else {
      KnownKeySize(s, k, b);
    }
  }

  lemma NewKeyCheck(cfg: Config, s: State, k: Key, t: real)
    requires cfg.Valid() && cfg.maxKeys >= 4 && WellKeyed(s) && k !in s.hits && |s.hits| <= cfg.maxKeys
    ensures
      var c := Check(cfg, s, k, t);
      && c.verdict.Allowed?
      && (|s.hits| < cfg.maxKeys ==> c.dropped == [] && |c.next.hits| == |s.hits| + 1)
      && (|s.hits| == cfg.maxKeys ==> c.dropped != [] && |c.next.hits| == cfg.maxKeys + 1 - cfg.maxKeys / 4)
  {
    var s2 := State(s.order + [k], s.hits[k := [t]]);
    FirstAttempt(cfg, s, k, t);
    WithKey(s, k, [t]);
    if |s.hits| < cfg.maxKeys {
      SmallMapEvictsNobody(cfg, s2);
    } else {
      FullMapEvicts(cfg, s2);
    }
  }

  lemma WithKey(s: State, k: Key, b: seq<real>)
    requires WellKeyed(s) && k !in s.hits
    ensures WellKeyed(State(s.order + [k], s.hits[k := b])) && |s.hits[k := b]| == |s.hits| + 1
  {
    KeysCount(s.order + [k], s.hits[k := b]);
  }

  lemma FullMapEvicts(cfg: Config, s: State)
    requires WellKeyed(s) && cfg.maxKeys >= 4 && |s.hits| == cfg.maxKeys + 1
    ensures Victims(cfg, s) != [] && |Evict(cfg, s).hits| == cfg.maxKeys + 1 - cfg.maxKeys / 4
  {
    VictimsAreKeys(cfg, s);
    PopExactly(s, Victims(cfg, s));
  }

  /** What an attempt does to the size of the map. */
  lemma AttemptSize(s: Sys, k: Key, t: real)
    requires Inv(s) && s.cfg.maxKeys >= 4 && |s.st.hits| <= s.cfg.maxKeys
    ensures
      var s' := Step(s, Attempt(k, t));
      var e := Attempt(k, t);
      var q := s.cfg.maxKeys / 4;
      && |s'.st.hits| <= s.cfg.maxKeys
      && (!Arrives(s, e) ==> !Evicts(s, e) && |s'.st.hits| == |s.st.hits|)
      && (Arrives(s, e) && !Evicts(s, e) ==> |s'.st.hits| == |s.st.hits| + 1)
      && (Evicts(s, e) ==> |s.st.hits| == s.cfg.maxKeys && |s'.st.hits| == s.cfg.maxKeys + 1 - q)
  {
    if k in s.st.hits {
      KnownKeyCheck(s.cfg, s.st, k, t);
    } else {
      NewKeyCheck(s.cfg, s.st, k, t);
    }
  }

  // ---------------------------------------------------------------- evictions against arrivals

  /** How much fuller the map is than an eviction leaves it. */
  function Slack(cfg: Config, size: nat): int {
    var after := cfg.maxKeys + 1 - cfg.maxKeys / 4;
    if size > after then size - after else 0
  }

  lemma {:induction false} NothingAfter(s: Sys, es: seq<Event>, lo: real, hi: real)
    requires s.cfg.Valid() && ValidRun(s, es) && hi < s.clock
    ensures Arrivals(s, es, lo, hi) == 0
    ensures forall q :: Weight(Evicting(s, es, lo, hi), q) == 0
    decreases |es|
  {
    if es != [] {
      NothingAfter(Step(s, es[0]), es[1..], lo, hi);
      forall q {
        WeightFirst(false, Evicting(Step(s, es[0]), es[1..], lo, hi), q);
      }
    }
  }

  lemma SlackStep(s: Sys, k: Key, t: real)
    requires Inv(s) && s.cfg.maxKeys >= 4 && |s.st.hits| <= s.cfg.maxKeys
    ensures
      var s', e := Step(s, Attempt(k, t)), Attempt(k, t);
      var slack, slack' := Slack(s.cfg, |s.st.hits|), Slack(s.cfg, |s'.st.hits|);
      && |s'.st.hits| <= s.cfg.maxKeys && (Evicts(s, e) ==> Arrives(s, e))
      && if Evicts(s, e) then slack == s.cfg.maxKeys / 4 - 1 && slack' == 0
         else slack' <= slack + if Arrives(s, e) then 1 else 0
  {
    AttemptSize(s, k, t);
  }

  /** Inside the interval every eviction but the first has to wait for a quarter of the map to arrive. */
  lemma {:induction false} EvictionsPaid(s: Sys, es: seq<Event>, lo: real, hi: real)
    requires Inv(s) && s.cfg.maxKeys >= 4 && |s.st.hits| <= s.cfg.maxKeys && ValidRun(s, es) && NoClear(es)
    requires es != [] ==> lo < es[0].time
    ensures Weight(Evicting(s, es, lo, hi), s.cfg.maxKeys / 4) <= Arrivals(s, es, lo, hi) + Slack(s.cfg, |s.st.hits|)
    decreases |es|
  {
    if es != [] {
      assert es[0] in es;
      var s' := Step(s, es[0]);
      StepKeepsInv(s, es[0]);
      WeightFirst(Evicts(s, es[0]) && lo < es[0].time <= hi, Evicting(s', es[1..], lo, hi), s.cfg.maxKeys / 4);
      if hi < es[0].time {
        NothingAfter(s', es[1..], lo, hi);
      } else {
        SlackStep(s, es[0].key, es[0].time);
        EvictionsPaid(s', es[1..], lo, hi);
      }
    }
  }

  lemma {:induction false} EvictionsBound(s: Sys, es: seq<Event>, lo: real, hi: real)
    requires Inv(s) && s.cfg.maxKeys >= 4 && |s.st.hits| <= s.cfg.maxKeys && ValidRun(s, es) && NoClear(es)
    ensures Weight(Evicting(s, es, lo, hi), s.cfg.maxKeys / 4) <= Arrivals(s, es, lo, hi) + s.cfg.maxKeys / 4 - 1
    decreases |es|
  {
    if es != [] && es[0].time <= lo {
      assert es[0] in es;
      StepKeepsInv(s, es[0]);
      AttemptSize(s, es[0].key, es[0].time);
      WeightFirst(false, Evicting(Step(s, es[0]), es[1..], lo, hi), s.cfg.maxKeys / 4);
      EvictionsBound(Step(s, es[0]), es[1..], lo, hi);
    } else {
      EvictionsPaid(s, es, lo, hi);
    }
  }

  // ---------------------------------------------------------------- drops against evictions

  lemma {:induction false} DropsCount(keys: seq<Key>, t: real, k: Key, lo: real, hi: real)
    requires NoDuplicates(keys)
    ensures Count(DroppedIn(k, lo, hi), Drops(keys, t)) == if k in keys && lo < t <= hi then 1 else 0
  {
    if keys != [] {
      var n := |keys| - 1;
      DropsCount(keys[..n], t, k, lo, hi);
      CountSnoc(DroppedIn(k, lo, hi), Drops(keys[..n], t), Dropped(keys[n], t));
      KeysSnoc(keys, k);
      assert keys[n] !in keys[..n];
    }
  }

  lemma AttemptDrops(s: Sys, e: Event, k: Key, lo: real, hi: real)
    requires Inv(s) && e.Attempt?
    ensures Count(DroppedIn(k, lo, hi), Step(s, e).trace)
              <= Count(DroppedIn(k, lo, hi), s.trace) + if Evicts(s, e) && lo < e.time <= hi then 1 else 0
  {
    var c := Check(s.cfg, s.st, e.key, e.time);
    var entry := VerdictEntry(e.key, e.time, c.verdict);
    CountSnoc(DroppedIn(k, lo, hi), s.trace, entry);
    CountConcat(DroppedIn(k, lo, hi), s.trace + [entry], Drops(c.dropped, e.time));
    DroppedOnce(s, e.key, e.time);
    DropsCount(c.dropped, e.time, k, lo, hi);
  }

  lemma DroppedOnce(s: Sys, k: Key, t: real)
    requires Inv(s)
    ensures NoDuplicates(Check(s.cfg, s.st, k, t).dropped)
  {
    var b := Pruned(s.cfg, s.st, k, t);
    if |b| < s.cfg.limit {
      TouchKeepsKeys(s.st, k, b + [t]);
      VictimsDistinct(s.cfg, Put(Touch(s.st, k), k, b + [t]));
    }
  }

  lemma VictimsDistinct(cfg: Config, s: State)
    requires WellKeyed(s)
    ensures NoDuplicates(Victims(cfg, s))
  {
    VictimsAreKeys(cfg, s);
  }

  lemma {:induction false} DropsWithinEvictions(s: Sys, es: seq<Event>, k: Key, lo: real, hi: real)
    requires Inv(s) && ValidRun(s, es) && NoClear(es)
    ensures Count(DroppedIn(k, lo, hi), Exec(s, es).trace)
              <= Count(DroppedIn(k, lo, hi), s.trace) + Weight(Evicting(s, es, lo, hi), 1)
    decreases |es|
  {
    if es != [] {
      assert es[0] in es;
      StepKeepsInv(s, es[0]);
      AttemptDrops(s, es[0], k, lo, hi);
      WeightFirst(Evicts(s, es[0]) && lo < es[0].time <= hi, Evicting(Step(s, es[0]), es[1..], lo, hi), 1);
      DropsWithinEvictions(Step(s, es[0]), es[1..], k, lo, hi);
    }
  }

  // ---------------------------------------------------------------- the bound

  /** How many times `q` fits into `n`, counting a part of it as one. */
  function Parts(n: nat, q: int): int
    requires q >= 1
  {
    (n + q - 1) / q
  }

  lemma FitsInParts(n: nat, q: int, times: int)
    requires q >= 1 && q * times <= n + q - 1
    ensures times <= Parts(n, q)
  {
    assert n + q - 1 < q * Parts(n, q) + q;
    Product(q, Parts(n, q) + 1, times);
  }

  lemma Product(a: int, b: int, c: int)
    requires a >= 1
    ensures b <= c ==> a * b <= a * c
  {
    if b <= c {
      assert a * c == a * b + a * (c - b);
      assert a * (c - b) >= 0;
    }
  }

  lemma EvictionCount(s: Sys, es: seq<Event>, lo: real, hi: real)
    requires Inv(s) && s.cfg.maxKeys >= 4 && |s.st.hits| <= s.cfg.maxKeys && ValidRun(s, es) && NoClear(es)
    ensures Weight(Evicting(s, es, lo, hi), 1) <= Parts(Arrivals(s, es, lo, hi), s.cfg.maxKeys / 4)
  {
    EvictionsBound(s, es, lo, hi);
    WeightFits(Evicting(s, es, lo, hi), s.cfg.maxKeys / 4, Arrivals(s, es, lo, hi));
  }

  lemma WeightFits(marks: seq<bool>, q: int, n: nat)
    requires q >= 1 && Weight(marks, q) <= n + q - 1
    ensures Weight(marks, 1) <= Parts(n, q)
  {
    WeightIsProduct(marks, q);
    FitsInParts(n, q, Weight(marks, 1));
  }

  lemma MoreBuckets(limit: int, admitted: nat, drops: nat, parts: int)
    requires limit >= 1 && admitted <= limit * (1 + drops) && drops <= parts
    ensures admitted <= limit * (1 + parts)
  {
    Product(limit, 1 + drops, 1 + parts);
  }

  lemma BoundFromDrops(s: Sys, k: Key, lo: real, hi: real, parts: int)
    requires Inv(s) && lo <= hi <= lo + s.cfg.window && Count(DroppedIn(k, lo, hi), s.trace) <= parts
    ensures Count(AdmittedIn(k, lo, hi), s.trace) <= s.cfg.limit * (1 + parts)
  {
    BoundReached(s, k, lo, hi);
    MoreBuckets(s.cfg.limit, Count(AdmittedIn(k, lo, hi), s.trace), Count(DroppedIn(k, lo, hi), s.trace), parts);
  }

  lemma DropsByArrivals(cfg: Config, now: real, es: seq<Event>, k: Key, lo: real, hi: real, q: int)
    requires cfg.Valid() && cfg.maxKeys >= 4 && q == cfg.maxKeys / 4 && ValidRun(Start(cfg, now), es) && NoClear(es)
    ensures Count(DroppedIn(k, lo, hi), Exec(Start(cfg, now), es).trace)
              <= Parts(Arrivals(Start(cfg, now), es, lo, hi), q)
  {
    StartInv(cfg, now);
    EvictionCount(Start(cfg, now), es, lo, hi);
    DropsWithinEvictions(Start(cfg, now), es, k, lo, hi);
  }

  lemma StartInv(cfg: Config, now: real)
    requires cfg.Valid()
    ensures Inv(Start(cfg, now)) && |Start(cfg, now).st.hits| == 0
  {
    ReachableInv(cfg, now, []);
    assert Exec(Start(cfg, now), []) == Start(cfg, now);
  }

  /** How often a key can be admitted in a window in which `arrivals` attempts are by keys not in the map. */
  function Allowance(cfg: Config, arrivals: nat): int
    requires cfg.maxKeys >= 4
  {
    cfg.limit * (1 + Parts(arrivals, cfg.maxKeys / 4))
  }

  lemma AllowanceFromDrops(s: Sys, k: Key, lo: real, hi: real, arrivals: nat)
    requires Inv(s) && s.cfg.maxKeys >= 4 && lo <= hi <= lo + s.cfg.window
    requires Count(DroppedIn(k, lo, hi), s.trace) <= Parts(arrivals, s.cfg.maxKeys / 4)
    ensures Count(AdmittedIn(k, lo, hi), s.trace) <= Allowance(s.cfg, arrivals)
  {
    BoundFromDrops(s, k, lo, hi, Parts(arrivals, s.cfg.maxKeys / 4));
  }

  /** With room for at least four keys and no reset, a window admits a key at most `limit` times, plus
      `limit` more for every quarter of the map, or part of one, that arrives in it: attempts by keys the
      map does not have. */
  lemma WindowBoundByArrivals(cfg: Config, now: real, es: seq<Event>, k: Key, lo: real, hi: real)
    requires cfg.Valid() && cfg.maxKeys >= 4 && ValidRun(Start(cfg, now), es) && NoClear(es)
    requires lo <= hi <= lo + cfg.window
    ensures Count(AdmittedIn(k, lo, hi), Exec(Start(cfg, now), es).trace)
              <= Allowance(cfg, Arrivals(Start(cfg, now), es, lo, hi))
  {
    DropsByArrivals(cfg, now, es, k, lo, hi, cfg.maxKeys / 4);
    ReachedInv(cfg, now, es);
    AllowanceFromDrops(Exec(Start(cfg, now), es), k, lo, hi, Arrivals(Start(cfg, now), es, lo, hi));
  }

  lemma ReachedInv(cfg: Config, now: real, es: seq<Event>)
    requires cfg.Valid() && ValidRun(Start(cfg, now), es)
    ensures Inv(Exec(Start(cfg, now), es)) && Exec(Start(cfg, now), es).cfg == cfg
  {
    ReachableInv(cfg, now, es);
  }
}
