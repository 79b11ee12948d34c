/**
 What `max_keys` decides: for which values the key map stays bounded, and for which the limit per key
 holds. The two sets have nothing in common.
 */
module LimiterCapacity {
  import opened Basics
  import opened RateLimit
  import opened LimiterRuns

  // ---------------------------------------------------------------- runs at one moment

  predicate NoClear(es: seq<Event>) {
    forall e :: e in es ==> e.Attempt?
  }

  /** One attempt by each key in turn, all at time 0. */
  function AttemptAll(keys: seq<Key>): seq<Event> {
    if keys == [] then [] else AttemptAll(keys[..|keys| - 1]) + [Attempt(keys[|keys| - 1], 0.0)]
  }

  /** Where those attempts lead from the empty limiter. */
  function AtOnce(cfg: Config, keys: seq<Key>): (s: Sys)
    requires cfg.Valid()
    ensures s.cfg == cfg && s.clock == 0.0
  {
    if keys == [] then Start(cfg, 0.0)
    else Step(AtOnce(cfg, keys[..|keys| - 1]), Attempt(keys[|keys| - 1], 0.0))
  }

  lemma AtOnceSnoc(cfg: Config, keys: seq<Key>, k: Key)
    requires cfg.Valid()
    ensures AtOnce(cfg, keys + [k]) == Step(AtOnce(cfg, keys), Attempt(k, 0.0))
  {
    assert (keys + [k])[..|keys|] == keys;
  }

  lemma {:induction false} AtOnceKeyed(cfg: Config, keys: seq<Key>)
    requires cfg.Valid()
    ensures WellKeyed(AtOnce(cfg, keys).st)
  {
    if keys != [] {
      AtOnceKeyed(cfg, keys[..|keys| - 1]);
      CheckKeepsKeys(cfg, AtOnce(cfg, keys[..|keys| - 1]).st, keys[|keys| - 1], 0.0);
    }
  }

  lemma {:induction false} ExecSnoc(s: Sys, es: seq<Event>, e: Event)
    requires s.cfg.Valid() && ValidRun(s, es) && Exec(s, es).clock <= e.time
    ensures ValidRun(s, es + [e]) && Exec(s, es + [e]) == Step(Exec(s, es), e)
    decreases |es|
  {
    if es == [] {
      assert [] + [e] == [e] && [e][1..] == [];
      assert ValidRun(Step(s, e), []);
    } else {
      ExecSnoc(Step(s, es[0]), es[1..], e);
      assert (es + [e])[1..] == es[1..] + [e];
    }
  }

  /** They are a run. */
  lemma {:induction false} AtOnceRuns(cfg: Config, keys: seq<Key>)
    requires cfg.Valid()
    ensures NoClear(AttemptAll(keys)) && ValidRun(Start(cfg, 0.0), AttemptAll(keys))
    ensures Exec(Start(cfg, 0.0), AttemptAll(keys)) == AtOnce(cfg, keys)
  {
    if keys != [] {
      AtOnceRuns(cfg, keys[..|keys| - 1]);
      ExecSnoc(Start(cfg, 0.0), AttemptAll(keys[..|keys| - 1]), Attempt(keys[|keys| - 1], 0.0));
    }
  }

  lemma FullLogAfterCheck(s: Sys, k: Key, t: real, j: Key)
    requires s.cfg.Valid()
    ensures FullLog(Step(s, Attempt(k, t)).trace, j) ==
              FullLog(s.trace, j) + if j == k && Check(s.cfg, s.st, k, t).verdict.Allowed? then [t] else []
  {
    var c := Check(s.cfg, s.st, k, t);
    LogSnoc(s.trace, VerdictEntry(k, t, c.verdict), j);
    LogDrops(s.trace + [VerdictEntry(k, t, c.verdict)], c.dropped, t, j);
  }

  /** A first attempt is always admitted, into a bucket of its own. */
  lemma FirstAttempt(cfg: Config, s: State, k: Key, t: real)
    requires cfg.Valid() && k !in s.hits
    ensures
      var s2 := State(s.order + [k], s.hits[k := [t]]);
      Check(cfg, s, k, t) == Checked(Evict(cfg, s2), Allowed, Victims(cfg, s2))
  {
    assert Pruned(cfg, s, k, t) == [] && [] + [t] == [t];
    assert s.hits[k := []][k := [t]] == s.hits[k := [t]];
  }

  // ---------------------------------------------------------------- how many keys fit

  /** The largest number of keys that evicts nobody. */
  function Room(cfg: Config): int {
    if cfg.maxKeys >= 0 then cfg.maxKeys else -(cfg.maxKeys / 4)
  }

  /** How many go when there is one key more. */
  function Out(cfg: Config): int {
    if cfg.maxKeys >= 0 then cfg.maxKeys / 4 else 1
  }

  predicate Fits(cfg: Config, n: int) {
    0 <= cfg.maxKeys < 4 || n <= Room(cfg)
  }

  lemma FittingKeysStay(cfg: Config, s: State)
    requires WellKeyed(s) && Fits(cfg, |s.hits|)
    ensures Victims(cfg, s) == [] && Evict(cfg, s) == s
  {
    NothingSliced(cfg, s);
    PopNone(s);
  }

  lemma NothingSliced(cfg: Config, s: State)
    requires WellKeyed(s) && Fits(cfg, |s.hits|)
    ensures Victims(cfg, s) == []
  {
    if cfg.maxKeys < 0 {
      ByLengthDistinct(s.order, s.hits);
      SliceAllButRoom(ByLength(s.order, s.hits), cfg.maxKeys / 4);
    }
  }

  lemma SliceAllButRoom(keys: seq<Key>, n: int)
    requires n < 0 && |keys| <= -n
    ensures Slice(keys, n) == []
  {}

  lemma {:induction false} EvenSizesKeepOrder(order: seq<Key>, hits: map<Key, seq<real>>, n: nat)
    requires forall k :: k in order ==> Size(hits, k) == n
    ensures ByLength(order, hits) == order
  {
    if order != [] {
      var m := |order| - 1;
      EvenSizesKeepOrder(order[..m], hits, n);
      InsertLast(order[m], order[..m], hits);
      assert order == order[..m] + [order[m]];
    }
  }

  lemma {:induction false} InsertLast(k: Key, s: seq<Key>, hits: map<Key, seq<real>>)
    requires forall x :: x in s ==> Size(hits, x) <= Size(hits, k)
    ensures InsertByLength(k, s, hits) == s + [k]
  {
    if s != [] {
      InsertLast(k, s[1..], hits);
      assert s + [k] == [s[0]] + (s[1..] + [k]);
    }
  }

  /** Every listed key, admitted once at time 0. */
  function Once(keys: seq<Key>): State {
    State(keys, map k | k in keys :: [0.0])
  }

  lemma OnceSnoc(keys: seq<Key>, k: Key)
    ensures State(Once(keys).order + [k], Once(keys).hits[k := [0.0]]) == Once(keys + [k])
  {}

  lemma OnceKeyed(keys: seq<Key>)
    requires NoDuplicates(keys)
    ensures WellKeyed(Once(keys)) && |Once(keys).hits| == |keys|
  {
    KeysCount(keys, Once(keys).hits);
  }

  /** One key too many pushes the first ones out. */
  lemma FirstVictims(cfg: Config, keys: seq<Key>)
    requires NoDuplicates(keys) && !(0 <= cfg.maxKeys < 4) && |keys| == Room(cfg) + 1
    ensures 1 <= Out(cfg) <= Room(cfg) && Victims(cfg, Once(keys)) == keys[..Out(cfg)]
  {
    OnceKeyed(keys);
    EvenSizesKeepOrder(keys, Once(keys).hits, 1);
  }

  lemma {:induction false} WithoutNothing(rest: seq<Key>, gone: set<Key>)
    requires forall k :: k in rest ==> k !in gone
    ensures Without(rest, gone) == rest
  {
    if rest != [] {
      WithoutNothing(rest[1..], gone);
    }
  }

  lemma {:induction false} WithoutPrefix(a: seq<Key>, b: seq<Key>, gone: set<Key>)
    requires (forall k :: k in a ==> k in gone) && forall k :: k in b ==> k !in gone
    ensures Without(a + b, gone) == b
  {
    if a == [] {
      assert a + b == b;
      WithoutNothing(b, gone);
    } else {
      assert (a + b)[1..] == a[1..] + b;
      WithoutPrefix(a[1..], b, gone);
    }
  }

  lemma OncePop(keys: seq<Key>, n: nat)
    requires NoDuplicates(keys) && n <= |keys|
    ensures Pop(Once(keys), Elements(keys[..n])) == Once(keys[n..])
  {
    var a, b := keys[..n], keys[n..];
    assert keys == a + b;
    Apart(a, b);
    WithoutPrefix(a, b, Elements(a));
    OnceMinus(a, b);
  }

  lemma Apart(a: seq<Key>, b: seq<Key>)
    requires NoDuplicates(a + b)
    ensures forall k :: k in b ==> k !in a
  {
    forall k | k in b ensures k !in a {
      var j :| 0 <= j < |b| && b[j] == k;
      assert forall i :: 0 <= i < |a| ==> (a + b)[i] == a[i] && (a + b)[i] != (a + b)[|a| + j];
    }
  }

  lemma OnceMinus(a: seq<Key>, b: seq<Key>)
    requires forall k :: k in b ==> k !in a
    ensures Once(a + b).hits - Elements(a) == Once(b).hits
  {
    assert forall k :: k in a + b <==> k in a || k in b;
  }

  /** A new key after `keys`: the oldest go if it is one too many, the new one stays. */
  lemma NewKey(cfg: Config, keys: seq<Key>, k: Key) returns (out: nat)
    requires cfg.Valid() && NoDuplicates(keys) && k !in keys && Fits(cfg, |keys|)
    ensures out <= |keys| && Fits(cfg, |keys| + 1 - out)
    ensures out == if Fits(cfg, |keys| + 1) then 0 else Out(cfg)
    ensures Check(cfg, Once(keys), k, 0.0)
              == Checked(Once((keys + [k])[out..]), Allowed, (keys + [k])[..out])
  {
    var more := keys + [k];
    FirstAttempt(cfg, Once(keys), k, 0.0);
    OnceSnoc(keys, k);
    OnceKeyed(more);
    if Fits(cfg, |more|) {
      out := 0;
      FittingKeysStay(cfg, Once(more));
    } else {
      FirstVictims(cfg, more);
      out := Out(cfg);
      OncePop(more, out);
    }
  }

  /** As many keys as fit are admitted one after the other, the first of them once. */
  lemma {:induction false} FirstKeys(cfg: Config, keys: seq<Key>)
    requires cfg.Valid() && NoDuplicates(keys) && keys != [] && Fits(cfg, |keys|)
    ensures AtOnce(cfg, keys).st == Once(keys) && FullLog(AtOnce(cfg, keys).trace, keys[0]) == [0.0]
  {
    var n := |keys| - 1;
    if n == 0 {
      assert Once([]).hits == map[];
    } else {
      FirstKeys(cfg, keys[..n]);
    }
    NextKey(cfg, AtOnce(cfg, keys[..n]), keys);
  }

  lemma NextKey(cfg: Config, s: Sys, keys: seq<Key>)
    requires cfg.Valid() && NoDuplicates(keys) && keys != [] && Fits(cfg, |keys|)
    requires s.cfg == cfg && s.st == Once(keys[..|keys| - 1])
    requires FullLog(s.trace, keys[0]) == if |keys| == 1 then [] else [0.0]
    ensures
      var s' := Step(s, Attempt(keys[|keys| - 1], 0.0));
      s'.st == Once(keys) && FullLog(s'.trace, keys[0]) == [0.0]
  {
    var n := |keys| - 1;
    assert keys == keys[..n] + [keys[n]];
    var out := NewKey(cfg, keys[..n], keys[n]);
    FullLogAfterCheck(s, keys[n], 0.0, keys[0]);
  }

  // ---------------------------------------------------------------- one key again and again

  /** `n` times, all of them 0. */
  ghost predicate AllZero(b: seq<real>, n: nat) {
    |b| == n && forall i :: 0 <= i < n ==> b[i] == 0.0
  }

  ghost predicate Only(keys: seq<Key>, k: Key) {
    forall i :: 0 <= i < |keys| ==> keys[i] == k
  }

  lemma ZerosPruned(b: seq<real>, n: nat, cutoff: real)
    requires AllZero(b, n) && cutoff < 0.0
    ensures Prune(b, cutoff) == b == Later(b, cutoff)
  {
    LaterOfLate(b, cutoff);
  }

  /** `n` admissions of `k`, all at 0, are remembered, and another one evicts nobody. */
  ghost predicate Held(cfg: Config, s: State, k: Key, n: nat) {
    Fits(cfg, |s.hits|) && k in s.hits && AllZero(s.hits[k], n)
  }

  lemma PutSame(s: State, k: Key, b: seq<real>)
    requires WellKeyed(s) && k in s.hits
    ensures WellKeyed(Put(s, k, b)) && |Put(s, k, b).hits| == |s.hits|
  {
    KeysCount(s.order, s.hits[k := b]);
  }

  lemma HeldMore(cfg: Config, s: State, k: Key, n: nat)
    requires WellKeyed(s) && Held(cfg, s, k, n)
    ensures Held(cfg, Put(s, k, s.hits[k] + [0.0]), k, n + 1)
  {
    PutSame(s, k, s.hits[k] + [0.0]);
  }

  lemma OneMore(cfg: Config, s: State, k: Key, n: nat)
    requires cfg.Valid() && WellKeyed(s) && Held(cfg, s, k, n) && n < cfg.limit
    ensures Check(cfg, s, k, 0.0) == Checked(Put(s, k, s.hits[k] + [0.0]), Allowed, [])
  {
    ZerosPruned(s.hits[k], n, 0.0 - cfg.window);
    PutSame(s, k, s.hits[k] + [0.0]);
    FittingKeysStay(cfg, Put(s, k, s.hits[k] + [0.0]));
  }

  /** What a run of attempts at time 0 says of one key: `n` of its admissions are remembered, and
      `lost` are not. */
  ghost predicate Holding(cfg: Config, s: Sys, k: Key, n: nat, lost: nat) {
    s.cfg == cfg && Held(cfg, s.st, k, n) && AllZero(FullLog(s.trace, k), n + lost)
  }

  lemma MoreStep(cfg: Config, s: Sys, k: Key, n: nat, lost: nat)
    requires cfg.Valid() && WellKeyed(s.st) && Holding(cfg, s, k, n, lost) && n < cfg.limit
    ensures Holding(cfg, Step(s, Attempt(k, 0.0)), k, n + 1, lost)
  {
    OneMore(cfg, s.st, k, n);
    HeldMore(cfg, s.st, k, n);
    FullLogAfterCheck(s, k, 0.0, k);
  }

  lemma MoreAtOnce(cfg: Config, keys: seq<Key>, k: Key, n: nat, lost: nat)
    requires cfg.Valid() && Holding(cfg, AtOnce(cfg, keys), k, n, lost) && n < cfg.limit
    ensures Holding(cfg, AtOnce(cfg, keys + [k]), k, n + 1, lost)
  {
    AtOnceKeyed(cfg, keys);
    MoreStep(cfg, AtOnce(cfg, keys), k, n, lost);
    AtOnceSnoc(cfg, keys, k);
  }

  /** A key that is not evicted meanwhile is admitted again and again, as long as its bucket is not full. */
  lemma {:induction false} More(cfg: Config, keys: seq<Key>, k: Key, n: nat, m: nat, lost: nat) returns (all: seq<Key>)
    requires cfg.Valid() && Holding(cfg, AtOnce(cfg, keys), k, n, lost) && n + m <= cfg.limit
    ensures Holding(cfg, AtOnce(cfg, all), k, n + m, lost)
    ensures |all| == |keys| + m && (Only(keys, k) ==> Only(all, k))
    decreases m
  {
    all := keys;
    if m > 0 {
      var most := More(cfg, keys, k, n, m - 1, lost);
      MoreAtOnce(cfg, most, k, n + m - 1, lost);
      all := most + [k];
    }
  }

  lemma OneAlone(cfg: Config, k: Key)
    requires cfg.Valid() && Fits(cfg, 1)
    ensures Holding(cfg, AtOnce(cfg, [k]), k, 1, 0)
  {
    FirstKeys(cfg, [k]);
    OnceHolds(cfg, [], k, 0);
    assert ([] + [k])[0..] == [k];
  }

  /** A key alone at time 0 is admitted `limit` times. */
  lemma FillWindow(cfg: Config, k: Key) returns (keys: seq<Key>)
    requires cfg.Valid() && Fits(cfg, 1)
    ensures |keys| == cfg.limit && Only(keys, k) && Holding(cfg, AtOnce(cfg, keys), k, cfg.limit, 0)
  {
    OneAlone(cfg, k);
    keys := More(cfg, [k], k, 1, cfg.limit - 1, 0);
  }

  // ---------------------------------------------------------------- enough keys

  /** `n` keys, told apart by their length. */
  lemma {:induction false} Names(n: nat) returns (keys: seq<Key>)
    ensures |keys| == n && NoDuplicates(keys) && forall i :: 0 <= i < n ==> |keys[i]| == i
  {
    keys := [];
    if n > 0 {
      keys := Names(n - 1);
      var name := seq(n - 1, _ => 'k');
      keys := keys + [name];
    }
  }

  // ---------------------------------------------------------------- the key map

  /** The map never holds more than `maxKeys` keys after a call, whatever the run, if and only if
      `maxKeys` is at least 4: below that a quarter of it rounds down to evicting nobody. */
  lemma KeyMapBounded(cfg: Config)
    requires cfg.Valid()
    ensures cfg.maxKeys >= 4 <==>
            forall now, es :: ValidRun(Start(cfg, now), es) ==> |Exec(Start(cfg, now), es).st.hits| <= cfg.maxKeys
  {
    if cfg.maxKeys >= 4 {
      forall now, es | ValidRun(Start(cfg, now), es)
        ensures |Exec(Start(cfg, now), es).st.hits| <= cfg.maxKeys
      {
        ReachableInv(cfg, now, []);
        assert Exec(Start(cfg, now), []) == Start(cfg, now);
        RunSize(Start(cfg, now), es);
      }
    } else {
      var es := TooManyKeys(cfg);
      assert !(ValidRun(Start(cfg, 0.0), es) ==> |Exec(Start(cfg, 0.0), es).st.hits| <= cfg.maxKeys);
    }
  }

  lemma TooManyKeys(cfg: Config) returns (es: seq<Event>)
    requires cfg.Valid() && cfg.maxKeys < 4
    ensures ValidRun(Start(cfg, 0.0), es) && |Exec(Start(cfg, 0.0), es).st.hits| > cfg.maxKeys
  {
    if cfg.maxKeys < 0 {
      es := [];
    } else {
      var keys := Names(4);
      es := AttemptAll(keys);
      FirstKeys(cfg, keys);
      AtOnceRuns(cfg, keys);
      OnceKeyed(keys);
    }
  }

  // ---------------------------------------------------------------- the limit

  ghost predicate AtMostLimit(cfg: Config, now: real, es: seq<Event>, k: Key, lo: real)
    requires cfg.Valid() && ValidRun(Start(cfg, now), es)
  {
    Count(AdmittedIn(k, lo, lo + cfg.window), Exec(Start(cfg, now), es).trace) <= cfg.limit
  }

  /** The promise of the limiter: over every run, resets apart, at most `limit` admissions of a key in
      any half-open interval as long as the window. */
  ghost predicate LimitHolds(cfg: Config)
    requires cfg.Valid()
  {
    forall now, es, k, lo :: ValidRun(Start(cfg, now), es) && NoClear(es) ==> AtMostLimit(cfg, now, es, k, lo)
  }

  ghost predicate NothingDropped(tr: seq<Entry>) {
    forall e :: e in tr ==> !e.Dropped?
  }

  lemma StepDropsNobody(s: Sys, k: Key, t: real)
    requires s.cfg.Valid() && 0 <= s.cfg.maxKeys < 4 && NothingDropped(s.trace)
    ensures NothingDropped(Step(s, Attempt(k, t)).trace)
  {
    assert Check(s.cfg, s.st, k, t).dropped == [];
  }

  lemma {:induction false} NobodyDropped(s: Sys, es: seq<Event>)
    requires s.cfg.Valid() && 0 <= s.cfg.maxKeys < 4 && ValidRun(s, es) && NoClear(es) && NothingDropped(s.trace)
    ensures NothingDropped(Exec(s, es).trace)
    decreases |es|
  {
    if es != [] {
      assert es[0] in es;
      StepDropsNobody(s, es[0].key, es[0].time);
      NobodyDropped(Step(s, es[0]), es[1..]);
    }
  }

  lemma {:induction false} NoneDroppedIn(tr: seq<Entry>, k: Key, lo: real, hi: real)
    requires NothingDropped(tr)
    ensures Count(DroppedIn(k, lo, hi), tr) == 0
  {
    if tr != [] {
      assert tr[0] in tr;
      NoneDroppedIn(tr[1..], k, lo, hi);
    }
  }

  lemma ReachedLawful(cfg: Config, now: real, es: seq<Event>)
    requires cfg.Valid() && ValidRun(Start(cfg, now), es)
    ensures Lawful(cfg, Exec(Start(cfg, now), es).trace, Exec(Start(cfg, now), es).clock)
  {
    ReachableInv(cfg, now, es);
  }

  lemma LimitKept(cfg: Config, now: real, es: seq<Event>, k: Key, lo: real)
    requires cfg.Valid() && 0 <= cfg.maxKeys < 4 && ValidRun(Start(cfg, now), es) && NoClear(es)
    ensures AtMostLimit(cfg, now, es, k, lo)
  {
    var s := Exec(Start(cfg, now), es);
    NobodyDropped(Start(cfg, now), es);
    ReachedLawful(cfg, now, es);
    OneBucketOnly(cfg, s.trace, s.clock, k, lo);
  }

  lemma OneBucketOnly(cfg: Config, tr: seq<Entry>, clock: real, k: Key, lo: real)
    requires cfg.Valid() && Lawful(cfg, tr, clock) && NothingDropped(tr)
    ensures Count(AdmittedIn(k, lo, lo + cfg.window), tr) <= cfg.limit
  {
    BoundTrace(cfg, tr, clock, k, lo, lo + cfg.window);
    NoneDroppedIn(tr, k, lo, lo + cfg.window);
  }

  /** Counting what an interval admitted is reading the full log. */
  lemma {:induction false} CountIsLog(cfg: Config, tr: seq<Entry>, clock: real, k: Key, lo: real, hi: real)
    requires Lawful(cfg, tr, clock) && clock <= hi
    ensures Count(AdmittedIn(k, lo, hi), tr) == |Later(FullLog(tr, k), lo)|
  {
    if tr != [] {
      var n := |tr| - 1;
      CountIsLog(cfg, tr[..n], tr[n].time, k, lo, hi);
      CountSnoc(AdmittedIn(k, lo, hi), tr[..n], tr[n]);
      LaterSnoc(FullLog(tr[..n], k), tr[n].time, lo);
      assert tr == tr[..n] + [tr[n]] && FullLog(tr[..n], k) + [] == FullLog(tr[..n], k);
    }
  }

  /** The first key, once it has been pushed out, is admitted again and stays. */
  lemma PushedOut(cfg: Config, keys: seq<Key>)
    requires cfg.Valid() && !(0 <= cfg.maxKeys < 4) && NoDuplicates(keys) && |keys| == Room(cfg) + 1
    ensures Holding(cfg, AtOnce(cfg, keys + [keys[0]]), keys[0], 1, 1)
  {
    AfterLast(cfg, keys);
    FirstVictims(cfg, keys);
    FirstOut(cfg, keys);
    AtOnceSnoc(cfg, keys, keys[0]);
    Readmitted(cfg, AtOnce(cfg, keys), keys[Out(cfg)..], keys[0]);
  }

  lemma FirstOut(cfg: Config, keys: seq<Key>)
    requires NoDuplicates(keys) && 1 <= Out(cfg) <= Room(cfg) && |keys| == Room(cfg) + 1
    ensures NoDuplicates(keys[Out(cfg)..]) && keys[0] !in keys[Out(cfg)..] && Fits(cfg, |keys[Out(cfg)..]|)
  {}

  lemma AfterLast(cfg: Config, keys: seq<Key>)
    requires cfg.Valid() && !(0 <= cfg.maxKeys < 4) && NoDuplicates(keys) && |keys| == Room(cfg) + 1
    ensures 1 <= Out(cfg) <= Room(cfg)
    ensures AtOnce(cfg, keys).st == Once(keys[Out(cfg)..]) && FullLog(AtOnce(cfg, keys).trace, keys[0]) == [0.0]
  {
    var n := |keys| - 1;
    FirstVictims(cfg, keys);
    FirstKeys(cfg, keys[..n]);
    LastKey(cfg, AtOnce(cfg, keys[..n]), keys);
  }

  lemma LastKey(cfg: Config, s: Sys, keys: seq<Key>)
    requires cfg.Valid() && !(0 <= cfg.maxKeys < 4) && NoDuplicates(keys) && |keys| == Room(cfg) + 1 && Room(cfg) > 0
    requires s.cfg == cfg && s.st == Once(keys[..|keys| - 1]) && FullLog(s.trace, keys[0]) == [0.0]
    ensures
      var s' := Step(s, Attempt(keys[|keys| - 1], 0.0));
      s'.st == Once(keys[Out(cfg)..]) && FullLog(s'.trace, keys[0]) == [0.0]
  {
    var n := |keys| - 1;
    assert keys == keys[..n] + [keys[n]];
    var out := NewKey(cfg, keys[..n], keys[n]);
    FullLogAfterCheck(s, keys[n], 0.0, keys[0]);
  }

  lemma OnceHolds(cfg: Config, keys: seq<Key>, k: Key, out: nat)
    requires NoDuplicates(keys) && k !in keys && out <= |keys| && Fits(cfg, |keys| + 1 - out)
    ensures Held(cfg, Once((keys + [k])[out..]), k, 1)
  {
    var left := (keys + [k])[out..];
    assert NoDuplicates(left);
    OnceKeyed(left);
    assert left[|keys| - out] == k;
  }

  lemma Readmitted(cfg: Config, s: Sys, rest: seq<Key>, k: Key)
    requires cfg.Valid() && s.cfg == cfg && s.st == Once(rest) && FullLog(s.trace, k) == [0.0]
    requires NoDuplicates(rest) && k !in rest && Fits(cfg, |rest|)
    ensures Holding(cfg, Step(s, Attempt(k, 0.0)), k, 1, 1)
  {
    var out := NewKey(cfg, rest, k);
    OnceHolds(cfg, rest, k, out);
    FullLogAfterCheck(s, k, 0.0, k);
    TwoZeros(FullLog(Step(s, Attempt(k, 0.0)).trace, k));
  }

  lemma TwoZeros(b: seq<real>)
    requires b == [0.0] + [0.0]
    ensures AllZero(b, 2)
  {}

  /** Whenever eviction takes anybody, some run admits a key `limit` + 1 times at one moment. */
  lemma LimitCanBeExceeded(cfg: Config) returns (keys: seq<Key>, k: Key)
    requires cfg.Valid() && !(0 <= cfg.maxKeys < 4)
    ensures AllZero(FullLog(AtOnce(cfg, keys).trace, k), cfg.limit + 1)
  {
    var names := Names(Room(cfg) + 1);
    k := names[0];
    PushedOut(cfg, names);
    keys := More(cfg, names + [k], k, 1, cfg.limit - 1, 1);
  }

  lemma LogBroken(s: Sys, cfg: Config, k: Key)
    requires cfg.Valid() && Lawful(cfg, s.trace, s.clock) && s.clock == 0.0
    requires AllZero(FullLog(s.trace, k), cfg.limit + 1)
    ensures Count(AdmittedIn(k, 0.0 - cfg.window, 0.0 - cfg.window + cfg.window), s.trace) == cfg.limit + 1
  {
    CountIsLog(cfg, s.trace, s.clock, k, 0.0 - cfg.window, 0.0 - cfg.window + cfg.window);
    ZerosPruned(FullLog(s.trace, k), cfg.limit + 1, 0.0 - cfg.window);
  }

  lemma LimitBroken(cfg: Config, keys: seq<Key>, k: Key)
    requires cfg.Valid() && AllZero(FullLog(AtOnce(cfg, keys).trace, k), cfg.limit + 1)
    ensures !LimitHolds(cfg)
  {
    AtOnceRuns(cfg, keys);
    AtOnceLawful(cfg, keys);
    LogBroken(AtOnce(cfg, keys), cfg, k);
    BrokenBy(cfg, AttemptAll(keys), AtOnce(cfg, keys).trace, k);
  }

  lemma AtOnceLawful(cfg: Config, keys: seq<Key>)
    requires cfg.Valid()
    ensures Lawful(cfg, AtOnce(cfg, keys).trace, 0.0)
  {
    AtOnceRuns(cfg, keys);
    ReachedLawful(cfg, 0.0, AttemptAll(keys));
  }

  lemma BrokenBy(cfg: Config, es: seq<Event>, tr: seq<Entry>, k: Key)
    requires cfg.Valid() && NoClear(es) && ValidRun(Start(cfg, 0.0), es) && Exec(Start(cfg, 0.0), es).trace == tr
    requires Count(AdmittedIn(k, 0.0 - cfg.window, 0.0 - cfg.window + cfg.window), tr) > cfg.limit
    ensures !LimitHolds(cfg)
  {
    assert !AtMostLimit(cfg, 0.0, es, k, 0.0 - cfg.window);
  }

  /** At most `limit` per window per key holds in every run if and only if `maxKeys` is 0, 1, 2 or 3, the
      values for which nobody is ever evicted. */
  lemma LimitHoldsExactly(cfg: Config)
    requires cfg.Valid()
    ensures LimitHolds(cfg) <==> 0 <= cfg.maxKeys < 4
  {
    if 0 <= cfg.maxKeys < 4 {
      forall now, es, k, lo | ValidRun(Start(cfg, now), es) && NoClear(es) ensures AtMostLimit(cfg, now, es, k, lo) {
        LimitKept(cfg, now, es, k, lo);
      }
    } else {
      var keys, k := LimitCanBeExceeded(cfg);
      LimitBroken(cfg, keys, k);
    }
  }
}
