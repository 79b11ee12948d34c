/**
 The sliding-window limiter of app/ratelimit.py: a dictionary (insertion order kept) from a caller's
 key to the admission times still remembered for it, pruned from the left on every check and evicted
 as a whole, emptiest first, when there are too many keys.
 */
module RateLimit {
  import opened Basics

  type Key = string

  datatype Config = Config(limit: int, window: real, maxKeys: int) {
    predicate Valid() { limit >= 1 && window > 0.0 }
  }

  datatype State = State(order: seq<Key>, hits: map<Key, seq<real>>)

  datatype Verdict = Allowed | Refused(retryAfter: real)

  // ---------------------------------------------------------------- sequences of times

  predicate Ascending(b: seq<real>) {
    forall i, j :: 0 <= i < j < |b| ==> b[i] <= b[j]
  }

  /** Drop from the left while at or before the cutoff. */
  function Prune(b: seq<real>, cutoff: real): seq<real> {
    if b != [] && b[0] <= cutoff then Prune(b[1..], cutoff) else b
  }

  /** All times later than the cutoff. */
  function Later(b: seq<real>, cutoff: real): seq<real> {
    if b == [] then []
    else if b[0] > cutoff then [b[0]] + Later(b[1..], cutoff)
    else Later(b[1..], cutoff)
  }

  lemma {:induction false} LaterOfLate(b: seq<real>, cutoff: real)
    requires forall i :: 0 <= i < |b| ==> b[i] > cutoff
    ensures Later(b, cutoff) == b
  {
    if b != [] {
      LaterOfLate(b[1..], cutoff);
    }
  }

  lemma {:induction false} PruneIsLater(b: seq<real>, cutoff: real)
    requires Ascending(b)
    ensures Prune(b, cutoff) == Later(b, cutoff)
  {
    if b == [] {
    } else if b[0] <= cutoff {
      PruneIsLater(b[1..], cutoff);
    } else {
      LaterOfLate(b, cutoff);
    }
  }

  lemma {:induction false} LaterConcat(a: seq<real>, b: seq<real>, cutoff: real)
    ensures Later(a + b, cutoff) == Later(a, cutoff) + Later(b, cutoff)
  {
    if a == [] {
      assert a + b == b;
    } else {
      assert (a + b)[1..] == a[1..] + b;
      LaterConcat(a[1..], b, cutoff);
    }
  }

  lemma {:induction false} LaterTwice(b: seq<real>, c: real, d: real)
    requires c <= d
    ensures Later(Later(b, c), d) == Later(b, d)
  {
    if b != [] {
      LaterTwice(b[1..], c, d);
    }
  }

  lemma {:induction false} LaterIn(b: seq<real>, cutoff: real)
    ensures forall x :: x in Later(b, cutoff) <==> x in b && x > cutoff
  {
    if b != [] {
      LaterIn(b[1..], cutoff);
      assert b == [b[0]] + b[1..];
    }
  }

  lemma {:induction false} LaterLength(b: seq<real>, cutoff: real)
    ensures |Later(b, cutoff)| <= |b|
  {
    if b != [] {
      LaterLength(b[1..], cutoff);
    }
  }

  lemma FirstIsLeast(x: real, rest: seq<real>)
    requires Ascending(rest) && forall y :: y in rest ==> x <= y
    ensures Ascending([x] + rest)
  {
    assert forall i :: 0 <= i < |rest| ==> rest[i] in rest;
  }

  lemma {:induction false} LaterAscends(b: seq<real>, cutoff: real)
    requires Ascending(b)
    ensures Ascending(Later(b, cutoff))
  {
    if b != [] {
      LaterAscends(b[1..], cutoff);
      if b[0] > cutoff {
        LaterIn(b[1..], cutoff);
        FirstIsLeast(b[0], Later(b[1..], cutoff));
      }
    }
  }

  lemma LaterMembers(b: seq<real>, cutoff: real)
    ensures forall x :: x in Later(b, cutoff) <==> x in b && x > cutoff
    ensures |Later(b, cutoff)| <= |b|
    ensures Ascending(b) ==> Ascending(Later(b, cutoff))
  {
    LaterIn(b, cutoff);
    LaterLength(b, cutoff);
    if Ascending(b) {
      LaterAscends(b, cutoff);
    }
  }

  lemma {:induction false} LaterShrinks(b: seq<real>, c: real, d: real)
    requires c <= d
    ensures |Later(b, d)| <= |Later(b, c)|
  {
    LaterTwice(b, c, d);
    LaterMembers(Later(b, c), d);
  }

  // ---------------------------------------------------------------- eviction order

  function Size(hits: map<Key, seq<real>>, k: Key): nat {
    if k in hits then |hits[k]| else 0
  }

  /** Insert a key behind every key whose bucket is no longer than its own. */
  function InsertByLength(k: Key, sorted: seq<Key>, hits: map<Key, seq<real>>): seq<Key> {
    if sorted == [] || Size(hits, k) < Size(hits, sorted[0]) then [k] + sorted
    else [sorted[0]] + InsertByLength(k, sorted[1..], hits)
  }

  /** `sorted(self._hits, key=len)`: stable, by bucket length. */
  function ByLength(order: seq<Key>, hits: map<Key, seq<real>>): seq<Key> {
    if order == [] then []
    else InsertByLength(order[|order| - 1], ByLength(order[..|order| - 1], hits), hits)
  }

  lemma {:induction false} InsertKeeps(k: Key, sorted: seq<Key>, hits: map<Key, seq<real>>)
    ensures multiset(InsertByLength(k, sorted, hits)) == multiset(sorted) + multiset{k}
  {
    if sorted == [] || Size(hits, k) < Size(hits, sorted[0]) {
    } else {
      assert sorted == [sorted[0]] + sorted[1..];
      InsertKeeps(k, sorted[1..], hits);
    }
  }

  lemma {:induction false} ByLengthKeeps(order: seq<Key>, hits: map<Key, seq<real>>)
    ensures multiset(ByLength(order, hits)) == multiset(order)
  {
    if order != [] {
      var n := |order| - 1;
      ByLengthKeeps(order[..n], hits);
      InsertKeeps(order[n], ByLength(order[..n], hits), hits);
      assert order == order[..n] + [order[n]];
    }
  }

  ghost predicate LengthSorted(s: seq<Key>, hits: map<Key, seq<real>>) {
    forall i, j :: 0 <= i < j < |s| ==> Size(hits, s[i]) <= Size(hits, s[j])
  }

  lemma {:induction false} InsertSorted(k: Key, s: seq<Key>, hits: map<Key, seq<real>>)
    requires LengthSorted(s, hits)
    ensures forall x :: x in InsertByLength(k, s, hits) <==> x == k || x in s
    ensures LengthSorted(InsertByLength(k, s, hits), hits)
  {
    if s == [] || Size(hits, k) < Size(hits, s[0]) {
    } else {
      InsertSorted(k, s[1..], hits);
      var r := InsertByLength(k, s[1..], hits);
      forall x | x in r ensures Size(hits, s[0]) <= Size(hits, x) {
        if x in s[1..] {
          var j :| 0 <= j < |s[1..]| && s[1..][j] == x;
          assert s[j + 1] == x;
        }
      }
    }
  }

  lemma {:induction false} ByLengthSorted(order: seq<Key>, hits: map<Key, seq<real>>)
    ensures forall x :: x in ByLength(order, hits) <==> x in order
    ensures LengthSorted(ByLength(order, hits), hits)
  {
    if order != [] {
      var n := |order| - 1;
      ByLengthSorted(order[..n], hits);
      InsertSorted(order[n], ByLength(order[..n], hits), hits);
      assert order == order[..n] + [order[n]];
    }
  }

  /** The keys whose bucket has length `n`, in order. */
  function OfLength(s: seq<Key>, hits: map<Key, seq<real>>, n: nat): seq<Key> {
    if s == [] then [] else (if Size(hits, s[0]) == n then [s[0]] else []) + OfLength(s[1..], hits, n)
  }

  lemma {:induction false} NoneOfLength(s: seq<Key>, hits: map<Key, seq<real>>, n: nat)
    requires forall k :: k in s ==> Size(hits, k) > n
    ensures OfLength(s, hits, n) == []
  {
    if s != [] {
      assert s[0] in s;
      NoneOfLength(s[1..], hits, n);
    }
  }

  lemma {:induction false} OfLengthSnoc(s: seq<Key>, k: Key, hits: map<Key, seq<real>>, n: nat)
    ensures OfLength(s + [k], hits, n) == OfLength(s, hits, n) + if Size(hits, k) == n then [k] else []
  {
    var last := if Size(hits, k) == n then [k] else [];
    if s == [] {
      assert [] + [k] == [k] && [k][1..] == [] && last + [] == last == [] + last;
    } else {
      var first := if Size(hits, s[0]) == n then [s[0]] else [];
      assert (s + [k])[1..] == s[1..] + [k];
      OfLengthSnoc(s[1..], k, hits, n);
      assert OfLength(s + [k], hits, n) == first + OfLength(s[1..] + [k], hits, n);
      assert first + (OfLength(s[1..], hits, n) + last) == first + OfLength(s[1..], hits, n) + last;
    }
  }

  lemma {:induction false} InsertStable(k: Key, s: seq<Key>, hits: map<Key, seq<real>>, n: nat)
    requires LengthSorted(s, hits)
    ensures OfLength(InsertByLength(k, s, hits), hits, n)
              == OfLength(s, hits, n) + if Size(hits, k) == n then [k] else []
  {
    if s == [] || Size(hits, k) < Size(hits, s[0]) {
      assert ([k] + s)[1..] == s;
      if Size(hits, k) == n {
        NoneOfLength(s, hits, n);
      }
    } else {
      InsertStable(k, s[1..], hits, n);
      assert InsertByLength(k, s, hits)[1..] == InsertByLength(k, s[1..], hits);
    }
  }

  /** Sorting keeps keys with equally long buckets in the order they were first seen. */
  lemma {:induction false} ByLengthStable(order: seq<Key>, hits: map<Key, seq<real>>, n: nat)
    ensures LengthSorted(ByLength(order, hits), hits)
    ensures OfLength(ByLength(order, hits), hits, n) == OfLength(order, hits, n)
  {
    ByLengthSorted(order, hits);
    if order != [] {
      var m := |order| - 1;
      ByLengthStable(order[..m], hits, n);
      InsertStable(order[m], ByLength(order[..m], hits), hits, n);
      OfLengthSnoc(order[..m], order[m], hits, n);
      assert order == order[..m] + [order[m]];
    }
  }

  /** Python's `sequence[:n]`: a negative bound counts from the end. */
  function Slice(s: seq<Key>, n: int): seq<Key> {
    if n >= |s| then s
    else if n >= 0 then s[..n]
    else if |s| + n >= 0 then s[..|s| + n]
    else []
  }

  /** The keys `_evict_if_needed` pops. */
  function Victims(cfg: Config, s: State): seq<Key> {
    if |s.hits| <= cfg.maxKeys then [] else Slice(ByLength(s.order, s.hits), cfg.maxKeys / 4)
  }

  function Elements(s: seq<Key>): set<Key> {
    set k | k in s
  }

  function Without(order: seq<Key>, gone: set<Key>): seq<Key> {
    if order == [] then []
    else (if order[0] in gone then [] else [order[0]]) + Without(order[1..], gone)
  }

  function Pop(s: State, gone: set<Key>): State {
    State(Without(s.order, gone), s.hits - gone)
  }

  predicate NoDuplicates(s: seq<Key>) {
    forall i, j :: 0 <= i < j < |s| ==> s[i] != s[j]
  }

  /** `order` lists the dictionary's keys, each once. */
  ghost predicate WellKeyed(s: State) {
    && NoDuplicates(s.order)
    && (forall k :: k in s.order <==> k in s.hits)
    && |s.order| == |s.hits|
  }

  lemma {:induction false} KeysCount(s: seq<Key>, m: map<Key, seq<real>>)
    requires NoDuplicates(s) && forall k :: k in s <==> k in m
    ensures |s| == |m|
  {
    if s == [] {
      assert m == map[];
    } else {
      var n := |s| - 1;
      var m' := m - {s[n]};
      forall k ensures k in s[..n] <==> k in m' {
        if k in s[..n] {
          assert k in s;
        }
      }
      KeysCount(s[..n], m');
      assert m == m'[s[n] := m[s[n]]];
    }
  }

  lemma {:induction false} WithoutFacts(order: seq<Key>, gone: set<Key>)
    ensures forall k :: k in Without(order, gone) <==> k in order && k !in gone
    ensures NoDuplicates(order) ==> NoDuplicates(Without(order, gone))
  {
    if order != [] {
      WithoutFacts(order[1..], gone);
      var rest := Without(order[1..], gone);
      assert forall i :: 0 <= i < |rest| ==> rest[i] in rest;
      assert NoDuplicates(order) ==> order[0] !in order[1..];
    }
  }

  lemma {:induction false} WithoutTwice(order: seq<Key>, a: set<Key>, b: set<Key>)
    ensures Without(Without(order, a), b) == Without(order, a + b)
  {
    if order != [] {
      WithoutTwice(order[1..], a, b);
      if order[0] in a {
        assert Without(order, a) == Without(order[1..], a);
        assert Without(order, a + b) == Without(order[1..], a + b);
      } else {
        assert Without(order, a)[1..] == Without(order[1..], a);
      }
    }
  }

  lemma {:induction false} WithoutNone(order: seq<Key>)
    ensures Without(order, {}) == order
  {
    if order != [] {
      WithoutNone(order[1..]);
    }
  }

  lemma PopNone(s: State)
    ensures Elements([]) == {} && Pop(s, {}) == s
  {
    WithoutNone(s.order);
  }

  lemma PopNext(s: State, victims: seq<Key>, i: nat)
    requires i < |victims|
    ensures Pop(Pop(s, Elements(victims[..i])), {victims[i]}) == Pop(s, Elements(victims[..i + 1]))
  {
    var a, b := Elements(victims[..i]), Elements(victims[..i + 1]);
    WithoutTwice(s.order, a, {victims[i]});
    assert victims[..i + 1] == victims[..i] + [victims[i]];
    assert b == a + {victims[i]};
  }

  lemma PopKeepsKeys(s: State, gone: set<Key>)
    requires WellKeyed(s)
    ensures WellKeyed(Pop(s, gone))
  {
    WithoutFacts(s.order, gone);
    KeysCount(Pop(s, gone).order, Pop(s, gone).hits);
  }

  /** The victims are distinct keys of the map, as many as the slice asks for. */
  lemma VictimsAreKeys(cfg: Config, s: State)
    requires WellKeyed(s)
    ensures NoDuplicates(Victims(cfg, s)) && forall v :: v in Victims(cfg, s) ==> v in s.hits
    ensures |s.hits| > cfg.maxKeys >= 0 ==>
              |Victims(cfg, s)| == if cfg.maxKeys / 4 <= |s.hits| then cfg.maxKeys / 4 else |s.hits|
    ensures cfg.maxKeys < 0 ==>
              |Victims(cfg, s)| == if |s.hits| + cfg.maxKeys / 4 >= 0 then |s.hits| + cfg.maxKeys / 4 else 0
    ensures |s.hits| <= cfg.maxKeys ==> Victims(cfg, s) == []
  {
    ByLengthDistinct(s.order, s.hits);
  }

  lemma ByLengthDistinct(order: seq<Key>, hits: map<Key, seq<real>>)
    requires NoDuplicates(order)
    ensures NoDuplicates(ByLength(order, hits)) && |ByLength(order, hits)| == |order|
    ensures forall k :: k in ByLength(order, hits) <==> k in order
  {
    ByLengthSorted(order, hits);
    ByLengthKeeps(order, hits);
    DistinctMultiset(order, ByLength(order, hits));
    assert |multiset(ByLength(order, hits))| == |ByLength(order, hits)| && |multiset(order)| == |order|;
  }

  /** No surviving bucket is shorter than an evicted one. */
  lemma EmptiestFirst(cfg: Config, s: State, v: Key, k: Key)
    requires WellKeyed(s) && v in Victims(cfg, s) && k in s.hits && k !in Victims(cfg, s)
    ensures v in s.hits && |s.hits[v]| <= |s.hits[k]|
  {
    var r, gone := ByLength(s.order, s.hits), Victims(cfg, s);
    ByLengthSorted(s.order, s.hits);
    var i :| 0 <= i < |gone| && gone[i] == v;
    var j :| 0 <= j < |r| && r[j] == k;
    assert gone == r[..|gone|];
    assert forall m :: 0 <= m < |gone| ==> r[m] == gone[m];
    assert r[i] == v && i < j;
  }

  /** A rearrangement of distinct keys has distinct keys. */
  lemma DistinctMultiset(a: seq<Key>, b: seq<Key>)
    requires NoDuplicates(a) && multiset(a) == multiset(b)
    ensures NoDuplicates(b)
  {
    AtMostOnce(a);
    forall k | k in b ensures multiset(b)[k] == 1 {
      assert k in multiset(a);
    }
    OnceEach(b);
  }

  lemma {:induction false} OnceEach(b: seq<Key>)
    requires forall k :: k in b ==> multiset(b)[k] == 1
    ensures NoDuplicates(b)
  {
    if b != [] {
      var n := |b| - 1;
      assert b == b[..n] + [b[n]];
      forall k | k in b[..n] ensures multiset(b[..n])[k] == 1 {
        assert k in b && k in multiset(b[..n]);
      }
      OnceEach(b[..n]);
      if b[n] in b[..n] {
        assert b[n] in multiset(b[..n]);
        assert multiset(b)[b[n]] >= 2;
      }
    }
  }

  lemma {:induction false} AtMostOnce(a: seq<Key>)
    requires NoDuplicates(a)
    ensures forall k :: k in a ==> multiset(a)[k] == 1
  {
    if a != [] {
      var n := |a| - 1;
      AtMostOnce(a[..n]);
      assert a == a[..n] + [a[n]];
      assert a[n] !in a[..n];
      assert a[n] !in multiset(a[..n]);
    }
  }

  // ---------------------------------------------------------------- check and reset

  datatype Checked = Checked(next: State, verdict: Verdict, dropped: seq<Key>)

  /** `setdefault(key, deque())`. */
  function Touch(s: State, key: Key): State {
    if key in s.hits then s else State(s.order + [key], s.hits[key := []])
  }

  lemma TouchKeepsKeys(s: State, key: Key, b: seq<real>)
    requires WellKeyed(s)
    ensures WellKeyed(Touch(s, key))
    ensures WellKeyed(Put(Touch(s, key), key, b))
  {
    KeysCount(Touch(s, key).order, Touch(s, key).hits);
    KeysCount(Touch(s, key).order, Touch(s, key).hits[key := b]);
  }

  /** Overwrite the bucket of a key already in the map. */
  function Put(s: State, key: Key, b: seq<real>): State {
    s.(hits := s.hits[key := b])
  }

  lemma PutTwice(s: State, key: Key, a: seq<real>, b: seq<real>)
    ensures Put(Put(s, key, a), key, b) == Put(s, key, b)
  {
    assert s.hits[key := a][key := b] == s.hits[key := b];
  }

  /** What `_prune` returns. */
  function Pruned(cfg: Config, s: State, key: Key, now: real): seq<real> {
    Prune(if key in s.hits then s.hits[key] else [], now - cfg.window)
  }

  function Evict(cfg: Config, s: State): State {
    Pop(s, Elements(Victims(cfg, s)))
  }

  function Check(cfg: Config, s: State, key: Key, now: real): Checked
    requires cfg.Valid()
  {
    var b := Pruned(cfg, s, key, now);
    if |b| >= cfg.limit then
      var wait := b[0] + cfg.window - now;
      Checked(Put(Touch(s, key), key, b), Refused(if wait > 0.0 then wait else 0.0), [])
    else
      var s2 := Put(Touch(s, key), key, b + [now]);
      Checked(Evict(cfg, s2), Allowed, Victims(cfg, s2))
  }

  lemma EvictKeepsKeys(cfg: Config, s: State)
    requires WellKeyed(s)
    ensures WellKeyed(Evict(cfg, s))
  {
    PopKeepsKeys(s, Elements(Victims(cfg, s)));
  }

  lemma CheckKeepsKeys(cfg: Config, s: State, key: Key, now: real)
    requires cfg.Valid() && WellKeyed(s)
    ensures WellKeyed(Check(cfg, s, key, now).next)
  {
    var b := Pruned(cfg, s, key, now);
    if |b| >= cfg.limit {
      TouchKeepsKeys(s, key, b);
    } else {
      TouchKeepsKeys(s, key, b + [now]);
      EvictKeepsKeys(cfg, Put(Touch(s, key), key, b + [now]));
    }
  }

  /** The limiter object: `_hits` as a dictionary with its insertion order. */
  class RateLimiter {
    const cfg: Config
    var order: seq<Key>
    var hits: map<Key, seq<real>>

    constructor (cfg: Config)
      requires cfg.Valid()
      ensures this.cfg == cfg && View() == State([], map[])
    {
      this.cfg := cfg;
      order, hits := [], map[];
    }

    ghost function View(): State
      reads this
    {
      State(order, hits)
    }

    method PruneKey(key: Key, now: real) returns (bucket: seq<real>)
      modifies this
      ensures bucket == Pruned(cfg, old(View()), key, now)
      ensures View() == Put(Touch(old(View()), key), key, bucket)
    {
      if key !in hits {
        order := order + [key];
        hits := hits[key := []];
      }
      bucket := hits[key];
      var cutoff := now - cfg.window;
      while bucket != [] && bucket[0] <= cutoff
        invariant Prune(bucket, cutoff) == Prune(hits[key], cutoff)
        decreases |bucket|
      {
        bucket := bucket[1..];
      }
      hits := hits[key := bucket];
    }

    method PopKey(key: Key)
      modifies this
      ensures View() == Pop(old(View()), {key})
    {
      order, hits := Without(order, {key}), hits - {key};
    }

    method EvictIfNeeded()
      modifies this
      ensures View() == Evict(cfg, old(View()))
    {
      ghost var s := View();
      PopNone(s);
      if |hits| <= cfg.maxKeys {
        return;
      }
      var victims := Slice(ByLength(order, hits), cfg.maxKeys / 4);
      for i := 0 to |victims|
        invariant View() == Pop(s, Elements(victims[..i]))
      {
        PopNext(s, victims, i);
        PopKey(victims[i]);
      }
      assert victims[..|victims|] == victims;
    }

    /** `bucket.append(now)` on the bucket just pruned. */
    method Append(key: Key, bucket: seq<real>, now: real)
      requires key in hits && hits[key] == bucket
      modifies this`hits
      ensures View() == Put(old(View()), key, bucket + [now])
    {
      hits := hits[key := bucket + [now]];
    }

    /** `check`: the verdict, and the dictionary after it. */
    method CheckKey(key: Key, now: real) returns (verdict: Verdict)
      requires cfg.Valid()
      modifies this
      ensures View() == Check(cfg, old(View()), key, now).next
      ensures verdict == Check(cfg, old(View()), key, now).verdict
    {
      ghost var s := View();
      var bucket := PruneKey(key, now);
      PutTwice(Touch(s, key), key, bucket, bucket + [now]);
      if |bucket| >= cfg.limit {
        var wait := bucket[0] + cfg.window - now;
        verdict := Refused(if wait > 0.0 then wait else 0.0);
      } else {
        Append(key, bucket, now);
        EvictIfNeeded();
        verdict := Allowed;
      }
    }

    method Reset()
      modifies this
      ensures View() == State([], map[])
    {
      order, hits := [], map[];
    }
  }

  /** Construction is refused exactly for a limit below one or a window that is not positive. */
  method NewLimiter(cfg: Config) returns (limiter: Option<RateLimiter>)
    ensures limiter.None? <==> cfg.limit < 1 || cfg.window <= 0.0
    ensures limiter.Some? ==>
              fresh(limiter.value) && limiter.value.cfg == cfg && limiter.value.View() == State([], map[])
  {
    if cfg.limit < 1 {
      return None;
    }
    if cfg.window <= 0.0 {
      return None;
    }
    var r := new RateLimiter(cfg);
    limiter := Some(r);
  }
}
