/**
 The insertion order the limiter's dictionary keeps: who has been in the map longest. Eviction takes the
 earlier of two equally empty buckets, so the order decides who goes.
 */
module LimiterOrder {
  import opened Basics
  import opened RateLimit
  import opened LimiterRuns

  /** The entry that brought the key into the map: its first since it was last dropped. */
  ghost function Since(tr: seq<Entry>, k: Key): Option<nat> {
    if tr == [] then None
    else
      var n := |tr| - 1;
      var before := Since(tr[..n], k);
      if tr[n].key != k then before
      else if tr[n].Dropped? then None
      else if before.Some? then before
      else Some(n)
  }

  /** The map has exactly the keys not dropped since, in the order they came in. */
  ghost predicate Seniority(s: Sys) {
    && (forall k :: k in s.st.order <==> Since(s.trace, k).Some?)
    && Rising(s.trace, s.st.order)
  }

  ghost predicate Rising(tr: seq<Entry>, keys: seq<Key>) {
    forall i, j :: 0 <= i < j < |keys| ==> Earlier(Since(tr, keys[i]), Since(tr, keys[j]))
  }

  ghost predicate Earlier(a: Option<nat>, b: Option<nat>) {
    a.Some? && b.Some? ==> a.value < b.value
  }

  lemma SinceSnoc(tr: seq<Entry>, e: Entry, k: Key)
    ensures Since(tr + [e], k) ==
              if e.key != k then Since(tr, k)
              else if e.Dropped? then None
              else if Since(tr, k).Some? then Since(tr, k)
              else Some(|tr|)
  {
    assert (tr + [e])[..|tr|] == tr;
  }

  lemma {:induction false} SinceDrops(tr: seq<Entry>, keys: seq<Key>, t: real, k: Key)
    ensures Since(tr + Drops(keys, t), k) == if k in keys then None else Since(tr, k)
  {
    if keys == [] {
      assert tr + [] == tr;
    } else {
      var n := |keys| - 1;
      DropsSnoc(tr, keys, t);
      KeysSnoc(keys, k);
      SinceDrops(tr, keys[..n], t, k);
      SinceSnoc(tr + Drops(keys[..n], t), Dropped(keys[n], t), k);
    }
  }

  lemma {:induction false} SinceIsPast(tr: seq<Entry>, k: Key)
    ensures Since(tr, k).Some? ==> Since(tr, k).value < |tr|
  {
    if tr != [] {
      SinceIsPast(tr[..|tr| - 1], k);
    }
  }

  lemma {:induction false} WithoutMembers(order: seq<Key>, gone: set<Key>)
    ensures forall k :: k in Without(order, gone) <==> k in order && k !in gone
  {
    if order != [] {
      WithoutMembers(order[1..], gone);
      assert order == [order[0]] + order[1..];
    }
  }

  lemma RisingRest(tr: seq<Entry>, keys: seq<Key>)
    requires keys != [] && Rising(tr, keys)
    ensures Rising(tr, keys[1..]) && forall k :: k in keys[1..] ==> Earlier(Since(tr, keys[0]), Since(tr, k))
  {
    forall k | k in keys[1..] ensures Earlier(Since(tr, keys[0]), Since(tr, k)) {
      var j :| 0 <= j < |keys[1..]| && keys[1..][j] == k;
      assert keys[j + 1] == k;
    }
  }

  lemma RisingFirst(tr: seq<Entry>, k: Key, rest: seq<Key>)
    requires Rising(tr, rest) && forall j :: j in rest ==> Earlier(Since(tr, k), Since(tr, j))
    ensures Rising(tr, [k] + rest)
  {
    assert forall j :: 0 <= j < |rest| ==> rest[j] in rest;
  }

  lemma {:induction false} WithoutRises(tr: seq<Entry>, order: seq<Key>, gone: set<Key>)
    requires Rising(tr, order)
    ensures Rising(tr, Without(order, gone))
  {
    if order != [] {
      RisingRest(tr, order);
      WithoutRises(tr, order[1..], gone);
      WithoutMembers(order[1..], gone);
      if order[0] !in gone {
        RisingFirst(tr, order[0], Without(order[1..], gone));
      }
    }
  }

  /** The key of an attempt comes in last, unless it is there already. */
  lemma TouchRises(s: Sys, k: Key, e: Entry)
    requires Seniority(s) && WellKeyed(s.st) && e.key == k && !e.Dropped?
    ensures
      var order := Touch(s.st, k).order;
      && Rising(s.trace + [e], order)
      && forall j :: j in order <==> Since(s.trace + [e], j).Some?
  {
    var order, tr := Touch(s.st, k).order, s.trace + [e];
    forall j ensures Since(tr, j) == if j == k && Since(s.trace, k).None? then Some(|s.trace|) else Since(s.trace, j) {
      SinceSnoc(s.trace, e, j);
    }
    forall i, j | 0 <= i < j < |order| ensures Earlier(Since(tr, order[i]), Since(tr, order[j])) {
      SinceIsPast(s.trace, order[i]);
    }
  }

  /** Keys with the same past stay in the same order. */
  lemma RisingSame(a: seq<Entry>, b: seq<Entry>, keys: seq<Key>)
    requires Rising(a, keys) && forall k :: k in keys ==> Since(a, k) == Since(b, k)
    ensures Rising(b, keys)
  {
    forall i, j | 0 <= i < j < |keys| ensures Earlier(Since(b, keys[i]), Since(b, keys[j])) {
      assert keys[i] in keys && keys[j] in keys;
    }
  }

  lemma PopRises(tr: seq<Entry>, order: seq<Key>, gone: seq<Key>, t: real)
    requires Rising(tr, order) && forall k :: k in order <==> Since(tr, k).Some?
    ensures
      var order', tr' := Without(order, Elements(gone)), tr + Drops(gone, t);
      Rising(tr', order') && forall k :: k in order' <==> Since(tr', k).Some?
  {
    var order', tr' := Without(order, Elements(gone)), tr + Drops(gone, t);
    forall k ensures Since(tr', k) == if k in gone then None else Since(tr, k) {
      SinceDrops(tr, gone, t, k);
    }
    WithoutRises(tr, order, Elements(gone));
    WithoutMembers(order, Elements(gone));
    RisingSame(tr, tr', order');
  }

  lemma CheckOrder(cfg: Config, s: State, k: Key, t: real)
    requires cfg.Valid()
    ensures
      var c := Check(cfg, s, k, t);
      c.next.order == Without(Touch(s, k).order, Elements(c.dropped))
  {
    WithoutNone(Touch(s, k).order);
  }

  lemma {:induction false} WithoutNone(order: seq<Key>)
    ensures Without(order, Elements([])) == order
  {
    if order != [] {
      WithoutNone(order[1..]);
    }
  }

  lemma StepSeniority(s: Sys, e: Event)
    requires Inv(s) && Seniority(s) && s.clock <= e.time
    ensures Seniority(Step(s, e))
  {
    match e
    case Attempt(k, t) =>
      var c := Check(s.cfg, s.st, k, t);
      var entry := VerdictEntry(k, t, c.verdict);
      TouchRises(s, k, entry);
      CheckOrder(s.cfg, s.st, k, t);
      PopRises(s.trace + [entry], Touch(s.st, k).order, c.dropped, t);
    case Clear(t) =>
      forall k ensures Since(Step(s, e).trace, k).None? {
        SinceDrops(s.trace, s.st.order, t, k);
      }
  }

  lemma {:induction false} RunSeniority(s: Sys, es: seq<Event>)
    requires Inv(s) && Seniority(s) && ValidRun(s, es)
    ensures Seniority(Exec(s, es))
    decreases |es|
  {
    if es != [] {
      StepSeniority(s, es[0]);
      StepKeepsInv(s, es[0]);
      RunSeniority(Step(s, es[0]), es[1..]);
    }
  }

  /** In every run the map has exactly the keys that tried since they were last dropped, and lists them by
      how long they have been in it. */
  lemma OrderIsSeniority(cfg: Config, now: real, es: seq<Event>)
    requires cfg.Valid() && ValidRun(Start(cfg, now), es)
    ensures Seniority(Exec(Start(cfg, now), es))
  {
    ReachableInv(cfg, now, []);
    assert Exec(Start(cfg, now), []) == Start(cfg, now);
    RunSeniority(Start(cfg, now), es);
  }
}
