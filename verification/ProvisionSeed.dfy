/**
 What seeding leaves behind, over any number of runs. A POST retried after a timeout may add its item more
 than once, so a row can be there twice; rows never come out of order, and a list that is no longer empty
 is never seeded again.
 */
module ProvisionSeeding {
  import opened Basics
  import opened Provisioning
  import C = ProvisionConvergence

  /** The first of `rows`, in order, each of them one to three times. */
  ghost predicate Stuttered(items: seq<Item>, rows: seq<Item>)
    decreases |rows|
  {
    items == [] || (rows != [] && exists n: nat :: Repeated(items, rows, n))
  }

  ghost predicate Repeated(items: seq<Item>, rows: seq<Item>, n: nat)
    requires rows != []
    decreases |rows|, 0
  {
    1 <= n <= 3 && n <= |items| && items[..n] == Repeat(rows[0], n) && Stuttered(items[n..], rows[1..])
  }

  /** No POST of an item takes effect twice. */
  ghost predicate NoRepeats(env: Env) {
    forall n :: env.fates(n).Copies() <= 1
  }

  lemma {:induction false} RepeatLength(x: Item, n: nat)
    ensures |Repeat(x, n)| == n
  {
    if n > 0 {
      RepeatLength(x, n - 1);
    }
  }

  lemma StutterOn(x: Item, n: nat, rest: seq<Item>, rows: seq<Item>)
    requires rows != [] && rows[0] == x && 1 <= n <= 3 && Stuttered(rest, rows[1..])
    ensures Stuttered(Repeat(x, n) + rest, rows)
  {
    RepeatLength(x, n);
    var items := Repeat(x, n) + rest;
    assert items[..n] == Repeat(x, n) && items[n..] == rest;
    assert Repeated(items, rows, n);
  }

  /** The items the seed loop adds. */
  lemma {:induction false} SeedAdds(env: Env, r: Run, spec: ListSpec, rows: seq<Item>,
                                    id: nat) returns (added: seq<Item>)
    requires id < |r.site|
    ensures SeedRows(env, r, spec, rows, id).site[id].items == r.site[id].items + added
    ensures Stuttered(added, rows) && (NoRepeats(env) ==> added <= rows)
    decreases |rows|
  {
    added := [];
    if rows == [] {
      assert r.site[id].items + [] == r.site[id].items;
    } else {
      var n := env.fates(r.sent).Copies();
      var rest := [];
      if env.fates(r.sent).Seen() {
        rest := SeedAdds(env, PostItem(env, r, id, rows[0]), spec, rows[1..], id);
      }
      added := Repeat(rows[0], n) + rest;
      AddedItems(env, r, spec, rows, id, rest);
      OneRowAdded(n, rest, rows);
    }
  }

  lemma AddedItems(env: Env, r: Run, spec: ListSpec, rows: seq<Item>, id: nat, rest: seq<Item>)
    requires id < |r.site| && rows != []
    requires
      var p := PostItem(env, r, id, rows[0]);
      if env.fates(r.sent).Seen()
      then SeedRows(env, p, spec, rows[1..], id).site[id].items == p.site[id].items + rest
      else rest == []
    ensures SeedRows(env, r, spec, rows, id).site[id].items
              == r.site[id].items + (Repeat(rows[0], env.fates(r.sent).Copies()) + rest)
  {
    var p := PostItem(env, r, id, rows[0]);
    assert p.site[id].items == r.site[id].items + Repeat(rows[0], env.fates(r.sent).Copies());
    assert p.site[id].items + [] == p.site[id].items;
  }

  /** A row added `n` times, and then what was added after it. */
  lemma OneRowAdded(n: nat, rest: seq<Item>, rows: seq<Item>)
    requires rows != [] && n <= 3 && Stuttered(rest, rows[1..]) && (n == 0 ==> rest == [])
    ensures Stuttered(Repeat(rows[0], n) + rest, rows)
    ensures n <= 1 && rest <= rows[1..] ==> Repeat(rows[0], n) + rest <= rows
  {
    if n > 0 {
      StutterOn(rows[0], n, rest, rows);
    }
    assert Repeat(rows[0], 1) == [rows[0]] + Repeat(rows[0], 0) == [rows[0]];
  }

  function Items(site: seq<SPList>, i: nat): seq<Item> {
    if i < |site| then site[i].items else []
  }

  /** List `i` holds seed rows of a spec that finds it, without a repetition if `once`. */
  ghost predicate Seeded(fold: string -> string, site: seq<SPList>, s: ListSpec, i: nat, once: bool) {
    && Find(fold, site, s.displayName) == Some(i)
    && Stuttered(Items(site, i), s.seedRows)
    && (once ==> Items(site, i) <= s.seedRows)
  }

  /** What may have become of a list's items: nothing, or it was empty and one of the specs has seeded it. */
  ghost predicate SeededFrom(fold: string -> string, before: seq<Item>, site: seq<SPList>, i: nat,
                             specs: seq<ListSpec>, once: bool)
  {
    || Items(site, i) == before
    || (before == [] && exists s :: s in specs && Seeded(fold, site, s, i, once))
  }

  lemma SeededTransitive(fold: string -> string, before: seq<Item>, mid: seq<SPList>, end: seq<SPList>, i: nat,
                         some: seq<ListSpec>, more: seq<ListSpec>, specs: seq<ListSpec>, once: bool)
    requires SeededFrom(fold, before, mid, i, some, once) && SeededFrom(fold, Items(mid, i), end, i, more, once)
    requires Grows(mid, end) && forall s :: s in some || s in more ==> s in specs
    ensures SeededFrom(fold, before, end, i, specs, once)
  {
    if Items(end, i) == Items(mid, i) && Items(mid, i) != before {
      var s :| s in some && Seeded(fold, mid, s, i, once);
      FindStable(fold, mid, end, s.displayName);
      assert Seeded(fold, end, s, i, once);
    }
  }

  lemma MaybeSeedItems(env: Env, r: Run, spec: ListSpec, id: nat, i: nat, once: bool)
    requires Find(env.fold, r.site, spec.displayName) == Some(id) && (once ==> NoRepeats(env))
    ensures SeededFrom(env.fold, Items(r.site, i), MaybeSeed(env, r, spec, id).site, i, [spec], once)
  {
    if env.seed && !Read(env, r).aborted && r.site[id].items == [] {
      var added := SeedAdds(env, Read(env, r), spec, spec.seedRows, id);
      SeedGrows(env, Read(env, r), spec, spec.seedRows, id);
      assert [] + added == added;
      var after := MaybeSeed(env, r, spec, id).site;
      FindStable(env.fold, r.site, after, spec.displayName);
      assert i == id ==> Seeded(env.fold, after, spec, i, once);
    }
  }

  lemma EnsureListItems(env: Env, r: Run, spec: ListSpec, i: nat, once: bool)
    requires once ==> NoRepeats(env)
    ensures SeededFrom(env.fold, Items(r.site, i), EnsureList(env, r, spec).site, i, [spec], once)
  {
    FindOrCreateFacts(env, r, spec);
    var f := FindOrCreate(env, r, spec);
    assert Items(f.0.site, i) == Items(r.site, i);
    if !f.0.aborted {
      var looked := Read(env, f.0.(listIds := f.0.listIds[spec.displayName := f.1]));
      if !looked.aborted {
        FoundItems(env, looked, spec, f.1, i, once);
      }
    }
  }

  lemma FoundItems(env: Env, r: Run, spec: ListSpec, id: nat, i: nat, once: bool)
    requires Find(env.fold, r.site, spec.displayName) == Some(id) && (once ==> NoRepeats(env))
    ensures
      var c := EnsureColumns(env, r, spec.displayName, spec.columns, id, Present(env.fold, r.site[id].columns));
      SeededFrom(env.fold, Items(r.site, i), MaybeSeed(env, c, spec, id).site, i, [spec], once)
  {
    var present := Present(env.fold, r.site[id].columns);
    var c := EnsureColumns(env, r, spec.displayName, spec.columns, id, present);
    ColumnsGrow(env, r, spec.displayName, spec.columns, id, present);
    FindStable(env.fold, r.site, c.site, spec.displayName);
    MaybeSeedItems(env, c, spec, id, i, once);
  }

  lemma {:induction false} RunItems(env: Env, site: seq<SPList>, specs: seq<ListSpec>, i: nat, once: bool)
    requires once ==> NoRepeats(env)
    ensures SeededFrom(env.fold, Items(site, i), Provision(env, site, specs).site, i, specs, once)
  {
    if specs != [] {
      var n := |specs| - 1;
      var before := Provision(env, site, specs[..n]);
      RunItems(env, site, specs[..n], i, once);
      if before.aborted {
        assert forall s :: s in specs[..n] ==> s in specs;
      } else {
        EnsureListItems(env, before, specs[n], i, once);
        EnsureListGrows(env, before, specs[n]);
        SeededTransitive(env.fold, Items(site, i), before.site, EnsureList(env, before, specs[n]).site, i,
                         specs[..n], [specs[n]], specs, once);
      }
    }
  }

  lemma {:induction false} RunsGrow(runs: seq<Env>, site: seq<SPList>, specs: seq<ListSpec>)
    ensures Grows(site, C.ProvisionAll(runs, site, specs))
    decreases |runs|
  {
    if runs != [] {
      CreatesOnly(runs[0], site, specs);
      RunsGrow(runs[1..], Provision(runs[0], site, specs).site, specs);
      GrowsTransitive(site, Provision(runs[0], site, specs).site, C.ProvisionAll(runs, site, specs));
    }
  }

  /** After any number of runs, whatever failed, a list has the items it had, or it had none and holds the
      first seed rows, in order, of a spec that finds it: each once if no POST took effect twice, and never
      more than three times. */
  lemma {:induction false} SeededOnce(fold: string -> string, runs: seq<Env>, site: seq<SPList>, specs: seq<ListSpec>,
                                      i: nat, once: bool)
    requires forall env :: env in runs ==> env.fold == fold && (once ==> NoRepeats(env))
    ensures SeededFrom(fold, Items(site, i), C.ProvisionAll(runs, site, specs), i, specs, once)
    decreases |runs|
  {
    if runs != [] {
      assert runs[0] in runs;
      var mid := Provision(runs[0], site, specs).site;
      RunItems(runs[0], site, specs, i, once);
      SeededOnce(fold, runs[1..], mid, specs, i, once);
      RunsGrow(runs[1..], mid, specs);
      SeededTransitive(fold, Items(site, i), mid, C.ProvisionAll(runs[1..], mid, specs), i, specs, specs, specs, once);
    }
  }
}
