/**
 Exactly when seeding can leave a row twice: for one pass of the seed loop, in terms of what its POSTs did;
 and for a whole run, in terms of the site and the specs before it.
 */
module SeedingExactness {
  import opened Basics
  import opened Provisioning
  import opened ProvisionSeeding
  import O = ProvisionObjects

  predicate Distinct(rows: seq<Item>) {
    forall i, j :: 0 <= i < j < |rows| ==> rows[i] != rows[j]
  }

  // ---------------------------------------------------------------- one pass of the seed loop

  lemma {:induction false} SeedSent(env: Env, r: Run, spec: ListSpec, rows: seq<Item>, id: nat)
    requires id < |r.site|
    ensures r.sent <= SeedRows(env, r, spec, rows, id).sent
    ensures rows != [] ==> r.sent < SeedRows(env, r, spec, rows, id).sent
    decreases |rows|
  {
    if rows != [] {
      SeedSent(env, PostItem(env, r, id, rows[0]), spec, rows[1..], id);
    }
  }

  lemma RepeatSmall(x: Item)
    ensures Repeat(x, 0) == [] && Repeat(x, 1) == [x] && Repeat(x, 2) == [x, x] && Repeat(x, 3) == [x, x, x]
  {
    assert Repeat(x, 1) == [x] + Repeat(x, 0);
    assert Repeat(x, 2) == [x] + Repeat(x, 1);
    assert Repeat(x, 3) == [x] + Repeat(x, 2);
  }

  /** A row twice in a row does not begin any list of distinct rows. */
  lemma TwiceIsNoPrefix(before: seq<Item>, x: Item, items: seq<Item>, rows: seq<Item>)
    requires Distinct(rows) && before + [x, x] <= items
    ensures !(items <= before + rows)
  {
    var n := |before|;
    assert items[n] == (before + [x, x])[n] == x && items[n + 1] == (before + [x, x])[n + 1] == x;
    assert forall i :: n <= i < |before + rows| ==> (before + rows)[i] == rows[i - n];
  }

  lemma FirstRowRepeated(env: Env, r: Run, spec: ListSpec, rows: seq<Item>, id: nat)
    requires id < |r.site| && rows != [] && Distinct(rows) && env.fates(r.sent).Copies() >= 2
    ensures !(SeedRows(env, r, spec, rows, id).site[id].items <= r.site[id].items + rows)
  {
    var x, p, r' := rows[0], PostItem(env, r, id, rows[0]), SeedRows(env, r, spec, rows, id);
    RepeatSmall(x);
    SeedGrows(env, p, spec, rows[1..], id);
    var before := r.site[id].items;
    assert p.site[id].items == before + Repeat(x, env.fates(r.sent).Copies());
    assert before + [x, x] <= p.site[id].items <= r'.site[id].items;
    TwiceIsNoPrefix(before, x, r'.site[id].items, rows);
  }

  lemma SeedNextRow(env: Env, r: Run, spec: ListSpec, rows: seq<Item>, id: nat)
    requires id < |r.site| && rows != []
    ensures SeedRows(env, r, spec, rows, id) ==
            if env.fates(r.sent).Seen() then SeedRows(env, PostItem(env, r, id, rows[0]), spec, rows[1..], id)
            else Add(PostItem(env, r, id, rows[0]), FAILED, SeedRowTarget(rows[0]))
  {}

  /** No request from the `a`-th up to the `b`-th took effect more than once. */
  ghost predicate OnceEach(env: Env, a: nat, b: nat) {
    forall n :: a <= n < b ==> env.fates(n).Copies() <= 1
  }

  lemma OnePosted(env: Env, r: Run, id: nat, rows: seq<Item>)
    requires id < |r.site| && rows != []
    ensures
      var p, n := PostItem(env, r, id, rows[0]), env.fates(r.sent).Copies();
      && p.sent == r.sent + 1
      && (n == 0 ==> p.site[id].items == r.site[id].items)
      && (n == 1 ==> p.site[id].items == r.site[id].items + [rows[0]])
      && (n == 1 ==> p.site[id].items + rows[1..] == r.site[id].items + rows)
  {
    RepeatSmall(rows[0]);
    assert rows == [rows[0]] + rows[1..];
    assert r.site[id].items + [] == r.site[id].items;
  }

  /** With distinct seed rows, what the loop leaves is a beginning of them if and only if none of the POSTs
      it sent took effect more than once. */
  lemma {:induction false} SeedExactly(env: Env, r: Run, spec: ListSpec, rows: seq<Item>, id: nat)
    requires id < |r.site| && Distinct(rows)
    ensures
      var r' := SeedRows(env, r, spec, rows, id);
      r'.site[id].items <= r.site[id].items + rows <==> OnceEach(env, r.sent, r'.sent)
    decreases |rows|
  {
    SeedSent(env, r, spec, rows, id);
    if rows == [] {
      assert r.site[id].items + [] == r.site[id].items;
    } else if env.fates(r.sent).Copies() >= 2 {
      FirstRowRepeated(env, r, spec, rows, id);
    } else {
      OnePosted(env, r, id, rows);
      SeedNextRow(env, r, spec, rows, id);
      if env.fates(r.sent).Seen() {
        SeedExactly(env, PostItem(env, r, id, rows[0]), spec, rows[1..], id);
      } else {
        StopsShort(r.site[id].items, rows);
      }
    }
  }

  lemma StopsShort(before: seq<Item>, rows: seq<Item>)
    requires rows != []
    ensures before <= before + rows && before + [rows[0]] <= before + rows
  {}

  // ---------------------------------------------------------------- what requests not yet sent decide

  /** The two differ only in how requests from the `k`-th on fare. */
  ghost predicate SameUntil(a: Env, b: Env, k: nat) {
    && a.fold == b.fold && a.defaults == b.defaults && a.seed == b.seed
    && forall n :: 0 <= n < k ==> a.fates(n) == b.fates(n)
  }

  lemma {:induction false} ColumnsSent(env: Env, r: Run, list: string, columns: seq<ColumnSpec>, id: nat,
                                       present: set<string>)
    requires id < |r.site|
    ensures r.sent <= EnsureColumns(env, r, list, columns, id, present).sent
  {
    if columns != [] {
      ColumnsSent(env, r, list, columns[..|columns| - 1], id, present);
    }
  }

  lemma {:induction false} SameColumns(a: Env, b: Env, k: nat, r: Run, list: string, columns: seq<ColumnSpec>, id: nat,
                                       present: set<string>)
    requires id < |r.site| && SameUntil(a, b, k) && EnsureColumns(a, r, list, columns, id, present).sent <= k
    ensures EnsureColumns(b, r, list, columns, id, present) == EnsureColumns(a, r, list, columns, id, present)
  {
    if columns != [] {
      SameColumns(a, b, k, r, list, columns[..|columns| - 1], id, present);
    }
  }

  lemma {:induction false} SameSeeds(a: Env, b: Env, k: nat, r: Run, spec: ListSpec, rows: seq<Item>, id: nat)
    requires id < |r.site| && SameUntil(a, b, k) && SeedRows(a, r, spec, rows, id).sent <= k
    ensures SeedRows(b, r, spec, rows, id) == SeedRows(a, r, spec, rows, id)
    decreases |rows|
  {
    if rows != [] {
      SeedSent(a, r, spec, rows, id);
      SameSeedsStep(a, b, k, r, spec, rows, id);
    }
  }

  lemma {:induction false} SameSeedsStep(a: Env, b: Env, k: nat, r: Run, spec: ListSpec, rows: seq<Item>, id: nat)
    requires id < |r.site| && SameUntil(a, b, k) && SeedRows(a, r, spec, rows, id).sent <= k
    requires rows != [] && r.sent < k
    ensures SeedRows(b, r, spec, rows, id) == SeedRows(a, r, spec, rows, id)
    decreases |rows|, 0
  {
    var p := PostItem(a, r, id, rows[0]);
    assert PostItem(b, r, id, rows[0]) == p;
    if a.fates(r.sent).Seen() {
      SameSeeds(a, b, k, p, spec, rows[1..], id);
    }
  }

  /** A run up to the moment before it would seed list `spec`: found or created, columns added, probed. */
  function ToProbe(env: Env, r: Run, spec: ListSpec): (Run, nat)
    requires !FindOrCreate(env, r, spec).0.aborted
  {
    var f := FindOrCreate(env, r, spec);
    var looked := Read(env, f.0.(listIds := f.0.listIds[spec.displayName := f.1]));
    var present := Present(env.fold, looked.site[f.1].columns);
    (EnsureColumns(env, looked, spec.displayName, spec.columns, f.1, present), f.1)
  }

  lemma ToProbeSent(env: Env, r: Run, spec: ListSpec)
    requires !FindOrCreate(env, r, spec).0.aborted
    ensures r.sent <= FindOrCreate(env, r, spec).0.sent < ToProbe(env, r, spec).0.sent
  {
    var f := FindOrCreate(env, r, spec);
    var looked := Read(env, f.0.(listIds := f.0.listIds[spec.displayName := f.1]));
    ColumnsSent(env, looked, spec.displayName, spec.columns, f.1, Present(env.fold, looked.site[f.1].columns));
  }

  lemma SameToProbe(a: Env, b: Env, k: nat, r: Run, spec: ListSpec)
    requires SameUntil(a, b, k) && !FindOrCreate(a, r, spec).0.aborted && ToProbe(a, r, spec).0.sent <= k
    ensures FindOrCreate(b, r, spec) == FindOrCreate(a, r, spec) && ToProbe(b, r, spec) == ToProbe(a, r, spec)
  {
    ToProbeSent(a, r, spec);
    var f := FindOrCreate(a, r, spec);
    assert FindOrCreate(b, r, spec) == f;
    var looked := Read(a, f.0.(listIds := f.0.listIds[spec.displayName := f.1]));
    SameColumns(a, b, k, looked, spec.displayName, spec.columns, f.1, Present(a.fold, looked.site[f.1].columns));
  }

  lemma SeedingSent(env: Env, r: Run, spec: ListSpec, id: nat)
    requires id < |r.site|
    ensures r.sent <= MaybeSeed(env, r, spec, id).sent
  {
    SeedSent(env, Read(env, r), spec, spec.seedRows, id);
  }

  lemma SameSeeding(a: Env, b: Env, k: nat, r: Run, spec: ListSpec, id: nat)
    requires id < |r.site| && SameUntil(a, b, k) && MaybeSeed(a, r, spec, id).sent <= k
    ensures MaybeSeed(b, r, spec, id) == MaybeSeed(a, r, spec, id)
  {
    if a.seed {
      SeedSent(a, Read(a, r), spec, spec.seedRows, id);
      assert Read(b, r) == Read(a, r);
      if !Read(a, r).aborted && r.site[id].items == [] {
        SameSeeds(a, b, k, Read(a, r), spec, spec.seedRows, id);
      }
    }
  }

  /** A turn that is not cut short ends with the seeding. */
  lemma TurnIsSeeding(env: Env, r: Run, spec: ListSpec)
    requires !FindOrCreate(env, r, spec).0.aborted && env.fates(FindOrCreate(env, r, spec).0.sent).Done?
    ensures ToProbe(env, r, spec).1 < |ToProbe(env, r, spec).0.site|
    ensures EnsureList(env, r, spec) == MaybeSeed(env, ToProbe(env, r, spec).0, spec, ToProbe(env, r, spec).1)
  {}

  lemma SameTurn(a: Env, b: Env, k: nat, r: Run, spec: ListSpec)
    requires SameUntil(a, b, k) && AllDone(a) && EnsureList(a, r, spec).sent <= k
    ensures EnsureList(b, r, spec) == EnsureList(a, r, spec) && r.sent <= EnsureList(a, r, spec).sent
  {
    TurnIsSeeding(a, r, spec);
    var t := ToProbe(a, r, spec);
    SeedingSent(a, t.0, spec, t.1);
    ToProbeSent(a, r, spec);
    SameToProbe(a, b, k, r, spec);
    SameSeeding(a, b, k, t.0, spec, t.1);
    TurnIsSeeding(b, r, spec);
  }

  lemma {:induction false} SameRun(a: Env, b: Env, k: nat, site: seq<SPList>, specs: seq<ListSpec>)
    requires SameUntil(a, b, k) && AllDone(a) && Provision(a, site, specs).sent <= k
    ensures Provision(b, site, specs) == Provision(a, site, specs)
  {
    if specs != [] {
      var n := |specs| - 1;
      CleanRunSucceeds(a, site, specs[..n]);
      var before := Provision(a, site, specs[..n]);
      SameTurn(a, b, k, before, specs[n]);
      SameRun(a, b, k, site, specs[..n]);
    }
  }

  // ---------------------------------------------------------------- a run that sends no item

  /** The spec has nothing to seed, or finds a list that has items. */
  predicate Filled(fold: string -> string, site: seq<SPList>, s: ListSpec) {
    || s.seedRows == []
    || (var found := Find(fold, site, s.displayName); found.Some? && site[found.value].items != [])
  }

  ghost predicate NothingToSeed(fold: string -> string, seed: bool, site: seq<SPList>, specs: seq<ListSpec>) {
    !seed || forall s :: s in specs ==> Filled(fold, site, s)
  }

  lemma FilledStays(fold: string -> string, a: seq<SPList>, b: seq<SPList>, s: ListSpec)
    requires Grows(a, b) && Filled(fold, a, s)
    ensures Filled(fold, b, s)
  {
    if s.seedRows != [] {
      FindStable(fold, a, b, s.displayName);
      assert ListGrows(a[Find(fold, a, s.displayName).value], b[Find(fold, a, s.displayName).value]);
    }
  }

  lemma QuietTurn(env: Env, r: Run, spec: ListSpec, i: nat)
    requires env.seed ==> Filled(env.fold, r.site, spec)
    ensures Items(EnsureList(env, r, spec).site, i) == Items(r.site, i)
  {
    FindOrCreateFacts(env, r, spec);
    var f := FindOrCreate(env, r, spec);
    assert Items(f.0.site, i) == Items(r.site, i);
    if !f.0.aborted && env.fates(f.0.sent).Done? {
      TurnIsSeeding(env, r, spec);
      var looked := Read(env, f.0.(listIds := f.0.listIds[spec.displayName := f.1]));
      ColumnsGrow(env, looked, spec.displayName, spec.columns, f.1, Present(env.fold, looked.site[f.1].columns));
      var c := ToProbe(env, r, spec).0;
      GrowsTransitive(r.site, f.0.site, c.site);
      if env.seed {
        FilledStays(env.fold, r.site, c.site, spec);
        FindStable(env.fold, f.0.site, c.site, spec.displayName);
      }
      QuietSeeding(env, c, spec, f.1, i);
    }
  }

  lemma QuietSeeding(env: Env, r: Run, spec: ListSpec, id: nat, i: nat)
    requires id < |r.site| && (env.seed ==> spec.seedRows == [] || r.site[id].items != [])
    ensures Items(MaybeSeed(env, r, spec, id).site, i) == Items(r.site, i)
  {}

  /** Then no list's items change, however the requests fare. */
  lemma {:induction false} QuietRun(env: Env, site: seq<SPList>, specs: seq<ListSpec>, i: nat)
    requires NothingToSeed(env.fold, env.seed, site, specs)
    ensures Items(Provision(env, site, specs).site, i) == Items(site, i)
  {
    if specs != [] {
      var n := |specs| - 1;
      var before := Provision(env, site, specs[..n]);
      assert forall s :: s in specs[..n] ==> s in specs;
      QuietRun(env, site, specs[..n], i);
      if !before.aborted {
        CreatesOnly(env, site, specs[..n]);
        if env.seed {
          assert specs[n] in specs;
          FilledStays(env.fold, site, before.site, specs[n]);
        }
        QuietTurn(env, before, specs[n], i);
      }
    }
  }

  // ---------------------------------------------------------------- a run that repeats a row

  function CleanFate(n: nat): Fate {
    Done
  }

  /** Every request succeeds, but the `k`-th POST was retried after it had taken effect. */
  function TwiceAt(k: nat): nat -> Fate {
    n => if n == k then Twice(true) else Done
  }

  lemma {:induction false} SeedAllDone(env: Env, r: Run, spec: ListSpec, rows: seq<Item>, id: nat)
    requires id < |r.site| && DoneFrom(env, r.sent)
    ensures SeedRows(env, r, spec, rows, id).site[id].items == r.site[id].items + rows
    decreases |rows|
  {
    if rows == [] {
      assert r.site[id].items + [] == r.site[id].items;
    } else {
      OnePosted(env, r, id, rows);
      SeedNextRow(env, r, spec, rows, id);
      SeedAllDone(env, PostItem(env, r, id, rows[0]), spec, rows[1..], id);
    }
  }

  /** The seed loop on an empty list, its first POST taking effect twice. */
  lemma FirstTwice(env: Env, r: Run, spec: ListSpec, id: nat)
    requires id < |r.site| && r.site[id].items == [] && spec.seedRows != [] && NoFailure(r)
    requires env.fates == TwiceAt(r.sent)
    ensures
      var r' := SeedRows(env, r, spec, spec.seedRows, id);
      r'.site[id].items == [spec.seedRows[0]] + spec.seedRows && NoFailure(r') && r.sent < r'.sent
      && |r'.site| == |r.site| && r'.aborted == r.aborted
  {
    var rows := spec.seedRows;
    var p := PostItem(env, r, id, rows[0]);
    SeedNextRow(env, r, spec, rows, id);
    TwoPosted(env, r, id, rows);
    SeedAllDone(env, p, spec, rows[1..], id);
    SeedSucceeds(env, p, spec, rows[1..], id);
  }

  lemma TwoPosted(env: Env, r: Run, id: nat, rows: seq<Item>)
    requires id < |r.site| && rows != [] && r.site[id].items == [] && env.fates(r.sent).Copies() == 2
    ensures PostItem(env, r, id, rows[0]).site[id].items + rows[1..] == [rows[0]] + rows
  {
    RepeatSmall(rows[0]);
    assert rows == [rows[0]] + rows[1..];
  }

  /** The list a spec that is not filled comes to has no items, if none have been added yet. */
  lemma EmptyAtProbe(env: Env, site: seq<SPList>, r: Run, spec: ListSpec)
    requires Grows(site, r.site) && !Filled(env.fold, site, spec) && !FindOrCreate(env, r, spec).0.aborted
    requires forall i :: Items(r.site, i) == Items(site, i)
    ensures
      var t := ToProbe(env, r, spec);
      && t.1 < |t.0.site| && t.0.site[t.1].items == [] && Items(site, t.1) == []
      && Find(env.fold, t.0.site, spec.displayName) == Some(t.1) && Grows(r.site, t.0.site)
  {
    FindOrCreateFacts(env, r, spec);
    var f := FindOrCreate(env, r, spec);
    var looked := Read(env, f.0.(listIds := f.0.listIds[spec.displayName := f.1]));
    ColumnsGrow(env, looked, spec.displayName, spec.columns, f.1, Present(env.fold, looked.site[f.1].columns));
    var t := ToProbe(env, r, spec);
    GrowsTransitive(r.site, f.0.site, t.0.site);
    FindStable(env.fold, f.0.site, t.0.site, spec.displayName);
    assert Items(f.0.site, f.1) == Items(r.site, f.1) == Items(site, f.1);
    GrowsTransitive(site, r.site, f.0.site);
    if f.1 < |site| {
      FoundBefore(env.fold, site, f.0.site, spec.displayName, f.1);
    }
  }

  lemma FoundBefore(fold: string -> string, a: seq<SPList>, b: seq<SPList>, wanted: string, i: nat)
    requires Grows(a, b) && i < |a| && Find(fold, b, wanted) == Some(i)
    ensures Find(fold, a, wanted) == Some(i)
  {
    assert ListGrows(a[i], b[i]) && Named(fold, a[i], wanted);
    forall j | 0 <= j < i ensures !Named(fold, a[j], wanted) {
      assert ListGrows(a[j], b[j]);
    }
    FoundAt(fold, a, wanted, i);
  }

  lemma NoItemsYet(env: Env, site: seq<SPList>, specs: seq<ListSpec>, j: nat)
    requires j <= |specs| && forall i :: 0 <= i < j ==> Filled(env.fold, site, specs[i])
    ensures forall i :: Items(Provision(env, site, specs[..j]).site, i) == Items(site, i)
  {
    forall i ensures Items(Provision(env, site, specs[..j]).site, i) == Items(site, i) {
      QuietRun(env, site, specs[..j], i);
    }
  }

  /** The run `r` comes to the list of a spec it has to seed, empty as it always was. */
  ghost predicate AboutToSeed(env: Env, site: seq<SPList>, r: Run, spec: ListSpec) {
    && NoFailure(r) && !r.aborted && !FindOrCreate(env, r, spec).0.aborted
    && var t := ToProbe(env, r, spec);
       && t.1 < |t.0.site| && t.0.site[t.1].items == [] && Items(site, t.1) == []
       && Find(env.fold, t.0.site, spec.displayName) == Some(t.1)
  }

  lemma CleanRunSeeds(clean: Env, site: seq<SPList>, specs: seq<ListSpec>, j: nat)
    requires AllDone(clean) && j < |specs| && !Filled(clean.fold, site, specs[j])
    requires forall i :: 0 <= i < j ==> Filled(clean.fold, site, specs[i])
    ensures AboutToSeed(clean, site, Provision(clean, site, specs[..j]), specs[j])
  {
    CleanRunSucceeds(clean, site, specs[..j]);
    CreatesOnly(clean, site, specs[..j]);
    NoItemsYet(clean, site, specs, j);
    EmptyAtProbe(clean, site, Provision(clean, site, specs[..j]), specs[j]);
  }

  lemma SameSeeder(a: Env, b: Env, site: seq<SPList>, specs: seq<ListSpec>, j: nat, k: nat)
    requires AllDone(a) && j < |specs| && SameUntil(a, b, k)
    requires AboutToSeed(a, site, Provision(a, site, specs[..j]), specs[j])
    requires ToProbe(a, Provision(a, site, specs[..j]), specs[j]).0.sent <= k
    ensures
      var r := Provision(b, site, specs[..j]);
      && r == Provision(a, site, specs[..j]) && AboutToSeed(b, site, r, specs[j])
      && ToProbe(b, r, specs[j]) == ToProbe(a, r, specs[j])
  {
    var r := Provision(a, site, specs[..j]);
    ToProbeSent(a, r, specs[j]);
    SameRun(a, b, k, site, specs[..j]);
    SameToProbe(a, b, k, r, specs[j]);
  }

  /** If `specs[j]` is the first that is not filled, some run that exits with 0 leaves its list with the
      first row twice. */
  lemma DuplicatePossible(fold: string -> string, defaults: seq<Column>, site: seq<SPList>, specs: seq<ListSpec>,
                          j: nat)
    returns (k: nat, id: nat)
    requires j < |specs| && !Filled(fold, site, specs[j])
    requires forall i :: 0 <= i < j ==> Filled(fold, site, specs[i])
    ensures
      var env := Env(fold, defaults, TwiceAt(k), true);
      HasTwice(env, site, Provision(env, site, specs), specs[j], id)
  {
    var clean := Env(fold, defaults, CleanFate, true);
    k, id := CleanProbe(clean, site, specs, j);
    var env := Env(fold, defaults, TwiceAt(k), true);
    CleanUntil(clean, k);
    SameProbe(clean, env, site, specs, j, k, id);
    ProbedTurn(env, site, Provision(clean, site, specs[..j]), specs[j], k, id);
    TurnedNext(env, site, specs, j, id);
    AfterTurn(env, site, specs, j, id);
  }

  lemma CleanProbe(clean: Env, site: seq<SPList>, specs: seq<ListSpec>, j: nat) returns (k: nat, id: nat)
    requires AllDone(clean) && j < |specs| && !Filled(clean.fold, site, specs[j])
    requires forall i :: 0 <= i < j ==> Filled(clean.fold, site, specs[i])
    ensures ProbeAt(clean, site, Provision(clean, site, specs[..j]), specs[j], k, id)
  {
    CleanRunSeeds(clean, site, specs, j);
    var t := ToProbe(clean, Provision(clean, site, specs[..j]), specs[j]);
    k, id := t.0.sent + 1, t.1;
  }

  lemma CleanUntil(clean: Env, k: nat)
    requires clean.fates == CleanFate && clean.seed
    ensures AllDone(clean) && SameUntil(clean, Env(clean.fold, clean.defaults, TwiceAt(k), true), k)
  {}

  lemma TurnedNext(env: Env, site: seq<SPList>, specs: seq<ListSpec>, j: nat, id: nat)
    requires j < |specs| && specs[j].seedRows != [] && !Provision(env, site, specs[..j]).aborted
    requires TurnedTwice(env, site, EnsureList(env, Provision(env, site, specs[..j]), specs[j]), specs[j], id)
    ensures TurnedTwice(env, site, Provision(env, site, specs[..j + 1]), specs[j], id)
  {
    TurnOf(env, site, specs, j);
  }

  /** At the moment before list `id` is seeded, `k` being the number of its first POST. */
  ghost predicate ProbeAt(env: Env, site: seq<SPList>, r: Run, spec: ListSpec, k: nat, id: nat) {
    && AboutToSeed(env, site, r, spec)
    && k == ToProbe(env, r, spec).0.sent + 1 && id == ToProbe(env, r, spec).1
  }

  lemma SameProbe(clean: Env, env: Env, site: seq<SPList>, specs: seq<ListSpec>, j: nat, k: nat, id: nat)
    requires AllDone(clean) && SameUntil(clean, env, k) && j < |specs|
    requires ProbeAt(clean, site, Provision(clean, site, specs[..j]), specs[j], k, id)
    ensures Provision(env, site, specs[..j]) == Provision(clean, site, specs[..j])
    ensures ProbeAt(env, site, Provision(clean, site, specs[..j]), specs[j], k, id)
  {
    SameSeeder(clean, env, site, specs, j, k);
  }

  lemma ProbedTurn(env: Env, site: seq<SPList>, r: Run, spec: ListSpec, k: nat, id: nat)
    requires ProbeAt(env, site, r, spec, k, id) && env.seed && spec.seedRows != [] && env.fates == TwiceAt(k)
    ensures TurnedTwice(env, site, EnsureList(env, r, spec), spec, id) && !r.aborted
  {
    SeededTwice(env, site, r, spec);
  }

  ghost predicate HasTwice(env: Env, site: seq<SPList>, r: Run, spec: ListSpec, id: nat)
    requires spec.seedRows != []
  {
    && ExitCode(r) == 0 && id < |r.site| && Find(env.fold, r.site, spec.displayName) == Some(id)
    && Items(site, id) == [] && r.site[id].items == [spec.seedRows[0]] + spec.seedRows
  }

  /** The turn has put the first row there twice, and no later request fails. */
  ghost predicate TurnedTwice(env: Env, site: seq<SPList>, r: Run, spec: ListSpec, id: nat)
    requires spec.seedRows != []
  {
    && HasTwice(env, site, r, spec, id) && !r.aborted && NoFailure(r) && DoneFrom(env, r.sent)
  }

  lemma AfterTurn(env: Env, site: seq<SPList>, specs: seq<ListSpec>, j: nat, id: nat)
    requires j < |specs| && specs[j].seedRows != []
    requires TurnedTwice(env, site, Provision(env, site, specs[..j + 1]), specs[j], id)
    ensures HasTwice(env, site, Provision(env, site, specs), specs[j], id)
  {
    Afterwards(env, site, specs, j, id);
  }

  lemma SeededTwice(env: Env, site: seq<SPList>, r: Run, spec: ListSpec)
    requires AboutToSeed(env, site, r, spec) && env.seed && spec.seedRows != []
    requires env.fates == TwiceAt(ToProbe(env, r, spec).0.sent + 1)
    ensures TurnedTwice(env, site, EnsureList(env, r, spec), spec, ToProbe(env, r, spec).1)
  {
    SeedingTurn(env, site, r, spec);
  }

  lemma TurnOf(env: Env, site: seq<SPList>, specs: seq<ListSpec>, j: nat)
    requires j < |specs| && !Provision(env, site, specs[..j]).aborted
    ensures Provision(env, site, specs[..j + 1]) == EnsureList(env, Provision(env, site, specs[..j]), specs[j])
  {
    assert specs[..j + 1][..j] == specs[..j];
  }

  lemma ProbeSeeds(env: Env, r: Run, spec: ListSpec, id: nat)
    requires id < |r.site| && env.seed && env.fates(r.sent).Done? && r.site[id].items == []
    ensures MaybeSeed(env, r, spec, id) == SeedRows(env, Read(env, r), spec, spec.seedRows, id)
  {}

  lemma SeedingTurn(env: Env, site: seq<SPList>, r: Run, spec: ListSpec)
    requires AboutToSeed(env, site, r, spec) && env.seed && spec.seedRows != []
    requires env.fates == TwiceAt(ToProbe(env, r, spec).0.sent + 1)
    ensures
      var id := ToProbe(env, r, spec).1;
      var r' := EnsureList(env, r, spec);
      && !r'.aborted && NoFailure(r') && DoneFrom(env, r'.sent)
      && id < |r'.site| && Find(env.fold, r'.site, spec.displayName) == Some(id)
      && r'.site[id].items == [spec.seedRows[0]] + spec.seedRows
  {
    var t := ToProbe(env, r, spec);
    ToProbeSent(env, r, spec);
    TurnIsSeeding(env, r, spec);
    ToProbeGood(env, r, spec);
    ProbeSeeds(env, t.0, spec, t.1);
    FirstTwice(env, Read(env, t.0), spec, t.1);
    MaybeSeedFacts(env, t.0, spec, t.1);
    FindStable(env.fold, t.0.site, MaybeSeed(env, t.0, spec, t.1).site, spec.displayName);
  }

  lemma ToProbeGood(env: Env, r: Run, spec: ListSpec)
    requires !FindOrCreate(env, r, spec).0.aborted && NoFailure(r)
    requires forall n :: r.sent <= n < ToProbe(env, r, spec).0.sent ==> env.fates(n).Done?
    ensures NoFailure(ToProbe(env, r, spec).0) && !ToProbe(env, r, spec).0.aborted
  {
    ToProbeSent(env, r, spec);
    var f := FindOrCreate(env, r, spec);
    var looked := Read(env, f.0.(listIds := f.0.listIds[spec.displayName := f.1]));
    ColumnsGood(env, looked, spec.displayName, spec.columns, f.1, Present(env.fold, looked.site[f.1].columns));
  }

  lemma {:induction false} ColumnsGood(env: Env, r: Run, list: string, columns: seq<ColumnSpec>, id: nat,
                                       present: set<string>)
    requires id < |r.site| && NoFailure(r)
    requires forall n :: r.sent <= n < EnsureColumns(env, r, list, columns, id, present).sent ==> env.fates(n).Done?
    ensures NoFailure(EnsureColumns(env, r, list, columns, id, present))
  {
    if columns != [] {
      ColumnsSent(env, r, list, columns[..|columns| - 1], id, present);
      ColumnsGood(env, r, list, columns[..|columns| - 1], id, present);
    }
  }

  /** The rest of the run succeeds and leaves the list as it is. */
  lemma Afterwards(env: Env, site: seq<SPList>, specs: seq<ListSpec>, j: nat, id: nat)
    requires j < |specs|
    requires
      var r := Provision(env, site, specs[..j + 1]);
      && !r.aborted && NoFailure(r) && DoneFrom(env, r.sent) && id < |r.site| && r.site[id].items != []
      && Find(env.fold, r.site, specs[j].displayName) == Some(id)
    ensures
      var r, end := Provision(env, site, specs[..j + 1]), Provision(env, site, specs);
      && ExitCode(end) == 0 && id < |end.site| && end.site[id].items == r.site[id].items
      && Find(env.fold, end.site, specs[j].displayName) == Some(id)
  {
    RestSucceeds(env, site, specs, j + 1);
    PrefixGrows(env, site, specs, j + 1);
    var r, end := Provision(env, site, specs[..j + 1]), Provision(env, site, specs);
    assert ListGrows(r.site[id], end.site[id]);
    FindStable(env.fold, r.site, end.site, specs[j].displayName);
  }

  lemma LastTurnGrows(env: Env, site: seq<SPList>, specs: seq<ListSpec>)
    requires specs != []
    ensures Grows(Provision(env, site, specs[..|specs| - 1]).site, Provision(env, site, specs).site)
  {
    EnsureListGrows(env, Provision(env, site, specs[..|specs| - 1]), specs[|specs| - 1]);
  }

  lemma {:induction false} PrefixGrows(env: Env, site: seq<SPList>, specs: seq<ListSpec>, k: nat)
    requires k <= |specs|
    ensures Grows(Provision(env, site, specs[..k]).site, Provision(env, site, specs).site)
  {
    if k == |specs| {
      assert specs[..k] == specs;
    } else {
      var n := |specs| - 1;
      assert specs[..n][..k] == specs[..k];
      PrefixGrows(env, site, specs[..n], k);
      LastTurnGrows(env, site, specs);
      GrowsTransitive(Provision(env, site, specs[..k]).site, Provision(env, site, specs[..n]).site,
                      Provision(env, site, specs).site);
    }
  }

  // ---------------------------------------------------------------- exactly when

  /** Every list ends with the items it had, or with the beginning of the seed rows of a spec that finds it. */
  ghost predicate SeedsClean(fold: string -> string, before: seq<SPList>, after: seq<SPList>, specs: seq<ListSpec>) {
    forall i :: 0 <= i < |after| ==> SeededClean(fold, before, after, specs, i)
  }

  ghost predicate SeededClean(fold: string -> string, before: seq<SPList>, after: seq<SPList>,
                              specs: seq<ListSpec>, i: nat)
  {
    || Items(after, i) == Items(before, i)
    || exists s :: s in specs && Find(fold, after, s.displayName) == Some(i) && Items(after, i) <= s.seedRows
  }

  /** However the requests of a run fare. */
  ghost predicate NeverRepeats(fold: string -> string, defaults: seq<Column>, seed: bool, site: seq<SPList>,
                               specs: seq<ListSpec>)
  {
    forall fates: nat -> Fate ::
      SeedsClean(fold, site, Provision(Env(fold, defaults, fates, seed), site, specs).site, specs)
  }

  lemma RepeatedIsNotClean(fold: string -> string, before: seq<SPList>, after: seq<SPList>, specs: seq<ListSpec>,
                           i: nat, rows: seq<Item>)
    requires forall s :: s in specs ==> Distinct(s.seedRows)
    requires i < |after| && rows != [] && Items(before, i) == [] && after[i].items == [rows[0]] + rows
    ensures !SeedsClean(fold, before, after, specs)
  {
    forall s | s in specs ensures !(Items(after, i) <= s.seedRows) {
      assert [] + [rows[0], rows[0]] <= Items(after, i);
      TwiceIsNoPrefix([], rows[0], Items(after, i), s.seedRows);
      assert [] + s.seedRows == s.seedRows;
    }
    assert !SeededClean(fold, before, after, specs, i);
  }

  lemma {:induction false} FirstUnfilled(fold: string -> string, site: seq<SPList>, specs: seq<ListSpec>)
    returns (j: nat)
    requires exists s :: s in specs && !Filled(fold, site, s)
    ensures j < |specs| && !Filled(fold, site, specs[j]) && forall i :: 0 <= i < j ==> Filled(fold, site, specs[i])
  {
    if !Filled(fold, site, specs[0]) {
      j := 0;
    } else {
      var s :| s in specs && !Filled(fold, site, s);
      assert specs == [specs[0]] + specs[1..] && s in specs[1..];
      j := FirstUnfilled(fold, site, specs[1..]);
      j := j + 1;
    }
  }

  /** For specs whose seed rows are distinct: whatever the requests of a run do, no list gets a row twice or
      out of turn, if and only if nothing is to be seeded: without --seed, or when every spec with seed rows
      finds a list that has items already. */
  lemma NeverRepeatsExactly(fold: string -> string, defaults: seq<Column>, seed: bool, site: seq<SPList>,
                            specs: seq<ListSpec>)
    requires forall s :: s in specs ==> Distinct(s.seedRows)
    ensures NeverRepeats(fold, defaults, seed, site, specs) <==> NothingToSeed(fold, seed, site, specs)
  {
    if NothingToSeed(fold, seed, site, specs) {
      forall fates: nat -> Fate
        ensures SeedsClean(fold, site, Provision(Env(fold, defaults, fates, seed), site, specs).site, specs)
      {
        var env := Env(fold, defaults, fates, seed);
        forall i | 0 <= i < |Provision(env, site, specs).site|
          ensures SeededClean(fold, site, Provision(env, site, specs).site, specs, i)
        {
          QuietRun(env, site, specs, i);
        }
      }
    } else {
      var j := FirstUnfilled(fold, site, specs);
      var k, id := DuplicatePossible(fold, defaults, site, specs, j);
      RepeatedIsNotClean(fold, site, Provision(Env(fold, defaults, TwiceAt(k), true), site, specs).site, specs, id,
                         specs[j].seedRows);
    }
  }

  /** The script's own run: unless its Assets list has items already, a run with --seed that exits with 0 can
      leave the first sample asset twice. */
  lemma SeedRowTwice(fold: string -> string, defaults: seq<Column>, site: seq<SPList>, assetRows: seq<Item>,
                     ticketRows: seq<Item>) returns (k: nat, id: nat)
    requires assetRows != []
    requires Find(fold, site, "Assets").Some? ==> site[Find(fold, site, "Assets").value].items == []
    ensures
      var r := Provision(Env(fold, defaults, TwiceAt(k), true), site, O.BuildSpecs(assetRows, ticketRows));
      && ExitCode(r) == 0 && Find(fold, r.site, "Assets") == Some(id)
      && r.site[id].items == [assetRows[0]] + assetRows
  {
    k, id := DuplicatePossible(fold, defaults, site, O.BuildSpecs(assetRows, ticketRows), 0);
  }
}
