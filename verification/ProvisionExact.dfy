/**
 What the provisioner puts on the site, said of the specs themselves: which columns it adds, of which kind,
 which it leaves alone, which lists it makes, and what its exit code and its list ids are worth.
 */
module ProvisioningExact {
  import opened Basics
  import opened Provisioning
  import opened ProvisionConvergence

  // ---------------------------------------------------------------- names

  /** The list is called that, in the name it shows or its own, but for case. */
  ghost predicate Called(fold: string -> string, l: SPList, wanted: string) {
    fold(l.displayName) == fold(wanted) || fold(l.name) == fold(wanted)
  }

  /** The search finds the first list called that, and nothing exactly when there is none. */
  lemma FindsFirstCalled(fold: string -> string, site: seq<SPList>, wanted: string, i: nat)
    ensures Find(fold, site, wanted) == Some(i) <==>
              i < |site| && Called(fold, site[i], wanted) && forall j :: 0 <= j < i ==> !Called(fold, site[j], wanted)
    ensures Find(fold, site, wanted).None? <==> forall l :: l in site ==> !Called(fold, l, wanted)
  {
    if i < |site| && Called(fold, site[i], wanted) && forall j :: 0 <= j < i ==> !Called(fold, site[j], wanted) {
      FoundAt(fold, site, wanted, i);
    }
    var found := Find(fold, site, wanted);
    assert found.Some? ==> site[found.value] in site;
  }

  /** The column goes by that name, in the list's own or the shown one. */
  ghost predicate GoesBy(fold: string -> string, c: Column, name: string) {
    (c.name != "" && fold(c.name) == fold(name)) || (c.displayName != "" && fold(c.displayName) == fold(name))
  }

  /** A column of that name is there, or it is the built-in title. */
  ghost predicate IsThere(fold: string -> string, columns: seq<Column>, name: string) {
    fold(name) == "title" || exists c :: c in columns && GoesBy(fold, c, name)
  }

  lemma PresentIsThere(fold: string -> string, columns: seq<Column>, name: string)
    ensures fold(name) in Present(fold, columns) <==> IsThere(fold, columns, name)
    ensures fold(name) in Taken(fold, Cols(columns)) <==> IsThere(fold, columns, name)
  {
    if exists c :: c in columns && GoesBy(fold, c, name) {
      var c :| c in columns && GoesBy(fold, c, name);
    }
  }

  /** The columns list `i` had, or is given when it is made. */
  ghost function Had(env: Env, site: seq<SPList>, i: nat): seq<Column> {
    if i < |site| then site[i].columns else env.defaults
  }

  /** Some spec that finds list `i` has the column. */
  ghost predicate Wanted(fold: string -> string, specs: seq<ListSpec>, lists: seq<SPList>, i: nat, c: ColumnSpec) {
    exists s :: s in specs && Find(fold, lists, s.displayName) == Some(i) && c in s.columns
  }

  /** The column has the spec's name, shown as that, and its kind, choices included. */
  ghost predicate AsSpecified(x: Column, c: ColumnSpec) {
    x == Column(c.name, c.name, c.kind)
  }

  // ---------------------------------------------------------------- what is added

  /** The column was there, or is one that a spec of the list wants and that was not there. */
  ghost predicate Accounted(env: Env, site: seq<SPList>, specs: seq<ListSpec>, after: seq<SPList>, i: nat, x: Column) {
    || x in Had(env, site, i)
    || exists c :: Wanted(env.fold, specs, after, i, c) && AsSpecified(x, c)
                   && !IsThere(env.fold, Had(env, site, i), c.name)
  }

  lemma WantIsWanted(fold: string -> string, specs: seq<ListSpec>, lists: seq<SPList>, i: nat, x: Column)
    requires x in Want(fold, specs, lists, i)
    ensures exists c :: Wanted(fold, specs, lists, i, c) && AsSpecified(x, c)
  {
    var s :| s in specs && Find(fold, lists, s.displayName) == Some(i) && x in Payloads(s.columns);
    var c :| c in s.columns && x == Payload(c);
    assert Wanted(fold, specs, lists, i, c);
  }

  lemma WantedGrows(fold: string -> string, specs: seq<ListSpec>, more: seq<ListSpec>, a: seq<SPList>, b: seq<SPList>,
                    i: nat, c: ColumnSpec)
    requires Grows(a, b) && (forall s :: s in specs ==> s in more) && Wanted(fold, specs, a, i, c)
    ensures Wanted(fold, more, b, i, c)
  {
    var s :| s in specs && Find(fold, a, s.displayName) == Some(i) && c in s.columns;
    FindStable(fold, a, b, s.displayName);
  }

  lemma ThereStays(fold: string -> string, a: seq<Column>, b: seq<Column>, name: string)
    requires IsThere(fold, a, name) && forall c :: c in a ==> c in b
    ensures IsThere(fold, b, name)
  {}

  /** What a list's turn leaves on it is accounted for by what was there before. */
  lemma TurnAccounted(env: Env, r: Run, spec: ListSpec, i: nat, x: Column)
    requires i < |EnsureList(env, r, spec).site| && x in EnsureList(env, r, spec).site[i].columns
    ensures Accounted(env, r.site, [spec], EnsureList(env, r, spec).site, i, x)
  {
    var after := EnsureList(env, r, spec).site;
    TurnBound(env, r, spec, i);
    assert x in Cols(after[i].columns);
    assert Base(env, r.site, i) == Cols(Had(env, r.site, i));
    if x !in Had(env, r.site, i) {
      assert x in Want(env.fold, [spec], after, i) && env.fold(x.name) !in Taken(env.fold, Cols(Had(env, r.site, i)));
      WantIsWanted(env.fold, [spec], after, i, x);
      PresentIsThere(env.fold, Had(env, r.site, i), x.name);
    }
  }

  lemma HadGrows(env: Env, site: seq<SPList>, mid: seq<SPList>, i: nat)
    requires Grows(site, mid) && (i >= |site| && i < |mid| ==> env.defaults <= mid[i].columns)
    ensures forall c :: c in Had(env, site, i) ==> c in Had(env, mid, i)
  {
    if i < |site| {
      assert ListGrows(site[i], mid[i]);
    }
  }

  /** Whatever fails, every column on the site at the end was there before, or was given to the list when it was
      made, or has the name and kind of a column that some spec of that list wants and that was not there. */
  lemma {:induction false} AddedAsSpecified(env: Env, site: seq<SPList>, specs: seq<ListSpec>, i: nat, x: Column)
    requires i < |Provision(env, site, specs).site| && x in Provision(env, site, specs).site[i].columns
    ensures Accounted(env, site, specs, Provision(env, site, specs).site, i, x)
  {
    if specs != [] {
      var n := |specs| - 1;
      var before := Provision(env, site, specs[..n]);
      if i < |before.site| && x in before.site[i].columns {
        AddedAsSpecified(env, site, specs[..n], i, x);
      }
      if before.aborted {
        GrowsRefl(before.site);
        AccountedStays(env, site, specs[..n], specs, before.site, before.site, i, x);
      } else {
        MidHad(env, site, specs[..n], i);
        ThenTurn(env, site, before, specs[..n], specs[n], specs, i, x);
      }
    }
  }

  lemma AccountedStays(env: Env, site: seq<SPList>, specs: seq<ListSpec>, more: seq<ListSpec>, a: seq<SPList>,
                       b: seq<SPList>, i: nat, x: Column)
    requires Accounted(env, site, specs, a, i, x) && Grows(a, b) && forall s :: s in specs ==> s in more
    ensures Accounted(env, site, more, b, i, x)
  {
    if x !in Had(env, site, i) {
      var c :| Wanted(env.fold, specs, a, i, c) && AsSpecified(x, c) && !IsThere(env.fold, Had(env, site, i), c.name);
      WantedGrows(env.fold, specs, more, a, b, i, c);
    }
  }

  lemma MidHad(env: Env, site: seq<SPList>, specs: seq<ListSpec>, i: nat)
    ensures |site| <= |Provision(env, site, specs).site|
    ensures forall c :: c in Had(env, site, i) ==> c in Had(env, Provision(env, site, specs).site, i)
  {
    CreatesOnly(env, site, specs);
    MadeWithDefaults(env, site, specs, i);
    HadGrows(env, site, Provision(env, site, specs).site, i);
  }

  lemma ThenAccounted(env: Env, site: seq<SPList>, mid: seq<SPList>, after: seq<SPList>, some: seq<ListSpec>,
                      last: ListSpec, specs: seq<ListSpec>, i: nat, x: Column)
    requires |site| <= |mid| && Grows(mid, after) && (forall s :: s in some ==> s in specs) && last in specs
    requires forall c :: c in Had(env, site, i) ==> c in Had(env, mid, i)
    requires i < |mid| && x in mid[i].columns ==> Accounted(env, site, some, mid, i, x)
    requires Accounted(env, mid, [last], after, i, x)
    ensures Accounted(env, site, specs, after, i, x)
  {
    if x in Had(env, mid, i) {
      if i < |mid| {
        AccountedStays(env, site, some, specs, mid, after, i, x);
      }
    } else {
      var c :| Wanted(env.fold, [last], after, i, c) && AsSpecified(x, c)
               && !IsThere(env.fold, Had(env, mid, i), c.name);
      GrowsRefl(after);
      WantedGrows(env.fold, [last], specs, after, after, i, c);
      if IsThere(env.fold, Had(env, site, i), c.name) {
        ThereStays(env.fold, Had(env, site, i), Had(env, mid, i), c.name);
      }
    }
  }

  lemma ThenTurn(env: Env, site: seq<SPList>, before: Run, some: seq<ListSpec>, last: ListSpec, specs: seq<ListSpec>,
                 i: nat, x: Column)
    requires (forall s :: s in some ==> s in specs) && last in specs
    requires |site| <= |before.site| && forall c :: c in Had(env, site, i) ==> c in Had(env, before.site, i)
    requires i < |EnsureList(env, before, last).site| && x in EnsureList(env, before, last).site[i].columns
    requires i < |before.site| && x in before.site[i].columns ==> Accounted(env, site, some, before.site, i, x)
    ensures Accounted(env, site, specs, EnsureList(env, before, last).site, i, x)
  {
    TurnAccounted(env, before, last, i, x);
    EnsureListGrows(env, before, last);
    ThenAccounted(env, site, before.site, EnsureList(env, before, last).site, some, last, specs, i, x);
  }

  // ---------------------------------------------------------------- the lists made

  /** A list the run made is named as a spec of it names it, and starts from the server's columns. */
  ghost predicate MadeFor(env: Env, specs: seq<ListSpec>, l: SPList) {
    && env.defaults <= l.columns
    && exists s :: s in specs && l.displayName == s.displayName && l.name == s.displayName
  }

  lemma MadeStays(env: Env, specs: seq<ListSpec>, more: seq<ListSpec>, a: SPList, b: SPList)
    requires MadeFor(env, specs, a) && ListGrows(a, b) && forall s :: s in specs ==> s in more
    ensures MadeFor(env, more, b)
  {}

  lemma TurnMakes(env: Env, r: Run, spec: ListSpec, i: nat)
    requires |r.site| <= i < |EnsureList(env, r, spec).site|
    ensures MadeFor(env, [spec], EnsureList(env, r, spec).site[i])
  {
    var f := FindOrCreate(env, r, spec);
    AfterFindGrows(env, r, spec);
    assert spec in [spec];
    assert MadeFor(env, [spec], f.0.site[i]);
    MadeStays(env, [spec], [spec], f.0.site[i], EnsureList(env, r, spec).site[i]);
  }

  lemma AfterFindGrows(env: Env, r: Run, spec: ListSpec)
    ensures Grows(FindOrCreate(env, r, spec).0.site, EnsureList(env, r, spec).site)
    ensures |FindOrCreate(env, r, spec).0.site| == |EnsureList(env, r, spec).site|
  {
    var f := FindOrCreate(env, r, spec);
    AfterFindNames(env, r, spec);
    GrowsRefl(f.0.site);
    if !f.0.aborted {
      var looked := Read(env, f.0.(listIds := f.0.listIds[spec.displayName := f.1]));
      if !looked.aborted {
        var present := Present(env.fold, looked.site[f.1].columns);
        var c := EnsureColumns(env, looked, spec.displayName, spec.columns, f.1, present);
        ColumnsGrow(env, looked, spec.displayName, spec.columns, f.1, present);
        MaybeSeedFacts(env, c, spec, f.1);
        GrowsTransitive(f.0.site, c.site, EnsureList(env, r, spec).site);
      }
    }
  }

  /** Whatever fails, a list that was not on the site before is one a spec names. */
  lemma {:induction false} MadeAsSpecified(env: Env, site: seq<SPList>, specs: seq<ListSpec>, i: nat)
    requires |site| <= i < |Provision(env, site, specs).site|
    ensures MadeFor(env, specs, Provision(env, site, specs).site[i])
  {
    var n := |specs| - 1;
    var before := Provision(env, site, specs[..n]);
    if i < |before.site| {
      MadeAsSpecified(env, site, specs[..n], i);
      EnsureListGrows(env, before, specs[n]);
      GrowsRefl(before.site);
      assert ListGrows(before.site[i], Provision(env, site, specs).site[i]);
      MadeStays(env, specs[..n], specs, before.site[i], Provision(env, site, specs).site[i]);
    } else {
      TurnMakes(env, before, specs[n], i);
      MadeStays(env, [specs[n]], specs, Provision(env, site, specs).site[i], Provision(env, site, specs).site[i]);
    }
  }

  lemma MadeWithDefaults(env: Env, site: seq<SPList>, specs: seq<ListSpec>, i: nat)
    ensures |site| <= i < |Provision(env, site, specs).site| ==>
              env.defaults <= Provision(env, site, specs).site[i].columns
  {
    if |site| <= i < |Provision(env, site, specs).site| {
      MadeAsSpecified(env, site, specs, i);
    }
  }

  // ---------------------------------------------------------------- what success means for a column

  /** The specs of list `i` do not contradict each other: columns of one folded name are the same. */
  ghost predicate Agreed(fold: string -> string, specs: seq<ListSpec>, lists: seq<SPList>, i: nat) {
    forall c, d :: Wanted(fold, specs, lists, i, c) && Wanted(fold, specs, lists, i, d) && fold(c.name) == fold(d.name)
                   ==> c == d
  }

  /** A run that exits with 0 leaves every column its specs want on the list the spec finds: one that was not
      there has the spec's name and kind, choices included, unless specs of that list contradict each other. */
  lemma KindsAsSpecified(env: Env, site: seq<SPList>, specs: seq<ListSpec>, s: ListSpec, c: ColumnSpec)
    requires forall s :: s in specs ==> NamesGiven(s.columns)
    requires ExitCode(Provision(env, site, specs)) == 0 && s in specs && c in s.columns
    ensures
      var after := Provision(env, site, specs).site;
      var found := Find(env.fold, after, s.displayName);
      && found.Some?
      && IsThere(env.fold, after[found.value].columns, c.name)
      && (Agreed(env.fold, specs, after, found.value) ==>
            || IsThere(env.fold, Had(env, site, found.value), c.name)
            || exists x :: x in after[found.value].columns && AsSpecified(x, c))
  {
    var after := Provision(env, site, specs).site;
    ExitZeroMeansPresent(env, site, specs, s);
    var i := Find(env.fold, after, s.displayName).value;
    PresentIsThere(env.fold, after[i].columns, c.name);
    assert Wanted(env.fold, specs, after, i, c);
    if Agreed(env.fold, specs, after, i) && !IsThere(env.fold, Had(env, site, i), c.name) {
      var x :| x in after[i].columns && GoesBy(env.fold, x, c.name);
      AddedAsSpecified(env, site, specs, i, x);
      assert x !in Had(env, site, i);
      var d :| Wanted(env.fold, specs, after, i, d) && AsSpecified(x, d);
      assert AsSpecified(x, c);
    }
  }

  // ---------------------------------------------------------------- the report

  /** The report says of the column what became of it. */
  ghost predicate Reported(report: seq<ReportRow>, list: string, c: ColumnSpec) {
    exists row :: row in report && row.target == ColumnTarget(list, c) && row.status in {CREATED, EXISTS, FAILED}
  }

  /** The `k`-th column's row: EXISTS if it was there, otherwise whether its POST was seen to succeed. */
  ghost predicate RowOf(row: ReportRow, list: string, c: ColumnSpec, there: bool) {
    && row.target == ColumnTarget(list, c)
    && (there <==> row.status == EXISTS)
    && (!there ==> row.status in {CREATED, FAILED})
  }

  ghost function Missing(fold: string -> string, present: set<string>): ColumnSpec -> bool {
    (c: ColumnSpec) => fold(c.name) !in present
  }

  lemma ColumnTried(env: Env, r: Run, list: string, c: ColumnSpec, id: nat, present: set<string>)
    requires id < |r.site|
    ensures
      var r' := EnsureColumn(env, r, list, c, id, present);
      && |r'.report| == |r.report| + 1 && r.report == r'.report[..|r.report|]
      && RowOf(r'.report[|r.report|], list, c, env.fold(c.name) in present)
      && r'.posts == r.posts + if env.fold(c.name) in present then 0 else 1
  {}

  /** The rows of the columns from `n` on in the report. */
  ghost predicate RowsFrom(report: seq<ReportRow>, n: nat, list: string, columns: seq<ColumnSpec>,
                           fold: string -> string, present: set<string>) {
    && |report| == n + |columns|
    && forall k :: 0 <= k < |columns| ==> RowOf(report[n + k], list, columns[k], fold(columns[k].name) in present)
  }

  lemma RowsSnoc(before: seq<ReportRow>, after: seq<ReportRow>, n: nat, list: string, columns: seq<ColumnSpec>,
                 fold: string -> string, present: set<string>)
    requires columns != [] && RowsFrom(before, n, list, columns[..|columns| - 1], fold, present)
    requires |after| == |before| + 1 && before == after[..|before|]
    requires
      var c := columns[|columns| - 1];
      RowOf(after[|before|], list, c, fold(c.name) in present)
    ensures RowsFrom(after, n, list, columns, fold, present)
  {
    forall k | 0 <= k < |columns| ensures RowOf(after[n + k], list, columns[k], fold(columns[k].name) in present) {
      if k < |columns| - 1 {
        assert after[n + k] == before[n + k] && columns[..|columns| - 1][k] == columns[k];
      }
    }
  }

  /** One failed column stops none of the others: each has its own row, in order, and its own POST if missing. */
  lemma {:induction false} EachColumnTried(env: Env, r: Run, list: string, columns: seq<ColumnSpec>, id: nat,
                                           present: set<string>)
    requires id < |r.site|
    ensures
      var r' := EnsureColumns(env, r, list, columns, id, present);
      && r.report <= r'.report && RowsFrom(r'.report, |r.report|, list, columns, env.fold, present)
      && r'.posts == r.posts + Count(Missing(env.fold, present), columns)
  {
    if columns != [] {
      var n := |columns| - 1;
      var b := EnsureColumns(env, r, list, columns[..n], id, present);
      EachColumnTried(env, r, list, columns[..n], id, present);
      ColumnTried(env, b, list, columns[n], id, present);
      RowsSnoc(b.report, EnsureColumns(env, r, list, columns, id, present).report, |r.report|, list, columns, env.fold,
               present);
      CountSnoc(Missing(env.fold, present), columns[..n], columns[n]);
      assert columns == columns[..n] + [columns[n]];
    }
  }

  lemma TurnReports(env: Env, r: Run, spec: ListSpec, c: ColumnSpec)
    requires !EnsureList(env, r, spec).aborted && c in spec.columns
    ensures Reported(EnsureList(env, r, spec).report, spec.displayName, c)
  {
    var f := FindOrCreate(env, r, spec);
    var looked := Read(env, f.0.(listIds := f.0.listIds[spec.displayName := f.1]));
    AfterFindReports(env, looked, spec, f.1, Present(env.fold, looked.site[f.1].columns), c);
  }

  lemma AfterFindReports(env: Env, r: Run, spec: ListSpec, id: nat, present: set<string>, c: ColumnSpec)
    requires id < |r.site| && c in spec.columns
    ensures
      var after := EnsureColumns(env, r, spec.displayName, spec.columns, id, present);
      Reported(MaybeSeed(env, after, spec, id).report, spec.displayName, c)
  {
    var after := EnsureColumns(env, r, spec.displayName, spec.columns, id, present);
    var end := MaybeSeed(env, after, spec, id).report;
    EachColumnTried(env, r, spec.displayName, spec.columns, id, present);
    MaybeSeedFacts(env, after, spec, id);
    var k :| 0 <= k < |spec.columns| && spec.columns[k] == c;
    assert end[|r.report| + k] == after.report[|r.report| + k];
    assert RowOf(end[|r.report| + k], spec.displayName, c, env.fold(c.name) in present);
    assert end[|r.report| + k] in end;
  }

  /** Unless a run is aborted it reports on every column of every spec, whatever becomes of the others. */
  lemma {:induction false} EveryColumnReported(env: Env, site: seq<SPList>, specs: seq<ListSpec>, s: ListSpec,
                                               c: ColumnSpec)
    requires !Provision(env, site, specs).aborted && s in specs && c in s.columns
    ensures Reported(Provision(env, site, specs).report, s.displayName, c)
  {
    var n := |specs| - 1;
    var before := Provision(env, site, specs[..n]);
    InFront(specs, s);
    if s == specs[n] {
      TurnReports(env, before, s, c);
    } else {
      EveryColumnReported(env, site, specs[..n], s, c);
      EnsureListReport(env, before, specs[n]);
      assert forall row :: row in before.report ==> row in Provision(env, site, specs).report;
    }
  }

  // ---------------------------------------------------------------- the list ids

  /** The ids printed at the end are those of the lists the specs find. */
  lemma {:induction false} ListIdsAreFound(env: Env, site: seq<SPList>, specs: seq<ListSpec>, s: ListSpec)
    requires !Provision(env, site, specs).aborted && s in specs
    ensures
      var r := Provision(env, site, specs);
      s.displayName in r.listIds && Find(env.fold, r.site, s.displayName) == Some(r.listIds[s.displayName])
  {
    var n := |specs| - 1;
    var before := Provision(env, site, specs[..n]);
    var r := Provision(env, site, specs);
    TurnListId(env, before, specs[n]);
    InFront(specs, s);
    if s.displayName != specs[n].displayName {
      ListIdsAreFound(env, site, specs[..n], s);
      EnsureListGrows(env, before, specs[n]);
      FindStable(env.fold, before.site, r.site, s.displayName);
    }
  }

  lemma TurnListId(env: Env, r: Run, spec: ListSpec)
    requires !EnsureList(env, r, spec).aborted
    ensures
      var r' := EnsureList(env, r, spec);
      && spec.displayName in r'.listIds
      && r'.listIds == r.listIds[spec.displayName := r'.listIds[spec.displayName]]
      && Find(env.fold, r'.site, spec.displayName) == Some(r'.listIds[spec.displayName])
  {
    FindOrCreateFacts(env, r, spec);
    var f := FindOrCreate(env, r, spec);
    AfterFindGrows(env, r, spec);
    FindStable(env.fold, f.0.site, EnsureList(env, r, spec).site, spec.displayName);
    var looked := Read(env, f.0.(listIds := f.0.listIds[spec.displayName := f.1]));
    var present := Present(env.fold, looked.site[f.1].columns);
    ColumnsKeepIds(env, looked, spec.displayName, spec.columns, f.1, present);
    SeedKeepsIds(env, Read(env, EnsureColumns(env, looked, spec.displayName, spec.columns, f.1, present)), spec,
                 spec.seedRows, f.1);
  }

  lemma {:induction false} ColumnsKeepIds(env: Env, r: Run, list: string, columns: seq<ColumnSpec>, id: nat,
                                          present: set<string>)
    requires id < |r.site|
    ensures EnsureColumns(env, r, list, columns, id, present).listIds == r.listIds
  {
    if columns != [] {
      ColumnsKeepIds(env, r, list, columns[..|columns| - 1], id, present);
    }
  }

  lemma {:induction false} SeedKeepsIds(env: Env, r: Run, spec: ListSpec, rows: seq<Item>, id: nat)
    requires id < |r.site|
    ensures SeedRows(env, r, spec, rows, id).listIds == r.listIds
    decreases |rows|
  {
    if rows != [] {
      SeedKeepsIds(env, PostItem(env, r, id, rows[0]), spec, rows[1..], id);
    }
  }

  // ---------------------------------------------------------------- the exit code

  /** The client was told that the request succeeded, whether or not it did so more than once. */
  ghost predicate Confirmed(env: Env, n: nat) {
    env.fates(n) in {Done, Twice(true), Thrice(true)}
  }

  ghost predicate ConfirmedFrom(env: Env, a: nat, b: nat) {
    forall n :: a <= n < b ==> Confirmed(env, n)
  }

  lemma {:induction false} ColumnsConfirmed(env: Env, r: Run, list: string, columns: seq<ColumnSpec>, id: nat,
                                            present: set<string>)
    requires id < |r.site| && NoFailure(EnsureColumns(env, r, list, columns, id, present))
    ensures r.sent <= EnsureColumns(env, r, list, columns, id, present).sent
    ensures ConfirmedFrom(env, r.sent, EnsureColumns(env, r, list, columns, id, present).sent)
  {
    if columns != [] {
      var n := |columns| - 1;
      var b := EnsureColumns(env, r, list, columns[..n], id, present);
      var r' := EnsureColumns(env, r, list, columns, id, present);
      assert forall row :: row in b.report ==> row in r'.report;
      ColumnsConfirmed(env, r, list, columns[..n], id, present);
      if env.fold(columns[n].name) !in present {
        assert r'.report[|b.report|] in r'.report;
      }
    }
  }

  lemma {:induction false} SeedConfirmed(env: Env, r: Run, spec: ListSpec, rows: seq<Item>, id: nat)
    requires id < |r.site| && NoFailure(SeedRows(env, r, spec, rows, id))
    ensures r.sent <= SeedRows(env, r, spec, rows, id).sent
    ensures ConfirmedFrom(env, r.sent, SeedRows(env, r, spec, rows, id).sent)
    decreases |rows|
  {
    if rows != [] {
      var p := PostItem(env, r, id, rows[0]);
      assert ReportRow(FAILED, SeedRowTarget(rows[0])) in Add(p, FAILED, SeedRowTarget(rows[0])).report;
      SeedConfirmed(env, p, spec, rows[1..], id);
    }
  }

  lemma FindConfirmed(env: Env, r: Run, spec: ListSpec)
    requires !FindOrCreate(env, r, spec).0.aborted
    ensures r.sent < FindOrCreate(env, r, spec).0.sent && ConfirmedFrom(env, r.sent, FindOrCreate(env, r, spec).0.sent)
  {}

  lemma MaybeSeedConfirmed(env: Env, r: Run, spec: ListSpec, id: nat)
    requires id < |r.site| && !r.aborted
    requires !MaybeSeed(env, r, spec, id).aborted && NoFailure(MaybeSeed(env, r, spec, id))
    ensures r.sent <= MaybeSeed(env, r, spec, id).sent && ConfirmedFrom(env, r.sent, MaybeSeed(env, r, spec, id).sent)
  {
    if env.seed && r.site[id].items == [] {
      SeedConfirmed(env, Read(env, r), spec, spec.seedRows, id);
    }
  }

  lemma FoundConfirmed(env: Env, r: Run, spec: ListSpec, id: nat, present: set<string>)
    requires id < |r.site| && !r.aborted
    requires
      var end := MaybeSeed(env, EnsureColumns(env, r, spec.displayName, spec.columns, id, present), spec, id);
      !end.aborted && NoFailure(end)
    ensures
      var end := MaybeSeed(env, EnsureColumns(env, r, spec.displayName, spec.columns, id, present), spec, id);
      r.sent <= end.sent && ConfirmedFrom(env, r.sent, end.sent)
  {
    var c := EnsureColumns(env, r, spec.displayName, spec.columns, id, present);
    MaybeSeedFacts(env, c, spec, id);
    NoFailureBefore(c, MaybeSeed(env, c, spec, id));
    ColumnsConfirmed(env, r, spec.displayName, spec.columns, id, present);
    MaybeSeedConfirmed(env, c, spec, id);
  }

  lemma TurnConfirmed(env: Env, r: Run, spec: ListSpec)
    requires !EnsureList(env, r, spec).aborted && NoFailure(EnsureList(env, r, spec))
    ensures r.sent <= EnsureList(env, r, spec).sent && ConfirmedFrom(env, r.sent, EnsureList(env, r, spec).sent)
  {
    FindConfirmed(env, r, spec);
    var f := FindOrCreate(env, r, spec);
    var looked := Read(env, f.0.(listIds := f.0.listIds[spec.displayName := f.1]));
    FoundConfirmed(env, looked, spec, f.1, Present(env.fold, looked.site[f.1].columns));
  }

  lemma {:induction false} RunConfirmed(env: Env, site: seq<SPList>, specs: seq<ListSpec>)
    requires !Provision(env, site, specs).aborted && NoFailure(Provision(env, site, specs))
    ensures ConfirmedFrom(env, 0, Provision(env, site, specs).sent)
  {
    if specs != [] {
      var n := |specs| - 1;
      GoodBefore(env, site, specs);
      RunConfirmed(env, site, specs[..n]);
      TurnConfirmed(env, Provision(env, site, specs[..n]), specs[n]);
    }
  }

  /** The exit code is 0 or 1, and 0 only if every request of the run was seen to succeed. */
  lemma ExitZeroMeansConfirmed(env: Env, site: seq<SPList>, specs: seq<ListSpec>)
    ensures ExitCode(Provision(env, site, specs)) in {0, 1}
    ensures ExitCode(Provision(env, site, specs)) == 0 ==> ConfirmedFrom(env, 0, Provision(env, site, specs).sent)
  {
    if ExitCode(Provision(env, site, specs)) == 0 {
      RunConfirmed(env, site, specs);
    }
  }
}
