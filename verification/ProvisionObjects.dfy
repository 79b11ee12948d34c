/**
 The provisioner as objects: the remote site, the report and the loops that drive them, proved to do
 what the functions of Provisioning say; the dry-run plan; and the two lists the script provisions.
 */
module ProvisionObjects {
  import opened Basics
  import P = Provisioning
  import opened ProvisionConvergence

  class Report {
    var rows: seq<P.ReportRow>
    var listIds: map<string, nat>

    constructor ()
      ensures rows == [] && listIds == map[]
    {
      rows, listIds := [], map[];
    }

    method Add(status: P.Status, target: P.Target)
      modifies this`rows
      ensures rows == old(rows) + [P.ReportRow(status, target)]
    {
      rows := rows + [P.ReportRow(status, target)];
    }

    method Failed() returns (failed: bool)
      ensures failed <==> exists row :: row in rows && row.status.FAILED?
    {
      failed := false;
      for i := 0 to |rows|
        invariant failed <==> exists row :: row in rows[..i] && row.status.FAILED?
      {
        assert rows[..i + 1] == rows[..i] + [rows[i]];
        if rows[i].status.FAILED? {
          failed := true;
        }
      }
      assert rows[..|rows|] == rows;
    }
  }

  /** The SharePoint site behind Graph; `env.fates` decides how each request fares. */
  class Site {
    const env: P.Env
    var lists: seq<P.SPList>
    var sent: nat
    var posts: nat

    constructor (env: P.Env, lists: seq<P.SPList>)
      ensures this.env == env && this.lists == lists && sent == 0 && posts == 0
    {
      this.env, this.lists := env, lists;
      sent, posts := 0, 0;
    }

    method Get() returns (ok: bool)
      modifies this`sent
      ensures sent == old(sent) + 1 && (ok <==> env.fates(old(sent)).Done?)
    {
      ok := env.fates(sent).Done?;
      sent := sent + 1;
    }

    method Post(after: seq<P.SPList>) returns (ok: bool)
      modifies this
      ensures sent == old(sent) + 1 && posts == old(posts) + 1
      ensures lists == if env.fates(old(sent)).Failed? then old(lists) else after
      ensures ok <==> env.fates(old(sent)).Done?
    {
      ok := env.fates(sent).Done?;
      if !env.fates(sent).Failed? {
        lists := after;
      }
      sent, posts := sent + 1, posts + 1;
    }

    method PostItem(id: nat, x: P.Item) returns (ok: bool)
      requires id < |lists|
      modifies this
      ensures sent == old(sent) + 1 && posts == old(posts) + 1
      ensures lists == P.AddItems(old(lists), id, x, env.fates(old(sent)).Copies())
      ensures ok <==> env.fates(old(sent)).Seen()
    {
      ok := env.fates(sent).Seen();
      lists := P.AddItems(lists, id, x, env.fates(sent).Copies());
      sent, posts := sent + 1, posts + 1;
    }
  }

  lemma SeedNext(env: P.Env, r: P.Run, spec: P.ListSpec, id: nat, i: nat)
    requires id < |r.site| && i < |spec.seedRows|
    ensures
      var row := spec.seedRows[i];
      var p := P.PostItem(env, r, id, row);
      P.SeedRows(env, r, spec, spec.seedRows[i..], id)
        == if env.fates(r.sent).Seen() then P.SeedRows(env, p, spec, spec.seedRows[i + 1..], id)
           else P.Add(p, P.FAILED, P.SeedRowTarget(row))
  {
    assert spec.seedRows[i..][1..] == spec.seedRows[i + 1..];
  }

  class Provisioner {
    const site: Site
    const report: Report

    constructor (site: Site, report: Report)
      ensures this.site == site && this.report == report
    {
      this.site, this.report := site, report;
    }

    ghost function View(aborted: bool): P.Run
      reads site, report
    {
      P.Run(site.lists, site.sent, site.posts, report.rows, report.listIds, aborted)
    }

    method FindList(wanted: string) returns (found: Option<nat>)
      ensures found == P.Find(site.env.fold, site.lists, wanted)
    {
      for i := 0 to |site.lists|
        invariant forall j :: 0 <= j < i ==> !P.Named(site.env.fold, site.lists[j], wanted)
      {
        if P.Named(site.env.fold, site.lists[i], wanted) {
          return Some(i);
        }
      }
      return None;
    }

    method EnsureColumns(spec: P.ListSpec, id: nat, present: set<string>)
      requires id < |site.lists|
      modifies site, report`rows
      ensures View(false)
                == P.EnsureColumns(site.env, old(View(false)), spec.displayName, spec.columns, id, present)
    {
      ghost var r := View(false);
      for i := 0 to |spec.columns|
        invariant View(false)
                    == P.EnsureColumns(site.env, r, spec.displayName, spec.columns[..i], id, present)
      {
        assert spec.columns[..i + 1][..i] == spec.columns[..i];
        EnsureColumn(spec.displayName, spec.columns[i], id, present);
      }
      assert spec.columns[..|spec.columns|] == spec.columns;
    }

    method EnsureColumn(list: string, column: P.ColumnSpec, id: nat, present: set<string>)
      requires id < |site.lists|
      modifies site, report`rows
      ensures View(false) == P.EnsureColumn(site.env, old(View(false)), list, column, id, present)
    {
      var target := P.ColumnTarget(list, column);
      if site.env.fold(column.name) in present {
        report.Add(P.EXISTS, target);
        return;
      }
      var ok := site.Post(P.AddColumn(site.lists, id, P.Payload(column)));
      if !ok {
        report.Add(P.FAILED, target);
        return;
      }
      report.Add(P.CREATED, target);
    }

    method MaybeSeed(spec: P.ListSpec, id: nat) returns (ok: bool)
      requires id < |site.lists|
      modifies site, report`rows
      ensures View(!ok) == P.MaybeSeed(site.env, old(View(false)), spec, id)
    {
      var target := P.SeedTarget(spec.displayName, |spec.seedRows|);
      ok := true;
      if !site.env.seed {
        report.Add(P.SKIPPED, target);
        return;
      }
      ok := site.Get();
      if !ok {
        return;
      }
      if site.lists[id].items != [] {
        report.Add(P.SKIPPED, target);
        return;
      }
      SeedAll(spec, id);
    }

    method SeedRow(row: P.Item, id: nat) returns (posted: bool)
      requires id < |site.lists|
      modifies site, report`rows
      ensures posted <==> site.env.fates(old(site.sent)).Seen()
      ensures
        var p := P.PostItem(site.env, old(View(false)), id, row);
        View(false) == if posted then p else P.Add(p, P.FAILED, P.SeedRowTarget(row))
    {
      posted := site.PostItem(id, row);
      if !posted {
        report.Add(P.FAILED, P.SeedRowTarget(row));
      }
    }

    /** The seed loop. */
    method SeedAll(spec: P.ListSpec, id: nat)
      requires id < |site.lists|
      modifies site, report`rows
      ensures View(false) == P.SeedRows(site.env, old(View(false)), spec, spec.seedRows, id)
    {
      ghost var r := View(false);
      for i := 0 to |spec.seedRows|
        invariant id < |site.lists|
        invariant P.SeedRows(site.env, View(false), spec, spec.seedRows[i..], id)
                    == P.SeedRows(site.env, r, spec, spec.seedRows, id)
      {
        SeedNext(site.env, View(false), spec, id, i);
        var posted := SeedRow(spec.seedRows[i], id);
        if !posted {
          return;
        }
      }
      report.Add(P.CREATED, P.SeedTarget(spec.displayName, |spec.seedRows|));
    }

    method FindOrCreate(spec: P.ListSpec) returns (ok: bool, id: nat)
      modifies site, report`rows
      ensures (View(!ok), id) == P.FindOrCreate(site.env, old(View(false)), spec)
    {
      id := 0;
      ok := site.Get();
      if !ok {
        return;
      }
      var existing := FindList(spec.displayName);
      if existing.None? {
        var next := |site.lists|;
        ok := site.Post(site.lists + [P.NewList(site.env, spec)]);
        if ok {
          id := next;
          report.Add(P.CREATED, P.ListTarget(spec.displayName));
        }
      } else {
        id := existing.value;
        report.Add(P.EXISTS, P.ListTarget(spec.displayName));
      }
    }

    method EnsureList(spec: P.ListSpec) returns (ok: bool)
      modifies site, report
      ensures View(!ok) == P.EnsureList(site.env, old(View(false)), spec)
    {
      var id;
      ok, id := FindOrCreate(spec);
      if !ok {
        return;
      }
      report.listIds := report.listIds[spec.displayName := id];
      ok := site.Get();
      if !ok {
        return;
      }
      var present := P.Present(site.env.fold, site.lists[id].columns);
      EnsureColumns(spec, id, present);
      ok := MaybeSeed(spec, id);
    }
  }

  /** The run the script makes, and its exit code. */
  method ProvisionSite(site: Site, specs: seq<P.ListSpec>) returns (report: Report, code: int)
    requires site.sent == 0 && site.posts == 0
    modifies site
    ensures fresh(report)
    ensures
      var r := P.Provision(site.env, old(site.lists), specs);
      && site.lists == r.site && site.posts == r.posts && site.sent == r.sent
      && report.rows == r.report && report.listIds == r.listIds
      && code == P.ExitCode(r)
  {
    report := new Report();
    var p := new Provisioner(site, report);
    ghost var start := site.lists;
    var ok := true;
    for i := 0 to |specs|
      invariant fresh(report) && p.site == site && p.report == report
      invariant ok && p.View(false) == P.Provision(site.env, start, specs[..i])
    {
      assert specs[..i + 1][..i] == specs[..i];
      ok := p.EnsureList(specs[i]);
      if !ok {
        AbortedStays(site.env, start, specs, i + 1);
        code := 1;
        return;
      }
    }
    assert specs[..|specs|] == specs;
    var failed := report.Failed();
    code := if failed then 1 else 0;
  }

  lemma {:induction false} AbortedStays(env: P.Env, site: seq<P.SPList>, specs: seq<P.ListSpec>, k: nat)
    requires k <= |specs| && P.Provision(env, site, specs[..k]).aborted
    ensures P.Provision(env, site, specs) == P.Provision(env, site, specs[..k])
  {
    if k == |specs| {
      assert specs[..k] == specs;
    } else {
      assert specs[..|specs| - 1][..k] == specs[..k];
      AbortedStays(env, site, specs[..|specs| - 1], k);
    }
  }

  // ---------------------------------------------------------------- the plan

  function ColumnRows(list: string, columns: seq<P.ColumnSpec>): seq<P.ReportRow> {
    if columns == [] then []
    else ColumnRows(list, columns[..|columns| - 1])
         + [P.ReportRow(P.PLANNED, P.ColumnTarget(list, columns[|columns| - 1]))]
  }

  /** What a dry run reports for one list. */
  function PlanList(spec: P.ListSpec, seed: bool): seq<P.ReportRow> {
    [P.ReportRow(P.PLANNED, P.ListTarget(spec.displayName))]
    + ColumnRows(spec.displayName, spec.columns)
    + [P.ReportRow(P.EXISTS, P.TitleTarget(spec.displayName)),
       P.ReportRow(if seed then P.PLANNED else P.SKIPPED, P.SeedTarget(spec.displayName, |spec.seedRows|))]
  }

  function Plan(specs: seq<P.ListSpec>, seed: bool): seq<P.ReportRow> {
    if specs == [] then [] else Plan(specs[..|specs| - 1], seed) + PlanList(specs[|specs| - 1], seed)
  }

  /** `print_plan`: the dry run, which sends nothing. */
  method PrintPlan(specs: seq<P.ListSpec>, seed: bool) returns (report: Report)
    ensures fresh(report)
    ensures report.rows == Plan(specs, seed) && report.listIds == map[]
  {
    report := new Report();
    for i := 0 to |specs|
      invariant fresh(report) && report.listIds == map[]
      invariant report.rows == Plan(specs[..i], seed)
    {
      var spec := specs[i];
      assert specs[..i + 1] == specs[..i] + [spec];
      PlanOneList(report, spec, seed);
    }
    assert specs[..|specs|] == specs;
  }

  method PlanOneList(report: Report, spec: P.ListSpec, seed: bool)
    modifies report`rows
    ensures report.rows == old(report.rows) + PlanList(spec, seed)
  {
    var list := spec.displayName;
    ghost var before := report.rows + [P.ReportRow(P.PLANNED, P.ListTarget(list))];
    report.Add(P.PLANNED, P.ListTarget(list));
    for j := 0 to |spec.columns|
      invariant report.rows == before + ColumnRows(list, spec.columns[..j])
    {
      assert spec.columns[..j + 1] == spec.columns[..j] + [spec.columns[j]];
      report.Add(P.PLANNED, P.ColumnTarget(list, spec.columns[j]));
    }
    assert spec.columns[..|spec.columns|] == spec.columns;
    report.Add(P.EXISTS, P.TitleTarget(list));
    if seed {
      report.Add(P.PLANNED, P.SeedTarget(list, |spec.seedRows|));
    } else {
      report.Add(P.SKIPPED, P.SeedTarget(list, |spec.seedRows|));
    }
  }

  /** The targets reported on, leaving out the built-in Title column the plan mentions. */
  function Targets(rows: seq<P.ReportRow>): seq<P.Target> {
    if rows == [] then []
    else
      var t := rows[|rows| - 1].target;
      Targets(rows[..|rows| - 1]) + if t.TitleTarget? then [] else [t]
  }

  lemma TargetsSnoc(rows: seq<P.ReportRow>, row: P.ReportRow)
    ensures Targets(rows + [row]) == Targets(rows) + if row.target.TitleTarget? then [] else [row.target]
  {
    assert (rows + [row])[..|rows|] == rows;
  }

  lemma {:induction false} TargetsConcat(a: seq<P.ReportRow>, b: seq<P.ReportRow>)
    ensures Targets(a + b) == Targets(a) + Targets(b)
  {
    if b == [] {
      assert a + b == a;
    } else {
      var n := |b| - 1;
      assert a + b == (a + b[..n]) + [b[n]];
      assert b == b[..n] + [b[n]];
      TargetsConcat(a, b[..n]);
      TargetsSnoc(a + b[..n], b[n]);
    }
  }

  lemma {:induction false} ColumnTargets(env: P.Env, r: P.Run, list: string, columns: seq<P.ColumnSpec>, id: nat,
                                         present: set<string>)
    requires id < |r.site|
    ensures Targets(P.EnsureColumns(env, r, list, columns, id, present).report)
              == Targets(r.report) + Targets(ColumnRows(list, columns))
  {
    if columns != [] {
      var n := |columns| - 1;
      ColumnTargets(env, r, list, columns[..n], id, present);
      var b := P.EnsureColumns(env, r, list, columns[..n], id, present);
      var r' := P.EnsureColumns(env, r, list, columns, id, present);
      TargetsSnoc(b.report, r'.report[|b.report|]);
      assert r'.report == b.report + [r'.report[|b.report|]];
      TargetsSnoc(ColumnRows(list, columns[..n]), P.ReportRow(P.PLANNED, P.ColumnTarget(list, columns[n])));
    }
  }

  lemma {:induction false} SeedTargets(env: P.Env, r: P.Run, spec: P.ListSpec, rows: seq<P.Item>, id: nat)
    requires id < |r.site| && P.NoFailure(P.SeedRows(env, r, spec, rows, id))
    ensures P.SeedRows(env, r, spec, rows, id).report
              == r.report + [P.ReportRow(P.CREATED, P.SeedTarget(spec.displayName, |spec.seedRows|))]
    decreases |rows|
  {
    if rows != [] {
      var p := P.PostItem(env, r, id, rows[0]);
      assert P.ReportRow(P.FAILED, P.SeedRowTarget(rows[0])) in P.Add(p, P.FAILED, P.SeedRowTarget(rows[0])).report;
      SeedTargets(env, p, spec, rows[1..], id);
    }
  }

  lemma MaybeSeedTargets(env: P.Env, r: P.Run, spec: P.ListSpec, id: nat)
    requires id < |r.site|
    requires !P.MaybeSeed(env, r, spec, id).aborted && P.NoFailure(P.MaybeSeed(env, r, spec, id))
    ensures Targets(P.MaybeSeed(env, r, spec, id).report)
              == Targets(r.report) + [P.SeedTarget(spec.displayName, |spec.seedRows|)]
  {
    var r' := P.MaybeSeed(env, r, spec, id);
    if env.seed && r.site[id].items == [] {
      SeedTargets(env, P.Read(env, r), spec, spec.seedRows, id);
    }
    TargetsSnoc(r.report, r'.report[|r.report|]);
    assert r'.report == r.report + [r'.report[|r.report|]];
  }

  lemma PlanListTargets(spec: P.ListSpec, seed: bool)
    ensures Targets(PlanList(spec, seed)) == [P.ListTarget(spec.displayName)]
              + Targets(ColumnRows(spec.displayName, spec.columns)) + [P.SeedTarget(spec.displayName, |spec.seedRows|)]
  {
    var first := [P.ReportRow(P.PLANNED, P.ListTarget(spec.displayName))];
    var middle := ColumnRows(spec.displayName, spec.columns);
    var title := P.ReportRow(P.EXISTS, P.TitleTarget(spec.displayName));
    var last := P.ReportRow(if seed then P.PLANNED else P.SKIPPED, P.SeedTarget(spec.displayName, |spec.seedRows|));
    TargetsSnoc([], first[0]);
    assert [] + first == first;
    TargetsConcat(first, middle);
    TargetsSnoc(first + middle, title);
    TargetsSnoc(first + middle + [title], last);
    assert PlanList(spec, seed) == first + middle + [title] + [last];
  }

  lemma FindTargets(env: P.Env, r: P.Run, spec: P.ListSpec)
    requires !P.FindOrCreate(env, r, spec).0.aborted
    ensures Targets(P.FindOrCreate(env, r, spec).0.report) == Targets(r.report) + [P.ListTarget(spec.displayName)]
  {
    var f := P.FindOrCreate(env, r, spec);
    TargetsSnoc(r.report, f.0.report[|r.report|]);
    assert f.0.report == r.report + [f.0.report[|r.report|]];
  }

  lemma EnsureListTargets(env: P.Env, r: P.Run, spec: P.ListSpec)
    requires !P.EnsureList(env, r, spec).aborted && P.NoFailure(P.EnsureList(env, r, spec))
    ensures Targets(P.EnsureList(env, r, spec).report) == Targets(r.report) + Targets(PlanList(spec, env.seed))
  {
    var before, list, columns, seed := Targets(r.report), [P.ListTarget(spec.displayName)],
        Targets(ColumnRows(spec.displayName, spec.columns)), [P.SeedTarget(spec.displayName, |spec.seedRows|)];
    assert before + list + columns + seed == before + (list + columns + seed);
    FindTargets(env, r, spec);
    var f := P.FindOrCreate(env, r, spec);
    AfterFindTargets(env, P.Read(env, f.0.(listIds := f.0.listIds[spec.displayName := f.1])), spec, f.1);
    PlanListTargets(spec, env.seed);
  }

  lemma AfterFindTargets(env: P.Env, r: P.Run, spec: P.ListSpec, id: nat)
    requires id < |r.site|
    requires
      var c := P.EnsureColumns(env, r, spec.displayName, spec.columns, id, P.Present(env.fold, r.site[id].columns));
      !P.MaybeSeed(env, c, spec, id).aborted && P.NoFailure(P.MaybeSeed(env, c, spec, id))
    ensures
      var c := P.EnsureColumns(env, r, spec.displayName, spec.columns, id, P.Present(env.fold, r.site[id].columns));
      Targets(P.MaybeSeed(env, c, spec, id).report)
        == Targets(r.report) + Targets(ColumnRows(spec.displayName, spec.columns))
           + [P.SeedTarget(spec.displayName, |spec.seedRows|)]
  {
    var present := P.Present(env.fold, r.site[id].columns);
    ColumnTargets(env, r, spec.displayName, spec.columns, id, present);
    MaybeSeedTargets(env, P.EnsureColumns(env, r, spec.displayName, spec.columns, id, present), spec, id);
  }

  /** The dry run foretells the real one: a run that exits with 0, on whatever site, reports on exactly
      the planned targets in the planned order. */
  lemma {:induction false} PlanForetells(env: P.Env, site: seq<P.SPList>, specs: seq<P.ListSpec>)
    requires !P.Provision(env, site, specs).aborted && P.NoFailure(P.Provision(env, site, specs))
    ensures Targets(P.Provision(env, site, specs).report) == Targets(Plan(specs, env.seed))
  {
    if specs != [] {
      var n := |specs| - 1;
      var before := P.Provision(env, site, specs[..n]);
      P.EnsureListReport(env, before, specs[n]);
      P.NoFailureBefore(before, P.EnsureList(env, before, specs[n]));
      PlanForetells(env, site, specs[..n]);
      EnsureListTargets(env, before, specs[n]);
      TargetsConcat(Plan(specs[..n], env.seed), PlanList(specs[n], env.seed));
    }
  }

  // ---------------------------------------------------------------- a second report

  function HasStatus(status: P.Status): P.ReportRow -> bool {
    (row: P.ReportRow) => row.status == status
  }

  function Wanted(specs: seq<P.ListSpec>): nat {
    if specs == [] then 0 else Wanted(specs[..|specs| - 1]) + 1 + |specs[|specs| - 1].columns|
  }

  lemma AddCounts(r: P.Run, status: P.Status, target: P.Target, counted: P.Status)
    ensures Count(HasStatus(counted), P.Add(r, status, target).report)
              == Count(HasStatus(counted), r.report) + if status == counted then 1 else 0
  {
    CountSnoc(HasStatus(counted), r.report, P.ReportRow(status, target));
  }

  lemma {:induction false} PresentColumnsCount(env: P.Env, r: P.Run, list: string, columns: seq<P.ColumnSpec>,
                                               id: nat, present: set<string>, counted: P.Status)
    requires id < |r.site| && forall c :: c in columns ==> env.fold(c.name) in present
    ensures Count(HasStatus(counted), P.EnsureColumns(env, r, list, columns, id, present).report)
              == Count(HasStatus(counted), r.report) + if counted.EXISTS? then |columns| else 0
  {
    if columns != [] {
      var n := |columns| - 1;
      PresentColumnsCount(env, r, list, columns[..n], id, present, counted);
      assert columns[n] in columns;
      AddCounts(P.EnsureColumns(env, r, list, columns[..n], id, present), P.EXISTS,
                P.ColumnTarget(list, columns[n]), counted);
    }
  }

  /** The seed row of a list that has items, or without --seed, says SKIPPED. */
  lemma SkippedSeedCount(env: P.Env, r: P.Run, spec: P.ListSpec, id: nat, counted: P.Status)
    requires id < |r.site| && (env.seed ==> r.site[id].items != []) && !P.MaybeSeed(env, r, spec, id).aborted
    ensures Count(HasStatus(counted), P.MaybeSeed(env, r, spec, id).report)
              == Count(HasStatus(counted), r.report) + if counted.SKIPPED? then 1 else 0
  {
    AddCounts(r, P.SKIPPED, P.SeedTarget(spec.displayName, |spec.seedRows|), counted);
  }

  lemma SatisfiedListCount(env: P.Env, r: P.Run, spec: P.ListSpec, counted: P.Status)
    requires P.Satisfied(env, r.site, spec) && spec.seedRows != [] && !P.EnsureList(env, r, spec).aborted
    ensures Count(HasStatus(counted), P.EnsureList(env, r, spec).report)
              == Count(HasStatus(counted), r.report)
                 + if counted.EXISTS? then 1 + |spec.columns| else if counted.SKIPPED? then 1 else 0
  {
    var f := P.FindOrCreate(env, r, spec);
    AddCounts(P.Read(env, r), P.EXISTS, P.ListTarget(spec.displayName), counted);
    var looked := P.Read(env, f.0.(listIds := f.0.listIds[spec.displayName := f.1]));
    var present := P.Present(env.fold, looked.site[f.1].columns);
    PresentColumnsCount(env, looked, spec.displayName, spec.columns, f.1, present, counted);
    P.ColumnsQuiet(env, looked, spec.displayName, spec.columns, f.1, present);
    SkippedSeedCount(env, P.EnsureColumns(env, looked, spec.displayName, spec.columns, f.1, present),
                     spec, f.1, counted);
  }

  /** On a site that has everything, a run that gets through reports EXISTS once for every list and
      column of the specs, SKIPPED once a list, and nothing else. */
  lemma {:induction false} RerunReports(env: P.Env, site: seq<P.SPList>, specs: seq<P.ListSpec>)
    requires forall s :: s in specs ==> P.Satisfied(env, site, s) && s.seedRows != []
    requires !P.Provision(env, site, specs).aborted
    ensures
      var rows := P.Provision(env, site, specs).report;
      && Count(HasStatus(P.EXISTS), rows) == Wanted(specs)
      && Count(HasStatus(P.SKIPPED), rows) == |specs|
      && Count(HasStatus(P.CREATED), rows) == 0
      && Count(HasStatus(P.FAILED), rows) == 0
  {
    if specs != [] {
      var n := |specs| - 1;
      var before := P.Provision(env, site, specs[..n]);
      RerunReports(env, site, specs[..n]);
      P.NothingToDo(env, site, specs[..n]);
      SatisfiedListCount(env, before, specs[n], P.EXISTS);
      SatisfiedListCount(env, before, specs[n], P.SKIPPED);
      SatisfiedListCount(env, before, specs[n], P.CREATED);
      SatisfiedListCount(env, before, specs[n], P.FAILED);
    }
  }

  // ---------------------------------------------------------------- the two lists

  const ASSET_COLUMNS: seq<P.ColumnSpec> := [
    P.ColumnSpec("AssetTag", P.Text),
    P.ColumnSpec("SerialNumber", P.Text),
    P.ColumnSpec("DeviceName", P.Text),
    P.ColumnSpec("AssignedUser", P.Text),
    P.ColumnSpec("ComplianceStatus", P.Choice(["Compliant", "NonCompliant", "Unknown"])),
    P.ColumnSpec("LastCheckIn", P.DateTime)]

  const TICKET_COLUMNS: seq<P.ColumnSpec> := [
    P.ColumnSpec("TicketID", P.Text),
    P.ColumnSpec("Status", P.Choice(["New", "InProgress", "Resolved"])),
    P.ColumnSpec("Priority", P.Choice(["Low", "Medium", "High"])),
    P.ColumnSpec("SLAResolutionDue", P.DateTime),
    P.ColumnSpec("ResolvedDate", P.DateTime)]

  function BuildSpecs(assetRows: seq<P.Item>, ticketRows: seq<P.Item>): seq<P.ListSpec> {
    [P.ListSpec("Assets", ASSET_COLUMNS, assetRows), P.ListSpec("Tickets", TICKET_COLUMNS, ticketRows)]
  }

  /** Length and lower-cased first letter of an ASCII name. */
  function Signature(name: string): (nat, int)
    requires name != ""
  {
    (|name|, if 'A' <= name[0] <= 'Z' then name[0] as int + 32 else name[0] as int)
  }

  /** On an ASCII name casefold keeps the length and lower-cases the first letter. */
  ghost predicate FoldsLikeAscii(fold: string -> string, name: string) {
    name != "" && fold(name) != "" && (|fold(name)|, fold(name)[0] as int) == Signature(name)
  }

  ghost predicate Signatures(columns: seq<P.ColumnSpec>, signatures: seq<(nat, int)>) {
    |columns| == |signatures|
    && forall i :: 0 <= i < |columns| ==> columns[i].name != "" && Signature(columns[i].name) == signatures[i]
  }

  lemma BuiltSignatures()
    ensures Signatures(ASSET_COLUMNS, ASSET_SIGNATURES) && Signatures(TICKET_COLUMNS, TICKET_SIGNATURES)
  {}

  lemma DistinctSignatures(columns: seq<P.ColumnSpec>, signatures: seq<(nat, int)>, c: P.ColumnSpec, d: P.ColumnSpec)
    requires Signatures(columns, signatures) && c in columns && d in columns
    requires forall i, j :: 0 <= i < j < |signatures| ==> signatures[i] != signatures[j]
    requires Signature(c.name) == Signature(d.name)
    ensures c == d
  {
    var i :| 0 <= i < |columns| && columns[i] == c;
    var j :| 0 <= j < |columns| && columns[j] == d;
    assert signatures[i] == signatures[j];
  }

  lemma CoherentBySignature(fold: string -> string, all: seq<P.ColumnSpec>, signatures: seq<(nat, int)>,
                            specs: seq<P.ListSpec>)
    requires Signatures(all, signatures)
    requires forall i, j :: 0 <= i < j < |signatures| ==> signatures[i] != signatures[j]
    requires forall c :: c in all ==> FoldsLikeAscii(fold, c.name)
    requires forall s, c :: s in specs && c in s.columns ==> c in all
    ensures Coherent(fold, Everything(specs))
  {
    forall p, q | p in Everything(specs) && q in Everything(specs) && fold(p.name) == fold(q.name) ensures p == q {
      var c := SpecOf(specs, p);
      var d := SpecOf(specs, q);
      DistinctSignatures(all, signatures, c, d);
    }
    forall p | p in Everything(specs) ensures p.name != "" && p.displayName == p.name {
      var c := SpecOf(specs, p);
    }
  }

  lemma SpecOf(specs: seq<P.ListSpec>, p: P.Column) returns (c: P.ColumnSpec)
    requires p in Everything(specs)
    ensures p == P.Payload(c) && exists s :: s in specs && c in s.columns
  {
    var s :| s in specs && p in Payloads(s.columns);
    c :| c in s.columns && p == P.Payload(c);
  }

  const ASSET_SIGNATURES: seq<(nat, int)> := [(8, 97), (12, 115), (10, 100), (12, 97), (16, 99), (11, 108)]
  const TICKET_SIGNATURES: seq<(nat, int)> := [(8, 116), (6, 115), (8, 112), (16, 115), (12, 114)]

  lemma BuiltSignaturesDistinct()
    ensures forall i, j :: 0 <= i < j < |ASSET_SIGNATURES + TICKET_SIGNATURES| ==>
              (ASSET_SIGNATURES + TICKET_SIGNATURES)[i] != (ASSET_SIGNATURES + TICKET_SIGNATURES)[j]
  {
    assert forall i, j :: 0 <= i < j < |ASSET_SIGNATURES| ==> ASSET_SIGNATURES[i] != ASSET_SIGNATURES[j];
    assert forall i, j :: 0 <= i < j < |TICKET_SIGNATURES| ==> TICKET_SIGNATURES[i] != TICKET_SIGNATURES[j];
    assert forall i, j :: 0 <= i < |ASSET_SIGNATURES| && 0 <= j < |TICKET_SIGNATURES| ==>
             ASSET_SIGNATURES[i] != TICKET_SIGNATURES[j];
  }

  lemma SignaturesConcat(a: seq<P.ColumnSpec>, b: seq<P.ColumnSpec>, sa: seq<(nat, int)>, sb: seq<(nat, int)>)
    requires Signatures(a, sa) && Signatures(b, sb)
    ensures Signatures(a + b, sa + sb)
  {}

  lemma TwoSpecs(a: P.ListSpec, b: P.ListSpec)
    ensures forall s, c :: s in [a, b] && c in s.columns ==> c in a.columns + b.columns
  {}

  /** The script's own specs meet what the convergence theorem asks of specs, on every site. */
  lemma BuiltSpecsFit(env: P.Env, site: seq<P.SPList>, assetRows: seq<P.Item>, ticketRows: seq<P.Item>)
    requires forall c :: c in ASSET_COLUMNS + TICKET_COLUMNS ==> FoldsLikeAscii(env.fold, c.name)
    ensures Fitting(env, site, BuildSpecs(assetRows, ticketRows))
  {
    BuiltSpecsCoherent(env.fold, assetRows, ticketRows);
    EverythingFits(env, site, BuildSpecs(assetRows, ticketRows));
  }

  lemma BuiltSpecsCoherent(fold: string -> string, assetRows: seq<P.Item>, ticketRows: seq<P.Item>)
    requires forall c :: c in ASSET_COLUMNS + TICKET_COLUMNS ==> FoldsLikeAscii(fold, c.name)
    ensures Coherent(fold, Everything(BuildSpecs(assetRows, ticketRows)))
  {
    var specs := BuildSpecs(assetRows, ticketRows);
    BuiltSignatures();
    BuiltSignaturesDistinct();
    SignaturesConcat(ASSET_COLUMNS, TICKET_COLUMNS, ASSET_SIGNATURES, TICKET_SIGNATURES);
    TwoSpecs(specs[0], specs[1]);
    CoherentBySignature(fold, ASSET_COLUMNS + TICKET_COLUMNS, ASSET_SIGNATURES + TICKET_SIGNATURES, specs);
  }

  lemma TwoListsThirteen(assetRows: seq<P.Item>, ticketRows: seq<P.Item>)
    ensures Wanted(BuildSpecs(assetRows, ticketRows)) == 13
  {
    var specs := BuildSpecs(assetRows, ticketRows);
    assert specs[..1] == [specs[0]] && specs[..1][..0] == [];
    assert Wanted(specs[..1]) == 1 + |ASSET_COLUMNS| == 7;
    assert Wanted(specs) == 7 + 1 + |TICKET_COLUMNS|;
  }

  /** After a run that exits with 0, a run that gets through reports 13 EXISTS and 0 CREATED. */
  lemma RerunReportsThirteen(env: P.Env, again: P.Env, site: seq<P.SPList>, assetRows: seq<P.Item>,
                             ticketRows: seq<P.Item>)
    requires assetRows != [] && ticketRows != []
    requires again.fold == env.fold && (again.seed ==> env.seed)
    requires P.ExitCode(P.Provision(env, site, BuildSpecs(assetRows, ticketRows))) == 0
    requires
      var specs := BuildSpecs(assetRows, ticketRows);
      !P.Provision(again, P.Provision(env, site, specs).site, specs).aborted
    ensures
      var specs := BuildSpecs(assetRows, ticketRows);
      var rows := P.Provision(again, P.Provision(env, site, specs).site, specs).report;
      Count(HasStatus(P.EXISTS), rows) == 13 && Count(HasStatus(P.CREATED), rows) == 0
  {
    var specs := BuildSpecs(assetRows, ticketRows);
    var first := P.Provision(env, site, specs);
    BuiltNamesGiven(assetRows, ticketRows);
    forall s | s in specs ensures P.Satisfied(again, first.site, s) {
      P.ExitZeroMeansPresent(env, site, specs, s);
      assert P.HasColumns(env, first.site[P.Find(env.fold, first.site, s.displayName).value], s.columns);
    }
    TwoListsThirteen(assetRows, ticketRows);
    RerunReports(again, first.site, specs);
  }

  lemma BuiltNamesGiven(assetRows: seq<P.Item>, ticketRows: seq<P.Item>)
    ensures forall s :: s in BuildSpecs(assetRows, ticketRows) ==> P.NamesGiven(s.columns)
  {
    BuiltSignatures();
    assert forall c :: c in ASSET_COLUMNS ==> c.name != "";
    assert forall c :: c in TICKET_COLUMNS ==> c.name != "";
  }
}
