/**
 The script's own two lists, written out: what a dry run plans, and what a run on a site without them makes.
 */
module ProvisionScript {
  import opened Basics
  import opened Provisioning
  import opened ProvisionConvergence
  import opened ProvisioningExact
  import O = ProvisionObjects

  // ---------------------------------------------------------------- a list that is not there

  /** The columns of the specs, as they are made. */
  ghost function Made(columns: seq<ColumnSpec>): seq<Column> {
    seq(|columns|, k requires 0 <= k < |columns| => Column(columns[k].name, columns[k].name, columns[k].kind))
  }

  ghost function CreatedRows(list: string, columns: seq<ColumnSpec>): seq<ReportRow> {
    seq(|columns|, k requires 0 <= k < |columns| => ReportRow(CREATED, ColumnTarget(list, columns[k])))
  }

  /** The run `r'` goes on from `r`, has sent `n` more requests of which `m` are POSTs, and reports `rows` more. */
  ghost predicate GoesOn(r: Run, r': Run, n: nat, m: nat, rows: seq<ReportRow>) {
    && r'.sent == r.sent + n && r'.posts == r.posts + m
    && r'.report == r.report + rows
    && r'.aborted == r.aborted
  }

  lemma MadeSnoc(list: string, columns: seq<ColumnSpec>)
    requires columns != []
    ensures
      var n := |columns| - 1;
      && Made(columns) == Made(columns[..n]) + [Column(columns[n].name, columns[n].name, columns[n].kind)]
      && CreatedRows(list, columns)
           == CreatedRows(list, columns[..n]) + [ReportRow(CREATED, ColumnTarget(list, columns[n]))]
  {}

  lemma {:induction false} NewColumns(env: Env, r: Run, list: string, columns: seq<ColumnSpec>, id: nat,
                                      present: set<string>)
    requires AllDone(env) && id < |r.site| && forall c :: c in columns ==> env.fold(c.name) !in present
    ensures
      var r' := EnsureColumns(env, r, list, columns, id, present);
      && GoesOn(r, r', |columns|, |columns|, CreatedRows(list, columns))
      && r'.site == r.site[id := r.site[id].(columns := r.site[id].columns + Made(columns))]
  {
    if columns == [] {
      assert r.report + [] == r.report && r.site[id].columns + [] == r.site[id].columns;
    } else {
      var n := |columns| - 1;
      NewColumns(env, r, list, columns[..n], id, present);
      MadeSnoc(list, columns);
      assert columns[n] in columns;
      var b := EnsureColumns(env, r, list, columns[..n], id, present);
      Append(r.report, CreatedRows(list, columns[..n]), ReportRow(CREATED, ColumnTarget(list, columns[n])));
      Append(r.site[id].columns, Made(columns[..n]), Column(columns[n].name, columns[n].name, columns[n].kind));
    }
  }

  lemma Append<T>(a: seq<T>, b: seq<T>, x: T)
    ensures a + b + [x] == a + (b + [x])
  {}

  /** What a clean run without --seed reports of a list it makes. */
  ghost function NewListRows(spec: ListSpec): seq<ReportRow> {
    [ReportRow(CREATED, ListTarget(spec.displayName))]
    + CreatedRows(spec.displayName, spec.columns)
    + [ReportRow(SKIPPED, SeedTarget(spec.displayName, |spec.seedRows|))]
  }

  lemma NewListFound(env: Env, r: Run, spec: ListSpec)
    requires AllDone(env) && !r.aborted && Find(env.fold, r.site, spec.displayName).None?
    ensures
      var f := FindOrCreate(env, r, spec);
      && f.1 == |r.site|
      && f.0 == r.(sent := r.sent + 2, posts := r.posts + 1, site := r.site + [NewList(env, spec)],
                   report := r.report + [ReportRow(CREATED, ListTarget(spec.displayName))])
  {}

  lemma AfterNewList(env: Env, r: Run, spec: ListSpec, id: nat)
    requires AllDone(env) && !env.seed && !r.aborted && id < |r.site| && r.site[id].columns == env.defaults
    requires forall c :: c in spec.columns ==> !IsThere(env.fold, env.defaults, c.name)
    ensures
      var c := EnsureColumns(env, r, spec.displayName, spec.columns, id, Present(env.fold, r.site[id].columns));
      var r' := MaybeSeed(env, c, spec, id);
      var seed := ReportRow(SKIPPED, SeedTarget(spec.displayName, |spec.seedRows|));
      && GoesOn(r, r', |spec.columns|, |spec.columns|, CreatedRows(spec.displayName, spec.columns) + [seed])
      && r'.site == r.site[id := r.site[id].(columns := env.defaults + Made(spec.columns))]
      && r'.listIds == r.listIds
  {
    var present := Present(env.fold, env.defaults);
    forall c | c in spec.columns ensures env.fold(c.name) !in present {
      PresentIsThere(env.fold, env.defaults, c.name);
    }
    NewColumns(env, r, spec.displayName, spec.columns, id, present);
    ColumnsKeepIds(env, r, spec.displayName, spec.columns, id, present);
    Append(r.report, CreatedRows(spec.displayName, spec.columns),
           ReportRow(SKIPPED, SeedTarget(spec.displayName, |spec.seedRows|)));
  }

  /** A list as a clean run makes it. */
  ghost function NewOne(env: Env, spec: ListSpec): SPList {
    SPList(spec.displayName, spec.displayName, env.defaults + Made(spec.columns), [])
  }

  /** The run `r'` has made the list of the spec at the end. */
  ghost predicate MakesOne(env: Env, r: Run, r': Run, spec: ListSpec) {
    && GoesOn(r, r', |spec.columns| + 3, |spec.columns| + 1, NewListRows(spec))
    && r'.site == r.site + [NewOne(env, spec)]
    && r'.listIds == r.listIds[spec.displayName := |r.site|]
  }

  /** A list that is not there is made at the end, with the server's columns and then the spec's, and no items. */
  lemma NewListMade(env: Env, r: Run, spec: ListSpec)
    requires AllDone(env) && !env.seed && !r.aborted && Find(env.fold, r.site, spec.displayName).None?
    requires forall c :: c in spec.columns ==> !IsThere(env.fold, env.defaults, c.name)
    ensures MakesOne(env, r, EnsureList(env, r, spec), spec)
  {
    NewListFound(env, r, spec);
    var f := FindOrCreate(env, r, spec);
    var looked := Read(env, f.0.(listIds := f.0.listIds[spec.displayName := f.1]));
    AfterNewList(env, looked, spec, f.1);
    var list := ReportRow(CREATED, ListTarget(spec.displayName));
    var rest := CreatedRows(spec.displayName, spec.columns)
                + [ReportRow(SKIPPED, SeedTarget(spec.displayName, |spec.seedRows|))];
    assert r.report + [list] + rest == r.report + ([list] + rest);
    assert [list] + rest == NewListRows(spec);
  }

  lemma TwoMade(env: Env, site: seq<SPList>, r: Run, r': Run, a: ListSpec, b: ListSpec)
    requires MakesOne(env, Begin(site), r, a) && MakesOne(env, r, r', b)
    ensures r'.site == site + [NewOne(env, a)] + [NewOne(env, b)]
    ensures r'.report == NewListRows(a) + NewListRows(b) && r'.posts == |a.columns| + |b.columns| + 2
    ensures r'.listIds == map[a.displayName := |site|][b.displayName := |site| + 1]
  {
    assert [] + NewListRows(a) == NewListRows(a);
  }

  // ---------------------------------------------------------------- the two lists

  ghost const ASSETS: seq<Column> := [
    Column("AssetTag", "AssetTag", Text),
    Column("SerialNumber", "SerialNumber", Text),
    Column("DeviceName", "DeviceName", Text),
    Column("AssignedUser", "AssignedUser", Text),
    Column("ComplianceStatus", "ComplianceStatus", Choice(["Compliant", "NonCompliant", "Unknown"])),
    Column("LastCheckIn", "LastCheckIn", DateTime)]

  ghost const TICKETS: seq<Column> := [
    Column("TicketID", "TicketID", Text),
    Column("Status", "Status", Choice(["New", "InProgress", "Resolved"])),
    Column("Priority", "Priority", Choice(["Low", "Medium", "High"])),
    Column("SLAResolutionDue", "SLAResolutionDue", DateTime),
    Column("ResolvedDate", "ResolvedDate", DateTime)]

  lemma ScriptColumns()
    ensures Made(O.ASSET_COLUMNS) == ASSETS && Made(O.TICKET_COLUMNS) == TICKETS
  {}

  lemma TwoTurns(env: Env, site: seq<SPList>, a: ListSpec, b: ListSpec)
    ensures Provision(env, site, [a]) == EnsureList(env, Begin(site), a)
    ensures Provision(env, site, [a, b])
              == if Provision(env, site, [a]).aborted then Provision(env, site, [a])
                 else EnsureList(env, Provision(env, site, [a]), b)
  {
    assert [a, b][..1] == [a] && [a][..0] == [];
    assert Provision(env, site, []) == Begin(site);
  }

  lemma TwoNewLists(env: Env, site: seq<SPList>, a: ListSpec, b: ListSpec)
    requires AllDone(env) && !env.seed
    requires Find(env.fold, site, a.displayName).None? && Find(env.fold, site, b.displayName).None?
    requires env.fold(a.displayName) != env.fold(b.displayName)
    requires forall c :: c in a.columns ==> !IsThere(env.fold, env.defaults, c.name)
    requires forall c :: c in b.columns ==> !IsThere(env.fold, env.defaults, c.name)
    ensures
      var r := Provision(env, site, [a, b]);
      && r.site == site + [NewOne(env, a)] + [NewOne(env, b)]
      && r.report == NewListRows(a) + NewListRows(b)
      && r.posts == |a.columns| + |b.columns| + 2
      && r.listIds == map[a.displayName := |site|][b.displayName := |site| + 1]
  {
    TwoTurns(env, site, a, b);
    var first := EnsureList(env, Begin(site), a);
    NewListMade(env, Begin(site), a);
    StillNone(env.fold, site, NewOne(env, a), b.displayName);
    NewListMade(env, first, b);
    TwoMade(env, site, first, EnsureList(env, first, b), a, b);
  }

  /** On a site without them, a clean run without --seed makes the Assets and Tickets lists with exactly the
      columns the service reads and writes, in order, reports each as created, and prints their ids. */
  lemma ScriptMakes(env: Env, site: seq<SPList>, assetRows: seq<Item>, ticketRows: seq<Item>)
    requires AllDone(env) && !env.seed
    requires Find(env.fold, site, "Assets").None? && Find(env.fold, site, "Tickets").None?
    requires env.fold("Assets") != env.fold("Tickets")
    requires forall x :: x in ASSETS + TICKETS ==> !IsThere(env.fold, env.defaults, x.name)
    ensures
      var specs := O.BuildSpecs(assetRows, ticketRows);
      var r := Provision(env, site, specs);
      && r.site == site + [SPList("Assets", "Assets", env.defaults + ASSETS, [])]
                        + [SPList("Tickets", "Tickets", env.defaults + TICKETS, [])]
      && r.report == NewListRows(specs[0]) + NewListRows(specs[1])
      && r.posts == 13 && ExitCode(r) == 0
      && r.listIds == map["Assets" := |site|, "Tickets" := |site| + 1]
  {
    var specs := O.BuildSpecs(assetRows, ticketRows);
    ScriptColumns();
    ScriptColumnsNew(env);
    TwoNewLists(env, site, specs[0], specs[1]);
    CleanRunSucceeds(env, site, specs);
  }

  lemma StillNone(fold: string -> string, site: seq<SPList>, l: SPList, wanted: string)
    requires Find(fold, site, wanted).None? && !Named(fold, l, wanted)
    ensures Find(fold, site + [l], wanted).None?
  {
    assert (site + [l])[..|site|] == site;
  }

  lemma MadeNames(columns: seq<ColumnSpec>, c: ColumnSpec)
    requires c in columns
    ensures exists x :: x in Made(columns) && x.name == c.name
  {
    var k :| 0 <= k < |columns| && columns[k] == c;
    assert Made(columns)[k].name == c.name;
  }

  lemma ScriptColumnsNew(env: Env)
    requires forall x :: x in ASSETS + TICKETS ==> !IsThere(env.fold, env.defaults, x.name)
    ensures forall c :: c in O.ASSET_COLUMNS ==> !IsThere(env.fold, env.defaults, c.name)
    ensures forall c :: c in O.TICKET_COLUMNS ==> !IsThere(env.fold, env.defaults, c.name)
  {
    ScriptColumns();
    NamesNew(env, O.ASSET_COLUMNS, ASSETS);
    NamesNew(env, O.TICKET_COLUMNS, TICKETS);
  }

  lemma NamesNew(env: Env, columns: seq<ColumnSpec>, made: seq<Column>)
    requires Made(columns) == made && forall x :: x in made ==> !IsThere(env.fold, env.defaults, x.name)
    ensures forall c :: c in columns ==> !IsThere(env.fold, env.defaults, c.name)
  {
    forall c | c in columns ensures !IsThere(env.fold, env.defaults, c.name) {
      MadeNames(columns, c);
    }
  }

  /** The script's specs do not contradict each other, whatever lists they find. */
  lemma ScriptAgrees(fold: string -> string, lists: seq<SPList>, i: nat, assetRows: seq<Item>, ticketRows: seq<Item>)
    requires forall c :: c in O.ASSET_COLUMNS + O.TICKET_COLUMNS ==> O.FoldsLikeAscii(fold, c.name)
    ensures Agreed(fold, O.BuildSpecs(assetRows, ticketRows), lists, i)
  {
    var specs := O.BuildSpecs(assetRows, ticketRows);
    O.BuiltSpecsCoherent(fold, assetRows, ticketRows);
    forall c, d | Wanted(fold, specs, lists, i, c) && Wanted(fold, specs, lists, i, d) && fold(c.name) == fold(d.name)
      ensures c == d
    {
      WantedIsPayload(fold, specs, lists, i, c);
      WantedIsPayload(fold, specs, lists, i, d);
    }
  }

  lemma WantedIsPayload(fold: string -> string, specs: seq<ListSpec>, lists: seq<SPList>, i: nat, c: ColumnSpec)
    requires Wanted(fold, specs, lists, i, c)
    ensures Payload(c) in Everything(specs)
  {
    var s :| s in specs && Find(fold, lists, s.displayName) == Some(i) && c in s.columns;
    assert Payload(c) in Payloads(s.columns);
  }

  // ---------------------------------------------------------------- the plan

  /** What a dry run reports of a list: it, its columns and Title, and the seeding, in this order. */
  lemma PlanOfList(spec: ListSpec, seed: bool)
    ensures
      var rows := O.PlanList(spec, seed);
      var n := |spec.columns|;
      && |rows| == n + 3
      && rows[0] == ReportRow(PLANNED, ListTarget(spec.displayName))
      && (forall k :: 0 <= k < n ==> rows[k + 1] == ReportRow(PLANNED, ColumnTarget(spec.displayName, spec.columns[k])))
      && rows[n + 1] == ReportRow(EXISTS, TitleTarget(spec.displayName))
      && rows[n + 2].target == SeedTarget(spec.displayName, |spec.seedRows|)
      && rows[n + 2].status == if seed then PLANNED else SKIPPED
  {
    ColumnRowsAt(spec.displayName, spec.columns);
  }

  lemma {:induction false} ColumnRowsAt(list: string, columns: seq<ColumnSpec>)
    ensures |O.ColumnRows(list, columns)| == |columns|
    ensures forall k :: 0 <= k < |columns| ==>
              O.ColumnRows(list, columns)[k] == ReportRow(PLANNED, ColumnTarget(list, columns[k]))
  {
    if columns != [] {
      ColumnRowsAt(list, columns[..|columns| - 1]);
    }
  }
}
