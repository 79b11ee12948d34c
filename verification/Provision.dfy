/**
 The provisioner of scripts/provision_sharepoint.py: look at the site, create the lists and columns
 that are missing, optionally seed an empty list. Every request may succeed, fail, take effect
 although the client sees it fail, or take effect more than once. Lists are addressed by their position,
 which never changes.
 */
module Provisioning {
  import opened Basics

  datatype Kind = Text | Choice(choices: seq<string>) | DateTime

  datatype ColumnSpec = ColumnSpec(name: string, kind: Kind)

  type Item = map<string, string>

  datatype ListSpec = ListSpec(displayName: string, columns: seq<ColumnSpec>, seedRows: seq<Item>)

  datatype Column = Column(name: string, displayName: string, kind: Kind)

  datatype SPList = SPList(displayName: string, name: string, columns: seq<Column>, items: seq<Item>)

  /** How a request fares. A POST retried after a timeout may have taken effect two or three times; the
      server refuses a second list or column of the same name, but not a second item. */
  datatype Fate = Done | Failed | DoneUnseen | Twice(seen: bool) | Thrice(seen: bool) {
    /** How often the POST of an item took effect. */
    function Copies(): nat {
      match this
      case Done => 1
      case Failed => 0
      case DoneUnseen => 1
      case Twice(_) => 2
      case Thrice(_) => 3
    }

    /** Whether the client saw the POST of an item succeed. */
    predicate Seen() {
      Done? || ((Twice? || Thrice?) && seen)
    }
  }

  datatype Status = CREATED | EXISTS | PLANNED | SKIPPED | FAILED

  datatype Target =
    | ListTarget(list: string)
    | ColumnTarget(list: string, column: ColumnSpec)
    | TitleTarget(list: string)
    | SeedTarget(list: string, rows: nat)
    | SeedRowTarget(row: Item)

  datatype ReportRow = ReportRow(status: Status, target: Target)

  /** What does not change during a run: `casefold`, the columns the server gives a new list, how each
      request will fare, and the --seed flag. */
  datatype Env = Env(fold: string -> string, defaults: seq<Column>, fates: nat -> Fate, seed: bool)

  /** The site, the requests sent (and how many were POSTs), the report, and whether an error ended the run. */
  datatype Run = Run(
    site: seq<SPList>,
    sent: nat,
    posts: nat,
    report: seq<ReportRow>,
    listIds: map<string, nat>,
    aborted: bool)

  function Begin(site: seq<SPList>): Run {
    Run(site, 0, 0, [], map[], false)
  }

  // ---------------------------------------------------------------- looking

  predicate Named(fold: string -> string, l: SPList, wanted: string) {
    fold(l.displayName) == fold(wanted) || fold(l.name) == fold(wanted)
  }

  /** `_find_list`: the first list whose display name or name folds to the wanted one. */
  function Find(fold: string -> string, site: seq<SPList>, wanted: string): (r: Option<nat>)
    ensures r.Some? ==> r.value < |site| && Named(fold, site[r.value], wanted)
    ensures forall i :: 0 <= i < (if r.Some? then r.value else |site|) ==> !Named(fold, site[i], wanted)
  {
    if site == [] then None
    else
      var r := Find(fold, site[..|site| - 1], wanted);
      if r.Some? then r
      else if Named(fold, site[|site| - 1], wanted) then Some(|site| - 1)
      else None
  }

  /** `_existing_column_names`: the built-in title, and every name and display name, folded. */
  function Present(fold: string -> string, columns: seq<Column>): set<string> {
    {"title"}
    + (set c | c in columns && c.name != "" :: fold(c.name))
    + (set c | c in columns && c.displayName != "" :: fold(c.displayName))
  }

  /** The column a POST of the spec makes. */
  function Payload(c: ColumnSpec): Column {
    Column(c.name, c.name, c.kind)
  }

  function NewList(env: Env, spec: ListSpec): SPList {
    SPList(spec.displayName, spec.displayName, env.defaults, [])
  }

  // ---------------------------------------------------------------- requests

  function Add(r: Run, status: Status, target: Target): Run {
    r.(report := r.report + [ReportRow(status, target)])
  }

  /** A GET: it changes nothing, and its failure is not caught. */
  function Read(env: Env, r: Run): Run {
    r.(sent := r.sent + 1, aborted := !env.fates(r.sent).Done?)
  }

  /** The POST of a list or column, which leaves the site as `after` if it takes effect. */
  function Post(env: Env, r: Run, after: seq<SPList>): Run {
    r.(sent := r.sent + 1, posts := r.posts + 1, site := if env.fates(r.sent).Failed? then r.site else after)
  }

  function AddColumn(site: seq<SPList>, id: nat, c: Column): seq<SPList>
    requires id < |site|
  {
    site[id := site[id].(columns := site[id].columns + [c])]
  }

  function Repeat(x: Item, n: nat): seq<Item> {
    if n == 0 then [] else [x] + Repeat(x, n - 1)
  }

  function AddItems(site: seq<SPList>, id: nat, x: Item, n: nat): seq<SPList>
    requires id < |site|
  {
    site[id := site[id].(items := site[id].items + Repeat(x, n))]
  }

  /** The POST of an item. */
  function PostItem(env: Env, r: Run, id: nat, x: Item): (r': Run)
    requires id < |r.site|
    ensures |r'.site| == |r.site|
  {
    r.(sent := r.sent + 1, posts := r.posts + 1, site := AddItems(r.site, id, x, env.fates(r.sent).Copies()))
  }

  // ---------------------------------------------------------------- one list

  /** The column loop: each spec column whose folded name was not there when the columns were read. */
  function EnsureColumns(env: Env, r: Run, list: string, columns: seq<ColumnSpec>, id: nat,
                         present: set<string>): (r': Run)
    requires id < |r.site|
    ensures |r'.site| == |r.site| && r'.aborted == r.aborted
  {
    if columns == [] then r
    else
      var n := |columns| - 1;
      var b := EnsureColumns(env, r, list, columns[..n], id, present);
      EnsureColumn(env, b, list, columns[n], id, present)
  }

  function EnsureColumn(env: Env, r: Run, list: string, c: ColumnSpec, id: nat, present: set<string>): (r': Run)
    requires id < |r.site|
    ensures |r'.site| == |r.site| && r'.aborted == r.aborted
  {
    if env.fold(c.name) in present then Add(r, EXISTS, ColumnTarget(list, c))
    else
      Add(Post(env, r, AddColumn(r.site, id, Payload(c))),
          if env.fates(r.sent).Done? then CREATED else FAILED,
          ColumnTarget(list, c))
  }

  /** The seed loop: it stops at the first row that fails. */
  function SeedRows(env: Env, r: Run, spec: ListSpec, rows: seq<Item>, id: nat): (r': Run)
    requires id < |r.site|
    ensures |r'.site| == |r.site| && r'.aborted == r.aborted
    decreases |rows|
  {
    if rows == [] then Add(r, CREATED, SeedTarget(spec.displayName, |spec.seedRows|))
    else
      var p := PostItem(env, r, id, rows[0]);
      if env.fates(r.sent).Seen() then SeedRows(env, p, spec, rows[1..], id)
      else Add(p, FAILED, SeedRowTarget(rows[0]))
  }

  function MaybeSeed(env: Env, r: Run, spec: ListSpec, id: nat): Run
    requires id < |r.site|
  {
    if !env.seed then Add(r, SKIPPED, SeedTarget(spec.displayName, |spec.seedRows|))
    else
      var probe := Read(env, r);
      if probe.aborted then probe
      else if r.site[id].items != [] then Add(probe, SKIPPED, SeedTarget(spec.displayName, |spec.seedRows|))
      else SeedRows(env, probe, spec, spec.seedRows, id)
  }

  /** Find the list or create it; the result's second part is its id unless the run was aborted. */
  function FindOrCreate(env: Env, r: Run, spec: ListSpec): (f: (Run, nat))
    ensures !f.0.aborted ==> f.1 < |f.0.site|
  {
    var looked := Read(env, r);
    var found := Find(env.fold, r.site, spec.displayName);
    if looked.aborted then (looked, 0)
    else if found.Some? then
      (Add(looked, EXISTS, ListTarget(spec.displayName)), found.value)
    else
      var p := Post(env, looked, r.site + [NewList(env, spec)]);
      if env.fates(looked.sent).Done? then (Add(p, CREATED, ListTarget(spec.displayName)), |r.site|)
      else (p.(aborted := true), 0)
  }

  function EnsureList(env: Env, r: Run, spec: ListSpec): Run {
    var f := FindOrCreate(env, r, spec);
    if f.0.aborted then f.0
    else
      var named := f.0.(listIds := f.0.listIds[spec.displayName := f.1]);
      var looked := Read(env, named);
      if looked.aborted then looked
      else
        var present := Present(env.fold, looked.site[f.1].columns);
        MaybeSeed(env, EnsureColumns(env, looked, spec.displayName, spec.columns, f.1, present), spec, f.1)
  }

  /** The whole run: specs in order, until an error gets out. */
  function Provision(env: Env, site: seq<SPList>, specs: seq<ListSpec>): Run {
    if specs == [] then Begin(site)
    else
      var n := |specs| - 1;
      var before := Provision(env, site, specs[..n]);
      if before.aborted then before else EnsureList(env, before, specs[n])
  }

  function ExitCode(r: Run): int {
    if r.aborted || exists row :: row in r.report && row.status.FAILED? then 1 else 0
  }

  // ---------------------------------------------------------------- create only

  ghost predicate ListGrows(a: SPList, b: SPList) {
    && a.displayName == b.displayName && a.name == b.name
    && a.columns <= b.columns && a.items <= b.items
    && (a.items != [] ==> a.items == b.items)
  }

  /** Nothing that was there is gone or different; a list that had items has exactly those. */
  ghost predicate Grows(a: seq<SPList>, b: seq<SPList>) {
    |a| <= |b| && forall i :: 0 <= i < |a| ==> ListGrows(a[i], b[i])
  }

  lemma GrowsTransitive(a: seq<SPList>, b: seq<SPList>, c: seq<SPList>)
    requires Grows(a, b) && Grows(b, c)
    ensures Grows(a, c)
  {}

  lemma {:induction false} ColumnsGrow(env: Env, r: Run, list: string, columns: seq<ColumnSpec>, id: nat,
                                       present: set<string>)
    requires id < |r.site|
    ensures Grows(r.site, EnsureColumns(env, r, list, columns, id, present).site)
    ensures forall i :: 0 <= i < |r.site| ==>
              EnsureColumns(env, r, list, columns, id, present).site[i].items == r.site[i].items
  {
    if columns != [] {
      ColumnsGrow(env, r, list, columns[..|columns| - 1], id, present);
    }
  }

  /** The seed loop adds to the items of its list and touches nothing else. */
  lemma {:induction false} SeedGrows(env: Env, r: Run, spec: ListSpec, rows: seq<Item>, id: nat)
    requires id < |r.site|
    ensures
      var r' := SeedRows(env, r, spec, rows, id);
      && r.site[id].items <= r'.site[id].items
      && r'.site == r.site[id := r.site[id].(items := r'.site[id].items)]
    decreases |rows|
  {
    if rows != [] {
      SeedGrows(env, PostItem(env, r, id, rows[0]), spec, rows[1..], id);
    }
  }

  lemma EnsureListGrows(env: Env, r: Run, spec: ListSpec)
    ensures Grows(r.site, EnsureList(env, r, spec).site)
  {
    var f := FindOrCreate(env, r, spec);
    assert Grows(r.site, f.0.site);
    if !f.0.aborted {
      var looked := Read(env, f.0.(listIds := f.0.listIds[spec.displayName := f.1]));
      if !looked.aborted {
        var present := Present(env.fold, looked.site[f.1].columns);
        ColumnsGrow(env, looked, spec.displayName, spec.columns, f.1, present);
        var c := EnsureColumns(env, looked, spec.displayName, spec.columns, f.1, present);
        GrowsTransitive(r.site, looked.site, c.site);
        SeedGrows(env, Read(env, c), spec, spec.seedRows, f.1);
        GrowsTransitive(r.site, c.site, EnsureList(env, r, spec).site);
      }
    }
  }

  /** For any site and any failures, provisioning removes and alters nothing: lists keep their place and
      names, columns and items are only appended to, and a list with items gets no more. */
  lemma {:induction false} CreatesOnly(env: Env, site: seq<SPList>, specs: seq<ListSpec>)
    ensures Grows(site, Provision(env, site, specs).site)
  {
    if specs != [] {
      var n := |specs| - 1;
      CreatesOnly(env, site, specs[..n]);
      var before := Provision(env, site, specs[..n]);
      EnsureListGrows(env, before, specs[n]);
      GrowsTransitive(site, before.site, EnsureList(env, before, specs[n]).site);
    }
  }

  // ---------------------------------------------------------------- what success means

  /** The list is there with every column of the spec and, if seeding was asked for, is not empty. */
  ghost predicate Satisfied(env: Env, site: seq<SPList>, spec: ListSpec) {
    var found := Find(env.fold, site, spec.displayName);
    && found.Some?
    && HasColumns(env, site[found.value], spec.columns)
    && (env.seed ==> site[found.value].items != [] || spec.seedRows == [])
  }

  ghost predicate HasColumns(env: Env, l: SPList, columns: seq<ColumnSpec>) {
    forall c :: c in columns ==> env.fold(c.name) in Present(env.fold, l.columns)
  }

  predicate NoFailure(r: Run) {
    forall row :: row in r.report ==> !row.status.FAILED?
  }

  ghost predicate NamesGiven(columns: seq<ColumnSpec>) {
    forall c :: c in columns ==> c.name != ""
  }

  lemma FindStable(fold: string -> string, a: seq<SPList>, b: seq<SPList>, wanted: string)
    requires Grows(a, b) && Find(fold, a, wanted).Some?
    ensures Find(fold, b, wanted) == Find(fold, a, wanted)
  {
    var i := Find(fold, a, wanted).value;
    forall j | 0 <= j <= i ensures Named(fold, b[j], wanted) <==> Named(fold, a[j], wanted) {
      assert ListGrows(a[j], b[j]);
    }
    FoundAt(fold, b, wanted, i);
  }

  lemma FoundAt(fold: string -> string, site: seq<SPList>, wanted: string, i: nat)
    requires i < |site| && Named(fold, site[i], wanted)
    requires forall j :: 0 <= j < i ==> !Named(fold, site[j], wanted)
    ensures Find(fold, site, wanted) == Some(i)
  {}

  lemma PresentGrows(fold: string -> string, a: seq<Column>, b: seq<Column>)
    requires forall c :: c in a ==> c in b
    ensures Present(fold, a) <= Present(fold, b)
  {}

  lemma SatisfiedStays(env: Env, a: seq<SPList>, b: seq<SPList>, spec: ListSpec)
    requires Grows(a, b) && Satisfied(env, a, spec)
    ensures Satisfied(env, b, spec)
  {
    FindStable(env.fold, a, b, spec.displayName);
    var i := Find(env.fold, a, spec.displayName).value;
    assert ListGrows(a[i], b[i]);
    PresentGrows(env.fold, a[i].columns, b[i].columns);
  }

  lemma PayloadPresent(fold: string -> string, columns: seq<Column>, c: ColumnSpec)
    requires c.name != "" && Payload(c) in columns
    ensures fold(c.name) in Present(fold, columns)
  {
    assert Payload(c).name != "";
  }

  /** Without a failed row, every column is there at the end. */
  lemma {:induction false} ColumnsComplete(env: Env, r: Run, list: string, columns: seq<ColumnSpec>, id: nat,
                                           present: set<string>)
    requires id < |r.site| && NamesGiven(columns) && present <= Present(env.fold, r.site[id].columns)
    requires NoFailure(EnsureColumns(env, r, list, columns, id, present))
    ensures HasColumns(env, EnsureColumns(env, r, list, columns, id, present).site[id], columns)
  {
    if columns != [] {
      var n := |columns| - 1;
      var b := EnsureColumns(env, r, list, columns[..n], id, present);
      var r' := EnsureColumns(env, r, list, columns, id, present);
      assert forall row :: row in b.report ==> row in r'.report;
      ColumnsComplete(env, r, list, columns[..n], id, present);
      ColumnsGrow(env, r, list, columns, id, present);
      PresentGrows(env.fold, b.site[id].columns, r'.site[id].columns);
      PresentGrows(env.fold, r.site[id].columns, r'.site[id].columns);
      if env.fold(columns[n].name) !in present {
        assert r'.report[|b.report|] in r'.report;
        PayloadPresent(env.fold, r'.site[id].columns, columns[n]);
      }
      assert forall c :: c in columns ==> c in columns[..n] || c == columns[n];
    }
  }

  lemma {:induction false} SeedComplete(env: Env, r: Run, spec: ListSpec, rows: seq<Item>, id: nat)
    requires id < |r.site| && NoFailure(SeedRows(env, r, spec, rows, id))
    ensures forall x :: x in rows ==> x in SeedRows(env, r, spec, rows, id).site[id].items
    decreases |rows|
  {
    if rows != [] {
      var p := PostItem(env, r, id, rows[0]);
      assert ReportRow(FAILED, SeedRowTarget(rows[0])) in Add(p, FAILED, SeedRowTarget(rows[0])).report;
      SeedComplete(env, p, spec, rows[1..], id);
      SeedGrows(env, p, spec, rows[1..], id);
      AddedThere(r.site, id, rows[0], env.fates(r.sent).Copies());
    }
  }

  lemma AddedThere(site: seq<SPList>, id: nat, x: Item, n: nat)
    requires id < |site| && n > 0
    ensures x in AddItems(site, id, x, n)[id].items
  {
    assert Repeat(x, n)[0] == x;
  }

  /** Nothing is ever taken out of the report. */
  lemma {:induction false} SeedReport(env: Env, r: Run, spec: ListSpec, rows: seq<Item>, id: nat)
    requires id < |r.site|
    ensures r.report <= SeedRows(env, r, spec, rows, id).report
    decreases |rows|
  {
    if rows != [] {
      SeedReport(env, PostItem(env, r, id, rows[0]), spec, rows[1..], id);
    }
  }

  lemma {:induction false} ColumnReport(env: Env, r: Run, list: string, columns: seq<ColumnSpec>, id: nat,
                                        present: set<string>)
    requires id < |r.site|
    ensures r.report <= EnsureColumns(env, r, list, columns, id, present).report
  {
    if columns != [] {
      ColumnReport(env, r, list, columns[..|columns| - 1], id, present);
    }
  }

  lemma MaybeSeedFacts(env: Env, r: Run, spec: ListSpec, id: nat)
    requires id < |r.site|
    ensures r.report <= MaybeSeed(env, r, spec, id).report
    ensures Grows(r.site, MaybeSeed(env, r, spec, id).site)
    ensures
      var r' := MaybeSeed(env, r, spec, id);
      !r'.aborted && NoFailure(r') && env.seed ==> r'.site[id].items != [] || spec.seedRows == []
  {
    if env.seed && !Read(env, r).aborted && r.site[id].items == [] {
      SeedReport(env, Read(env, r), spec, spec.seedRows, id);
      SeedGrows(env, Read(env, r), spec, spec.seedRows, id);
      if NoFailure(MaybeSeed(env, r, spec, id)) {
        SeedComplete(env, Read(env, r), spec, spec.seedRows, id);
        assert spec.seedRows != [] ==> spec.seedRows[0] in spec.seedRows;
      }
    }
  }

  lemma FindOrCreateFacts(env: Env, r: Run, spec: ListSpec)
    ensures
      var f := FindOrCreate(env, r, spec);
      && r.report <= f.0.report && Grows(r.site, f.0.site)
      && (!f.0.aborted ==> Find(env.fold, f.0.site, spec.displayName) == Some(f.1))
  {
    var f := FindOrCreate(env, r, spec);
    if !f.0.aborted && Find(env.fold, r.site, spec.displayName).None? {
      assert Named(env.fold, f.0.site[|r.site|], spec.displayName);
    }
  }

  lemma EnsureListReport(env: Env, r: Run, spec: ListSpec)
    ensures r.report <= EnsureList(env, r, spec).report
  {
    FindOrCreateFacts(env, r, spec);
    var f := FindOrCreate(env, r, spec);
    if !f.0.aborted {
      var looked := Read(env, f.0.(listIds := f.0.listIds[spec.displayName := f.1]));
      if !looked.aborted {
        var present := Present(env.fold, looked.site[f.1].columns);
        ColumnReport(env, looked, spec.displayName, spec.columns, f.1, present);
        MaybeSeedFacts(env, EnsureColumns(env, looked, spec.displayName, spec.columns, f.1, present), spec, f.1);
      }
    }
  }

  lemma EnsureListComplete(env: Env, r: Run, spec: ListSpec)
    requires NamesGiven(spec.columns)
    requires !EnsureList(env, r, spec).aborted && NoFailure(EnsureList(env, r, spec))
    ensures Satisfied(env, EnsureList(env, r, spec).site, spec)
  {
    FindOrCreateFacts(env, r, spec);
    var f := FindOrCreate(env, r, spec);
    var looked := Read(env, f.0.(listIds := f.0.listIds[spec.displayName := f.1]));
    var present := Present(env.fold, looked.site[f.1].columns);
    var c := EnsureColumns(env, looked, spec.displayName, spec.columns, f.1, present);
    var end := MaybeSeed(env, c, spec, f.1);
    MaybeSeedFacts(env, c, spec, f.1);
    assert forall row :: row in c.report ==> row in end.report;
    ColumnsComplete(env, looked, spec.displayName, spec.columns, f.1, present);
    ColumnsGrow(env, looked, spec.displayName, spec.columns, f.1, present);
    FindStable(env.fold, f.0.site, c.site, spec.displayName);
    FindStable(env.fold, c.site, end.site, spec.displayName);
    assert ListGrows(c.site[f.1], end.site[f.1]);
    PresentGrows(env.fold, c.site[f.1].columns, end.site[f.1].columns);
  }

  lemma NoFailureBefore(a: Run, b: Run)
    requires a.report <= b.report && NoFailure(b)
    ensures NoFailure(a)
  {
    assert forall row :: row in a.report ==> row in b.report;
  }

  lemma GoodTurn(env: Env, before: Run, last: ListSpec, spec: ListSpec)
    requires spec == last || Satisfied(env, before.site, spec)
    requires NamesGiven(last.columns)
    requires !EnsureList(env, before, last).aborted && NoFailure(EnsureList(env, before, last))
    ensures Satisfied(env, EnsureList(env, before, last).site, spec)
  {
    if spec == last {
      EnsureListComplete(env, before, spec);
    } else {
      EnsureListGrows(env, before, last);
      SatisfiedStays(env, before.site, EnsureList(env, before, last).site, spec);
    }
  }

  /** Before the last turn of a good run there was a good run. */
  lemma GoodBefore(env: Env, site: seq<SPList>, specs: seq<ListSpec>)
    requires specs != [] && !Provision(env, site, specs).aborted && NoFailure(Provision(env, site, specs))
    ensures
      var before := Provision(env, site, specs[..|specs| - 1]);
      && !before.aborted && NoFailure(before)
      && Provision(env, site, specs) == EnsureList(env, before, specs[|specs| - 1])
  {
    var before := Provision(env, site, specs[..|specs| - 1]);
    EnsureListReport(env, before, specs[|specs| - 1]);
    NoFailureBefore(before, Provision(env, site, specs));
  }

  lemma InFront<T>(s: seq<T>, x: T)
    requires x in s
    ensures x == s[|s| - 1] || x in s[..|s| - 1]
    ensures forall y :: y in s[..|s| - 1] ==> y in s
  {}

  lemma {:induction false} GoodRunComplete(env: Env, site: seq<SPList>, specs: seq<ListSpec>, spec: ListSpec)
    requires (forall s :: s in specs ==> NamesGiven(s.columns)) && spec in specs
    requires !Provision(env, site, specs).aborted && NoFailure(Provision(env, site, specs))
    ensures Satisfied(env, Provision(env, site, specs).site, spec)
  {
    var n := |specs| - 1;
    GoodBefore(env, site, specs);
    InFront(specs, spec);
    if spec != specs[n] {
      GoodRunComplete(env, site, specs[..n], spec);
    }
    GoodTurn(env, Provision(env, site, specs[..n]), specs[n], spec);
  }

  /** Whatever happened to the requests, an exit code of 0 means every list and column of the specs is
      there, and with --seed that no list of them is empty unless it has nothing to seed. */
  lemma ExitZeroMeansPresent(env: Env, site: seq<SPList>, specs: seq<ListSpec>, spec: ListSpec)
    requires forall s :: s in specs ==> NamesGiven(s.columns)
    requires ExitCode(Provision(env, site, specs)) == 0 && spec in specs
    ensures Satisfied(env, Provision(env, site, specs).site, spec)
  {
    GoodRunComplete(env, site, specs, spec);
  }

  // ---------------------------------------------------------------- a second run

  lemma {:induction false} ColumnsQuiet(env: Env, r: Run, list: string, columns: seq<ColumnSpec>, id: nat,
                                        present: set<string>)
    requires id < |r.site| && forall c :: c in columns ==> env.fold(c.name) in present
    ensures
      var r' := EnsureColumns(env, r, list, columns, id, present);
      && r'.site == r.site && r'.posts == r.posts
      && (NothingCreated(r) ==> NothingCreated(r'))
  {
    if columns != [] {
      var n := |columns| - 1;
      ColumnsQuiet(env, r, list, columns[..n], id, present);
      assert columns[n] in columns;
    }
  }

  /** The report claims no creation, except of the zero rows of a spec without seed rows. */
  ghost predicate NothingCreated(r: Run) {
    forall row :: row in r.report && row.status.CREATED? ==> row.target.SeedTarget? && row.target.rows == 0
  }

  lemma EnsureListQuiet(env: Env, r: Run, spec: ListSpec)
    requires Satisfied(env, r.site, spec) && NothingCreated(r)
    ensures
      var r' := EnsureList(env, r, spec);
      r'.site == r.site && r'.posts == r.posts && NothingCreated(r')
  {
    var f := FindOrCreate(env, r, spec);
    if !f.0.aborted {
      var looked := Read(env, f.0.(listIds := f.0.listIds[spec.displayName := f.1]));
      if !looked.aborted {
        ColumnsQuiet(env, looked, spec.displayName, spec.columns, f.1, Present(env.fold, looked.site[f.1].columns));
      }
    }
  }

  /** On a site that has everything, a run sends no POST, however its requests fare. */
  lemma {:induction false} NothingToDo(env: Env, site: seq<SPList>, specs: seq<ListSpec>)
    requires forall s :: s in specs ==> Satisfied(env, site, s)
    ensures
      var r := Provision(env, site, specs);
      r.posts == 0 && r.site == site && NothingCreated(r)
  {
    if specs != [] {
      var n := |specs| - 1;
      NothingToDo(env, site, specs[..n]);
      EnsureListQuiet(env, Provision(env, site, specs[..n]), specs[n]);
    }
  }

  /** Idempotence: after a run that exits with 0, another run creates nothing. */
  lemma SecondRunCreatesNothing(env: Env, again: Env, site: seq<SPList>, specs: seq<ListSpec>)
    requires forall s :: s in specs ==> NamesGiven(s.columns)
    requires ExitCode(Provision(env, site, specs)) == 0
    requires again.fold == env.fold && (again.seed ==> env.seed)
    ensures
      var first := Provision(env, site, specs);
      var second := Provision(again, first.site, specs);
      second.posts == 0 && second.site == first.site && NothingCreated(second)
  {
    var first := Provision(env, site, specs);
    forall s | s in specs ensures Satisfied(again, first.site, s) {
      ExitZeroMeansPresent(env, site, specs, s);
      assert HasColumns(env, first.site[Find(env.fold, first.site, s.displayName).value], s.columns);
    }
    NothingToDo(again, first.site, specs);
  }

  // ---------------------------------------------------------------- a run without failures

  ghost predicate AllDone(env: Env) {
    forall n :: env.fates(n).Done?
  }

  /** No request from the `k`-th on fails. */
  ghost predicate DoneFrom(env: Env, k: nat) {
    forall n :: k <= n ==> env.fates(n).Done?
  }

  lemma {:induction false} ColumnsSucceed(env: Env, r: Run, list: string, columns: seq<ColumnSpec>, id: nat,
                                          present: set<string>)
    requires DoneFrom(env, r.sent) && id < |r.site| && NoFailure(r)
    ensures NoFailure(EnsureColumns(env, r, list, columns, id, present))
    ensures r.sent <= EnsureColumns(env, r, list, columns, id, present).sent
  {
    if columns != [] {
      ColumnsSucceed(env, r, list, columns[..|columns| - 1], id, present);
    }
  }

  lemma {:induction false} SeedSucceeds(env: Env, r: Run, spec: ListSpec, rows: seq<Item>, id: nat)
    requires DoneFrom(env, r.sent) && id < |r.site| && NoFailure(r)
    ensures NoFailure(SeedRows(env, r, spec, rows, id)) && r.sent <= SeedRows(env, r, spec, rows, id).sent
    decreases |rows|
  {
    if rows != [] {
      SeedSucceeds(env, PostItem(env, r, id, rows[0]), spec, rows[1..], id);
    }
  }

  lemma EnsureListSucceeds(env: Env, r: Run, spec: ListSpec)
    requires DoneFrom(env, r.sent) && NoFailure(r) && !r.aborted
    ensures NoFailure(EnsureList(env, r, spec)) && !EnsureList(env, r, spec).aborted
    ensures r.sent <= EnsureList(env, r, spec).sent
  {
    var f := FindOrCreate(env, r, spec);
    var looked := Read(env, f.0.(listIds := f.0.listIds[spec.displayName := f.1]));
    var present := Present(env.fold, looked.site[f.1].columns);
    ColumnsSucceed(env, looked, spec.displayName, spec.columns, f.1, present);
    var c := EnsureColumns(env, looked, spec.displayName, spec.columns, f.1, present);
    SeedSucceeds(env, Read(env, c), spec, spec.seedRows, f.1);
  }

  /** From a good point on at which no later request fails, the run goes on well to its end. */
  lemma {:induction false} RestSucceeds(env: Env, site: seq<SPList>, specs: seq<ListSpec>, k: nat)
    requires k <= |specs|
    requires
      var r := Provision(env, site, specs[..k]);
      NoFailure(r) && !r.aborted && DoneFrom(env, r.sent)
    ensures
      var r := Provision(env, site, specs);
      NoFailure(r) && !r.aborted && Provision(env, site, specs[..k]).sent <= r.sent && DoneFrom(env, r.sent)
  {
    if k == |specs| {
      assert specs[..k] == specs;
    } else {
      var n := |specs| - 1;
      assert specs[..n][..k] == specs[..k];
      RestSucceeds(env, site, specs[..n], k);
      NextSucceeds(env, site, specs);
    }
  }

  lemma NextSucceeds(env: Env, site: seq<SPList>, specs: seq<ListSpec>)
    requires specs != []
    requires
      var r := Provision(env, site, specs[..|specs| - 1]);
      NoFailure(r) && !r.aborted && DoneFrom(env, r.sent)
    ensures
      var r := Provision(env, site, specs);
      && NoFailure(r) && !r.aborted && DoneFrom(env, r.sent)
      && Provision(env, site, specs[..|specs| - 1]).sent <= r.sent
  {
    EnsureListSucceeds(env, Provision(env, site, specs[..|specs| - 1]), specs[|specs| - 1]);
  }

  /** A run in which no request fails exits with 0. */
  lemma CleanRunSucceeds(env: Env, site: seq<SPList>, specs: seq<ListSpec>)
    requires AllDone(env)
    ensures NoFailure(Provision(env, site, specs)) && ExitCode(Provision(env, site, specs)) == 0
  {
    assert specs[..0] == [] && Provision(env, site, []) == Begin(site);
    RestSucceeds(env, site, specs, 0);
  }
}
