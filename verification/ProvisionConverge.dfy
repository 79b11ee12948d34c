/**
 Provisioning again after a run that failed half way: the lists and columns end up as one clean run
 would have made them. Columns are compared as sets, since a column that failed at first is added
 behind those that did not.
 */
module ProvisionConvergence {
  import opened Basics
  import opened Provisioning

  // ---------------------------------------------------------------- sets of columns

  ghost function Cols(columns: seq<Column>): set<Column> {
    set c | c in columns
  }

  ghost function Payloads(columns: seq<ColumnSpec>): set<Column> {
    set c | c in columns :: Payload(c)
  }

  /** The folded names a set of columns occupies. */
  ghost function Taken(fold: string -> string, columns: set<Column>): set<string> {
    {"title"}
    + (set c | c in columns && c.name != "" :: fold(c.name))
    + (set c | c in columns && c.displayName != "" :: fold(c.displayName))
  }

  /** A list's columns after everything wanted and missing has been added. */
  ghost function Close(fold: string -> string, columns: set<Column>, want: set<Column>): set<Column> {
    columns + set c | c in want && fold(c.name) !in Taken(fold, columns)
  }

  /** Wanted columns are as the specs make them, and two with one folded name are the same column. */
  ghost predicate Coherent(fold: string -> string, want: set<Column>) {
    && (forall c :: c in want ==> c.name != "" && c.displayName == c.name)
    && forall c, d :: c in want && d in want && fold(c.name) == fold(d.name) ==> c == d
  }

  lemma PresentIsTaken(fold: string -> string, columns: seq<Column>)
    ensures Present(fold, columns) == Taken(fold, Cols(columns))
  {}

  /** Closing anything between a set and its closure gives the same closure. */
  lemma CloseBetween(fold: string -> string, base: set<Column>, p: set<Column>, want: set<Column>)
    requires Coherent(fold, want) && base <= p <= Close(fold, base, want)
    ensures Close(fold, p, want) == Close(fold, base, want)
  {
    forall c | c in Close(fold, base, want) ensures c in Close(fold, p, want) {
      if c !in p && fold(c.name) in Taken(fold, p) {
        assert exists d :: d in p && d !in base && fold(d.name) == fold(c.name);
      }
    }
  }

  /** A partial step after a partial step stays within the closure of both. */
  lemma CloseWithin(fold: string -> string, base: set<Column>, p: set<Column>, q: set<Column>, w1: set<Column>,
                    w2: set<Column>)
    requires base <= p <= Close(fold, base, w1) && p <= q <= Close(fold, p, w2)
    ensures base <= q <= Close(fold, base, w1 + w2)
  {}

  lemma CloseTwice(fold: string -> string, base: set<Column>, w1: set<Column>, w2: set<Column>)
    requires Coherent(fold, w1 + w2)
    ensures Close(fold, Close(fold, base, w1), w2) == Close(fold, base, w1 + w2)
  {
    var p := Close(fold, base, w1);
    forall c | c in Close(fold, base, w1 + w2) ensures c in Close(fold, p, w2) {
      if c !in p && fold(c.name) in Taken(fold, p) {
        assert exists d :: d in p && d !in base && fold(d.name) == fold(c.name);
      }
    }
  }

  lemma CloseMonotone(fold: string -> string, base: set<Column>, w1: set<Column>, w2: set<Column>)
    requires w1 <= w2
    ensures Close(fold, base, w1) <= Close(fold, base, w2)
  {}

  // ---------------------------------------------------------------- the column loop

  ghost function NewOnes(fold: string -> string, columns: seq<ColumnSpec>, present: set<string>): set<Column> {
    set c | c in Payloads(columns) && fold(c.name) !in present
  }

  lemma NewOnesSnoc(fold: string -> string, columns: seq<ColumnSpec>, present: set<string>)
    requires columns != []
    ensures
      var n := |columns| - 1;
      NewOnes(fold, columns, present) == NewOnes(fold, columns[..n], present)
        + if fold(columns[n].name) in present then {} else {Payload(columns[n])}
  {
    var n := |columns| - 1;
    assert columns == columns[..n] + [columns[n]];
    assert forall c :: c in columns <==> c in columns[..n] || c == columns[n];
    assert Payloads(columns) == Payloads(columns[..n]) + {Payload(columns[n])};
  }

  /** The loop adds some of the missing columns to its list, all of them if no request fails, and touches
      nothing else. */
  lemma {:induction false} ColumnsBound(env: Env, r: Run, list: string, columns: seq<ColumnSpec>, id: nat,
                                        present: set<string>)
    requires id < |r.site|
    ensures
      var r' := EnsureColumns(env, r, list, columns, id, present);
      var start, end := Cols(r.site[id].columns), Cols(r'.site[id].columns);
      && start <= end <= start + NewOnes(env.fold, columns, present)
      && (AllDone(env) ==> end == start + NewOnes(env.fold, columns, present))
      && r'.site == r.site[id := r.site[id].(columns := r'.site[id].columns)]
  {
    if columns != [] {
      var n := |columns| - 1;
      ColumnsBound(env, r, list, columns[..n], id, present);
      NewOnesSnoc(env.fold, columns, present);
      var b := EnsureColumns(env, r, list, columns[..n], id, present);
      var r' := EnsureColumns(env, r, list, columns, id, present);
      AddedColumn(b.site, id, Payload(columns[n]));
      assert || r'.site[id].columns == b.site[id].columns
             || r'.site[id].columns == b.site[id].columns + [Payload(columns[n])];
    }
  }

  lemma AddedColumn(site: seq<SPList>, id: nat, c: Column)
    requires id < |site|
    ensures Cols(AddColumn(site, id, c)[id].columns) == Cols(site[id].columns) + {c}
  {}

  // ---------------------------------------------------------------- the lists

  ghost predicate SameNames(a: seq<SPList>, b: seq<SPList>) {
    |a| == |b| && forall i :: 0 <= i < |a| ==> a[i].displayName == b[i].displayName && a[i].name == b[i].name
  }

  /** The lists a clean run leaves, by name: each missing one added at the end. */
  function Lists(env: Env, site: seq<SPList>, specs: seq<ListSpec>): seq<SPList> {
    if specs == [] then site
    else
      var b := Lists(env, site, specs[..|specs| - 1]);
      if Find(env.fold, b, specs[|specs| - 1].displayName).Some? then b
      else b + [NewList(env, specs[|specs| - 1])]
  }

  lemma {:induction false} FindSameNames(fold: string -> string, a: seq<SPList>, b: seq<SPList>, wanted: string)
    requires SameNames(a, b)
    ensures Find(fold, a, wanted) == Find(fold, b, wanted)
  {
    if a != [] {
      FindSameNames(fold, a[..|a| - 1], b[..|b| - 1], wanted);
    }
  }

  lemma {:induction false} ListsSameNames(env: Env, a: seq<SPList>, b: seq<SPList>, specs: seq<ListSpec>)
    requires SameNames(a, b)
    ensures SameNames(Lists(env, a, specs), Lists(env, b, specs))
  {
    if specs != [] {
      var n := |specs| - 1;
      ListsSameNames(env, a, b, specs[..n]);
      FindSameNames(env.fold, Lists(env, a, specs[..n]), Lists(env, b, specs[..n]), specs[n].displayName);
    }
  }

  lemma GrowsRefl(a: seq<SPList>)
    ensures Grows(a, a)
  {}

  lemma {:induction false} ListsGrow(env: Env, site: seq<SPList>, specs: seq<ListSpec>, k: nat)
    requires k <= |specs|
    ensures Grows(Lists(env, site, specs[..k]), Lists(env, site, specs))
  {
    if k == |specs| {
      assert specs[..k] == specs;
      GrowsRefl(Lists(env, site, specs));
    } else {
      var n := |specs| - 1;
      assert specs[..n][..k] == specs[..k];
      ListsGrow(env, site, specs[..n], k);
      GrowsRefl(Lists(env, site, specs[..n]));
      GrowsTransitive(Lists(env, site, specs[..k]), Lists(env, site, specs[..n]), Lists(env, site, specs));
    }
  }

  lemma {:induction false} ListsFound(env: Env, site: seq<SPList>, specs: seq<ListSpec>, s: ListSpec)
    requires s in specs
    ensures Find(env.fold, Lists(env, site, specs), s.displayName).Some?
  {
    var n := |specs| - 1;
    var b, l := Lists(env, site, specs[..n]), Lists(env, site, specs);
    if s == specs[n] {
      if Find(env.fold, b, s.displayName).None? {
        assert Named(env.fold, l[|b|], s.displayName);
      }
    } else {
      assert s in specs[..n];
      ListsFound(env, site, specs[..n], s);
      ListsGrow(env, site, specs, n);
      FindStable(env.fold, b, l, s.displayName);
    }
  }

  /** Where every list is there already, none is added. */
  lemma {:induction false} ListsIdle(env: Env, site: seq<SPList>, specs: seq<ListSpec>)
    requires forall s :: s in specs ==> Find(env.fold, site, s.displayName).Some?
    ensures Lists(env, site, specs) == site
  {
    if specs != [] {
      ListsIdle(env, site, specs[..|specs| - 1]);
    }
  }

  lemma ListsTwice(env: Env, site: seq<SPList>, specs: seq<ListSpec>)
    ensures Lists(env, Lists(env, site, specs), specs) == Lists(env, site, specs)
  {
    var mid := Lists(env, site, specs);
    forall s | s in specs ensures Find(env.fold, mid, s.displayName).Some? {
      ListsFound(env, site, specs, s);
    }
    ListsIdle(env, mid, specs);
  }

  /** Starting over after the first `k` specs adds the same lists as starting afresh. */
  lemma {:induction false} ListsRestart(env: Env, site: seq<SPList>, specs: seq<ListSpec>, k: nat, mid: seq<SPList>)
    requires k <= |specs| && mid == Lists(env, site, specs[..k])
    ensures Lists(env, mid, specs) == Lists(env, site, specs)
  {
    if k == |specs| {
      assert specs[..k] == specs;
      ListsTwice(env, site, specs);
    } else {
      assert specs[..|specs| - 1][..k] == specs[..k];
      ListsRestart(env, site, specs[..|specs| - 1], k, mid);
    }
  }

  // ---------------------------------------------------------------- bounds on any run

  /** The columns a list had to begin with, or was created with. */
  ghost function Base(env: Env, site: seq<SPList>, i: nat): set<Column> {
    if i < |site| then Cols(site[i].columns) else Cols(env.defaults)
  }

  /** What the specs want of list `i`, once the lists are `lists`. */
  ghost function Want(fold: string -> string, specs: seq<ListSpec>, lists: seq<SPList>, i: nat): set<Column> {
    set s, c | s in specs && Find(fold, lists, s.displayName) == Some(i) && c in Payloads(s.columns) :: c
  }

  ghost function Everything(specs: seq<ListSpec>): set<Column> {
    set s, c | s in specs && c in Payloads(s.columns) :: c
  }

  ghost predicate Bounded(env: Env, site: seq<SPList>, specs: seq<ListSpec>, after: seq<SPList>, i: nat)
    requires i < |after|
  {
    && Base(env, site, i) <= Cols(after[i].columns)
    && Cols(after[i].columns) <= Close(env.fold, Base(env, site, i), Want(env.fold, specs, after, i))
  }

  lemma WantGrows(fold: string -> string, specs: seq<ListSpec>, more: seq<ListSpec>, a: seq<SPList>,
                  b: seq<SPList>, i: nat)
    requires Grows(a, b) && forall s :: s in specs ==> s in more
    ensures Want(fold, specs, a, i) <= Want(fold, more, b, i)
  {
    forall c | c in Want(fold, specs, a, i) ensures c in Want(fold, more, b, i) {
      var s :| s in specs && Find(fold, a, s.displayName) == Some(i) && c in Payloads(s.columns);
      FindStable(fold, a, b, s.displayName);
    }
  }

  /** What one list's turn did to the columns of list `i`. */
  ghost predicate Turn(env: Env, before: set<Column>, after: seq<SPList>, spec: ListSpec, i: nat)
    requires i < |after|
  {
    var want := Want(env.fold, [spec], after, i);
    && before <= Cols(after[i].columns) <= Close(env.fold, before, want)
    && (AllDone(env) ==> Cols(after[i].columns) == Close(env.fold, before, want))
  }

  lemma WantOne(fold: string -> string, spec: ListSpec, lists: seq<SPList>, id: nat, i: nat)
    requires Find(fold, lists, spec.displayName) == Some(id)
    ensures Want(fold, [spec], lists, i) == if i == id then Payloads(spec.columns) else {}
  {
    assert spec in [spec];
  }

  lemma NewOnesClose(fold: string -> string, list: SPList, columns: seq<ColumnSpec>)
    ensures Cols(list.columns) + NewOnes(fold, columns, Present(fold, list.columns))
              == Close(fold, Cols(list.columns), Payloads(columns))
    ensures Close(fold, Cols(list.columns), {}) == Cols(list.columns)
  {
    PresentIsTaken(fold, list.columns);
  }

  /** From the moment the list is found: read its columns, add the missing, seed. */
  lemma FoundTurn(env: Env, r: Run, spec: ListSpec, id: nat, i: nat)
    requires Find(env.fold, r.site, spec.displayName) == Some(id) && i < |r.site|
    ensures
      var c := EnsureColumns(env, r, spec.displayName, spec.columns, id, Present(env.fold, r.site[id].columns));
      var after := MaybeSeed(env, c, spec, id).site;
      |after| == |r.site| && Turn(env, Cols(r.site[i].columns), after, spec, i)
  {
    var present := Present(env.fold, r.site[id].columns);
    var c := EnsureColumns(env, r, spec.displayName, spec.columns, id, present);
    var after := MaybeSeed(env, c, spec, id).site;
    ColumnsBound(env, r, spec.displayName, spec.columns, id, present);
    NewOnesClose(env.fold, r.site[id], spec.columns);
    NewOnesClose(env.fold, r.site[i], spec.columns);
    MaybeSeedColumns(env, c, spec, id);
    ColumnsGrow(env, r, spec.displayName, spec.columns, id, present);
    GrowsTransitive(r.site, c.site, after);
    FindStable(env.fold, r.site, after, spec.displayName);
    WantOne(env.fold, spec, after, id, i);
  }

  lemma TurnBound(env: Env, r: Run, spec: ListSpec, i: nat)
    requires i < |EnsureList(env, r, spec).site|
    ensures Turn(env, Base(env, r.site, i), EnsureList(env, r, spec).site, spec, i)
  {
    FindOrCreateFacts(env, r, spec);
    var f := FindOrCreate(env, r, spec);
    assert i < |f.0.site| ==> Cols(f.0.site[i].columns) == Base(env, r.site, i);
    if !f.0.aborted {
      var looked := Read(env, f.0.(listIds := f.0.listIds[spec.displayName := f.1]));
      if !looked.aborted {
        FoundTurnSize(env, looked, spec, f.1);
        FoundTurn(env, looked, spec, f.1, i);
      }
    }
  }

  lemma FoundTurnSize(env: Env, r: Run, spec: ListSpec, id: nat)
    requires id < |r.site|
    ensures
      var c := EnsureColumns(env, r, spec.displayName, spec.columns, id, Present(env.fold, r.site[id].columns));
      |MaybeSeed(env, c, spec, id).site| == |r.site|
  {}

  lemma MaybeSeedColumns(env: Env, r: Run, spec: ListSpec, id: nat)
    requires id < |r.site|
    ensures
      var after := MaybeSeed(env, r, spec, id).site;
      && Grows(r.site, after) && |after| == |r.site|
      && forall i :: 0 <= i < |after| ==> after[i].columns == r.site[i].columns
  {
    MaybeSeedFacts(env, r, spec, id);
    SeedGrows(env, Read(env, r), spec, spec.seedRows, id);
  }

  lemma EnsureListNames(env: Env, r: Run, spec: ListSpec)
    ensures
      var r' := EnsureList(env, r, spec);
      var found := Find(env.fold, r.site, spec.displayName);
      && (SameNames(r'.site, r.site) || SameNames(r'.site, r.site + [NewList(env, spec)]))
      && (SameNames(r'.site, r.site + [NewList(env, spec)]) ==> found.None?)
      && (!r'.aborted && found.None? ==> SameNames(r'.site, r.site + [NewList(env, spec)]))
      && (!r'.aborted ==> Find(env.fold, r'.site, spec.displayName).Some?)
  {
    FindOrCreateFacts(env, r, spec);
    var f := FindOrCreate(env, r, spec);
    AfterFindNames(env, r, spec);
    if !f.0.aborted {
      FindSameNames(env.fold, f.0.site, EnsureList(env, r, spec).site, spec.displayName);
    }
  }

  /** Once the list is found or created, no further list appears. */
  lemma AfterFindNames(env: Env, r: Run, spec: ListSpec)
    ensures SameNames(EnsureList(env, r, spec).site, FindOrCreate(env, r, spec).0.site)
  {
    var f := FindOrCreate(env, r, spec);
    if !f.0.aborted {
      var looked := Read(env, f.0.(listIds := f.0.listIds[spec.displayName := f.1]));
      if !looked.aborted {
        FoundTurnSize(env, looked, spec, f.1);
        var present := Present(env.fold, looked.site[f.1].columns);
        var c := EnsureColumns(env, looked, spec.displayName, spec.columns, f.1, present);
        ColumnsGrow(env, looked, spec.displayName, spec.columns, f.1, present);
        MaybeSeedColumns(env, c, spec, f.1);
        GrowsTransitive(f.0.site, c.site, EnsureList(env, r, spec).site);
      }
    }
  }

  /** The lists of any run are those of a clean run over the first `k` specs, by name and in order. */
  lemma {:induction false} RunNames(env: Env, site: seq<SPList>, specs: seq<ListSpec>) returns (k: nat)
    ensures k <= |specs| && SameNames(Provision(env, site, specs).site, Lists(env, site, specs[..k]))
    ensures !Provision(env, site, specs).aborted ==> k == |specs|
  {
    k := 0;
    if specs != [] {
      var n := |specs| - 1;
      var before := Provision(env, site, specs[..n]);
      k := RunNames(env, site, specs[..n]);
      assert specs[..n][..k] == specs[..k];
      if !before.aborted {
        k := TurnNames(env, site, specs, before);
      }
    }
  }

  lemma TurnNames(env: Env, site: seq<SPList>, specs: seq<ListSpec>, before: Run) returns (k: nat)
    requires specs != [] && SameNames(before.site, Lists(env, site, specs[..|specs| - 1]))
    ensures k <= |specs| && SameNames(EnsureList(env, before, specs[|specs| - 1]).site, Lists(env, site, specs[..k]))
    ensures !EnsureList(env, before, specs[|specs| - 1]).aborted ==> k == |specs|
  {
    var n := |specs| - 1;
    var lists := Lists(env, site, specs[..n]);
    var r' := EnsureList(env, before, specs[n]);
    EnsureListNames(env, before, specs[n]);
    FindSameNames(env.fold, before.site, lists, specs[n].displayName);
    assert specs[..|specs|] == specs;
    k := if SameNames(r'.site, before.site) && r'.aborted then n else |specs|;
    if SameNames(r'.site, before.site + [NewList(env, specs[n])]) {
      assert SameNames(r'.site, lists + [NewList(env, specs[n])]);
    }
  }

  lemma {:induction false} RunFinds(env: Env, site: seq<SPList>, specs: seq<ListSpec>, s: ListSpec)
    requires !Provision(env, site, specs).aborted && s in specs
    ensures Find(env.fold, Provision(env, site, specs).site, s.displayName).Some?
  {
    var k := RunNames(env, site, specs);
    assert specs[..k] == specs;
    ListsFound(env, site, specs, s);
    FindSameNames(env.fold, Provision(env, site, specs).site, Lists(env, site, specs), s.displayName);
  }

  /** What the specs so far wanted of a list, and what the next one adds. */
  lemma WantSplit(env: Env, site: seq<SPList>, specs: seq<ListSpec>, i: nat)
    requires specs != [] && !Provision(env, site, specs[..|specs| - 1]).aborted
    ensures
      var n := |specs| - 1;
      var before := Provision(env, site, specs[..n]).site;
      var after := Provision(env, site, specs).site;
      Want(env.fold, specs, after, i)
        == Want(env.fold, specs[..n], before, i) + Want(env.fold, [specs[n]], after, i)
  {
    var n := |specs| - 1;
    var before := Provision(env, site, specs[..n]);
    var after := Provision(env, site, specs).site;
    EnsureListGrows(env, before, specs[n]);
    GrowsRefl(after);
    assert forall s :: s in specs <==> s in specs[..n] || s == specs[n];
    WantGrows(env.fold, specs[..n], specs, before.site, after, i);
    WantGrows(env.fold, [specs[n]], specs, after, after, i);
    forall c | c in Want(env.fold, specs, after, i)
      ensures c in Want(env.fold, specs[..n], before.site, i) + Want(env.fold, [specs[n]], after, i)
    {
      var s :| s in specs && Find(env.fold, after, s.displayName) == Some(i) && c in Payloads(s.columns);
      if s in specs[..n] {
        RunFinds(env, site, specs[..n], s);
        FindStable(env.fold, before.site, after, s.displayName);
      } else {
        assert s in [specs[n]];
      }
    }
  }

  /** Whatever fails, a list ends between what it had and what it had plus everything wanted and missing;
      if nothing fails, with exactly that. */
  lemma {:induction false} RunBound(env: Env, site: seq<SPList>, specs: seq<ListSpec>, i: nat)
    requires i < |Provision(env, site, specs).site|
    requires Coherent(env.fold, Want(env.fold, specs, Provision(env, site, specs).site, i))
    ensures Bounded(env, site, specs, Provision(env, site, specs).site, i)
    ensures AllDone(env) ==>
              Cols(Provision(env, site, specs).site[i].columns)
                == Close(env.fold, Base(env, site, i), Want(env.fold, specs, Provision(env, site, specs).site, i))
  {
    if specs == [] {
      assert Want(env.fold, specs, site, i) == {};
    } else {
      var n := |specs| - 1;
      var before := Provision(env, site, specs[..n]);
      CreatesOnly(env, site, specs[..n]);
      if i < |before.site| {
        CoherentBefore(env, site, specs, i);
        RunBound(env, site, specs[..n], i);
      }
      if before.aborted {
        CleanRunNotAborted(env, site, specs[..n]);
        GrowsRefl(before.site);
        WantGrows(env.fold, specs[..n], specs, before.site, before.site, i);
        CloseMonotone(env.fold, Base(env, site, i), Want(env.fold, specs[..n], before.site, i),
                      Want(env.fold, specs, before.site, i));
      } else {
        RunTurn(env, site, specs, i);
      }
    }
  }

  lemma CleanRunNotAborted(env: Env, site: seq<SPList>, specs: seq<ListSpec>)
    ensures AllDone(env) ==> !Provision(env, site, specs).aborted
  {
    if AllDone(env) {
      CleanRunSucceeds(env, site, specs);
    }
  }

  lemma CoherentPart(fold: string -> string, some: set<Column>, want: set<Column>)
    requires Coherent(fold, want) && some <= want
    ensures Coherent(fold, some)
  {}

  /** What was wanted of a list before the last turn is coherent too. */
  lemma CoherentBefore(env: Env, site: seq<SPList>, specs: seq<ListSpec>, i: nat)
    requires specs != [] && Coherent(env.fold, Want(env.fold, specs, Provision(env, site, specs).site, i))
    ensures
      var n := |specs| - 1;
      Coherent(env.fold, Want(env.fold, specs[..n], Provision(env, site, specs[..n]).site, i))
  {
    var n := |specs| - 1;
    var before := Provision(env, site, specs[..n]);
    var after := Provision(env, site, specs).site;
    if before.aborted {
      GrowsRefl(before.site);
    } else {
      EnsureListGrows(env, before, specs[n]);
    }
    WantGrows(env.fold, specs[..n], specs, before.site, after, i);
    CoherentPart(env.fold, Want(env.fold, specs[..n], before.site, i), Want(env.fold, specs, after, i));
  }

  /** The specs ask nothing contradictory of any one list, as the lists of the site and the specs match. */
  ghost predicate Fitting(env: Env, site: seq<SPList>, specs: seq<ListSpec>) {
    var lists := Lists(env, site, specs);
    forall i :: 0 <= i < |lists| ==> Coherent(env.fold, Want(env.fold, specs, lists, i))
  }

  /** Specs that contradict each other nowhere fit every site. */
  lemma EverythingFits(env: Env, site: seq<SPList>, specs: seq<ListSpec>)
    requires Coherent(env.fold, Everything(specs))
    ensures Fitting(env, site, specs)
  {
    var lists := Lists(env, site, specs);
    forall i | 0 <= i < |lists| ensures Coherent(env.fold, Want(env.fold, specs, lists, i)) {
      WantWithin(env.fold, specs, lists, i);
      CoherentPart(env.fold, Want(env.fold, specs, lists, i), Everything(specs));
    }
  }

  lemma FittingSameNames(env: Env, a: seq<SPList>, b: seq<SPList>, specs: seq<ListSpec>)
    requires Fitting(env, a, specs) && SameNames(Lists(env, a, specs), Lists(env, b, specs))
    ensures Fitting(env, b, specs)
  {
    var la, lb := Lists(env, a, specs), Lists(env, b, specs);
    forall i | 0 <= i < |lb| ensures Coherent(env.fold, Want(env.fold, specs, lb, i)) {
      WantSameNames(env.fold, specs, la, lb, i);
    }
  }

  lemma WantWithin(fold: string -> string, specs: seq<ListSpec>, lists: seq<SPList>, i: nat)
    ensures Want(fold, specs, lists, i) <= Everything(specs)
  {}

  /** The last turn of a run, on top of the bound before it. */
  lemma RunTurn(env: Env, site: seq<SPList>, specs: seq<ListSpec>, i: nat)
    requires specs != [] && !Provision(env, site, specs[..|specs| - 1]).aborted
    requires i < |Provision(env, site, specs).site|
    requires Coherent(env.fold, Want(env.fold, specs, Provision(env, site, specs).site, i))
    requires
      var before := Provision(env, site, specs[..|specs| - 1]).site;
      && |site| <= |before|
      && (i < |before| ==>
            && Bounded(env, site, specs[..|specs| - 1], before, i)
            && (AllDone(env) ==>
                  Cols(before[i].columns)
                    == Close(env.fold, Base(env, site, i), Want(env.fold, specs[..|specs| - 1], before, i))))
    ensures Bounded(env, site, specs, Provision(env, site, specs).site, i)
    ensures AllDone(env) ==>
              Cols(Provision(env, site, specs).site[i].columns)
                == Close(env.fold, Base(env, site, i), Want(env.fold, specs, Provision(env, site, specs).site, i))
  {
    var n := |specs| - 1;
    var before := Provision(env, site, specs[..n]);
    var after := EnsureList(env, before, specs[n]).site;
    var base, mid := Base(env, site, i), Base(env, before.site, i);
    var w1, w2 := Want(env.fold, specs[..n], before.site, i), Want(env.fold, [specs[n]], after, i);
    TurnBound(env, before, specs[n], i);
    WantSplit(env, site, specs, i);
    if i >= |before.site| {
      assert w1 == {};
    }
    CloseStep(env.fold, base, mid, Cols(after[i].columns), w1, w2, AllDone(env));
  }

  lemma CloseStep(fold: string -> string, base: set<Column>, mid: set<Column>, end: set<Column>, w1: set<Column>,
                  w2: set<Column>, clean: bool)
    requires Coherent(fold, w1 + w2)
    requires base <= mid <= Close(fold, base, w1) && mid <= end <= Close(fold, mid, w2)
    requires clean ==> mid == Close(fold, base, w1) && end == Close(fold, mid, w2)
    ensures base <= end <= Close(fold, base, w1 + w2)
    ensures clean ==> end == Close(fold, base, w1 + w2)
  {
    CloseWithin(fold, base, mid, end, w1, w2);
    if clean {
      CloseTwice(fold, base, w1, w2);
    }
  }

  // ---------------------------------------------------------------- convergence

  /** The same lists in the same order, with the same columns in whatever order. */
  ghost predicate SameListsAndColumns(a: seq<SPList>, b: seq<SPList>) {
    SameNames(a, b) && forall i :: 0 <= i < |a| ==> Cols(a[i].columns) == Cols(b[i].columns)
  }

  /** After a run in which anything failed, a clean run reaches the lists and columns one clean run would
      have reached from the start. */
  lemma PartialThenClean(env: Env, clean: Env, site: seq<SPList>, specs: seq<ListSpec>)
    requires AllDone(clean) && clean.fold == env.fold && clean.defaults == env.defaults
    requires Fitting(clean, site, specs)
    ensures SameListsAndColumns(Provision(clean, Provision(env, site, specs).site, specs).site,
                                Provision(clean, site, specs).site)
  {
    var p := Provision(env, site, specs).site;
    var a, b := Provision(clean, p, specs).site, Provision(clean, site, specs).site;
    PartialNames(env, clean, site, specs);
    forall i | 0 <= i < |a| ensures Cols(a[i].columns) == Cols(b[i].columns) {
      PartialColumns(env, clean, site, specs, i);
    }
  }

  lemma {:induction false} ListsOtherEnv(env: Env, clean: Env, site: seq<SPList>, specs: seq<ListSpec>)
    requires clean.fold == env.fold && clean.defaults == env.defaults
    ensures Lists(env, site, specs) == Lists(clean, site, specs)
  {
    if specs != [] {
      ListsOtherEnv(env, clean, site, specs[..|specs| - 1]);
    }
  }

  /** After any run the lists still to come are those that were to come before. */
  lemma PartialLists(env: Env, clean: Env, site: seq<SPList>, specs: seq<ListSpec>)
    requires clean.fold == env.fold && clean.defaults == env.defaults
    ensures SameNames(Lists(clean, Provision(env, site, specs).site, specs), Lists(clean, site, specs))
  {
    var p := Provision(env, site, specs).site;
    var k := RunNames(env, site, specs);
    ListsOtherEnv(env, clean, site, specs[..k]);
    ListsSameNames(clean, p, Lists(clean, site, specs[..k]), specs);
    ListsRestart(clean, site, specs, k, Lists(clean, site, specs[..k]));
  }

  lemma CleanNames(clean: Env, site: seq<SPList>, specs: seq<ListSpec>)
    requires AllDone(clean)
    ensures SameNames(Provision(clean, site, specs).site, Lists(clean, site, specs))
  {
    CleanRunNotAborted(clean, site, specs);
    var k := RunNames(clean, site, specs);
    assert specs[..|specs|] == specs;
  }

  lemma PartialNames(env: Env, clean: Env, site: seq<SPList>, specs: seq<ListSpec>)
    requires AllDone(clean) && clean.fold == env.fold && clean.defaults == env.defaults
    ensures SameNames(Provision(clean, Provision(env, site, specs).site, specs).site,
                      Provision(clean, site, specs).site)
  {
    PartialLists(env, clean, site, specs);
    CleanNames(clean, Provision(env, site, specs).site, specs);
    CleanNames(clean, site, specs);
  }

  lemma WantSameNames(fold: string -> string, specs: seq<ListSpec>, a: seq<SPList>, b: seq<SPList>, i: nat)
    requires SameNames(a, b)
    ensures Want(fold, specs, a, i) == Want(fold, specs, b, i)
  {
    forall s | s in specs {
      FindSameNames(fold, a, b, s.displayName);
    }
  }

  lemma PartialColumns(env: Env, clean: Env, site: seq<SPList>, specs: seq<ListSpec>, i: nat)
    requires AllDone(clean) && clean.fold == env.fold && clean.defaults == env.defaults
    requires Fitting(clean, site, specs)
    requires i < |Provision(clean, Provision(env, site, specs).site, specs).site|
    ensures i < |Provision(clean, site, specs).site|
    ensures Cols(Provision(clean, Provision(env, site, specs).site, specs).site[i].columns)
              == Cols(Provision(clean, site, specs).site[i].columns)
  {
    var p := Provision(env, site, specs).site;
    var a, b := Provision(clean, p, specs).site, Provision(clean, site, specs).site;
    PartialNames(env, clean, site, specs);
    CleanNames(clean, site, specs);
    WantSameNames(env.fold, specs, a, b, i);
    WantSameNames(env.fold, specs, Lists(clean, site, specs), b, i);
    RunBound(clean, p, specs, i);
    RunBound(clean, site, specs, i);
    CreatesOnly(env, site, specs);
    CreatesOnly(clean, p, specs);
    var want := Want(env.fold, specs, b, i);
    var base, mid := Base(clean, site, i), Base(clean, p, i);
    if i < |p| {
      GrowsSameNames(p, a, b);
      WantGrows(env.fold, specs, specs, p, a, i);
      CoherentPart(env.fold, Want(env.fold, specs, p, i), want);
      RunBound(env, site, specs, i);
      CloseMonotone(env.fold, base, Want(env.fold, specs, p, i), want);
    }
    CloseBetween(env.fold, base, mid, want);
  }

  lemma SameNamesBack(a: seq<SPList>, b: seq<SPList>)
    requires SameNames(a, b)
    ensures SameNames(b, a)
  {}

  lemma GrowsSameNames(p: seq<SPList>, a: seq<SPList>, b: seq<SPList>)
    requires Grows(p, a) && SameNames(a, b)
    ensures |p| <= |b|
  {}

  function ProvisionAll(runs: seq<Env>, site: seq<SPList>, specs: seq<ListSpec>): seq<SPList>
    decreases |runs|
  {
    if runs == [] then site else ProvisionAll(runs[1..], Provision(runs[0], site, specs).site, specs)
  }

  /** However many failed runs went before. */
  lemma {:induction false} Converges(runs: seq<Env>, clean: Env, site: seq<SPList>, specs: seq<ListSpec>)
    requires AllDone(clean) && Fitting(clean, site, specs)
    requires forall e :: e in runs ==> e.fold == clean.fold && e.defaults == clean.defaults
    ensures SameListsAndColumns(Provision(clean, ProvisionAll(runs, site, specs), specs).site,
                                Provision(clean, site, specs).site)
    decreases |runs|
  {
    if runs != [] {
      assert runs[0] in runs;
      PartialLists(runs[0], clean, site, specs);
      SameNamesBack(Lists(clean, Provision(runs[0], site, specs).site, specs), Lists(clean, site, specs));
      FittingSameNames(clean, site, Provision(runs[0], site, specs).site, specs);
      Converges(runs[1..], clean, Provision(runs[0], site, specs).site, specs);
      PartialThenClean(runs[0], clean, site, specs);
    }
  }
}
