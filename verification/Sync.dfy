/**
 The sync job of app/sync.py: resolve each matched device's fields, PATCH its row, count what
 happened. A PATCH may be applied, refused, or applied although the client saw it fail.
 */
module SyncJob {
  import opened Basics
  import opened AssetIndexing

  const UNKNOWN := "Unknown"
  const COMPLIANT := "Compliant"
  const NON_COMPLIANT := "NonCompliant"

  datatype GraphUser = GraphUser(id: string, displayName: Option<string>, upn: Option<string>)

  datatype FieldBag = FieldBag(assignedUser: string, complianceStatus: string, lastCheckIn: Option<int>)

  datatype Op = Op(id: string, bag: FieldBag)

  datatype Fate = Applied | Refused | AppliedUnseen

  datatype Job = Job(device: GraphDevice, fate: Fate)

  /** Python's `a or b` on an optional string. */
  function Or(a: Option<string>, b: string): string {
    if a.Some? && a.value != "" then a.value else b
  }

  function Label(u: GraphUser): string {
    Or(u.displayName, Or(u.upn, UNKNOWN))
  }

  function DeviceLabel(d: GraphDevice): string {
    Or(d.displayName, Or(d.serialNumber, Or(d.deviceId, Or(Some(d.id), UNKNOWN))))
  }

  // ---------------------------------------------------------------- owners

  function SetDefault(t: map<Key, GraphUser>, k: Option<Key>, u: GraphUser): map<Key, GraphUser> {
    if k.None? || k.value in t then t else t[k.value := u]
  }

  function AddUser(fold: string -> string, t: map<Key, GraphUser>, u: GraphUser): map<Key, GraphUser> {
    SetDefault(SetDefault(t, Normalise(fold, u.upn), u), Normalise(fold, Some(u.id)), u)
  }

  function UserTable(fold: string -> string, users: seq<GraphUser>): map<Key, GraphUser> {
    if users == [] then map[] else AddUser(fold, UserTable(fold, users[..|users| - 1]), users[|users| - 1])
  }

  predicate Answers(fold: string -> string, u: GraphUser, k: Key) {
    Normalise(fold, u.upn) == Some(k) || Normalise(fold, Some(u.id)) == Some(k)
  }

  /** Linear search for the first user whose normalised UPN or id is `k`. */
  function FirstUser(fold: string -> string, users: seq<GraphUser>, k: Key): Option<GraphUser> {
    if users == [] then None
    else if Answers(fold, users[0], k) then Some(users[0])
    else FirstUser(fold, users[1..], k)
  }

  lemma {:induction false} FirstUserSnoc(fold: string -> string, users: seq<GraphUser>, u: GraphUser, k: Key)
    ensures FirstUser(fold, users + [u], k) ==
              if FirstUser(fold, users, k).Some? then FirstUser(fold, users, k)
              else if Answers(fold, u, k) then Some(u) else None
  {
    if users == [] {
      assert FirstUser(fold, [u][1..], k).None?;
    } else {
      assert (users + [u])[1..] == users[1..] + [u];
      FirstUserSnoc(fold, users[1..], u, k);
    }
  }

  /** The user table answers as the linear search does. */
  lemma {:induction false} OwnerIsFirstUser(fold: string -> string, users: seq<GraphUser>, k: Key)
    ensures
      var t := UserTable(fold, users);
      FirstUser(fold, users, k) == if k in t then Some(t[k]) else None
  {
    if users != [] {
      var n := |users| - 1;
      OwnerIsFirstUser(fold, users[..n], k);
      FirstUserSnoc(fold, users[..n], users[n], k);
      assert users == users[..n] + [users[n]];
    }
  }

  method IndexUsers(fold: string -> string, users: seq<GraphUser>) returns (table: map<Key, GraphUser>)
    ensures table == UserTable(fold, users)
    ensures forall k :: (k in table <==> FirstUser(fold, users, k).Some?)
                        && (k in table ==> FirstUser(fold, users, k) == Some(table[k]))
  {
    table := map[];
    for i := 0 to |users|
      invariant table == UserTable(fold, users[..i])
    {
      assert users[..i + 1][..i] == users[..i];
      var keys := [Normalise(fold, users[i].upn), Normalise(fold, Some(users[i].id))];
      ghost var before := table;
      for j := 0 to 2
        invariant j == 0 ==> table == before
        invariant j == 1 ==> table == SetDefault(before, keys[0], users[i])
        invariant j == 2 ==> table == AddUser(fold, before, users[i])
      {
        if keys[j].Some? && keys[j].value !in table {
          table := table[keys[j].value := users[i]];
        }
      }
    }
    assert users[..|users|] == users;
    forall k {
      OwnerIsFirstUser(fold, users, k);
    }
  }

  // ---------------------------------------------------------------- one device

  function Resolve(fold: string -> string, d: GraphDevice, table: map<Key, GraphUser>): FieldBag {
    var owner := Normalise(fold, d.ownerUpn);
    FieldBag(
      if owner.Some? && owner.value in table then Label(table[owner.value]) else UNKNOWN,
      match d.isCompliant
      case Some(true) => COMPLIANT
      case Some(false) => NON_COMPLIANT
      case None => UNKNOWN,
      d.lastSignIn)
  }

  /** The user's UPN or id is the owner the device names. */
  ghost predicate Knows(fold: string -> string, u: GraphUser, owner: Option<string>) {
    Shares(fold, u.upn, owner) || Shares(fold, Some(u.id), owner)
  }

  /** User `i` is the first in the directory the device can belong to. */
  ghost predicate FirstOwner(fold: string -> string, users: seq<GraphUser>, owner: Option<string>, i: nat) {
    && i < |users| && Knows(fold, users[i], owner)
    && forall j :: 0 <= j < i ==> !Knows(fold, users[j], owner)
  }

  /** How a user is shown: by name, or else by UPN, or else as unknown. */
  ghost predicate Shown(u: GraphUser, text: string) {
    if u.displayName.Some? && u.displayName.value != "" then text == u.displayName.value
    else if u.upn.Some? && u.upn.value != "" then text == u.upn.value
    else text == "Unknown"
  }

  lemma KnowsAnswers(fold: string -> string, u: GraphUser, owner: Option<string>)
    ensures Knows(fold, u, owner) <==>
            Normalise(fold, owner).Some? && Answers(fold, u, Normalise(fold, owner).value)
  {
    SharesKey(fold, u.upn, owner);
    SharesKey(fold, Some(u.id), owner);
  }

  lemma {:induction false} FirstUserAt(fold: string -> string, users: seq<GraphUser>, owner: Option<string>, i: nat)
    requires Normalise(fold, owner).Some?
    ensures FirstOwner(fold, users, owner, i) ==>
              FirstUser(fold, users, Normalise(fold, owner).value) == Some(users[i])
    ensures (forall u :: u in users ==> !Knows(fold, u, owner)) ==>
              FirstUser(fold, users, Normalise(fold, owner).value).None?
  {
    if users != [] {
      KnowsAnswers(fold, users[0], owner);
      assert users == [users[0]] + users[1..];
      if i > 0 {
        FirstUserAt(fold, users[1..], owner, i - 1);
      } else {
        FirstUserAt(fold, users[1..], owner, 0);
      }
      if FirstOwner(fold, users, owner, i) && i > 0 {
        assert !Knows(fold, users[0], owner);
        assert FirstOwner(fold, users[1..], owner, i - 1);
      }
    }
  }

  lemma LabelShown(u: GraphUser)
    ensures Shown(u, Label(u))
  {}

  /** Nothing is guessed: the owner is the first user of the directory whose UPN or id is the device's owner,
      or "Unknown" if there is none, compliance is what was reported or "Unknown", a missing check-in stays
      missing. */
  lemma ResolveHonest(fold: string -> string, d: GraphDevice, users: seq<GraphUser>, i: nat)
    ensures
      var bag := Resolve(fold, d, UserTable(fold, users));
      && (FirstOwner(fold, users, d.ownerUpn, i) ==> Shown(users[i], bag.assignedUser))
      && ((forall u :: u in users ==> !Knows(fold, u, d.ownerUpn)) ==> bag.assignedUser == "Unknown")
      && (d.isCompliant == Some(true) ==> bag.complianceStatus == "Compliant")
      && (d.isCompliant == Some(false) ==> bag.complianceStatus == "NonCompliant")
      && (d.isCompliant == None ==> bag.complianceStatus == "Unknown")
      && bag.lastCheckIn == d.lastSignIn
  {
    var owner := Normalise(fold, d.ownerUpn);
    if owner.Some? {
      OwnerIsFirstUser(fold, users, owner.value);
      FirstUserAt(fold, users, d.ownerUpn, i);
    } else if FirstOwner(fold, users, d.ownerUpn, i) {
      KnowsAnswers(fold, users[i], d.ownerUpn);
    }
    if i < |users| {
      LabelShown(users[i]);
    }
  }

  /** The PATCH a device calls for, if it is matched. */
  function Plan(fold: string -> string, rows: seq<AssetItem>, users: seq<GraphUser>, d: GraphDevice): Option<Op> {
    var id := LookupId(fold, rows, d);
    if id.None? then None else Some(Op(id.value, Resolve(fold, d, UserTable(fold, users))))
  }

  function PatchRow(row: AssetItem, op: Op): AssetItem {
    if row.id != op.id then row
    else row.(assignedUser := Some(op.bag.assignedUser),
              complianceStatus := Some(op.bag.complianceStatus),
              lastCheckIn := if op.bag.lastCheckIn.Some? then op.bag.lastCheckIn else row.lastCheckIn)
  }

  function PatchRows(rows: seq<AssetItem>, op: Op): (r: seq<AssetItem>)
    ensures |r| == |rows| && forall i :: 0 <= i < |rows| ==> r[i] == PatchRow(rows[i], op)
  {
    seq(|rows|, i requires 0 <= i < |rows| => PatchRow(rows[i], op))
  }

  function PatchAll(rows: seq<AssetItem>, ops: seq<Op>): seq<AssetItem>
    decreases |ops|
  {
    if ops == [] then rows else PatchAll(PatchRows(rows, ops[0]), ops[1..])
  }

  function PatchRowAll(row: AssetItem, ops: seq<Op>): AssetItem
    decreases |ops|
  {
    if ops == [] then row else PatchRowAll(PatchRow(row, ops[0]), ops[1..])
  }

  /** The PATCHes that reach the list, in order. */
  function Effects(fold: string -> string, rows: seq<AssetItem>, users: seq<GraphUser>, jobs: seq<Job>): seq<Op> {
    if jobs == [] then []
    else
      var j := jobs[|jobs| - 1];
      var op := Plan(fold, rows, users, j.device);
      Effects(fold, rows, users, jobs[..|jobs| - 1])
      + if op.Some? && !j.fate.Refused? then [op.value] else []
  }

  /** The list after one run over it. */
  function AfterRun(fold: string -> string, rows: seq<AssetItem>, users: seq<GraphUser>,
                    jobs: seq<Job>): seq<AssetItem> {
    PatchAll(rows, Effects(fold, rows, users, jobs))
  }

  function AllApplied(devices: seq<GraphDevice>): seq<Job> {
    if devices == [] then []
    else AllApplied(devices[..|devices| - 1]) + [Job(devices[|devices| - 1], Applied)]
  }

  function Devices(jobs: seq<Job>): seq<GraphDevice> {
    if jobs == [] then [] else Devices(jobs[..|jobs| - 1]) + [jobs[|jobs| - 1].device]
  }

  /** A PATCH applied twice, which a retry after a timeout may do, is applied once. */
  lemma PatchTwice(rows: seq<AssetItem>, op: Op)
    ensures PatchRows(PatchRows(rows, op), op) == PatchRows(rows, op)
  {
    forall i | 0 <= i < |rows| ensures PatchRow(PatchRow(rows[i], op), op) == PatchRow(rows[i], op) {}
  }

  // ---------------------------------------------------------------- what a run leaves alone

  lemma {:induction false} PatchAllPointwise(rows: seq<AssetItem>, ops: seq<Op>)
    ensures |PatchAll(rows, ops)| == |rows|
    ensures forall i :: 0 <= i < |rows| ==> PatchAll(rows, ops)[i] == PatchRowAll(rows[i], ops)
    decreases |ops|
  {
    if ops != [] {
      PatchAllPointwise(PatchRows(rows, ops[0]), ops[1..]);
    }
  }

  lemma {:induction false} PatchAllConcat(rows: seq<AssetItem>, a: seq<Op>, b: seq<Op>)
    ensures PatchAll(rows, a + b) == PatchAll(PatchAll(rows, a), b)
    decreases |a|
  {
    if a == [] {
      assert a + b == b;
    } else {
      assert (a + b)[1..] == a[1..] + b;
      PatchAllConcat(PatchRows(rows, a[0]), a[1..], b);
    }
  }

  lemma {:induction false} PatchRowAllFacts(row: AssetItem, ops: seq<Op>)
    ensures
      var r := PatchRowAll(row, ops);
      && r.id == row.id && r.title == row.title
      && r.serialNumber == row.serialNumber && r.deviceName == row.deviceName
      && (r != row ==> exists op :: op in ops && op.id == row.id)
      && (r.lastCheckIn != row.lastCheckIn ==>
            exists op :: op in ops && op.id == row.id && op.bag.lastCheckIn.Some?)
    decreases |ops|
  {
    if ops != [] {
      assert ops[0] in ops;
      assert forall op :: op in ops[1..] ==> op in ops;
      PatchRowAllFacts(PatchRow(row, ops[0]), ops[1..]);
    }
  }

  lemma {:induction false} EffectsArePlans(fold: string -> string, rows: seq<AssetItem>, users: seq<GraphUser>,
                                           jobs: seq<Job>, op: Op)
    requires op in Effects(fold, rows, users, jobs)
    ensures exists j :: j in jobs && !j.fate.Refused? && Plan(fold, rows, users, j.device) == Some(op)
  {
    var n := |jobs| - 1;
    if op in Effects(fold, rows, users, jobs[..n]) {
      EffectsArePlans(fold, rows, users, jobs[..n], op);
      var j :| j in jobs[..n] && !j.fate.Refused? && Plan(fold, rows, users, j.device) == Some(op);
      assert j in jobs;
    } else {
      assert jobs[n] in jobs;
    }
  }

  /** Rows keep their place and every column but AssignedUser, ComplianceStatus and LastCheckIn; a row
      changes only if a PATCH for some device that matches it reached the list, and its check-in only if
      such a device had one. */
  lemma OnlyThreeColumns(fold: string -> string, rows: seq<AssetItem>, users: seq<GraphUser>, jobs: seq<Job>, i: nat)
    requires i < |rows|
    ensures
      var after := AfterRun(fold, rows, users, jobs);
      && |after| == |rows|
      && after[i] == rows[i].(assignedUser := after[i].assignedUser,
                              complianceStatus := after[i].complianceStatus,
                              lastCheckIn := after[i].lastCheckIn)
      && (after[i] != rows[i] ==> exists j ::
            j in jobs && !j.fate.Refused? && LookupId(fold, rows, j.device) == Some(rows[i].id))
      && (after[i].lastCheckIn != rows[i].lastCheckIn ==> exists j ::
            j in jobs && !j.fate.Refused? && LookupId(fold, rows, j.device) == Some(rows[i].id)
            && j.device.lastSignIn.Some?)
  {
    var ops := Effects(fold, rows, users, jobs);
    PatchAllPointwise(rows, ops);
    PatchRowAllFacts(rows[i], ops);
    var r := PatchRowAll(rows[i], ops);
    if r != rows[i] {
      var op :| op in ops && op.id == rows[i].id;
      EffectsArePlans(fold, rows, users, jobs, op);
    }
    if r.lastCheckIn != rows[i].lastCheckIn {
      var op :| op in ops && op.id == rows[i].id && op.bag.lastCheckIn.Some?;
      EffectsArePlans(fold, rows, users, jobs, op);
    }
  }

  // ---------------------------------------------------------------- convergence

  /** Where two versions of a row may still differ, the PATCHes to come will settle it. */
  ghost predicate Settles(a: AssetItem, b: AssetItem, ops: seq<Op>) {
    && b == a.(assignedUser := b.assignedUser, complianceStatus := b.complianceStatus, lastCheckIn := b.lastCheckIn)
    && (a.assignedUser != b.assignedUser || a.complianceStatus != b.complianceStatus ==>
          exists op :: op in ops && op.id == a.id)
    && (a.lastCheckIn != b.lastCheckIn ==>
          exists op :: op in ops && op.id == a.id && op.bag.lastCheckIn.Some?)
  }

  lemma {:induction false} Absorb(a: AssetItem, b: AssetItem, ops: seq<Op>)
    requires Settles(a, b, ops)
    ensures PatchRowAll(a, ops) == PatchRowAll(b, ops)
    decreases |ops|
  {
    if ops != [] {
      var a', b' := PatchRow(a, ops[0]), PatchRow(b, ops[0]);
      assert ops == [ops[0]] + ops[1..];
      assert forall op :: op in ops ==> op == ops[0] || op in ops[1..];
      assert Settles(a', b', ops[1..]);
      Absorb(a', b', ops[1..]);
    }
  }

  lemma {:induction false} EffectsWithin(fold: string -> string, rows: seq<AssetItem>, users: seq<GraphUser>,
                                         jobs: seq<Job>)
    ensures forall op :: op in Effects(fold, rows, users, jobs) ==>
              op in Effects(fold, rows, users, AllApplied(Devices(jobs)))
  {
    if jobs != [] {
      var n := |jobs| - 1;
      EffectsWithin(fold, rows, users, jobs[..n]);
      var ds := Devices(jobs);
      assert ds[..|ds| - 1] == Devices(jobs[..n]);
      var all := AllApplied(ds);
      assert all[..|all| - 1] == AllApplied(Devices(jobs[..n]));
    }
  }

  /** Rows with the same ids and match columns call for the same PATCHes. */
  lemma {:induction false} EffectsAgree(fold: string -> string, a: seq<AssetItem>, b: seq<AssetItem>,
                                        users: seq<GraphUser>, jobs: seq<Job>)
    requires KeysWithin(a, b) && KeysWithin(b, a)
    ensures Effects(fold, a, users, jobs) == Effects(fold, b, users, jobs)
  {
    if jobs != [] {
      EffectsAgree(fold, a, b, users, jobs[..|jobs| - 1]);
      LookupOrderFree(fold, a, b, jobs[|jobs| - 1].device);
    }
  }

  lemma PatchedKeepKeys(rows: seq<AssetItem>, ops: seq<Op>)
    ensures KeysWithin(rows, PatchAll(rows, ops)) && KeysWithin(PatchAll(rows, ops), rows)
  {
    PatchAllPointwise(rows, ops);
    var after := PatchAll(rows, ops);
    forall x | x in rows ensures exists y :: SameKeys(x, y) && y in after {
      var i :| 0 <= i < |rows| && rows[i] == x;
      PatchRowAllFacts(x, ops);
      assert SameKeys(x, after[i]);
    }
    forall y | y in after ensures exists x :: SameKeys(y, x) && x in rows {
      var i :| 0 <= i < |after| && after[i] == y;
      PatchRowAllFacts(rows[i], ops);
      assert SameKeys(y, rows[i]);
    }
  }

  /** After a run in which any PATCHes failed, whether or not the failed ones took effect, a fully
      successful run over the same users and devices leaves the list as it would have without it. */
  lemma PartialThenFull(fold: string -> string, rows: seq<AssetItem>, users: seq<GraphUser>, jobs: seq<Job>)
    ensures
      var full := AllApplied(Devices(jobs));
      AfterRun(fold, AfterRun(fold, rows, users, jobs), users, full) == AfterRun(fold, rows, users, full)
  {
    var partial := Effects(fold, rows, users, jobs);
    var full := AllApplied(Devices(jobs));
    var ops := Effects(fold, rows, users, full);
    var mid := PatchAll(rows, partial);
    PatchedKeepKeys(rows, partial);
    EffectsAgree(fold, mid, rows, users, full);
    EffectsWithin(fold, rows, users, jobs);
    PatchAllPointwise(rows, partial);
    PatchAllPointwise(mid, ops);
    PatchAllPointwise(rows, ops);
    forall i | 0 <= i < |rows| ensures PatchRowAll(mid[i], ops) == PatchRowAll(rows[i], ops) {
      PatchRowAllFacts(rows[i], partial);
      assert Settles(rows[i], mid[i], ops);
      Absorb(rows[i], mid[i], ops);
    }
  }

  function AfterRuns(fold: string -> string, rows: seq<AssetItem>, users: seq<GraphUser>,
                     runs: seq<seq<Job>>): seq<AssetItem>
    decreases |runs|
  {
    if runs == [] then rows else AfterRuns(fold, AfterRun(fold, rows, users, runs[0]), users, runs[1..])
  }

  /** However many partial runs went before, one fully successful run ends where it would have ended on
      the list as it was. */
  lemma {:induction false} Converges(fold: string -> string, rows: seq<AssetItem>, users: seq<GraphUser>,
                                     runs: seq<seq<Job>>, devices: seq<GraphDevice>)
    requires forall r :: r in runs ==> Devices(r) == devices
    ensures AfterRun(fold, AfterRuns(fold, rows, users, runs), users, AllApplied(devices))
              == AfterRun(fold, rows, users, AllApplied(devices))
    decreases |runs|
  {
    if runs != [] {
      assert runs[0] in runs;
      Converges(fold, AfterRun(fold, rows, users, runs[0]), users, runs[1..], devices);
      PartialThenFull(fold, rows, users, runs[0]);
    }
  }

  lemma {:induction false} DevicesOfAllApplied(devices: seq<GraphDevice>)
    ensures Devices(AllApplied(devices)) == devices
  {
    if devices != [] {
      var n := |devices| - 1;
      DevicesOfAllApplied(devices[..n]);
      var all := AllApplied(devices);
      assert all[..|all| - 1] == AllApplied(devices[..n]);
      assert devices == devices[..n] + [devices[n]];
    }
  }

  /** Running the job twice is running it once. */
  lemma Idempotent(fold: string -> string, rows: seq<AssetItem>, users: seq<GraphUser>, devices: seq<GraphDevice>)
    ensures
      var once := AfterRun(fold, rows, users, AllApplied(devices));
      AfterRun(fold, once, users, AllApplied(devices)) == once
  {
    DevicesOfAllApplied(devices);
    PartialThenFull(fold, rows, users, AllApplied(devices));
  }

  // ---------------------------------------------------------------- what a run writes

  /** The job's PATCH reaches the row with this id. */
  ghost predicate Hits(fold: string -> string, rows: seq<AssetItem>, j: Job, id: string) {
    LookupId(fold, rows, j.device) == Some(id) && j.fate != Refused
  }

  /** `i` is the last of the jobs that hit row `id`. */
  ghost predicate LastHit(fold: string -> string, rows: seq<AssetItem>, jobs: seq<Job>, i: nat, id: string) {
    i < |jobs| && Hits(fold, rows, jobs[i], id) && forall j :: i < j < |jobs| ==> !Hits(fold, rows, jobs[j], id)
  }

  lemma {:induction false} PatchRowAllSnoc(row: AssetItem, ops: seq<Op>, op: Op)
    ensures PatchRowAll(row, ops + [op]) == PatchRow(PatchRowAll(row, ops), op)
    decreases |ops|
  {
    if ops == [] {
      assert [] + [op] == [op] && PatchRowAll(PatchRow(row, op), [op][1..]) == PatchRow(row, op);
    } else {
      assert (ops + [op])[1..] == ops[1..] + [op];
      PatchRowAllSnoc(PatchRow(row, ops[0]), ops[1..], op);
    }
  }

  /** A row after a run with these jobs. */
  function RowAfter(fold: string -> string, rows: seq<AssetItem>, users: seq<GraphUser>, jobs: seq<Job>,
                    row: AssetItem): AssetItem {
    PatchRowAll(row, Effects(fold, rows, users, jobs))
  }

  lemma RowAfterIsRow(fold: string -> string, rows: seq<AssetItem>, users: seq<GraphUser>, jobs: seq<Job>, i: nat)
    requires i < |rows|
    ensures |AfterRun(fold, rows, users, jobs)| == |rows|
    ensures AfterRun(fold, rows, users, jobs)[i] == RowAfter(fold, rows, users, jobs, rows[i])
  {
    PatchAllPointwise(rows, Effects(fold, rows, users, jobs));
  }

  lemma RowAfterSnoc(fold: string -> string, rows: seq<AssetItem>, users: seq<GraphUser>, jobs: seq<Job>,
                     row: AssetItem)
    requires jobs != []
    ensures
      var n := |jobs| - 1;
      var op := Plan(fold, rows, users, jobs[n].device);
      var before := RowAfter(fold, rows, users, jobs[..n], row);
      RowAfter(fold, rows, users, jobs, row) ==
      if op.Some? && !jobs[n].fate.Refused? then PatchRow(before, op.value) else before
  {
    var n := |jobs| - 1;
    var before := Effects(fold, rows, users, jobs[..n]);
    var op := Plan(fold, rows, users, jobs[n].device);
    if op.Some? && !jobs[n].fate.Refused? {
      PatchRowAllSnoc(row, before, op.value);
    } else {
      assert before + [] == before;
    }
  }

  lemma MissedTurn(fold: string -> string, rows: seq<AssetItem>, users: seq<GraphUser>, jobs: seq<Job>,
                   row: AssetItem)
    requires jobs != [] && !Hits(fold, rows, jobs[|jobs| - 1], row.id)
    ensures RowAfter(fold, rows, users, jobs, row) == RowAfter(fold, rows, users, jobs[..|jobs| - 1], row)
  {
    RowAfterSnoc(fold, rows, users, jobs, row);
    PatchRowAllFacts(row, Effects(fold, rows, users, jobs[..|jobs| - 1]));
  }

  lemma HitTurn(fold: string -> string, rows: seq<AssetItem>, users: seq<GraphUser>, jobs: seq<Job>,
                row: AssetItem)
    requires jobs != [] && Hits(fold, rows, jobs[|jobs| - 1], row.id)
    ensures
      var before := RowAfter(fold, rows, users, jobs[..|jobs| - 1], row);
      var bag := Resolve(fold, jobs[|jobs| - 1].device, UserTable(fold, users));
      before.id == row.id && RowAfter(fold, rows, users, jobs, row) == PatchRow(before, Op(row.id, bag))
  {
    RowAfterSnoc(fold, rows, users, jobs, row);
    PatchRowAllFacts(row, Effects(fold, rows, users, jobs[..|jobs| - 1]));
  }

  /** The job's PATCH reaches the row and has a check-in. */
  ghost predicate SignsIn(fold: string -> string, rows: seq<AssetItem>, j: Job, id: string) {
    Hits(fold, rows, j, id) && j.device.lastSignIn.Some?
  }

  ghost predicate LastSignIn(fold: string -> string, rows: seq<AssetItem>, jobs: seq<Job>, i: nat, id: string) {
    i < |jobs| && SignsIn(fold, rows, jobs[i], id) && forall j :: i < j < |jobs| ==> !SignsIn(fold, rows, jobs[j], id)
  }

  /** Jobs that do not reach the row leave it as it was before them. */
  lemma {:induction false} MissedTail(fold: string -> string, rows: seq<AssetItem>, users: seq<GraphUser>,
                                      jobs: seq<Job>, row: AssetItem, k: nat)
    requires k <= |jobs| && forall j :: k <= j < |jobs| ==> !Hits(fold, rows, jobs[j], row.id)
    ensures RowAfter(fold, rows, users, jobs, row) == RowAfter(fold, rows, users, jobs[..k], row)
    decreases |jobs|
  {
    if k == |jobs| {
      assert jobs[..k] == jobs;
    } else {
      var n := |jobs| - 1;
      MissedTurn(fold, rows, users, jobs, row);
      MissedTail(fold, rows, users, jobs[..n], row, k);
      assert jobs[..n][..k] == jobs[..k];
    }
  }

  lemma OwnerOfTurn(fold: string -> string, rows: seq<AssetItem>, users: seq<GraphUser>, jobs: seq<Job>,
                    row: AssetItem)
    requires jobs != [] && Hits(fold, rows, jobs[|jobs| - 1], row.id)
    ensures
      var r := RowAfter(fold, rows, users, jobs, row);
      var bag := Resolve(fold, jobs[|jobs| - 1].device, UserTable(fold, users));
      r.assignedUser == Some(bag.assignedUser) && r.complianceStatus == Some(bag.complianceStatus)
  {
    HitTurn(fold, rows, users, jobs, row);
  }

  lemma OwnerOfLast(fold: string -> string, rows: seq<AssetItem>, users: seq<GraphUser>, jobs: seq<Job>,
                    row: AssetItem, i: nat)
    requires LastHit(fold, rows, jobs, i, row.id)
    ensures
      var r := RowAfter(fold, rows, users, jobs, row);
      var bag := Resolve(fold, jobs[i].device, UserTable(fold, users));
      r.assignedUser == Some(bag.assignedUser) && r.complianceStatus == Some(bag.complianceStatus)
  {
    MissedTail(fold, rows, users, jobs, row, i + 1);
    OwnerOfTurn(fold, rows, users, jobs[..i + 1], row);
  }

  /** A job without a check-in, or that does not reach the row, leaves the row's check-in alone. */
  lemma SilentTurn(fold: string -> string, rows: seq<AssetItem>, users: seq<GraphUser>, jobs: seq<Job>,
                   row: AssetItem)
    requires jobs != [] && !SignsIn(fold, rows, jobs[|jobs| - 1], row.id)
    ensures RowAfter(fold, rows, users, jobs, row).lastCheckIn
              == RowAfter(fold, rows, users, jobs[..|jobs| - 1], row).lastCheckIn
  {
    if Hits(fold, rows, jobs[|jobs| - 1], row.id) {
      HitTurn(fold, rows, users, jobs, row);
    } else {
      MissedTurn(fold, rows, users, jobs, row);
    }
  }

  lemma {:induction false} CheckInOfLast(fold: string -> string, rows: seq<AssetItem>, users: seq<GraphUser>,
                                         jobs: seq<Job>, row: AssetItem, i: nat)
    requires LastSignIn(fold, rows, jobs, i, row.id)
    ensures RowAfter(fold, rows, users, jobs, row).lastCheckIn == jobs[i].device.lastSignIn
  {
    var n := |jobs| - 1;
    if i < n {
      SilentTurn(fold, rows, users, jobs, row);
      assert LastSignIn(fold, rows, jobs[..n], i, row.id);
      CheckInOfLast(fold, rows, users, jobs[..n], row, i);
    } else {
      HitTurn(fold, rows, users, jobs, row);
    }
  }

  lemma {:induction false} CheckInKept(fold: string -> string, rows: seq<AssetItem>, users: seq<GraphUser>,
                                       jobs: seq<Job>, row: AssetItem)
    requires forall n :: 0 <= n < |jobs| ==> !SignsIn(fold, rows, jobs[n], row.id)
    ensures RowAfter(fold, rows, users, jobs, row).lastCheckIn == row.lastCheckIn
  {
    if jobs != [] {
      SilentTurn(fold, rows, users, jobs, row);
      CheckInKept(fold, rows, users, jobs[..|jobs| - 1], row);
    }
  }

  lemma {:induction false} RowKept(fold: string -> string, rows: seq<AssetItem>, users: seq<GraphUser>,
                                   jobs: seq<Job>, row: AssetItem)
    requires forall n :: 0 <= n < |jobs| ==> !Hits(fold, rows, jobs[n], row.id)
    ensures RowAfter(fold, rows, users, jobs, row) == row
  {
    if jobs != [] {
      MissedTurn(fold, rows, users, jobs, row);
      RowKept(fold, rows, users, jobs[..|jobs| - 1], row);
    }
  }

  /** Whatever fails, a row ends with the owner and compliance of the last PATCH that reached it, and with the
      check-in of the last of those that had one; with its own where there was none. */
  lemma LastMatchWins(fold: string -> string, rows: seq<AssetItem>, users: seq<GraphUser>, jobs: seq<Job>, k: nat,
                      i: nat, j: nat)
    requires k < |rows|
    ensures |AfterRun(fold, rows, users, jobs)| == |rows|
    ensures
      var row, r := rows[k], AfterRun(fold, rows, users, jobs)[k];
      && (LastHit(fold, rows, jobs, i, row.id) ==>
            var bag := Resolve(fold, jobs[i].device, UserTable(fold, users));
            r.assignedUser == Some(bag.assignedUser) && r.complianceStatus == Some(bag.complianceStatus))
      && (LastSignIn(fold, rows, jobs, j, row.id) ==> r.lastCheckIn == jobs[j].device.lastSignIn)
      && ((forall n :: 0 <= n < |jobs| ==> !Hits(fold, rows, jobs[n], row.id)) ==> r == row)
      && ((forall n :: 0 <= n < |jobs| ==> !SignsIn(fold, rows, jobs[n], row.id)) ==> r.lastCheckIn == row.lastCheckIn)
  {
    var row := rows[k];
    RowAfterIsRow(fold, rows, users, jobs, k);
    if LastHit(fold, rows, jobs, i, row.id) {
      OwnerOfLast(fold, rows, users, jobs, row, i);
    }
    if LastSignIn(fold, rows, jobs, j, row.id) {
      CheckInOfLast(fold, rows, users, jobs, row, j);
    }
    if forall n :: 0 <= n < |jobs| ==> !Hits(fold, rows, jobs[n], row.id) {
      RowKept(fold, rows, users, jobs, row);
    }
    if forall n :: 0 <= n < |jobs| ==> !SignsIn(fold, rows, jobs[n], row.id) {
      CheckInKept(fold, rows, users, jobs, row);
    }
  }

  // ---------------------------------------------------------------- the summary

  /** A failed PATCH as the summary reports it. */
  datatype PatchError = PatchError(assetId: string, deviceLabel: string)

  datatype Summary = Summary(
    matched: nat,
    patched: nat,
    unmatched: seq<string>,
    unknownUser: nat,
    unknownCompliance: nat,
    unknownCheckIn: nat,
    errors: seq<PatchError>)

  /** What one device adds to the summary. */
  function Tally(s: Summary, op: Option<Op>, j: Job): Summary {
    if op.None? then s.(unmatched := s.unmatched + [DeviceLabel(j.device)])
    else
      var bag := op.value.bag;
      var t := s.(matched := s.matched + 1,
                  unknownUser := s.unknownUser + (if bag.assignedUser == UNKNOWN then 1 else 0),
                  unknownCompliance := s.unknownCompliance + (if bag.complianceStatus == UNKNOWN then 1 else 0),
                  unknownCheckIn := s.unknownCheckIn + (if bag.lastCheckIn.None? then 1 else 0));
      if j.fate.Applied? then t.(patched := t.patched + 1)
      else t.(errors := t.errors + [PatchError(op.value.id, DeviceLabel(j.device))])
  }

  function SummaryOf(fold: string -> string, rows: seq<AssetItem>, users: seq<GraphUser>, jobs: seq<Job>): Summary {
    if jobs == [] then Summary(0, 0, [], 0, 0, 0, [])
    else
      var j := jobs[|jobs| - 1];
      Tally(SummaryOf(fold, rows, users, jobs[..|jobs| - 1]), Plan(fold, rows, users, j.device), j)
  }

  /** Counting the jobs whose PATCH satisfies `p`. */
  function Planned(fold: string -> string, rows: seq<AssetItem>, users: seq<GraphUser>,
                   p: (Op, Fate) -> bool): Job -> bool {
    (j: Job) => Plan(fold, rows, users, j.device).Some? && p(Plan(fold, rows, users, j.device).value, j.fate)
  }

  lemma CountInit<T>(p: T -> bool, s: seq<T>)
    requires s != []
    ensures Count(p, s) == Count(p, s[..|s| - 1]) + if p(s[|s| - 1]) then 1 else 0
  {
    CountSnoc(p, s[..|s| - 1], s[|s| - 1]);
    assert s == s[..|s| - 1] + [s[|s| - 1]];
  }

  /** The counters count: every device is matched or listed as unmatched, every match is patched or
      listed as an error, and each unknown counter is the number of matched devices with that gap. */
  lemma {:induction false} Accounting(fold: string -> string, rows: seq<AssetItem>, users: seq<GraphUser>,
                                      jobs: seq<Job>)
    ensures
      var s := SummaryOf(fold, rows, users, jobs);
      && s.matched == Count(Planned(fold, rows, users, (op: Op, f: Fate) => true), jobs)
      && s.matched + |s.unmatched| == |jobs|
      && s.patched == Count(Planned(fold, rows, users, (op: Op, f: Fate) => f.Applied?), jobs)
      && s.patched + |s.errors| == s.matched
      && s.unknownUser == Count(Planned(fold, rows, users, (op: Op, f: Fate) => op.bag.assignedUser == "Unknown"), jobs)
      && s.unknownCompliance
           == Count(Planned(fold, rows, users, (op: Op, f: Fate) => op.bag.complianceStatus == "Unknown"), jobs)
      && s.unknownCheckIn == Count(Planned(fold, rows, users, (op: Op, f: Fate) => op.bag.lastCheckIn.None?), jobs)
  {
    if jobs != [] {
      Accounting(fold, rows, users, jobs[..|jobs| - 1]);
      CountInit(Planned(fold, rows, users, (op: Op, f: Fate) => true), jobs);
      CountInit(Planned(fold, rows, users, (op: Op, f: Fate) => f.Applied?), jobs);
      CountInit(Planned(fold, rows, users, (op: Op, f: Fate) => op.bag.assignedUser == UNKNOWN), jobs);
      CountInit(Planned(fold, rows, users, (op: Op, f: Fate) => op.bag.complianceStatus == UNKNOWN), jobs);
      CountInit(Planned(fold, rows, users, (op: Op, f: Fate) => op.bag.lastCheckIn.None?), jobs);
    }
  }

  /** A device by its name, or else its serial number, or else its device id, or else its id. */
  ghost function NameOf(d: GraphDevice): string {
    if d.displayName.Some? && d.displayName.value != "" then d.displayName.value
    else if d.serialNumber.Some? && d.serialNumber.value != "" then d.serialNumber.value
    else if d.deviceId.Some? && d.deviceId.value != "" then d.deviceId.value
    else if d.id != "" then d.id
    else "Unknown"
  }

  /** What a job adds to the devices without a match: its device's name. */
  ghost function Unmatched(fold: string -> string, rows: seq<AssetItem>): Job -> seq<string> {
    (j: Job) => if LookupId(fold, rows, j.device) == None then [NameOf(j.device)] else []
  }

  /** What a job adds to the errors, if its PATCH was not seen to succeed: the row and the device. */
  ghost function Failures(fold: string -> string, rows: seq<AssetItem>): Job -> seq<PatchError> {
    (j: Job) =>
      var id := LookupId(fold, rows, j.device);
      if id.Some? && j.fate != Applied then [PatchError(id.value, NameOf(j.device))] else []
  }

  lemma NamesAreLabels(d: GraphDevice)
    ensures DeviceLabel(d) == NameOf(d)
  {}

  lemma TallyLists(fold: string -> string, rows: seq<AssetItem>, users: seq<GraphUser>, s: Summary, j: Job)
    ensures
      var t := Tally(s, Plan(fold, rows, users, j.device), j);
      && t.unmatched == s.unmatched + (Unmatched(fold, rows))(j)
      && t.errors == s.errors + (Failures(fold, rows))(j)
  {
    NamesAreLabels(j.device);
  }

  /** The summary lists by name every device without a match and every match whose PATCH was not seen to
      succeed, in the order of the devices. */
  lemma {:induction false} ListsComplete(fold: string -> string, rows: seq<AssetItem>, users: seq<GraphUser>,
                                         jobs: seq<Job>)
    ensures SummaryOf(fold, rows, users, jobs).unmatched == Flat(Unmatched(fold, rows), jobs)
    ensures SummaryOf(fold, rows, users, jobs).errors == Flat(Failures(fold, rows), jobs)
  {
    if jobs != [] {
      var n := |jobs| - 1;
      ListsComplete(fold, rows, users, jobs[..n]);
      FlatSnoc(Unmatched(fold, rows), jobs[..n], jobs[n]);
      FlatSnoc(Failures(fold, rows), jobs[..n], jobs[n]);
      TallyLists(fold, rows, users, SummaryOf(fold, rows, users, jobs[..n]), jobs[n]);
      assert jobs == jobs[..n] + [jobs[n]];
    }
  }

  /** How the job can end: bad configuration, a failed read, or a finished run. */
  datatype Ending = BadConfiguration | ReadFailed | Ran(summary: Summary)

  function ExitCode(e: Ending): int {
    match e
    case BadConfiguration => 2
    case ReadFailed => 1
    case Ran(s) => if s.errors == [] then 0 else 1
  }

  /** Every matched device's PATCH was seen to succeed. */
  ghost predicate AllPatched(fold: string -> string, rows: seq<AssetItem>, jobs: seq<Job>) {
    forall j :: j in jobs && LookupId(fold, rows, j.device).Some? ==> j.fate == Applied
  }

  /** The process exits with 0 exactly when every matched device was patched. */
  lemma ExitZeroIffAllPatched(fold: string -> string, rows: seq<AssetItem>, users: seq<GraphUser>, jobs: seq<Job>)
    ensures
      var s := SummaryOf(fold, rows, users, jobs);
      && (ExitCode(Ran(s)) == 0 <==> s.patched == s.matched)
      && (ExitCode(Ran(s)) == 0 <==> AllPatched(fold, rows, jobs))
      && (ExitCode(Ran(s)) == 1 <==> !AllPatched(fold, rows, jobs))
  {
    Accounting(fold, rows, users, jobs);
    ErrorsAreFailures(fold, rows, users, jobs);
  }

  lemma AllPatchedSnoc(fold: string -> string, rows: seq<AssetItem>, jobs: seq<Job>)
    requires jobs != []
    ensures
      var n := |jobs| - 1;
      AllPatched(fold, rows, jobs) <==>
      AllPatched(fold, rows, jobs[..n]) && (LookupId(fold, rows, jobs[n].device).Some? ==> jobs[n].fate == Applied)
  {
    var n := |jobs| - 1;
    assert jobs == jobs[..n] + [jobs[n]];
    assert forall j :: j in jobs <==> j in jobs[..n] || j == jobs[n];
  }

  lemma {:induction false} ErrorsAreFailures(fold: string -> string, rows: seq<AssetItem>, users: seq<GraphUser>,
                                             jobs: seq<Job>)
    ensures SummaryOf(fold, rows, users, jobs).errors == [] <==> AllPatched(fold, rows, jobs)
  {
    if jobs != [] {
      ErrorsAreFailures(fold, rows, users, jobs[..|jobs| - 1]);
      AllPatchedSnoc(fold, rows, jobs);
    }
  }

  // ---------------------------------------------------------------- the job

  /** The Assets list on the server. */
  class AssetsList {
    var rows: seq<AssetItem>

    constructor (rows: seq<AssetItem>)
      ensures this.rows == rows
    {
      this.rows := rows;
    }

    /** A PATCH as the client sees it; `fate` says what really happened. */
    method Patch(op: Op, fate: Fate) returns (ok: bool)
      modifies this
      ensures rows == if fate.Refused? then old(rows) else PatchRows(old(rows), op)
      ensures ok <==> fate.Applied?
    {
      if !fate.Refused? {
        rows := PatchRows(rows, op);
      }
      ok := fate.Applied?;
    }
  }

  class SyncResult {
    var usersFetched: nat
    var devicesFetched: nat
    var assetsFetched: nat
    var matched: nat
    var patched: nat
    var unmatched: seq<string>
    var unknownUser: nat
    var unknownCompliance: nat
    var unknownCheckIn: nat
    var errors: seq<PatchError>

    constructor ()
      ensures View() == Summary(0, 0, [], 0, 0, 0, [])
    {
      usersFetched, devicesFetched, assetsFetched := 0, 0, 0;
      matched, patched, unmatched := 0, 0, [];
      unknownUser, unknownCompliance, unknownCheckIn, errors := 0, 0, 0, [];
    }

    function View(): Summary
      reads this
    {
      Summary(matched, patched, unmatched, unknownUser, unknownCompliance, unknownCheckIn, errors)
    }
  }

  lemma AfterRunSnoc(fold: string -> string, rows: seq<AssetItem>, users: seq<GraphUser>, jobs: seq<Job>)
    requires jobs != []
    ensures
      var j := jobs[|jobs| - 1];
      var before := AfterRun(fold, rows, users, jobs[..|jobs| - 1]);
      var op := Plan(fold, rows, users, j.device);
      AfterRun(fold, rows, users, jobs) ==
      if op.Some? && !j.fate.Refused? then PatchRows(before, op.value) else before
  {
    var j := jobs[|jobs| - 1];
    var ops := Effects(fold, rows, users, jobs[..|jobs| - 1]);
    var op := Plan(fold, rows, users, j.device);
    if op.Some? && !j.fate.Refused? {
      PatchAllConcat(rows, ops, [op.value]);
      var mid := PatchRows(PatchAll(rows, ops), op.value);
      assert [op.value][1..] == [] && PatchAll(mid, []) == mid;
    } else {
      assert ops + [] == ops;
    }
  }

  /** `sync_assets`, given what the two user and device reads returned and how each PATCH will fare. */
  method SyncAssets(fold: string -> string, list: AssetsList, users: seq<GraphUser>, jobs: seq<Job>)
    returns (result: SyncResult)
    modifies list
    ensures fresh(result)
    ensures list.rows == AfterRun(fold, old(list.rows), users, jobs)
    ensures result.View() == SummaryOf(fold, old(list.rows), users, jobs)
    ensures result.usersFetched == |users| && result.devicesFetched == |jobs|
    ensures result.assetsFetched == |old(list.rows)|
  {
    result := new SyncResult();
    var assets := list.rows;
    result.usersFetched, result.devicesFetched, result.assetsFetched := |users|, |jobs|, |assets|;
    var usersByKey := IndexUsers(fold, users);
    var index := BuildAssetIndex(fold, assets);
    SyncDevices(fold, list, result, index, users, usersByKey, jobs);
  }

  /** `main`: the exit code, when the settings can be loaded or not and the three reads get through or not. */
  method SyncMain(fold: string -> string, list: AssetsList, configured: bool, readable: bool,
                  users: seq<GraphUser>, jobs: seq<Job>) returns (code: int)
    modifies list
    ensures !configured ==> code == 2 && list.rows == old(list.rows)
    ensures configured && !readable ==> code == 1 && list.rows == old(list.rows)
    ensures configured && readable ==>
              && list.rows == AfterRun(fold, old(list.rows), users, jobs)
              && code == if AllPatched(fold, old(list.rows), jobs) then 0 else 1
  {
    if !configured {
      return ExitCode(BadConfiguration);
    }
    if !readable {
      return ExitCode(ReadFailed);
    }
    ExitZeroIffAllPatched(fold, list.rows, users, jobs);
    var result := SyncAssets(fold, list, users, jobs);
    code := ExitCode(Ran(result.View()));
  }

  /** The device loop. */
  method SyncDevices(fold: string -> string, list: AssetsList, result: SyncResult, index: AssetIndex,
                     ghost users: seq<GraphUser>, usersByKey: map<Key, GraphUser>, jobs: seq<Job>)
    requires usersByKey == UserTable(fold, users) && result.View() == Summary(0, 0, [], 0, 0, 0, [])
    requires index.serials.View() == Index(SerialKey(fold), list.rows)
    requires index.names.View() == Index(NameKey(fold), list.rows)
    modifies list, result
    ensures list.rows == AfterRun(fold, old(list.rows), users, jobs)
    ensures result.View() == SummaryOf(fold, old(list.rows), users, jobs)
    ensures unchanged(result`usersFetched) && unchanged(result`devicesFetched) && unchanged(result`assetsFetched)
  {
    ghost var assets := list.rows;
    assert AfterRun(fold, assets, users, jobs[..0]) == assets;
    for i := 0 to |jobs|
      invariant index.serials.View() == Index(SerialKey(fold), assets)
      invariant index.names.View() == Index(NameKey(fold), assets)
      invariant list.rows == AfterRun(fold, assets, users, jobs[..i])
      invariant result.View() == SummaryOf(fold, assets, users, jobs[..i])
      invariant unchanged(result`usersFetched) && unchanged(result`devicesFetched) && unchanged(result`assetsFetched)
    {
      assert jobs[..i + 1][..i] == jobs[..i];
      AfterRunSnoc(fold, assets, users, jobs[..i + 1]);
      SyncDevice(fold, list, result, index, usersByKey, jobs[i]);
    }
    assert jobs[..|jobs|] == jobs;
  }

  /** The body of the device loop. */
  method SyncDevice(fold: string -> string, list: AssetsList, result: SyncResult, index: AssetIndex,
                    usersByKey: map<Key, GraphUser>, job: Job)
    modifies list, result
    ensures
      var asset := LookupIn(fold, old(index.serials.View()), old(index.names.View()), job.device);
      var op := if asset.None? then None
                else Some(Op(asset.value.id, Resolve(fold, job.device, usersByKey)));
      && result.View() == Tally(old(result.View()), op, job)
      && list.rows == if op.Some? && !job.fate.Refused? then PatchRows(old(list.rows), op.value) else old(list.rows)
    ensures unchanged(result`usersFetched) && unchanged(result`devicesFetched) && unchanged(result`assetsFetched)
  {
    var asset := index.Find(fold, job.device);
    if asset.None? {
      result.unmatched := result.unmatched + [DeviceLabel(job.device)];
      return;
    }
    WriteMatch(list, result, Op(asset.value.id, Resolve(fold, job.device, usersByKey)), job);
  }

  /** Count the match, PATCH its row, and record how that went. */
  method WriteMatch(list: AssetsList, result: SyncResult, op: Op, job: Job)
    modifies list, result
    ensures result.View() == Tally(old(result.View()), Some(op), job)
    ensures list.rows == if job.fate.Refused? then old(list.rows) else PatchRows(old(list.rows), op)
    ensures unchanged(result`usersFetched) && unchanged(result`devicesFetched) && unchanged(result`assetsFetched)
  {
    CountMatch(result, op.bag);
    var ok := list.Patch(op, job.fate);
    if ok {
      result.patched := result.patched + 1;
    } else {
      result.errors := result.errors + [PatchError(op.id, DeviceLabel(job.device))];
    }
  }

  method CountMatch(result: SyncResult, bag: FieldBag)
    modifies result`matched, result`unknownUser, result`unknownCompliance, result`unknownCheckIn
    ensures result.View() == old(result.View()).(
                matched := old(result.matched) + 1,
                unknownUser := old(result.unknownUser) + (if bag.assignedUser == UNKNOWN then 1 else 0),
                unknownCompliance := old(result.unknownCompliance) + (if bag.complianceStatus == UNKNOWN then 1 else 0),
                unknownCheckIn := old(result.unknownCheckIn) + (if bag.lastCheckIn.None? then 1 else 0))
  {
    result.matched := result.matched + 1;
    if bag.assignedUser == UNKNOWN {
      result.unknownUser := result.unknownUser + 1;
    }
    if bag.complianceStatus == UNKNOWN {
      result.unknownCompliance := result.unknownCompliance + 1;
    }
    if bag.lastCheckIn.None? {
      result.unknownCheckIn := result.unknownCheckIn + 1;
    }
  }
}
