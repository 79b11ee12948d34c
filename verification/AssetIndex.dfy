/**
 Matching devices to Assets rows (app/sync.py): the two lookup tables built in one pass over the
 rows, against a statement about the whole list of rows.
 */
module AssetIndexing {
  import opened Basics

  type Key = string

  /** One row of the Assets list. Dates are integers. */
  datatype AssetItem = AssetItem(
    id: string,
    title: Option<string>,
    serialNumber: Option<string>,
    deviceName: Option<string>,
    assignedUser: Option<string>,
    complianceStatus: Option<string>,
    lastCheckIn: Option<int>)

  datatype GraphDevice = GraphDevice(
    id: string,
    deviceId: Option<string>,
    displayName: Option<string>,
    serialNumber: Option<string>,
    isCompliant: Option<bool>,
    lastSignIn: Option<int>,
    ownerUpn: Option<string>)

  /** `_normalise`; `fold` stands for strip and casefold together. */
  function Normalise(fold: string -> string, value: Option<string>): (k: Option<Key>)
    ensures k.Some? <==> value.Some? && value.value != "" && fold(value.value) != ""
    ensures k.Some? ==> k.value == fold(value.value)
  {
    match value
    case None => None
    case Some(v) => if v == "" || fold(v) == "" then None else Some(fold(v))
  }

  function SerialKey(fold: string -> string): AssetItem -> Option<Key> {
    (a: AssetItem) => Normalise(fold, a.serialNumber)
  }

  function NameKey(fold: string -> string): AssetItem -> Option<Key> {
    (a: AssetItem) => Normalise(fold, a.deviceName)
  }

  // ---------------------------------------------------------------- one table

  /** A lookup table and the keys struck from it. */
  datatype Table = Table(rows: map<Key, AssetItem>, ambiguous: set<Key>) {
    /** What a lookup of `k` can still tell: absent < one id < ambiguous. */
    function Status(k: Key): Status {
      if k in ambiguous then Ambiguous
      else if k in rows then One(rows[k].id)
      else Absent
    }
  }

  datatype Status = Absent | One(id: string) | Ambiguous {
    predicate AtMost(other: Status) {
      Absent? || other.Ambiguous? || this == other
    }
  }

  /** `_add_key`. */
  function AddKey(t: Table, key: Option<Key>, a: AssetItem): Table {
    if key.None? then t
    else if key.value in t.rows && t.rows[key.value].id != a.id then
      Table(t.rows - {key.value}, t.ambiguous + {key.value})
    else if key.value in t.ambiguous then t
    else t.(rows := t.rows[key.value := a])
  }

  /** The table after all rows, added in order. */
  function Index(key: AssetItem -> Option<Key>, assets: seq<AssetItem>): Table {
    if assets == [] then Table(map[], {})
    else AddKey(Index(key, assets[..|assets| - 1]), key(assets[|assets| - 1]), assets[|assets| - 1])
  }

  /** The ids of all rows having the key. */
  ghost function Ids(key: AssetItem -> Option<Key>, assets: seq<AssetItem>, k: Key): set<string> {
    set a | a in assets && key(a) == Some(k) :: a.id
  }

  /** `row` is the last row with key `k`. */
  ghost predicate IsLast(key: AssetItem -> Option<Key>, assets: seq<AssetItem>, k: Key, row: AssetItem) {
    exists i :: 0 <= i < |assets| && assets[i] == row && key(row) == Some(k)
                && forall j :: i < j < |assets| ==> key(assets[j]) != Some(k)
  }

  /** The table against the whole list: a key is present iff the rows having it share one id, and then
      with the last such row; it is struck iff they have two ids or more. */
  ghost predicate Exact(key: AssetItem -> Option<Key>, assets: seq<AssetItem>, t: Table, k: Key) {
    && (k in t.rows <==> |Ids(key, assets, k)| == 1)
    && (k in t.ambiguous <==> |Ids(key, assets, k)| >= 2)
    && (k in t.rows ==>
          && Ids(key, assets, k) == {t.rows[k].id}
          && IsLast(key, assets, k, t.rows[k]))
  }

  lemma IdsSnoc(key: AssetItem -> Option<Key>, assets: seq<AssetItem>, x: AssetItem, k: Key)
    ensures Ids(key, assets + [x], k) == Ids(key, assets, k) + if key(x) == Some(k) then {x.id} else {}
  {}

  lemma LastSnoc(key: AssetItem -> Option<Key>, assets: seq<AssetItem>, x: AssetItem, k: Key, row: AssetItem)
    ensures key(x) == Some(k) ==> IsLast(key, assets + [x], k, x)
    ensures key(x) != Some(k) && IsLast(key, assets, k, row) ==> IsLast(key, assets + [x], k, row)
  {
    var more := assets + [x];
    if key(x) == Some(k) {
      assert more[|assets|] == x;
    } else if IsLast(key, assets, k, row) {
      var i :| 0 <= i < |assets| && assets[i] == row && key(row) == Some(k)
               && forall j :: i < j < |assets| ==> key(assets[j]) != Some(k);
      assert more[i] == row;
    }
  }

  lemma Singleton(s: set<string>, x: string)
    ensures |s| == 1 && x in s ==> s == {x}
    ensures |s + {x}| == |s| + if x in s then 0 else 1
  {
    if x in s {
      assert s + {x} == s;
      assert s == (s - {x}) + {x};
      assert |s - {x}| == |s| - 1;
    }
  }

  lemma AddKeyExact(key: AssetItem -> Option<Key>, assets: seq<AssetItem>, t: Table, x: AssetItem, k: Key)
    requires Exact(key, assets, t, k)
    ensures Exact(key, assets + [x], AddKey(t, key(x), x), k)
  {
    IdsSnoc(key, assets, x, k);
    LastSnoc(key, assets, x, k, if k in t.rows then t.rows[k] else x);
    if key(x) == Some(k) {
      AddSameKey(t, Ids(key, assets, k), k, x);
    } else {
      assert Ids(key, assets + [x], k) == Ids(key, assets, k);
    }
  }

  /** What `_add_key` does to its own key, in terms of the ids seen so far. */
  lemma AddSameKey(t: Table, ids: set<string>, k: Key, x: AssetItem)
    requires (k in t.rows <==> |ids| == 1) && (k in t.ambiguous <==> |ids| >= 2)
    requires k in t.rows ==> ids == {t.rows[k].id}
    ensures
      var t' := AddKey(t, Some(k), x);
      && (k in t'.rows <==> |ids + {x.id}| == 1)
      && (k in t'.ambiguous <==> |ids + {x.id}| >= 2)
      && (k in t'.rows ==> t'.rows[k] == x && ids + {x.id} == {x.id})
  {
    Singleton(ids, x.id);
    if ids == {} {
      assert ids + {x.id} == {x.id};
    }
  }

  /** The one-pass table agrees with the statement about the whole list. */
  lemma {:induction false} IndexExact(key: AssetItem -> Option<Key>, assets: seq<AssetItem>, k: Key)
    ensures Exact(key, assets, Index(key, assets), k)
  {
    if assets == [] {
      assert Ids(key, assets, k) == {};
    } else {
      var n := |assets| - 1;
      IndexExact(key, assets[..n], k);
      AddKeyExact(key, assets[..n], Index(key, assets[..n]), assets[n], k);
      assert assets == assets[..n] + [assets[n]];
    }
  }

  /** Table keys and struck keys are disjoint and together are all the keys seen. */
  lemma KeysPartition(key: AssetItem -> Option<Key>, assets: seq<AssetItem>, k: Key)
    ensures !(k in Index(key, assets).rows && k in Index(key, assets).ambiguous)
    ensures (k in Index(key, assets).rows || k in Index(key, assets).ambiguous) <==>
            exists a :: a in assets && key(a) == Some(k)
  {
    IndexExact(key, assets, k);
    if a :| a in assets && key(a) == Some(k) {
      assert a.id in Ids(key, assets, k);
    } else {
      assert Ids(key, assets, k) == {};
    }
  }

  /** The status of a key is the number of ids its rows have. */
  lemma StatusExact(key: AssetItem -> Option<Key>, assets: seq<AssetItem>, k: Key)
    ensures Index(key, assets).Status(k).Absent? <==> Ids(key, assets, k) == {}
    ensures forall id :: Index(key, assets).Status(k) == One(id) <==> Ids(key, assets, k) == {id}
    ensures Index(key, assets).Status(k).Ambiguous? <==> |Ids(key, assets, k)| >= 2
  {
    IndexExact(key, assets, k);
    forall id | Ids(key, assets, k) == {id} ensures Index(key, assets).Status(k) == One(id) {
      assert |{id}| == 1;
      assert id in Ids(key, assets, k);
    }
  }

  /** More rows move a key only upwards: absent to one id to ambiguous, never from one id to another. */
  lemma StatusMonotone(key: AssetItem -> Option<Key>, some: seq<AssetItem>, more: seq<AssetItem>, k: Key)
    requires forall a :: a in some ==> a in more
    ensures Index(key, some).Status(k).AtMost(Index(key, more).Status(k))
  {
    StatusExact(key, some, k);
    StatusExact(key, more, k);
    var a, b := Ids(key, some, k), Ids(key, more, k);
    assert a <= b;
    if a != {} {
      var id :| id in a;
      Singleton(b, id);
      Singleton(a, id);
      assert b == a + (b - a) && |b| == |a| + |b - a|;
    }
  }

  // ---------------------------------------------------------------- both tables

  /** Every row of `a` has a row of `b` with the same id and the same match columns. */
  ghost predicate KeysWithin(a: seq<AssetItem>, b: seq<AssetItem>) {
    forall x :: x in a ==> exists y :: SameKeys(x, y) && y in b
  }

  ghost predicate SameKeys(x: AssetItem, y: AssetItem) {
    x.id == y.id && x.serialNumber == y.serialNumber && x.deviceName == y.deviceName
  }

  /** `AssetIndex.lookup`, on the two tables. */
  function LookupIn(fold: string -> string, serials: Table, names: Table, d: GraphDevice): Option<AssetItem> {
    var serial := Normalise(fold, d.serialNumber);
    if serial.Some? && serial.value !in serials.ambiguous && serial.value in serials.rows then
      Some(serials.rows[serial.value])
    else
      var name := Normalise(fold, d.displayName);
      if name.Some? && name.value !in names.ambiguous && name.value in names.rows then
        Some(names.rows[name.value])
      else
        None
  }

  function Lookup(fold: string -> string, assets: seq<AssetItem>, d: GraphDevice): Option<AssetItem> {
    LookupIn(fold, Index(SerialKey(fold), assets), Index(NameKey(fold), assets), d)
  }

  function LookupId(fold: string -> string, assets: seq<AssetItem>, d: GraphDevice): Option<string> {
    var a := Lookup(fold, assets, d);
    if a.None? then None else Some(a.value.id)
  }

  // ---------------------------------------------------------------- what a lookup promises

  /** Two values that match: both given and not empty, and trimmed and without case the same, and not empty. */
  ghost predicate Shares(fold: string -> string, v: Option<string>, w: Option<string>) {
    v.Some? && w.Some? && v.value != "" && w.value != "" && fold(v.value) == fold(w.value) != ""
  }

  /** The ids of the rows with the device's serial number. */
  ghost function BySerial(fold: string -> string, assets: seq<AssetItem>, d: GraphDevice): set<string> {
    set a | a in assets && Shares(fold, a.serialNumber, d.serialNumber) :: a.id
  }

  /** The ids of the rows with the device's name. */
  ghost function ByName(fold: string -> string, assets: seq<AssetItem>, d: GraphDevice): set<string> {
    set a | a in assets && Shares(fold, a.deviceName, d.displayName) :: a.id
  }

  /** The ids of the rows a device's key points at. */
  ghost function Candidates(key: AssetItem -> Option<Key>, assets: seq<AssetItem>, k: Option<Key>): set<string> {
    if k.None? then {} else Ids(key, assets, k.value)
  }

  lemma SharesKey(fold: string -> string, v: Option<string>, w: Option<string>)
    ensures Shares(fold, v, w) <==> Normalise(fold, w).Some? && Normalise(fold, v) == Normalise(fold, w)
  {}

  lemma CandidatesShare(fold: string -> string, assets: seq<AssetItem>, d: GraphDevice)
    ensures Candidates(SerialKey(fold), assets, Normalise(fold, d.serialNumber)) == BySerial(fold, assets, d)
    ensures Candidates(NameKey(fold), assets, Normalise(fold, d.displayName)) == ByName(fold, assets, d)
  {
    forall a: AssetItem
      ensures Shares(fold, a.serialNumber, d.serialNumber) <==>
              Normalise(fold, d.serialNumber).Some? && (SerialKey(fold))(a) == Normalise(fold, d.serialNumber)
    {
      SharesKey(fold, a.serialNumber, d.serialNumber);
    }
    forall a: AssetItem
      ensures Shares(fold, a.deviceName, d.displayName) <==>
              Normalise(fold, d.displayName).Some? && (NameKey(fold))(a) == Normalise(fold, d.displayName)
    {
      SharesKey(fold, a.deviceName, d.displayName);
    }
  }

  /** A device is matched by its serial number when all rows with it share one id, otherwise by its name
      when all rows with that share one id, otherwise not at all. */
  lemma LookupExact(fold: string -> string, assets: seq<AssetItem>, d: GraphDevice, id: string)
    ensures LookupId(fold, assets, d) == Some(id) <==>
              || BySerial(fold, assets, d) == {id}
              || (|BySerial(fold, assets, d)| != 1 && ByName(fold, assets, d) == {id})
  {
    CandidatesShare(fold, assets, d);
    LookupCandidates(fold, assets, d, id);
  }

  lemma LookupCandidates(fold: string -> string, assets: seq<AssetItem>, d: GraphDevice, id: string)
    ensures
      var bySerial := Candidates(SerialKey(fold), assets, Normalise(fold, d.serialNumber));
      var byName := Candidates(NameKey(fold), assets, Normalise(fold, d.displayName));
      LookupId(fold, assets, d) == Some(id) <==> bySerial == {id} || (|bySerial| != 1 && byName == {id})
  {
    var serial, name := Normalise(fold, d.serialNumber), Normalise(fold, d.displayName);
    if serial.Some? {
      IndexExact(SerialKey(fold), assets, serial.value);
    }
    if name.Some? {
      IndexExact(NameKey(fold), assets, name.value);
    }
    assert |{id}| == 1;
  }

  /** The same value, or two spellings of it that differ in case and blanks around it. */
  ghost predicate Respelt(fold: string -> string, v: Option<string>, w: Option<string>) {
    v == w || (v.Some? && w.Some? && v.value != "" && w.value != "" && fold(v.value) == fold(w.value))
  }

  /** Every row of `a` has one in `b` with the same id and the same serial number and name, however spelt. */
  ghost predicate RespeltWithin(fold: string -> string, a: seq<AssetItem>, b: seq<AssetItem>) {
    forall x :: x in a ==> exists y :: RespeltRow(fold, x, y) && y in b
  }

  ghost predicate RespeltRow(fold: string -> string, x: AssetItem, y: AssetItem) {
    x.id == y.id && Respelt(fold, x.serialNumber, y.serialNumber) && Respelt(fold, x.deviceName, y.deviceName)
  }

  ghost predicate RespeltDevice(fold: string -> string, d: GraphDevice, e: GraphDevice) {
    Respelt(fold, d.serialNumber, e.serialNumber) && Respelt(fold, d.displayName, e.displayName)
  }

  lemma CandidatesRespelt(fold: string -> string, a: seq<AssetItem>, b: seq<AssetItem>, d: GraphDevice,
                          e: GraphDevice)
    requires RespeltWithin(fold, a, b) && RespeltDevice(fold, d, e)
    ensures BySerial(fold, a, d) <= BySerial(fold, b, e) && ByName(fold, a, d) <= ByName(fold, b, e)
  {
    forall id | id in BySerial(fold, a, d) ensures id in BySerial(fold, b, e) {
      var x :| x in a && Shares(fold, x.serialNumber, d.serialNumber) && x.id == id;
      var y :| RespeltRow(fold, x, y) && y in b;
      assert Shares(fold, y.serialNumber, e.serialNumber);
    }
    forall id | id in ByName(fold, a, d) ensures id in ByName(fold, b, e) {
      var x :| x in a && Shares(fold, x.deviceName, d.displayName) && x.id == id;
      var y :| RespeltRow(fold, x, y) && y in b;
      assert Shares(fold, y.deviceName, e.displayName);
    }
  }

  lemma SameCandidates(fold: string -> string, a: seq<AssetItem>, b: seq<AssetItem>, d: GraphDevice, e: GraphDevice)
    requires BySerial(fold, a, d) == BySerial(fold, b, e) && ByName(fold, a, d) == ByName(fold, b, e)
    ensures LookupId(fold, a, d) == LookupId(fold, b, e)
  {
    var x, y := LookupId(fold, a, d), LookupId(fold, b, e);
    if x.Some? {
      LookupExact(fold, a, d, x.value);
      LookupExact(fold, b, e, x.value);
    } else if y.Some? {
      LookupExact(fold, a, d, y.value);
      LookupExact(fold, b, e, y.value);
    }
  }

  lemma RespeltBack(fold: string -> string, d: GraphDevice, e: GraphDevice)
    requires RespeltDevice(fold, d, e)
    ensures RespeltDevice(fold, e, d)
  {}

  lemma CandidatesSame(fold: string -> string, a: seq<AssetItem>, b: seq<AssetItem>, d: GraphDevice, e: GraphDevice)
    requires RespeltWithin(fold, a, b) && RespeltWithin(fold, b, a)
    requires RespeltDevice(fold, d, e) && RespeltDevice(fold, e, d)
    ensures BySerial(fold, a, d) == BySerial(fold, b, e) && ByName(fold, a, d) == ByName(fold, b, e)
  {
    CandidatesRespelt(fold, a, b, d, e);
    CandidatesRespelt(fold, b, a, e, d);
  }

  /** Spelling does not matter, in the rows or in the device. */
  lemma SpellingFree(fold: string -> string, a: seq<AssetItem>, b: seq<AssetItem>, d: GraphDevice, e: GraphDevice)
    requires RespeltWithin(fold, a, b) && RespeltWithin(fold, b, a) && RespeltDevice(fold, d, e)
    ensures LookupId(fold, a, d) == LookupId(fold, b, e)
  {
    RespeltBack(fold, d, e);
    CandidatesSame(fold, a, b, d, e);
    SameCandidates(fold, a, b, d, e);
  }

  ghost predicate Blank(fold: string -> string, v: Option<string>) {
    v == None || v == Some("") || fold(v.value) == ""
  }

  /** A device with neither serial number nor name matches nothing, and a match is a row with one of them. */
  lemma BlankMatchesNothing(fold: string -> string, assets: seq<AssetItem>, d: GraphDevice)
    ensures Blank(fold, d.serialNumber) && Blank(fold, d.displayName) ==> LookupId(fold, assets, d) == None
    ensures LookupId(fold, assets, d).Some? ==>
              exists a :: a in assets && a.id == LookupId(fold, assets, d).value
                          && !(Blank(fold, a.serialNumber) && Blank(fold, a.deviceName))
  {
    var found := LookupId(fold, assets, d);
    if found.Some? {
      LookupExact(fold, assets, d, found.value);
      assert found.value in BySerial(fold, assets, d) || found.value in ByName(fold, assets, d);
    }
  }

  lemma IdsWithin(key: AssetItem -> Option<Key>, a: seq<AssetItem>, b: seq<AssetItem>, k: Key)
    requires KeysWithin(a, b)
    requires forall x, y :: SameKeys(x, y) ==> key(x) == key(y)
    ensures Ids(key, a, k) <= Ids(key, b, k)
  {
    forall id | id in Ids(key, a, k) ensures id in Ids(key, b, k) {
      var x :| x in a && key(x) == Some(k) && x.id == id;
      var y :| SameKeys(x, y) && y in b;
      assert key(y) == Some(k);
    }
  }

  /** Lookups see only which ids carry which keys: not the order of the rows, not repetitions, and not
      the columns the job writes. */
  lemma LookupOrderFree(fold: string -> string, a: seq<AssetItem>, b: seq<AssetItem>, d: GraphDevice)
    requires KeysWithin(a, b) && KeysWithin(b, a)
    ensures LookupId(fold, a, d) == LookupId(fold, b, d)
  {
    CandidatesAgree(SerialKey(fold), a, b, Normalise(fold, d.serialNumber));
    CandidatesAgree(NameKey(fold), a, b, Normalise(fold, d.displayName));
    var x, y := LookupId(fold, a, d), LookupId(fold, b, d);
    if x.Some? {
      LookupCandidates(fold, a, d, x.value);
      LookupCandidates(fold, b, d, x.value);
    } else if y.Some? {
      LookupCandidates(fold, a, d, y.value);
      LookupCandidates(fold, b, d, y.value);
    }
  }

  lemma CandidatesAgree(key: AssetItem -> Option<Key>, a: seq<AssetItem>, b: seq<AssetItem>, k: Option<Key>)
    requires KeysWithin(a, b) && KeysWithin(b, a)
    requires forall x, y :: SameKeys(x, y) ==> key(x) == key(y)
    ensures Candidates(key, a, k) == Candidates(key, b, k)
  {
    if k.Some? {
      IdsWithin(key, a, b, k.value);
      IdsWithin(key, b, a, k.value);
    }
  }

  /** In particular a permutation of the rows changes no match and no ambiguous key. */
  lemma PermutationFree(fold: string -> string, a: seq<AssetItem>, b: seq<AssetItem>, d: GraphDevice)
    requires multiset(a) == multiset(b)
    ensures LookupId(fold, a, d) == LookupId(fold, b, d)
    ensures Index(SerialKey(fold), a).ambiguous == Index(SerialKey(fold), b).ambiguous
    ensures Index(NameKey(fold), a).ambiguous == Index(NameKey(fold), b).ambiguous
  {
    forall x ensures x in a <==> x in b {
      assert x in a <==> x in multiset(a);
      assert x in b <==> x in multiset(b);
    }
    assert forall x: AssetItem :: SameKeys(x, x);
    LookupOrderFree(fold, a, b, d);
    SameAmbiguous(SerialKey(fold), a, b);
    SameAmbiguous(NameKey(fold), a, b);
  }

  lemma SameAmbiguous(key: AssetItem -> Option<Key>, a: seq<AssetItem>, b: seq<AssetItem>)
    requires forall x :: x in a <==> x in b
    ensures Index(key, a).ambiguous == Index(key, b).ambiguous
  {
    forall k ensures k in Index(key, a).ambiguous <==> k in Index(key, b).ambiguous {
      IndexExact(key, a, k);
      IndexExact(key, b, k);
      assert Ids(key, a, k) == Ids(key, b, k);
    }
  }

  // ---------------------------------------------------------------- the objects

  /** A dictionary and the set of ambiguous keys that goes with it. */
  class KeyTable {
    var rows: map<Key, AssetItem>
    var ambiguous: set<Key>

    constructor ()
      ensures View() == Table(map[], {})
    {
      rows, ambiguous := map[], {};
    }

    function View(): Table
      reads this
    {
      Table(rows, ambiguous)
    }

    method Add(key: Option<Key>, a: AssetItem)
      modifies this
      ensures View() == AddKey(old(View()), key, a)
    {
      if key.None? {
        return;
      }
      if key.value in rows && rows[key.value].id != a.id {
        ambiguous := ambiguous + {key.value};
        rows := rows - {key.value};
        return;
      }
      if key.value in ambiguous {
        return;
      }
      rows := rows[key.value := a];
    }
  }

  class AssetIndex {
    const serials: KeyTable
    const names: KeyTable

    constructor ()
      ensures fresh(serials) && fresh(names) && serials != names
      ensures serials.View() == Table(map[], {}) && names.View() == Table(map[], {})
    {
      serials := new KeyTable();
      names := new KeyTable();
    }

    method Find(fold: string -> string, d: GraphDevice) returns (a: Option<AssetItem>)
      ensures a == LookupIn(fold, serials.View(), names.View(), d)
    {
      var serial := Normalise(fold, d.serialNumber);
      if serial.Some? && serial.value !in serials.ambiguous {
        if serial.value in serials.rows {
          return Some(serials.rows[serial.value]);
        }
      }
      var name := Normalise(fold, d.displayName);
      if name.Some? && name.value !in names.ambiguous && name.value in names.rows {
        return Some(names.rows[name.value]);
      }
      return None;
    }
  }

  method BuildAssetIndex(fold: string -> string, assets: seq<AssetItem>) returns (index: AssetIndex)
    ensures fresh(index) && fresh(index.serials) && fresh(index.names)
    ensures index.serials.View() == Index(SerialKey(fold), assets)
    ensures index.names.View() == Index(NameKey(fold), assets)
  {
    index := new AssetIndex();
    for i := 0 to |assets|
      invariant index.serials.View() == Index(SerialKey(fold), assets[..i])
      invariant index.names.View() == Index(NameKey(fold), assets[..i])
    {
      assert assets[..i + 1][..i] == assets[..i];
      index.serials.Add(Normalise(fold, assets[i].serialNumber), assets[i]);
      index.names.Add(Normalise(fold, assets[i].deviceName), assets[i]);
    }
    assert assets[..|assets|] == assets;
  }
}
