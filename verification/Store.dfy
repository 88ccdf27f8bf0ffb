/** The local store: an index cached in memory and on disk over self-describing snapshot directories. */
module Store {
  import opened Sorting
  import opened Times
  import D = Delta
  import opened Wire
  import opened Files

  datatype Option<T> = None | Some(value: T)

  predicate TsLess(a: Meta, b: Meta)
  {
    a.ts < b.ts
  }

  predicate TsIdLess(a: Meta, b: Meta)
  {
    a.ts < b.ts || (a.ts == b.ts && StrLess(a.id, b.id))
  }

  lemma TsOrders()
    ensures StrictOrder(TsLess) && StrictOrder(TsIdLess)
  {
    StrLessIsStrictOrder();
  }

  lemma TsMonotone(l: seq<Meta>, i: int, j: int)
    requires StrictlySorted(TsLess, l)
    ensures 0 <= i < j < |l| ==> l[i].ts < l[j].ts
  {
    if 0 <= i < j < |l| { assert TsLess(l[i], l[j]); }
  }

  // ---- what the operations leave behind -----------------------------------

  function Ids(list: seq<Meta>): set<Id>
  {
    set m | m in list :: m.id
  }

  /** The entries whose ID is not in `ids`. */
  function Without(list: seq<Meta>, ids: set<Id>): (r: seq<Meta>)
    ensures forall m :: m in r <==> m in list && m.id !in ids
    ensures |r| <= |list|
  {
    if list == [] then []
    else
      var init, m := list[..|list| - 1], list[|list| - 1];
      assert list == init + [m];
      if m.id in ids then Without(init, ids) else Without(init, ids) + [m]
  }

  lemma {:induction false} WithoutNothing(list: seq<Meta>, ids: set<Id>)
    ensures Ids(list) !! ids ==> Without(list, ids) == list
    ensures |Without(list, ids)| == |list| ==> Without(list, ids) == list && Ids(list) !! ids
  {
    if list != [] {
      var init, m := list[..|list| - 1], list[|list| - 1];
      assert list == init + [m];
      WithoutNothing(init, ids);
      if Ids(list) !! ids {
        assert m.id in Ids(list);
        assert forall x :: x in init ==> x in list && x.id in Ids(list);
      }
      if |Without(list, ids)| == |list| {
        assert Ids(list) == Ids(init) + {m.id};
      }
    }
  }

  lemma {:induction false} WithoutSorted(less: (Meta, Meta) -> bool, list: seq<Meta>, ids: set<Id>)
    requires StrictlySorted(less, list)
    ensures StrictlySorted(less, Without(list, ids))
  {
    if list != [] {
      var init, m := list[..|list| - 1], list[|list| - 1];
      WithoutSorted(less, init, ids);
      forall x | x in init ensures less(x, m) {
        var i :| 0 <= i < |init| && init[i] == x;
        assert list[i] == x;
      }
      var r := Without(init, ids);
      assert forall i :: 0 <= i < |r| ==> r[i] in r;
    }
  }

  /** The in-memory list after a new entry: appended, then stably sorted by time. */
  function Appended(list: seq<Meta>, meta: Meta): seq<Meta>
  {
    SortBy(TsLess, list + [meta])
  }

  /** A state of the disk while record `rec` is being put, starting from `a` with `list` in memory. */
  ghost predicate PutWindow(a: Fs, list: seq<Meta>, rec: Record, s: Fs)
  {
    var id := rec.meta.id;
    if id in a.snapshots then s == a
    else
      && s.deleting == a.deleting
      && SameExcept(a.snapshots, s.snapshots, id)
      && (id in s.snapshots ==> Within(s.snapshots[id], WholeDir(rec)))
      && (s.index == a.index
          || (s.index == Data(Appended(list, rec.meta)) && id in s.snapshots && s.snapshots[id] == WholeDir(rec)))
  }

  /** The metadata, which marks a directory as finished, is there only once the payload is. */
  ghost predicate PayloadFirst(rec: Record, s: Fs)
  {
    var id := rec.meta.id;
    id in s.snapshots ==> s.snapshots[id].meta.Absent? || s.snapshots[id] == WholeDir(rec)
  }

  ghost predicate PutDone(a: Fs, list: seq<Meta>, rec: Record, b: Fs, list': seq<Meta>)
  {
    && rec.meta.id !in a.snapshots
    && list' == Appended(list, rec.meta)
    && b == a.(index := Data(list'), snapshots := a.snapshots[rec.meta.id := WholeDir(rec)])
  }

  ghost predicate PutFailed(a: Fs, list: seq<Meta>, rec: Record, b: Fs, list': seq<Meta>)
  {
    list' == list && b.index == a.index && PutWindow(a, list, rec, b)
  }

  /** A state of the disk while `id` is being deleted, starting from `a` with `list` in memory. */
  ghost predicate DeleteWindow(a: Fs, list: seq<Meta>, id: Id, s: Fs)
  {
    && SameExcept(a.snapshots, s.snapshots, id)
    && SameExcept(a.deleting, s.deleting, id)
    && (id in s.snapshots ==> id in a.snapshots && Within(s.snapshots[id], a.snapshots[id]))
    && (id in Ids(list) && id in s.snapshots ==> s.snapshots[id] == a.snapshots[id])
    && (id in s.deleting ==>
          || (id in a.snapshots && Within(s.deleting[id], a.snapshots[id]))
          || (id in a.deleting && Within(s.deleting[id], a.deleting[id])))
    && (id in s.snapshots && id in s.deleting ==> id in a.deleting)
    && (s.index == a.index || DeleteCommitted(list, id, s))
    // until the commit the snapshot is whole, in one place or the other
    && (id in Ids(list) && id in a.snapshots && !DeleteCommitted(list, id, s) ==>
          || (id in s.snapshots && s.snapshots[id] == a.snapshots[id])
          || (id in s.deleting && s.deleting[id] == a.snapshots[id]))
  }

  /** The index write has happened: the record is out of the list and out of `snapshots/`. */
  ghost predicate DeleteCommitted(list: seq<Meta>, id: Id, s: Fs)
  {
    id in Ids(list) && s.index == Data(Without(list, {id})) && id !in s.snapshots
  }

  ghost predicate DeleteOutcome(a: Fs, list: seq<Meta>, id: Id, b: Fs, list': seq<Meta>, ok: bool)
  {
    && DeleteWindow(a, list, id, b)
    && (list' == list || list' == Without(list, {id}))
    && (list' != list ==> DeleteCommitted(list, id, b))
    && (list' == list ==> b.index == a.index)
    && (ok ==> id !in Ids(list') && id !in b.snapshots)
    // a listed record whose directory is not under snapshots/ cannot be deleted
    && (id in Ids(list) && id !in a.snapshots ==> !ok && list' == list && b.snapshots == a.snapshots)
  }

  /** `list` is exactly the complete directories whose name is their ID, by time, then name. */
  ghost predicate Rebuilt(snapshots: map<Id, Dir>, list: seq<Meta>)
  {
    StrictlySorted(TsIdLess, list) && CompleteMetas(snapshots, list)
  }

  ghost function Among(dirs: map<Id, Dir>, names: seq<Id>): map<Id, Dir>
  {
    map k | k in names && k in dirs :: dirs[k]
  }

  ghost predicate CompleteMetas(snapshots: map<Id, Dir>, list: seq<Meta>)
  {
    && (forall m :: m in list ==>
          m.id in snapshots && CompleteDir(snapshots[m.id], m.id) && snapshots[m.id].meta.value == m)
    && (forall id :: id in snapshots && CompleteDir(snapshots[id], id) ==> snapshots[id].meta.value in list)
  }

  /** Metadata naming this directory, and the payload file its kind calls for. */
  predicate CompleteDir(d: Dir, id: Id)
  {
    && d.meta.Data? && d.meta.value.id == id
    && match d.meta.value.kind
       case FullKind => d.full.Data?
       case DeltaKind => d.delta.Data?
       case OtherKind => false
  }

  /** The entries an open starts from: the cached index, or a rebuilt one. */
  ghost predicate Base(fs: Fs, base: seq<Meta>)
  {
    match fs.index
    case Data(list) => base == list
    case _ => Rebuilt(fs.snapshots, base)
  }

  /** What a freshly opened store lists: the base without the staged deletions. */
  ghost predicate Listing(fs: Fs, list: seq<Meta>)
  {
    exists base :: Base(fs, base) && list == Without(base, fs.deleting.Keys)
  }

  ghost predicate SubDirs(x: map<Id, Dir>, y: map<Id, Dir>)
  {
    forall id :: id in x ==> id in y && Within(x[id], y[id])
  }

  /** A state of the disk while a store is being opened for writing. */
  ghost predicate OpenWindow(a: Fs, base: seq<Meta>, s: Fs)
  {
    var list := Without(base, a.deleting.Keys);
    && s.snapshots == a.snapshots
    && SubDirs(s.deleting, a.deleting)
    && (s.index == a.index || s.index == Data(base) || s.index == Data(list))
    && (s.deleting != a.deleting ==> s.index == Data(list) || (s.index == a.index && base == list))
  }

  ghost predicate OpenDone(a: Fs, base: seq<Meta>, b: Fs, list: seq<Meta>)
  {
    && Base(a, base) && list == Without(base, a.deleting.Keys)
    && OpenWindow(a, base, b)
    && b.deleting == map[]
    && (b.index == Data(list) || (!a.index.Data? && b.index == a.index && base == list))
  }

  lemma SortedNamesAreDistinct(names: seq<Id>, i: nat)
    requires StrictlySorted(StrLess, names) && i < |names|
    ensures names[i] !in names[..i]
  {
    StrLessIrreflexive(names[i]);
  }

  /** What one more directory, in name order, adds to the complete ones. */
  lemma AmongOneMore(dirs: map<Id, Dir>, names: seq<Id>, i: nat, rebuilt: seq<Meta>)
    requires i < |names| && names[i] in dirs && names[i] !in names[..i]
    requires CompleteMetas(Among(dirs, names[..i]), rebuilt)
    ensures var d := dirs[names[i]];
            CompleteMetas(Among(dirs, names[..i + 1]),
                          if CompleteDir(d, names[i]) then rebuilt + [d.meta.value] else rebuilt)
  {
    assert names[..i + 1] == names[..i] + [names[i]];
    assert Among(dirs, names[..i + 1]) == Among(dirs, names[..i])[names[i] := dirs[names[i]]];
  }

  lemma ScannedComesBefore(dirs: map<Id, Dir>, names: seq<Id>, i: nat, rebuilt: seq<Meta>)
    requires StrictlySorted(StrLess, names) && i < |names|
    requires CompleteMetas(Among(dirs, names[..i]), rebuilt)
    ensures forall j :: 0 <= j < |rebuilt| ==> StrLess(rebuilt[j].id, names[i])
  {
    forall j | 0 <= j < |rebuilt| ensures StrLess(rebuilt[j].id, names[i]) {
      assert rebuilt[j] in rebuilt && rebuilt[j].id in names[..i];
    }
  }

  lemma AmongAll(dirs: map<Id, Dir>, names: seq<Id>)
    requires forall k :: k in names <==> k in dirs
    ensures Among(dirs, names[..|names|]) == dirs
  {
    assert names[..|names|] == names;
  }

  // ---- the store ------------------------------------------------------------

  ghost predicate FullRecord(rec: Record, t: Time, snap: D.Snapshot)
  {
    && rec.meta == Meta(IdFromTime(t), FullKind, Rank(t), "", rec.meta.kinds)
    && KindsCover(rec.meta.kinds, snap.Keys)
    && rec.payload.FullPayload? && SnapshotOnWire(rec.payload.full, snap) && WireToSnapshot(rec.payload.full) == snap
  }

  ghost predicate DeltaRecord(rec: Record, t: Time, prev: Id, d: D.Delta)
  {
    && rec.meta == Meta(IdFromTime(t), DeltaKind, Rank(t), prev, rec.meta.kinds)
    && KindsCover(rec.meta.kinds, D.Touched(d))
    && rec.payload.DeltaPayload? && DeltaOnWire(rec.payload.delta, d) && WireToDelta(rec.payload.delta) == d
  }

  class Local {
    const disk: Disk
    const readOnly: bool
    var index: seq<Meta>

    constructor (disk: Disk, readOnly: bool)
      ensures this.disk == disk && this.readOnly == readOnly && index == []
    {
      this.disk, this.readOnly, this.index := disk, readOnly, [];
    }

    method Filtered(ids: set<Id>) returns (filtered: seq<Meta>)
      ensures filtered == Without(index, ids)
    {
      filtered := [];
      for i := 0 to |index|
        invariant filtered == Without(index[..i], ids)
      {
        assert index[..i + 1][..i] == index[..i];
        if index[i].id !in ids { filtered := filtered + [index[i]]; }
      }
      assert index[..|index|] == index;
    }

    /** Reads the cached index, or rebuilds it, then settles staged deletions. Reading may fail. */
    method LoadIndex() returns (ok: bool, ghost base: seq<Meta>)
      modifies this, disk
      ensures Base(old(disk.fs), base)
      ensures ok ==> index == Without(base, old(disk.fs).deleting.Keys)
      ensures readOnly ==> disk.fs == old(disk.fs) && disk.trace == old(disk.trace)
      ensures old(disk.trace) <= disk.trace
      ensures forall i :: |old(disk.trace)| <= i < |disk.trace| ==> OpenWindow(old(disk.fs), base, disk.trace[i])
      ensures OpenWindow(old(disk.fs), base, disk.fs)
      ensures ok && !readOnly ==> OpenDone(old(disk.fs), base, disk.fs, index)
      ensures disk.faults >= old(disk.faults) && (disk.faults == old(disk.faults) ==> ok)
      ensures !readOnly && disk.faults == old(disk.faults) && base != [] ==> disk.fs.index == Data(index)
    {
      match disk.fs.index {
        case Data(list) => index := list;
        case _ => RebuildIndex();
      }
      base := index;
      var readable := disk.Read();
      if !readable { return false, base; }
      ok := ReconcileDeletions(old(disk.fs), base);
    }

    /** The metadata of every complete directory under `snapshots/`, in directory-listing order. */
    method ScanSnapshots() returns (rebuilt: seq<Meta>)
      ensures CompleteMetas(disk.fs.snapshots, rebuilt)
      ensures forall j, k :: 0 <= j < k < |rebuilt| ==> StrLess(rebuilt[j].id, rebuilt[k].id)
    {
      var names := disk.ReadDir(Snapshots);
      var dirs := disk.fs.snapshots;
      rebuilt := [];
      forall j | 0 <= j < |names| ensures names[j] in dirs { assert names[j] in disk.fs.Dirs(Snapshots); }
      for i := 0 to |names|
        invariant CompleteMetas(Among(dirs, names[..i]), rebuilt)
        invariant forall j, k :: 0 <= j < k < |rebuilt| ==> StrLess(rebuilt[j].id, rebuilt[k].id)
      {
        var d := dirs[names[i]];
        SortedNamesAreDistinct(names, i);
        AmongOneMore(dirs, names, i, rebuilt);
        if CompleteDir(d, names[i]) {
          ScannedComesBefore(dirs, names, i, rebuilt);
          rebuilt := rebuilt + [d.meta.value];
        }
      }
      assert forall k :: k in names <==> k in disk.fs.Dirs(Snapshots);
      AmongAll(dirs, names);
    }

    method RebuildIndex()
      requires !disk.fs.index.Data?
      modifies this, disk
      ensures Rebuilt(disk.fs.snapshots, index)
      ensures readOnly ==> disk.fs == old(disk.fs) && disk.trace == old(disk.trace)
      ensures old(disk.trace) <= disk.trace
      ensures disk.fs == old(disk.fs) || disk.fs == old(disk.fs).(index := Data(index))
      ensures index == [] ==> disk.fs == old(disk.fs) && disk.trace == old(disk.trace)
      ensures !readOnly && disk.faults == old(disk.faults) && index != [] ==> disk.fs.index == Data(index)
      ensures forall i :: |old(disk.trace)| <= i < |disk.trace| ==> disk.trace[i] == disk.fs
      ensures disk.faults >= old(disk.faults)
    {
      var rebuilt := ScanSnapshots();
      SortedByTimeThenName(rebuilt);
      index := SortBy(TsLess, rebuilt);
      if |index| > 0 && !readOnly {
        var written := disk.WriteIndex(index);  // best effort: the result is ignored
      }
    }

    method ReconcileDeletions(ghost a: Fs, ghost base: seq<Meta>) returns (ok: bool)
      requires base == index
      requires Base(a, base) && (disk.fs == a || (!readOnly && disk.fs == a.(index := Data(base))))
      modifies this, disk
      ensures readOnly ==> disk.fs == old(disk.fs) && disk.trace == old(disk.trace)
      ensures old(disk.trace) <= disk.trace
      ensures forall i :: |old(disk.trace)| <= i < |disk.trace| ==> OpenWindow(a, base, disk.trace[i])
      ensures OpenWindow(a, base, disk.fs)
      ensures ok ==> index == Without(base, a.deleting.Keys)
      ensures ok && !readOnly ==> OpenDone(a, base, disk.fs, index)
      ensures ok && !readOnly && old(disk.fs).index == Data(base) ==> disk.fs.index == Data(index)
      ensures disk.faults >= old(disk.faults) && (disk.faults == old(disk.faults) ==> ok)
    {
      var deleting := disk.fs.deleting.Keys;
      var before := index;
      index := Filtered(deleting);
      WithoutNothing(before, deleting);
      if readOnly { return true; }
      if |index| != |before| {
        ok := disk.WriteIndex(index);
        if !ok { return; }
      }
      ok := ClearTombstones(a, base);
    }

    /** Removes the tombstones one after the other; the first failure ends it. */
    method ClearTombstones(ghost a: Fs, ghost base: seq<Meta>) returns (ok: bool)
      requires index == Without(base, a.deleting.Keys) && disk.fs.deleting == a.deleting && OpenWindow(a, base, disk.fs)
      requires disk.fs.index == Data(index) || (disk.fs.index == a.index && base == index)
      modifies disk
      ensures OpenWindow(a, base, disk.fs)
      ensures disk.fs.index == old(disk.fs).index && (ok ==> disk.fs.deleting == map[])
      ensures old(disk.trace) <= disk.trace
      ensures forall i :: |old(disk.trace)| <= i < |disk.trace| ==> OpenWindow(a, base, disk.trace[i])
      ensures disk.faults >= old(disk.faults) && (disk.faults == old(disk.faults) ==> ok)
    {
      var todo := disk.fs.deleting.Keys;
      while todo != {}
        invariant todo <= a.deleting.Keys
        invariant old(disk.trace) <= disk.trace
        invariant forall i :: |old(disk.trace)| <= i < |disk.trace| ==> OpenWindow(a, base, disk.trace[i])
        invariant OpenWindow(a, base, disk.fs) && disk.fs.index == old(disk.fs).index
        invariant disk.fs.deleting.Keys <= todo
        invariant disk.faults >= old(disk.faults)
      {
        var id :| id in todo;
        label Before:
        ok := disk.RemoveAll(Deleting, id);
        forall i | |old@Before(disk.trace)| <= i < |disk.trace| ensures OpenWindow(a, base, disk.trace[i]) {
          assert Shrunk(old@Before(disk.fs), Deleting, id, disk.trace[i]);
        }
        if !ok { return; }
        todo := todo - {id};
      }
      ok := true;
      assert disk.fs.deleting == map[];
    }

    /** Steps of `writeSnapshot`: directory, payload, metadata; undone as far as possible on failure. */
    method WriteSnapshot(rec: Record, ghost a: Fs, ghost list: seq<Meta>) returns (ok: bool)
      requires a == disk.fs
      modifies disk
      ensures ok ==>
                && rec.meta.id !in a.snapshots
                && disk.fs == a.(snapshots := a.snapshots[rec.meta.id := WholeDir(rec)])
      ensures !ok ==> PutFailed(a, list, rec, disk.fs, list)
      ensures !ok && disk.faults <= old(disk.faults) + 1 ==> disk.fs == a
      ensures disk.faults >= old(disk.faults)
      ensures disk.faults == old(disk.faults) ==> (ok <==> rec.meta.id !in a.snapshots)
      ensures old(disk.trace) <= disk.trace
      ensures forall i :: |old(disk.trace)| <= i < |disk.trace| ==> PutWindow(a, list, rec, disk.trace[i])
      ensures ok ==> forall i :: |old(disk.trace)| <= i < |disk.trace| ==> PayloadFirst(rec, disk.trace[i])
    {
      var made := disk.Mkdir(rec.meta.id);
      if !made.Made? { return false; }
      ok := FillDir(rec, a, list);
      if !ok { CleanUp(rec, a, list); }
    }

    /** Payload first, then the metadata that marks the directory as finished. */
    method FillDir(rec: Record, ghost a: Fs, ghost list: seq<Meta>) returns (ok: bool)
      requires rec.meta.id !in a.snapshots && disk.fs == a.(snapshots := a.snapshots[rec.meta.id := EMPTY_DIR])
      modifies disk
      ensures ok ==> disk.fs == a.(snapshots := a.snapshots[rec.meta.id := WholeDir(rec)])
      ensures disk.fs.index == a.index && PutWindow(a, list, rec, disk.fs)
      ensures disk.faults == if ok then old(disk.faults) else old(disk.faults) + 1
      ensures old(disk.trace) <= disk.trace
      ensures forall i :: |old(disk.trace)| <= i < |disk.trace| ==> PutWindow(a, list, rec, disk.trace[i])
      ensures forall i :: |old(disk.trace)| <= i < |disk.trace| ==> PayloadFirst(rec, disk.trace[i])
    {
      ok := disk.Sync();
      if !ok { return; }
      ok := disk.WritePayload(rec.meta.id, rec.payload);
      if !ok { return; }
      ok := disk.WriteMeta(rec.meta.id, rec.meta);
    }

    /** Best-effort removal of the directory of a put that failed. */
    method CleanUp(rec: Record, ghost a: Fs, ghost list: seq<Meta>)
      requires rec.meta.id !in a.snapshots && disk.fs.index == a.index && PutWindow(a, list, rec, disk.fs)
      modifies disk
      ensures PutFailed(a, list, rec, disk.fs, list)
      ensures disk.faults == old(disk.faults) ==> disk.fs == a
      ensures disk.faults >= old(disk.faults)
      ensures old(disk.trace) <= disk.trace
      ensures forall i :: |old(disk.trace)| <= i < |disk.trace| ==> PutWindow(a, list, rec, disk.trace[i])
    {
      var removed := disk.RemoveAll(Snapshots, rec.meta.id);
      forall i | |old(disk.trace)| <= i < |disk.trace| ensures PutWindow(a, list, rec, disk.trace[i]) {
        assert Shrunk(old(disk.fs), Snapshots, rec.meta.id, disk.trace[i]);
      }
      if removed { assert disk.fs.snapshots == a.snapshots; }
    }

    method AppendIndex(meta: Meta) returns (ok: bool)
      modifies this, disk
      ensures disk.trace == old(disk.trace) + [disk.fs]
      ensures index == if ok then Appended(old(index), meta) else old(index)
      ensures disk.fs == if ok then old(disk.fs).(index := Data(index)) else old(disk.fs)
      ensures disk.faults == if ok then old(disk.faults) else old(disk.faults) + 1
    {
      var before := index;
      index := SortBy(TsLess, index + [meta]);
      ok := disk.WriteIndex(index);
      if !ok { index := before; }
    }

    /** The common body of `PutFull` and `PutDelta`. */
    method Put(rec: Record) returns (ok: bool)
      requires !readOnly
      modifies this, disk
      ensures ok ==> PutDone(old(disk.fs), old(index), rec, disk.fs, index)
      ensures !ok ==> PutFailed(old(disk.fs), old(index), rec, disk.fs, index)
      ensures !ok && disk.faults <= old(disk.faults) + 1 ==> disk.fs == old(disk.fs)
      ensures disk.faults >= old(disk.faults)
      ensures disk.faults == old(disk.faults) ==> (ok <==> rec.meta.id !in old(disk.fs).snapshots)
      ensures old(disk.trace) <= disk.trace
      ensures forall i :: |old(disk.trace)| <= i < |disk.trace| ==>
                PutWindow(old(disk.fs), old(index), rec, disk.trace[i])
      ensures ok ==> forall i :: |old(disk.trace)| <= i < |disk.trace| ==> PayloadFirst(rec, disk.trace[i])
    {
      ghost var a, list := disk.fs, index;
      ok := WriteSnapshot(rec, a, list);
      if !ok { return; }
      ok := AppendIndex(rec.meta);
      if !ok { CleanUp(rec, a, list); }
    }

    method PutFull(t: Time, snap: D.Snapshot) returns (r: Option<Meta>, ghost rec: Record)
      modifies this, disk
      ensures FullRecord(rec, t, snap)
      ensures readOnly ==> r.None? && unchanged(this) && unchanged(disk)
      ensures r.Some? ==> r.value == rec.meta && PutDone(old(disk.fs), old(index), rec, disk.fs, index)
      ensures r.None? ==> PutFailed(old(disk.fs), old(index), rec, disk.fs, index)
      ensures r.None? && disk.faults <= old(disk.faults) + 1 ==> disk.fs == old(disk.fs)
      ensures disk.faults >= old(disk.faults)
      ensures !readOnly && disk.faults == old(disk.faults) ==> (r.Some? <==> rec.meta.id !in old(disk.fs).snapshots)
      ensures old(disk.trace) <= disk.trace
      ensures forall i :: |old(disk.trace)| <= i < |disk.trace| ==>
                PutWindow(old(disk.fs), old(index), rec, disk.trace[i])
      ensures r.Some? ==> forall i :: |old(disk.trace)| <= i < |disk.trace| ==> PayloadFirst(rec, disk.trace[i])
    {
      var kinds := SortedKinds(snap.Keys);
      var w := SnapshotToWire(snap);
      var record := Record(Meta(IdFromTime(t), FullKind, Rank(t), "", kinds), FullPayload(w));
      rec := record;
      if readOnly { return None, rec; }
      var ok := Put(record);
      r := if ok then Some(record.meta) else None;
    }

    method PutDelta(t: Time, prev: Id, d: D.Delta) returns (r: Option<Meta>, ghost rec: Record)
      modifies this, disk
      ensures DeltaRecord(rec, t, prev, d)
      ensures readOnly ==> r.None? && unchanged(this) && unchanged(disk)
      ensures r.Some? ==> r.value == rec.meta && PutDone(old(disk.fs), old(index), rec, disk.fs, index)
      ensures r.None? ==> PutFailed(old(disk.fs), old(index), rec, disk.fs, index)
      ensures r.None? && disk.faults <= old(disk.faults) + 1 ==> disk.fs == old(disk.fs)
      ensures disk.faults >= old(disk.faults)
      ensures !readOnly && disk.faults == old(disk.faults) ==> (r.Some? <==> rec.meta.id !in old(disk.fs).snapshots)
      ensures old(disk.trace) <= disk.trace
      ensures forall i :: |old(disk.trace)| <= i < |disk.trace| ==>
                PutWindow(old(disk.fs), old(index), rec, disk.trace[i])
      ensures r.Some? ==> forall i :: |old(disk.trace)| <= i < |disk.trace| ==> PayloadFirst(rec, disk.trace[i])
    {
      var kinds := SortedKinds(D.Touched(d));
      var w := DeltaToWire(d);
      var record := Record(Meta(IdFromTime(t), DeltaKind, Rank(t), prev, kinds), DeltaPayload(w));
      rec := record;
      if readOnly { return None, rec; }
      var ok := Put(record);
      r := if ok then Some(record.meta) else None;
    }

    /** Two-phase deletion: rename to `.deleting/`, write the index, discard the tombstone. */
    method Delete(id: Id) returns (ok: bool)
      modifies this, disk
      ensures DeleteOutcome(old(disk.fs), old(index), id, disk.fs, index, ok)
      ensures readOnly || !PlainId(id) ==> !ok && unchanged(this) && unchanged(disk)
      ensures ok && id in Ids(old(index)) ==> id !in disk.fs.deleting
      ensures disk.faults >= old(disk.faults)
      ensures !readOnly && PlainId(id) && disk.faults == old(disk.faults) ==>
                && (ok <==> id !in Ids(old(index)) || id in old(disk.fs).snapshots)
                && (id in Ids(old(index)) ==> id !in disk.fs.deleting)
      ensures disk.faults <= old(disk.faults) + 1 && id in Ids(index) ==> disk.fs.snapshots == old(disk.fs).snapshots
      ensures old(disk.trace) <= disk.trace
      ensures forall i :: |old(disk.trace)| <= i < |disk.trace| ==>
                DeleteWindow(old(disk.fs), old(index), id, disk.trace[i])
    {
      if readOnly || !PlainId(id) { return false; }
      var filtered := Filtered({id});
      WithoutNothing(index, {id});
      if |filtered| == |index| {
        ok := disk.RemoveAll(Snapshots, id);
        forall i | |old(disk.trace)| <= i < |disk.trace| ensures DeleteWindow(old(disk.fs), index, id, disk.trace[i]) {
          assert Shrunk(old(disk.fs), Snapshots, id, disk.trace[i]);
        }
        return;
      }
      ok := Stage(id);
      if ok { ok := Commit(id, filtered, old(disk.fs)); }
    }

    /** Moves a listed snapshot's directory to a clean tombstone. */
    method Stage(id: Id) returns (ok: bool)
      requires id in Ids(index)
      modifies disk
      ensures var a, b := old(disk.fs), disk.fs;
              if ok
              then id in a.snapshots && id !in b.snapshots && id in b.deleting && b.deleting[id] == a.snapshots[id]
              else b.snapshots == a.snapshots
      ensures disk.fs.index == old(disk.fs).index && DeleteWindow(old(disk.fs), index, id, disk.fs)
      ensures disk.faults >= old(disk.faults)
      ensures disk.faults == old(disk.faults) ==>
                (ok <==> id in old(disk.fs).snapshots) && (ok || id !in disk.fs.deleting)
      ensures old(disk.trace) <= disk.trace
      ensures forall i :: |old(disk.trace)| <= i < |disk.trace| ==> DeleteWindow(old(disk.fs), index, id, disk.trace[i])
    {
      ok := disk.Sync();  // creation of the staging directory
      if !ok { return; }
      label Staging:
      ok := disk.RemoveAll(Deleting, id);
      forall i | |old@Staging(disk.trace)| <= i < |disk.trace|
        ensures DeleteWindow(old(disk.fs), index, id, disk.trace[i])
      {
        TombstoneShrinks(old(disk.fs), index, id, old@Staging(disk.fs), disk.trace[i]);
      }
      if !ok { return; }
      ok := disk.Rename(Snapshots, Deleting, id);
    }

    /** Writes the index without the staged snapshot; on failure puts the directory back, if it can. */
    method Commit(id: Id, filtered: seq<Meta>, ghost a: Fs) returns (ok: bool)
      requires id in Ids(index) && filtered == Without(index, {id})
      requires id in a.snapshots && id !in disk.fs.snapshots
      requires id in disk.fs.deleting && disk.fs.deleting[id] == a.snapshots[id]
      requires disk.fs.index == a.index && DeleteWindow(a, index, id, disk.fs)
      modifies this, disk
      ensures DeleteOutcome(a, old(index), id, disk.fs, index, ok)
      ensures disk.faults >= old(disk.faults) && (disk.faults == old(disk.faults) ==> ok)
      ensures ok ==> id !in disk.fs.deleting
      ensures disk.faults <= old(disk.faults) + 1 && id in Ids(index) ==> disk.fs.snapshots == a.snapshots
      ensures old(disk.trace) <= disk.trace
      ensures forall i :: |old(disk.trace)| <= i < |disk.trace| ==> DeleteWindow(a, old(index), id, disk.trace[i])
    {
      ghost var list := index;
      var before := index;
      index := filtered;
      ok := disk.WriteIndex(index);
      if ok {
        ok := Discard(id, a, list);
      } else {
        index := before;
        Restore(id, a, list);
      }
    }

    /** Puts the staged directory back, if that can be done. */
    method Restore(id: Id, ghost a: Fs, ghost list: seq<Meta>)
      requires id in Ids(list) && id in a.snapshots && id !in disk.fs.snapshots
      requires id in disk.fs.deleting && disk.fs.deleting[id] == a.snapshots[id]
      requires disk.fs.index == a.index && DeleteWindow(a, list, id, disk.fs)
      modifies disk
      ensures disk.fs.index == a.index && DeleteWindow(a, list, id, disk.fs)
      ensures disk.faults >= old(disk.faults) && (disk.faults == old(disk.faults) ==> disk.fs.snapshots == a.snapshots)
      ensures old(disk.trace) <= disk.trace
      ensures forall i :: |old(disk.trace)| <= i < |disk.trace| ==> DeleteWindow(a, list, id, disk.trace[i])
    {
      var restored := disk.Rename(Deleting, Snapshots, id);
      if restored { assert disk.fs.snapshots == a.snapshots; }
    }

    /** Discards the tombstone of a deletion that is committed. */
    method Discard(id: Id, ghost a: Fs, ghost list: seq<Meta>) returns (ok: bool)
      requires DeleteCommitted(list, id, disk.fs) && DeleteWindow(a, list, id, disk.fs)
      modifies disk
      ensures DeleteCommitted(list, id, disk.fs) && DeleteWindow(a, list, id, disk.fs)
      ensures disk.faults >= old(disk.faults) && (disk.faults == old(disk.faults) ==> ok)
      ensures ok ==> id !in disk.fs.deleting
      ensures old(disk.trace) <= disk.trace
      ensures forall i :: |old(disk.trace)| <= i < |disk.trace| ==> DeleteWindow(a, list, id, disk.trace[i])
    {
      ok := disk.RemoveAll(Deleting, id);
      forall i | |old(disk.trace)| <= i < |disk.trace|
        ensures DeleteWindow(a, list, id, disk.trace[i]) && DeleteCommitted(list, id, disk.trace[i])
      {
        TombstoneShrinks(a, list, id, old(disk.fs), disk.trace[i]);
      }
      if !ok { return; }
      ok := disk.Sync();
    }

    method List() returns (list: seq<Meta>)
      ensures list == index
    {
      list := index;
    }
  }

  /** Removing a tombstone is harmless before the rename and after the commit. */
  lemma TombstoneShrinks(a: Fs, list: seq<Meta>, id: Id, m: Fs, s: Fs)
    requires DeleteWindow(a, list, id, m) && Shrunk(m, Deleting, id, s)
    requires m == a || DeleteCommitted(list, id, m)
    ensures DeleteWindow(a, list, id, s)
    ensures DeleteCommitted(list, id, m) ==> DeleteCommitted(list, id, s)
  {
  }

  /** Opening for writing repairs the store. */
  method NewLocal(disk: Disk) returns (l: Local, ok: bool, ghost base: seq<Meta>)
    modifies disk
    ensures fresh(l) && l.disk == disk && !l.readOnly
    ensures Base(old(disk.fs), base)
    ensures old(disk.trace) <= disk.trace
    ensures forall i :: |old(disk.trace)| <= i < |disk.trace| ==> OpenWindow(old(disk.fs), base, disk.trace[i])
    ensures OpenWindow(old(disk.fs), base, disk.fs)
    ensures ok ==> OpenDone(old(disk.fs), base, disk.fs, l.index) && Listing(old(disk.fs), l.index)
    // without faults the list is persisted too, except that an empty rebuilt one is not
    ensures disk.faults == old(disk.faults) && base != [] ==> disk.fs.index == Data(l.index)
    ensures disk.faults >= old(disk.faults) && (disk.faults == old(disk.faults) ==> ok)
  {
    l := new Local(disk, false);
    ok, base := l.LoadIndex();
  }

  /** Opening for reading sees what a repaired store would show, and touches nothing. */
  method OpenForRead(disk: Disk) returns (l: Local, ok: bool)
    modifies disk
    ensures fresh(l) && l.disk == disk && l.readOnly
    ensures disk.fs == old(disk.fs) && disk.trace == old(disk.trace)
    ensures ok ==> Listing(disk.fs, l.index)
    ensures disk.faults >= old(disk.faults) && (disk.faults == old(disk.faults) ==> ok)
  {
    ghost var base;
    l := new Local(disk, true);
    ok, base := l.LoadIndex();
  }

  /** Name order, then a stable sort by time, is order by time, then name. */
  lemma SortedByTimeThenName(list: seq<Meta>)
    requires forall j, k :: 0 <= j < k < |list| ==> StrLess(list[j].id, list[k].id)
    ensures StrictlySorted(TsIdLess, SortBy(TsLess, list)) && SameElements(SortBy(TsLess, list), list)
  {
    TsOrders();
    StrLessIsStrictOrder();
    forall i, j | 0 <= i < j < |list| ensures TsLess(list[j], list[i]) <==> TsIdLess(list[j], list[i]) {
      assert StrLess(list[i].id, list[j].id) && !StrLess(list[i].id, list[i].id);
      if StrLess(list[j].id, list[i].id) { StrLessTransitive(list[i].id, list[j].id, list[i].id); }
    }
    SortByAgrees(TsLess, TsIdLess, list);
    SortBySorts(TsIdLess, list);
    assert Comparable(TsIdLess, list);
  }
}
