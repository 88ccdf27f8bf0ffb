/**
 The store's directory tree, and the filesystem operations the store issues on it.

   index.json                       Fs.index
   snapshots/<id>/{meta,full,delta}.json   Fs.snapshots
   .deleting/<id>/...               Fs.deleting

 A missing `snapshots/` or `.deleting/` directory is an empty map. Writing one JSON file (temporary
 file, then rename) and renaming a directory are single steps; removing a directory tree is not.
 */
module Files {
  import opened Sorting
  import opened Times
  import opened Wire

  datatype File<T> = Absent | Corrupt | Data(value: T)

  datatype Kind = FullKind | DeltaKind | OtherKind

  /** `ts` is the UTC timestamp on the order-preserving scale of `Times.Rank`. */
  datatype Meta = Meta(id: Id, kind: Kind, ts: int, prev: Id, kinds: seq<string>)

  datatype Dir = Dir(meta: File<Meta>, full: File<WireSnapshot>, delta: File<WireDelta>)

  datatype Payload = FullPayload(full: WireSnapshot) | DeltaPayload(delta: WireDelta)

  datatype Record = Record(meta: Meta, payload: Payload)

  datatype Area = Snapshots | Deleting

  datatype Fs = Fs(index: File<seq<Meta>>, snapshots: map<Id, Dir>, deleting: map<Id, Dir>)
  {
    function Dirs(area: Area): map<Id, Dir>
    {
      if area.Snapshots? then snapshots else deleting
    }

    function With(area: Area, dirs: map<Id, Dir>): Fs
    {
      if area.Snapshots? then this.(snapshots := dirs) else this.(deleting := dirs)
    }
  }

  const EMPTY_DIR := Dir(Absent, Absent, Absent)
  const EMPTY_FS := Fs(Absent, map[], map[])

  /** The finished directory of a record. */
  function WholeDir(rec: Record): Dir
  {
    match rec.payload
    case FullPayload(w) => Dir(Data(rec.meta), Data(w), Absent)
    case DeltaPayload(w) => Dir(Data(rec.meta), Absent, Data(w))
  }

  /** Every file of `d` is missing or is the one `e` holds. */
  predicate Within(d: Dir, e: Dir)
  {
    && (d.meta.Absent? || d.meta == e.meta)
    && (d.full.Absent? || d.full == e.full)
    && (d.delta.Absent? || d.delta == e.delta)
  }

  ghost predicate SameExcept<V>(a: map<Id, V>, b: map<Id, V>, id: Id)
  {
    forall x :: x != id ==> (x in a <==> x in b) && (x in a && x in b ==> a[x] == b[x])
  }

  /** `id` under `area` may have lost files or be gone; nothing else differs. */
  ghost predicate Shrunk(a: Fs, area: Area, id: Id, s: Fs)
  {
    && s.index == a.index
    && (area.Snapshots? ==> s.deleting == a.deleting)
    && (area.Deleting? ==> s.snapshots == a.snapshots)
    && SameExcept(a.Dirs(area), s.Dirs(area), id)
    && (id in s.Dirs(area) ==> id in a.Dirs(area) && Within(s.Dirs(area)[id], a.Dirs(area)[id]))
  }

  datatype MkdirResult = Made | Exists | Failed

  /**
   The disk under the store. Each operation may fail at will and then changes nothing but the count of
   `faults`. `trace` records the tree after every single step, so that its entries are the states a
   crash can leave behind.
   */
  class Disk {
    var fs: Fs
    ghost var trace: seq<Fs>
    ghost var faults: nat

    constructor (fs: Fs)
      ensures this.fs == fs && trace == [fs]
    {
      this.fs, this.trace, this.faults := fs, [fs], 0;
    }

    /** Reading a file or a directory may fail as a whole. */
    method Read() returns (ok: bool)
      modifies this`faults
      ensures faults == if ok then old(faults) else old(faults) + 1
    {
      ok := *;
      if !ok { faults := faults + 1; }
    }

    method Step(next: Fs) returns (ok: bool)
      modifies this
      ensures fs == if ok then next else old(fs)
      ensures trace == old(trace) + [fs]
      ensures faults == if ok then old(faults) else old(faults) + 1
    {
      ok := *;
      if ok { fs := next; } else { faults := faults + 1; }
      trace := trace + [fs];
    }

    method Mkdir(id: Id) returns (r: MkdirResult)
      modifies this
      ensures trace == old(trace) + [fs]
      ensures r.Exists? <==> id in old(fs.snapshots)
      ensures faults == if r.Failed? then old(faults) + 1 else old(faults)
      ensures fs == if r.Made? then old(fs).(snapshots := old(fs).snapshots[id := EMPTY_DIR]) else old(fs)
    {
      if id in fs.snapshots {
        trace := trace + [fs];
        return Exists;
      }
      var ok := Step(fs.(snapshots := fs.snapshots[id := EMPTY_DIR]));
      r := if ok then Made else Failed;
    }

    /** fsync of a directory: the tree is as before, but the call may report failure. */
    method Sync() returns (ok: bool)
      modifies this
      ensures fs == old(fs) && trace == old(trace) + [fs]
      ensures faults == if ok then old(faults) else old(faults) + 1
    {
      ok := Step(fs);
    }

    method WriteDir(id: Id, dir: Dir) returns (ok: bool)
      requires id in fs.snapshots
      modifies this
      ensures trace == old(trace) + [fs]
      ensures fs == if ok then old(fs).(snapshots := old(fs).snapshots[id := dir]) else old(fs)
      ensures faults == if ok then old(faults) else old(faults) + 1
    {
      ok := Step(fs.(snapshots := fs.snapshots[id := dir]));
    }

    method WritePayload(id: Id, payload: Payload) returns (ok: bool)
      requires id in fs.snapshots
      modifies this
      ensures trace == old(trace) + [fs]
      ensures ok ==> fs == old(fs).(snapshots := old(fs).snapshots[id := match payload
                       case FullPayload(w) => old(fs).snapshots[id].(full := Data(w))
                       case DeltaPayload(w) => old(fs).snapshots[id].(delta := Data(w))])
      ensures !ok ==> fs == old(fs)
      ensures faults == if ok then old(faults) else old(faults) + 1
    {
      match payload
      case FullPayload(w) => ok := WriteDir(id, fs.snapshots[id].(full := Data(w)));
      case DeltaPayload(w) => ok := WriteDir(id, fs.snapshots[id].(delta := Data(w)));
    }

    method WriteMeta(id: Id, meta: Meta) returns (ok: bool)
      requires id in fs.snapshots
      modifies this
      ensures trace == old(trace) + [fs]
      ensures fs == if ok
                    then old(fs).(snapshots := old(fs).snapshots[id := old(fs).snapshots[id].(meta := Data(meta))])
                    else old(fs)
      ensures faults == if ok then old(faults) else old(faults) + 1
    {
      ok := WriteDir(id, fs.snapshots[id].(meta := Data(meta)));
    }

    method WriteIndex(list: seq<Meta>) returns (ok: bool)
      modifies this
      ensures trace == old(trace) + [fs]
      ensures fs == if ok then old(fs).(index := Data(list)) else old(fs)
      ensures faults == if ok then old(faults) else old(faults) + 1
    {
      ok := Step(fs.(index := Data(list)));
    }

    /**
     The outcome of an index write that the model otherwise rules out: the rename has taken effect, and
     the sync of the directory reports failure.
     */
    method WriteIndexUnsynced(list: seq<Meta>) returns (ok: bool)
      modifies this`fs, this`trace
      ensures !ok && trace == old(trace) + [fs]
      ensures fs == old(fs).(index := Data(list))
    {
      fs := fs.(index := Data(list));
      trace := trace + [fs];
      ok := false;
    }

    /** Rename between `snapshots/<id>` and `.deleting/<id>`; fails when the source is missing. */
    method Rename(source: Area, target: Area, id: Id) returns (ok: bool)
      requires source != target
      requires id !in fs.Dirs(target)
      modifies this
      ensures trace == old(trace) + [fs]
      ensures id !in old(fs.Dirs(source)) ==> !ok
      ensures ok ==> fs == old(fs).With(source, old(fs).Dirs(source) - {id})
                                  .With(target, old(fs).Dirs(target)[id := old(fs).Dirs(source)[id]])
      ensures !ok ==> fs == old(fs)
      ensures faults == if ok || id !in old(fs.Dirs(source)) then old(faults) else old(faults) + 1
    {
      if id !in fs.Dirs(source) {
        trace := trace + [fs];
        return false;
      }
      ok := Step(fs.With(source, fs.Dirs(source) - {id}).With(target, fs.Dirs(target)[id := fs.Dirs(source)[id]]));
    }

    /** Removes files one by one in any order, each removal possibly failing, then the directory. */
    method RemoveAll(area: Area, id: Id) returns (ok: bool)
      modifies this
      ensures |old(trace)| < |trace| && old(trace) <= trace && fs == trace[|trace| - 1]
      ensures forall i :: |old(trace)| <= i < |trace| ==> Shrunk(old(fs), area, id, trace[i])
      ensures ok <==> id !in fs.Dirs(area)
      ensures faults >= old(faults) && (faults == old(faults) ==> ok)
    {
      trace := trace + [fs];
      if id !in fs.Dirs(area) { return true; }
      var todo := {0, 1, 2};
      while todo != {}
        invariant todo <= {0, 1, 2}
        invariant id in fs.Dirs(area)
        invariant |old(trace)| < |trace| && old(trace) <= trace && fs == trace[|trace| - 1]
        invariant forall i :: |old(trace)| <= i < |trace| ==> Shrunk(old(fs), area, id, trace[i])
        invariant faults >= old(faults)
        invariant faults == old(faults) ==>
                    && (0 in todo || fs.Dirs(area)[id].meta.Absent?)
                    && (1 in todo || fs.Dirs(area)[id].full.Absent?)
                    && (2 in todo || fs.Dirs(area)[id].delta.Absent?)
      {
        var which :| which in todo;
        todo := todo - {which};
        var d := fs.Dirs(area)[id];
        d := if which == 0 then d.(meta := Absent) else if which == 1 then d.(full := Absent) else d.(delta := Absent);
        var removed := Step(fs.With(area, fs.Dirs(area)[id := d]));
      }
      ok := false;
      if fs.Dirs(area)[id] == EMPTY_DIR {
        ok := Step(fs.With(area, fs.Dirs(area) - {id}));
      }
    }

    /** The entries of a directory, by name. */
    method ReadDir(area: Area) returns (names: seq<Id>)
      ensures StrictlySorted(StrLess, names) && forall id :: id in names <==> id in fs.Dirs(area)
    {
      names := SortedStrings(fs.Dirs(area).Keys);
    }
  }
}
