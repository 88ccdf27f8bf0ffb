/** An orphan directory that a lost index file brings back, and what blame makes of it. */
module Orphans {
  import opened Times
  import opened D = Delta
  import opened Wire
  import opened Files
  import opened Store
  import opened History
  import opened Reconstruct
  import opened Runs
  import opened Promises
  import Blame
  import StoreLaws

  lemma OneMorePoint(fs: Fs, l: seq<Meta>, m: Meta)
    requires Blame.Points(fs, l).Ok? && StateAt(fs, m.id).Ok?
    ensures Blame.Points(fs, l + [m])
            == Ok(Blame.Points(fs, l).value + [Blame.Point(m.ts, m.id, StateAt(fs, m.id).value)])
  {
    assert (l + [m])[..|l|] == l;
  }

  lemma SiblingPoints(fs: Fs, f: Meta, o: Meta, d: Meta, target: Key, s: State)
    requires StateAt(fs, f.id) == StateAt(fs, d.id) == Ok(map[])
    requires StateAt(fs, o.id) == Ok(map[target := s])
    ensures Blame.Points(fs, [f, o, d])
            == Ok([Blame.Point(f.ts, f.id, map[]), Blame.Point(o.ts, o.id, map[target := s]),
                   Blame.Point(d.ts, d.id, map[])])
  {
    assert [] + [f] == [f] && [f] + [o] == [f, o] && [f, o] + [d] == [f, o, d];
    var p0, p1 := Blame.Point(f.ts, f.id, map[]), Blame.Point(o.ts, o.id, map[target := s]);
    var p2 := Blame.Point(d.ts, d.id, map[]);
    assert [] + [p0] == [p0] && [p0] + [p1] == [p0, p1] && [p0, p1] + [p2] == [p0, p1, p2];
    OneMorePoint(fs, [], f);
    OneMorePoint(fs, [f], o);
    OneMorePoint(fs, [f, o], d);
  }

  lemma SiblingRows(ps: seq<Blame.Point>, target: Key, s: State)
    requires |ps| == 3 && ps[0].state == map[] && ps[1].state == map[target := s] && ps[2].state == map[]
    ensures Blame.Rows(ps, 0, 3, target)
            == [Blame.Row(ps[1].ts, Blame.Created, s, ps[1].id), Blame.Row(ps[2].ts, Blame.Removed, s, ps[2].id)]
  {
    assert Blame.Rows(ps, 0, 1, target) == Blame.Rows(ps, 0, 0, target) + Blame.RowAt(ps, 0, target) == [];
    assert Blame.Rows(ps, 0, 2, target) == Blame.Rows(ps, 0, 1, target) + Blame.RowAt(ps, 1, target);
  }

  lemma OneMoreEntry(fs: Fs, l: seq<Meta>, m: Meta, target: Key)
    requires Blame.Fold(fs, l, target).Ok? && Read(fs, fs, m.id).Ok? && !Blame.Skips(m, target)
    ensures Blame.Fold(fs, l + [m], target)
            == Ok(Blame.Advance(Blame.Fold(fs, l, target).value, Read(fs, fs, m.id).value, m, target))
  {
    assert (l + [m])[..|l|] == l;
  }

  lemma SiblingFold(fs: Fs, f: Meta, o: Meta, d: Meta, target: Key, s: State)
    requires Read(fs, fs, f.id) == Ok(LoadedFull(f, map[]))
    requires Read(fs, fs, o.id) == Ok(LoadedDelta(o, D.Delta(map[target := s], map[], {})))
    requires Read(fs, fs, d.id) == Ok(LoadedDelta(d, D.Delta(map[], map[], {})))
    requires f.kind.FullKind? && o.kinds == [target.kind] && d.kinds == []
    ensures Blame.RowsOf(Blame.Fold(fs, [f, o, d], target)) == Ok([Blame.Row(o.ts, Blame.Created, s, o.id)])
  {
    assert [] + [f] == [f] && [f] + [o] == [f, o] && [f, o] + [d] == [f, o, d];
    assert [target.kind][0] == target.kind;
    var created := [Blame.Row(o.ts, Blame.Created, s, o.id)];
    assert Patch(map[], D.Delta(map[target := s], map[], {})) == map[target := s];
    assert Patch(map[target := s], D.Delta(map[], map[], {})) == map[target := s];
    var none: seq<Blame.Row> := [];
    assert none + none == none && none + created == created && created + none == created;
    OneMoreEntry(fs, [], f, target);
    assert Blame.Fold(fs, [f], target) == Ok(Blame.Acc(none, map[], None));
    OneMoreEntry(fs, [f], o, target);
    assert Blame.Fold(fs, [f, o], target) == Ok(Blame.Acc(created, map[target := s], Some(s)));
    OneMoreEntry(fs, [f, o], d, target);
  }

  /** A full snapshot of nothing, an orphan delta that added one resource, and a delta that changed nothing. */
  function SiblingDisk(f: Meta, o: Meta, d: Meta, target: Key, s: State): Fs
  {
    Fs(Absent,
       map[f.id := WholeDir(Record(f, FullPayload(WireSnapshot([])))),
           o.id := WholeDir(Record(o, DeltaPayload(WireDelta([Entry(target, s)], [], [])))),
           d.id := WholeDir(Record(d, DeltaPayload(WireDelta([], [], []))))],
       map[])
  }

  ghost predicate Siblings(f: Meta, o: Meta, d: Meta, target: Key)
  {
    && PlainId(f.id) && PlainId(o.id) && PlainId(d.id) && f.id != o.id && f.id != d.id && o.id != d.id
    && f.kind.FullKind? && o.kind.DeltaKind? && d.kind.DeltaKind? && o.prev == d.prev == f.id
    && f.ts < o.ts < d.ts && o.kinds == [target.kind] && d.kinds == []
  }

  lemma SiblingReads(f: Meta, o: Meta, d: Meta, target: Key, s: State)
    requires Siblings(f, o, d, target)
    ensures var fs := SiblingDisk(f, o, d, target, s);
            && Read(fs, fs, f.id) == Ok(LoadedFull(f, map[]))
            && Read(fs, fs, o.id) == Ok(LoadedDelta(o, D.Delta(map[target := s], map[], {})))
            && Read(fs, fs, d.id) == Ok(LoadedDelta(d, D.Delta(map[], map[], {})))
            && Rebuilt(fs.snapshots, [f, o, d])
  {
    assert [Entry(target, s)][..0] == [] && ToMap([Entry(target, s)]) == map[target := s];
    var none: seq<Key> := [];
    assert (set k | k in none) == {};
  }

  lemma SiblingsAreListed(f: Meta, o: Meta, d: Meta, target: Key, s: State, list: seq<Meta>)
    requires Siblings(f, o, d, target)
    ensures Listing(SiblingDisk(f, o, d, target, s), list) <==> list == [f, o, d]
  {
    var fs, l := SiblingDisk(f, o, d, target, s), [f, o, d];
    SiblingReads(f, o, d, target, s);
    WithoutNothing(l, fs.deleting.Keys);
    assert Base(fs, l);
    if Listing(fs, list) { StoreLaws.ListingIsUnique(fs, list, l); }
  }

  /**
   A put can fail with its directory left behind, and the next delta is then written against the same
   predecessor. Once the index file is lost, a rebuild lists both siblings, and blame patches one on top
   of the other: a resource that only the failed flush saw appears, and is never reported removed.
   */
  lemma RebuiltSiblingMisleadsBlame(f: Meta, o: Meta, d: Meta, target: Key, s: State, list: seq<Meta>)
    requires Siblings(f, o, d, target)
    ensures var fs := SiblingDisk(f, o, d, target, s);
            && (Listing(fs, list) <==> list == [f, o, d])
            && Blame.Naive(fs, [f, o, d], target)
               == Ok([Blame.Row(o.ts, Blame.Created, s, o.id), Blame.Row(d.ts, Blame.Removed, s, d.id)])
            && Blame.RowsOf(Blame.Fold(fs, [f, o, d], target)) == Ok([Blame.Row(o.ts, Blame.Created, s, o.id)])
  {
    var fs := SiblingDisk(f, o, d, target, s);
    SiblingsAreListed(f, o, d, target, s, list);
    SiblingReads(f, o, d, target, s);
    StateAtFull(fs, f.id);
    StateAtDelta(fs, o.id);
    StateAtDelta(fs, d.id);
    assert Patch(map[], D.Delta(map[target := s], map[], {})) == map[target := s];
    assert Patch(map[], D.Delta(map[], map[], {})) == map[];
    SiblingPoints(fs, f, o, d, target, s);
    SiblingRows(Blame.Points(fs, [f, o, d]).value, target, s);
    SiblingFold(fs, f, o, d, target, s);
  }

  // ---- a run that leads there ---------------------------------------------------------

  /** The records of three flushes: of nothing, of one resource, and of nothing again. */
  function FullOfNothing(t: Time): Record
  {
    Record(Meta(IdFromTime(t), FullKind, Rank(t), "", []), FullPayload(WireSnapshot([])))
  }

  function OneAdded(t: Time, prev: Id, target: Key, s: State): Record
  {
    Record(Meta(IdFromTime(t), DeltaKind, Rank(t), prev, [target.kind]),
           DeltaPayload(WireDelta([Entry(target, s)], [], [])))
  }

  function NothingChanged(t: Time, prev: Id): Record
  {
    Record(Meta(IdFromTime(t), DeltaKind, Rank(t), prev, []), DeltaPayload(WireDelta([], [], [])))
  }

  lemma FullOfNothingIsRecord(t: Time)
    ensures FullRecord(FullOfNothing(t), t, map[])
  {
  }

  lemma OneAddedIsRecord(t: Time, prev: Id, target: Key, s: State)
    ensures DeltaRecord(OneAdded(t, prev, target, s), t, prev, Diff(map[], map[target := s]))
  {
    var d := Diff(map[], map[target := s]);
    assert d == D.Delta(map[target := s], map[], {});
    assert [Entry(target, s)][..0] == [] && ToMap([Entry(target, s)]) == map[target := s];
    var none: seq<Key> := [];
    assert (set k | k in none) == {};
    assert Touched(d) == {target} && KindsOf({target}) == {target.kind};
  }

  lemma NothingChangedIsRecord(t: Time, prev: Id)
    ensures DeltaRecord(NothingChanged(t, prev), t, prev, Diff(map[], map[]))
  {
    assert Diff(map[], map[]) == D.Delta(map[], map[], {});
    var none: seq<Key> := [];
    assert (set k | k in none) == {};
  }

  lemma LaterIdIsNew(t1: Time, t2: Time)
    requires ValidTime(t1) && ValidTime(t2) && Millis(t1) < Millis(t2)
    ensures IdFromTime(t1) != IdFromTime(t2) && Rank(t1) < Rank(t2)
  {
    IdsEmbedTimeOrder(t1, t2);
    RankIsTimeOrder(t1, t2);
    RankIsTimeOrder(t2, t2);
  }

  lemma ChangeIsAStep(a: Sys, buf: Snapshot)
    requires a.up
    ensures Step(a, a.(buf := buf))
  {
    assert Mutated(a, a.(buf := buf));
  }

  /** The second flush fails, and its finished directory cannot be removed. */
  lemma OrphanStays(a: Sys, t: Time, o: Record) returns (b: Sys)
    requires NextRecord(a, t, o) && o.meta.id !in a.fs.snapshots
    ensures b == a.(fs := a.fs.(snapshots := a.fs.snapshots[o.meta.id := WholeDir(o)]), h := Tried(a, t, o))
    ensures Step(a, b)
  {
    b := a.(fs := a.fs.(snapshots := a.fs.snapshots[o.meta.id := WholeDir(o)]), h := Tried(a, t, o));
    assert FlushFailed(a, t, o, b);
  }

  lemma FlushSucceeds(a: Sys, t: Time, d: Record) returns (b: Sys)
    requires NextRecord(a, t, d) && d.meta.id !in a.fs.snapshots && !FullTurn(a)
    ensures Step(a, b)
    ensures b.fs == Fs(Data(Appended(a.list, d.meta)), a.fs.snapshots[d.meta.id := WholeDir(d)], a.fs.deleting)
  {
    b := a.(fs := Fs(Data(Appended(a.list, d.meta)), a.fs.snapshots[d.meta.id := WholeDir(d)], a.fs.deleting),
            list := Appended(a.list, d.meta), h := Tried(a, t, d), live := a.live + {d.meta.id},
            prevState := a.buf, prevID := d.meta.id, flushNum := a.flushNum + 1, flushDelta := a.flushDelta + 1);
    assert Flushed(a, t, d, b);
  }

  lemma IndexLossIsAStep(a: Sys)
    ensures Step(a, a.(fs := a.fs.(index := Absent), tidy := false))
  {
    assert IndexLost(a, a.(fs := a.fs.(index := Absent), tidy := false));
  }

  lemma SecondIsDelta(k: nat)
    requires k > 1
    ensures 1 % k != 0
  {
  }

  /** After the first flush one resource appears, and the flush of it fails. */
  function WithOrphan(t1: Time, t2: Time, target: Key, s: State, fullEvery: nat): Sys
  {
    var f := FullOfNothing(t1);
    var o := OneAdded(t2, f.meta.id, target, s);
    FirstFlushed(map[], fullEvery, t1, f).(
      buf := map[target := s],
      fs := Fs(Data([f.meta]), map[f.meta.id := WholeDir(f), o.meta.id := WholeDir(o)], map[]),
      h := map[f.meta.id := Attempt(f, map[], t1, 1), o.meta.id := Attempt(o, map[target := s], t2, 2)])
  }

  lemma OrphanIsNext(t1: Time, t2: Time, target: Key, s: State, fullEvery: nat)
    requires ValidTime(t1) && ValidTime(t2) && Millis(t1) < Millis(t2) && fullEvery > 1
    ensures var f := FullOfNothing(t1);
            NextRecord(FirstFlushed(map[], fullEvery, t1, f).(buf := map[target := s]), t2,
                       OneAdded(t2, f.meta.id, target, s))
  {
    OneAddedIsRecord(t2, FullOfNothing(t1).meta.id, target, s);
    SecondIsDelta(fullEvery);
  }

  lemma OrphanIsReached(t1: Time, t2: Time, target: Key, s: State, fullEvery: nat)
    requires ValidTime(t1) && ValidTime(t2) && Millis(t1) < Millis(t2) && fullEvery > 1
    ensures Step(FirstFlushed(map[], fullEvery, t1, FullOfNothing(t1)).(buf := map[target := s]),
                 WithOrphan(t1, t2, target, s, fullEvery))
  {
    var f := FullOfNothing(t1);
    var a, o := FirstFlushed(map[], fullEvery, t1, f).(buf := map[target := s]), OneAdded(t2, f.meta.id, target, s);
    LaterIdIsNew(t1, t2);
    OrphanIsNext(t1, t2, target, s, fullEvery);
    var b := OrphanStays(a, t2, o);
    assert b.fs == WithOrphan(t1, t2, target, s, fullEvery).fs;
    assert b.h == WithOrphan(t1, t2, target, s, fullEvery).h;
  }

  lemma FirstThenOrphan(t1: Time, t2: Time, target: Key, s: State, fullEvery: nat) returns (run: seq<Sys>)
    requires ValidTime(t1) && ValidTime(t2) && Millis(t1) < Millis(t2) && fullEvery > 1
    ensures IsRun(run) && Init(run[0]) && run[|run| - 1] == WithOrphan(t1, t2, target, s, fullEvery)
  {
    var f := FullOfNothing(t1);
    FullOfNothingIsRecord(t1);
    run := RecordingStarts(map[], fullEvery, t1, f);
    var a := FirstFlushed(map[], fullEvery, t1, f);
    ChangeIsAStep(a, map[target := s]);
    OneMoreStep(run, a.(buf := map[target := s]));
    OrphanIsReached(t1, t2, target, s, fullEvery);
    OneMoreStep(run + [a.(buf := map[target := s])], WithOrphan(t1, t2, target, s, fullEvery));
    run := run + [a.(buf := map[target := s])] + [WithOrphan(t1, t2, target, s, fullEvery)];
  }

  lemma SiblingIsNext(t1: Time, t2: Time, t3: Time, target: Key, s: State, fullEvery: nat)
    requires ValidTime(t1) && ValidTime(t2) && ValidTime(t3) && Millis(t1) < Millis(t2) < Millis(t3) && fullEvery > 1
    ensures NextRecord(WithOrphan(t1, t2, target, s, fullEvery).(buf := map[]), t3,
                       NothingChanged(t3, FullOfNothing(t1).meta.id))
  {
    NothingChangedIsRecord(t3, FullOfNothing(t1).meta.id);
    SecondIsDelta(fullEvery);
  }

  /** The delta against the same predecessor goes through, and then the index file is lost. */
  lemma SiblingIsWritten(t1: Time, t2: Time, t3: Time, target: Key, s: State, fullEvery: nat) returns (b: Sys)
    requires ValidTime(t1) && ValidTime(t2) && ValidTime(t3) && Millis(t1) < Millis(t2) < Millis(t3) && fullEvery > 1
    ensures Step(WithOrphan(t1, t2, target, s, fullEvery).(buf := map[]), b)
    ensures var f := FullOfNothing(t1).meta;
            b.fs.(index := Absent)
            == SiblingDisk(f, OneAdded(t2, f.id, target, s).meta, NothingChanged(t3, f.id).meta, target, s)
  {
    var f, a := FullOfNothing(t1).meta, WithOrphan(t1, t2, target, s, fullEvery).(buf := map[]);
    LaterIdIsNew(t1, t3);
    LaterIdIsNew(t2, t3);
    SecondIsDelta(fullEvery);
    SiblingIsNext(t1, t2, t3, target, s, fullEvery);
    b := FlushSucceeds(a, t3, NothingChanged(t3, f.id));
  }

  lemma RecordsAreSiblings(t1: Time, t2: Time, t3: Time, target: Key, s: State)
    requires ValidTime(t1) && ValidTime(t2) && ValidTime(t3) && Millis(t1) < Millis(t2) < Millis(t3)
    ensures var f := FullOfNothing(t1).meta;
            Siblings(f, OneAdded(t2, f.id, target, s).meta, NothingChanged(t3, f.id).meta, target)
  {
    IdIsPlain(t1);
    IdIsPlain(t2);
    IdIsPlain(t3);
    LaterIdIsNew(t1, t2);
    LaterIdIsNew(t1, t3);
    LaterIdIsNew(t2, t3);
  }

  /**
   The disk with the orphan is where a run leads: a full flush, a failed flush that leaves its directory
   behind, a delta against the same predecessor, and the loss of the index file.
   */
  lemma OrphanRun(t1: Time, t2: Time, t3: Time, target: Key, s: State, fullEvery: nat) returns (run: seq<Sys>)
    requires ValidTime(t1) && ValidTime(t2) && ValidTime(t3) && Millis(t1) < Millis(t2) < Millis(t3) && fullEvery > 1
    ensures var f := FullOfNothing(t1).meta;
            var o, d := OneAdded(t2, f.id, target, s).meta, NothingChanged(t3, f.id).meta;
            && Siblings(f, o, d, target)
            && IsRun(run) && Init(run[0]) && run[|run| - 1].fs == SiblingDisk(f, o, d, target, s)
  {
    RecordsAreSiblings(t1, t2, t3, target, s);
    run := FirstThenOrphan(t1, t2, target, s, fullEvery);
    var a := WithOrphan(t1, t2, target, s, fullEvery).(buf := map[]);
    ChangeIsAStep(WithOrphan(t1, t2, target, s, fullEvery), map[]);
    OneMoreStep(run, a);
    var b := SiblingIsWritten(t1, t2, t3, target, s, fullEvery);
    OneMoreStep(run + [a], b);
    IndexLossIsAStep(b);
    OneMoreStep(run + [a] + [b], b.(fs := b.fs.(index := Absent), tidy := false));
    run := run + [a] + [b] + [b.(fs := b.fs.(index := Absent), tidy := false)];
  }
}
