/** Where two assumptions end: a write that half fails, and a crash that the next open does not repair. */
module Hazards {
  import opened Sorting
  import opened Times
  import opened Files
  import opened Store
  import opened History
  import opened Reconstruct
  import opened Runs

  /** Kind and payload go together, as in every record the store makes. */
  predicate WellKinded(rec: Record)
  {
    && PlainId(rec.meta.id)
    && (rec.payload.FullPayload? <==> rec.meta.kind.FullKind?)
    && (rec.payload.DeltaPayload? <==> rec.meta.kind.DeltaKind?)
  }

  // ---- an index write that takes effect and reports failure -----------------------------

  /** What a put leaves whose index write took effect although it reported failure. */
  ghost predicate HalfFailed(a: Fs, list: seq<Meta>, rec: Record, b: Fs)
  {
    && rec.meta.id !in a.snapshots
    && b.index == Data(Appended(list, rec.meta)) && b.deleting == a.deleting
    && SameExcept(a.snapshots, b.snapshots, rec.meta.id)
    && (rec.meta.id in b.snapshots ==> Within(b.snapshots[rec.meta.id], WholeDir(rec)))
  }

  /**
   The steps of a put, with the outcome of the index write that the rest of the model rules out: the
   rename takes effect and the directory sync fails. The code takes that for a failed write, keeps its
   old list, and removes the directory. `written` says that the put came as far as the index write.
   */
  method PutWithHalfFailedIndexWrite(l: Local, rec: Record) returns (ok: bool, written: bool)
    requires !l.readOnly
    modifies l, l.disk
    ensures !ok && l.index == old(l.index)
    ensures if written then HalfFailed(old(l.disk.fs), l.index, rec, l.disk.fs)
            else PutFailed(old(l.disk.fs), old(l.index), rec, l.disk.fs, l.index)
    ensures l.disk.faults >= old(l.disk.faults)
    ensures l.disk.faults == old(l.disk.faults) && rec.meta.id !in old(l.disk.fs).snapshots ==> written
    ensures l.disk.faults == old(l.disk.faults) && written ==> rec.meta.id !in l.disk.fs.snapshots
  {
    ghost var a, list := l.disk.fs, l.index;
    written := false;
    ok := l.WriteSnapshot(rec, a, list);
    if !ok { return; }
    written := true;
    var before := l.index;
    l.index := SortBy(TsLess, before + [rec.meta]);
    ok := l.disk.WriteIndexUnsynced(l.index);
    l.index := before;
    label Written:
    var removed := l.disk.RemoveAll(Snapshots, rec.meta.id);
    assert Shrunk(old@Written(l.disk.fs), Snapshots, rec.meta.id, l.disk.fs) by {
      assert l.disk.fs == l.disk.trace[|l.disk.trace| - 1];
    }
  }

  /**
   The next open lists the snapshot all the same. It can be read exactly when the clean-up removed
   nothing of it, and cannot be rebuilt when it removed everything.
   */
  lemma HalfFailedPutDanglesUnlessWhole(a: Fs, list: seq<Meta>, rec: Record, b: Fs, listed: seq<Meta>)
    requires HalfFailed(a, list, rec, b) && WellKinded(rec) && rec.meta.id !in a.deleting && Listing(b, listed)
    ensures rec.meta in listed
    ensures Read(b, b, rec.meta.id).Ok? <==> rec.meta.id in b.snapshots && b.snapshots[rec.meta.id] == WholeDir(rec)
    ensures rec.meta.id !in b.snapshots ==> StateAt(b, rec.meta.id) == Err(LoadFailed(rec.meta.id))
  {
    AppendedHolds(list, rec.meta);
    if rec.meta.id in b.snapshots { PartIsReadableWhenWhole(b, rec); }
  }

  lemma AppendedHolds(list: seq<Meta>, m: Meta)
    ensures m in Appended(list, m)
  {
    TsOrders();
    SortBySorts(TsLess, list + [m]);
    assert m in list + [m];
  }

  lemma PartIsReadableWhenWhole(b: Fs, rec: Record)
    requires WellKinded(rec) && rec.meta.id in b.snapshots && Within(b.snapshots[rec.meta.id], WholeDir(rec))
    ensures Read(b, b, rec.meta.id).Ok? <==> b.snapshots[rec.meta.id] == WholeDir(rec)
  {
  }

  // ---- a crash between the metadata write and the index write ------------------------------

  /**
   A crash after the metadata write leaves a finished directory that the index file does not name. The
   next open lists it exactly when the index file is missing or unreadable: startup rebuild closes the
   gap then, and only then.
   */
  lemma FinishedDirIsListedExactlyWhenIndexIsLost(a: Fs, list: seq<Meta>, rec: Record, b: Fs, listed: seq<Meta>)
    requires WellKinded(rec) && rec.meta.id !in a.snapshots && rec.meta.id !in a.deleting
    requires a.index.Data? ==> rec.meta !in a.index.value
    requires b == a.(snapshots := a.snapshots[rec.meta.id := WholeDir(rec)]) && Listing(b, listed)
    ensures PutWindow(a, list, rec, b)
    ensures rec.meta in listed <==> !b.index.Data?
  {
    var base :| Base(b, base) && listed == Without(base, b.deleting.Keys);
    if !b.index.Data? {
      assert CompleteDir(b.snapshots[rec.meta.id], rec.meta.id);
    }
  }

  /** `rec` is what the next flush would write. */
  ghost predicate WouldWrite(a: Sys, rec: Record)
  {
    exists t :: NextRecord(a, t, rec)
  }

  ghost predicate CutShort(a: Sys, rec: Record, b: Sys)
  {
    exists t :: FlushCrashed(a, t, rec, b)
  }

  lemma NextIsWellKinded(a: Sys, rec: Record)
    requires WouldWrite(a, rec)
    ensures WellKinded(rec)
  {
    var t :| NextRecord(a, t, rec);
    IdIsPlain(t);
  }

  lemma NextIsUnknown(run: seq<Sys>, a: Sys, rec: Record)
    requires Runs.LeadsTo(run, a) && WouldWrite(a, rec)
    ensures rec.meta.id !in a.h
  {
    HistoryIsGenuine(run, a);
    var t :| NextRecord(a, t, rec);
    FreshAttempt(a.h, t);
  }

  lemma HistoryIsGenuine(run: seq<Sys>, a: Sys)
    requires Runs.LeadsTo(run, a)
    ensures Genuine(a.h)
  {
    RunKeepsInv(run, |run| - 1);
  }

  lemma UnknownIsNotOnDisk(run: seq<Sys>, a: Sys, m: Meta)
    requires Runs.LeadsTo(run, a) && m.id !in a.h
    ensures m.id !in a.fs.snapshots && m.id !in a.fs.deleting
    ensures a.fs.index.Data? ==> m !in a.fs.index.value
  {
    RunKeepsInv(run, |run| - 1);
  }

  lemma FinishedIsInWindow(a: Fs, list: seq<Meta>, rec: Record, b: Fs)
    requires rec.meta.id !in a.snapshots && b == a.(snapshots := a.snapshots[rec.meta.id := WholeDir(rec)])
    ensures PutWindow(a, list, rec, b)
  {
  }

  lemma CutShortIsAStep(a: Sys, rec: Record, b: Sys)
    requires CutShort(a, rec, b)
    ensures Step(a, b)
  {
  }

  lemma CanBeCutShort(a: Sys, rec: Record) returns (b: Sys)
    requires WouldWrite(a, rec) && rec.meta.id !in a.fs.snapshots
    ensures CutShort(a, rec, b)
    ensures b.fs == a.fs.(snapshots := a.fs.snapshots[rec.meta.id := WholeDir(rec)])
  {
    var t :| NextRecord(a, t, rec);
    b := a.(fs := a.fs.(snapshots := a.fs.snapshots[rec.meta.id := WholeDir(rec)]), up := false, h := Tried(a, t, rec));
    FinishedIsInWindow(a.fs, a.list, rec, b.fs);
    var cut := FlushCrashed(a, t, rec, b);
  }

  /**
   Every run can come to that: wherever the index file is readable, the next flush can be cut short so
   that its snapshot is finished, and every later open misses it.
   */
  lemma FinishedSnapshotIsMissed(run: seq<Sys>, rec: Record) returns (cut: Sys)
    requires IsRun(run) && Init(run[0]) && WouldWrite(run[|run| - 1], rec) && run[|run| - 1].fs.index.Data?
    ensures IsRun(run + [cut]) && CutShort(run[|run| - 1], rec, cut)
    ensures rec.meta.id in cut.fs.snapshots && cut.fs.snapshots[rec.meta.id] == WholeDir(rec)
    ensures forall listed :: Listing(cut.fs, listed) ==> rec.meta !in listed
  {
    var a := run[|run| - 1];
    NextIsUnknown(run, a, rec);
    UnknownIsNotOnDisk(run, a, rec.meta);
    NextIsWellKinded(a, rec);
    cut := CanBeCutShort(a, rec);
    CutShortIsAStep(a, rec, cut);
    OneMoreStep(run, cut);
    NobodyLists(a.fs, a.list, rec, cut.fs);
  }

  lemma NobodyLists(a: Fs, list: seq<Meta>, rec: Record, b: Fs)
    requires WellKinded(rec) && rec.meta.id !in a.snapshots && rec.meta.id !in a.deleting
    requires a.index.Data? && rec.meta !in a.index.value
    requires b == a.(snapshots := a.snapshots[rec.meta.id := WholeDir(rec)])
    ensures forall listed :: Listing(b, listed) ==> rec.meta !in listed
  {
    forall listed | Listing(b, listed) ensures rec.meta !in listed {
      FinishedDirIsListedExactlyWhenIndexIsLost(a, list, rec, b, listed);
    }
  }

  // ---- files that cannot be read ----------------------------------------------------

  /**
   On any disk, files that cannot be parsed included: a rebuilt list holds exactly the snapshots that load
   under their own name, apart from staged deletions.
   */
  lemma RebuiltListLoads(fs: Fs, list: seq<Meta>)
    requires !fs.index.Data? && Listing(fs, list)
    ensures forall m :: m in list && PlainId(m.id) ==> Read(fs, fs, m.id).Ok? && Read(fs, fs, m.id).value.meta == m
    ensures forall id :: id !in fs.deleting && Read(fs, fs, id).Ok? && Read(fs, fs, id).value.meta.id == id ==>
                           Read(fs, fs, id).value.meta in list
    ensures forall m :: m in list ==> m.id !in fs.deleting
  {
    var base :| Base(fs, base) && list == Without(base, fs.deleting.Keys);
    assert Rebuilt(fs.snapshots, base);
  }
}
