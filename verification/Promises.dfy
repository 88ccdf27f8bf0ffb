/** What every run of the recorder guarantees to whoever reads its history. */
module Promises {
  import opened Sorting
  import opened Times
  import opened D = Delta
  import opened Files
  import opened Store
  import opened History
  import opened Reconstruct
  import opened Runs

  /** A store that has never been used, and the same store opened by an agent that has seen `snap`. */
  function Unused(fullEvery: nat): Sys
  {
    Sys(EMPTY_FS, false, [], map[], map[], "", 0, 0, 0, fullEvery, map[], 0, {}, {}, {}, true)
  }

  function FirstOpened(snap: Snapshot, fullEvery: nat): Sys
  {
    Unused(fullEvery).(up := true, buf := snap)
  }

  function FirstFlushed(snap: Snapshot, fullEvery: nat, t: Time, rec: Record): Sys
  {
    FirstOpened(snap, fullEvery).(
      fs := Fs(Data([rec.meta]), map[rec.meta.id := WholeDir(rec)], map[]), list := [rec.meta],
      prevState := snap, prevID := rec.meta.id, flushNum := 1, flushFull := 1,
      h := map[rec.meta.id := Attempt(rec, snap, t, 1)], live := {rec.meta.id})
  }

  lemma FirstOpenIsAStep(snap: Snapshot, fullEvery: nat)
    requires fullEvery > 0
    ensures Init(Unused(fullEvery)) && Step(Unused(fullEvery), FirstOpened(snap, fullEvery))
  {
    var a, b := Unused(fullEvery), FirstOpened(snap, fullEvery);
    assert Base(a.fs, []) && Without([], a.fs.deleting.Keys) == [];
    assert OpenDone(a.fs, [], b.fs, b.list);
    assert ListedFrom(b.list, a.floor) == {};
    assert Reopened(a, [], b);
  }

  lemma FirstFlushIsAStep(snap: Snapshot, fullEvery: nat, t: Time, rec: Record)
    requires fullEvery > 0 && ValidTime(t) && FullRecord(rec, t, snap)
    ensures Flushed(FirstOpened(snap, fullEvery), t, rec, FirstFlushed(snap, fullEvery, t, rec))
  {
    var a, b := FirstOpened(snap, fullEvery), FirstFlushed(snap, fullEvery, t, rec);
    var one := [rec.meta];
    assert [] + one == one && one[..0] == [];
    assert Appended([], rec.meta) == Insert(TsLess, SortBy(TsLess, []), rec.meta) == one;
    assert a.fs.snapshots[rec.meta.id := WholeDir(rec)] == b.fs.snapshots;
    assert FullTurn(a);
    assert Tried(a, t, rec) == b.h && a.live + {rec.meta.id} == b.live;
  }

  /** Runs exist, and the promises are not empty: from an unused store, any state can be recorded and comes back. */
  lemma RecordingStarts(snap: Snapshot, fullEvery: nat, t: Time, rec: Record) returns (run: seq<Sys>)
    requires fullEvery > 0 && ValidTime(t) && FullRecord(rec, t, snap)
    ensures IsRun(run) && Init(run[0]) && |run| == 3 && Flushed(run[1], t, rec, run[2])
    ensures run[2] == FirstFlushed(snap, fullEvery, t, rec)
    ensures run[2].list == [rec.meta] && StateAt(run[2].fs, rec.meta.id) == Ok(snap)
  {
    var a, b, c := Unused(fullEvery), FirstOpened(snap, fullEvery), FirstFlushed(snap, fullEvery, t, rec);
    FirstOpenIsAStep(snap, fullEvery);
    FirstFlushIsAStep(snap, fullEvery, t, rec);
    run := [a, b, c];
    forall i | 0 <= i < |run| - 1 ensures StepAt(run, i) {}
    assert FlushWent(run, 1, rec);
    FlushedStateComesBack(run, 1, rec, 2);
  }

  // ---- nothing is forgotten ----------------------------------------------------------

  /** History only grows, anchors only move forward, deletions stay, retained snapshots stay. */
  ghost predicate Grows(a: Sys, b: Sys)
  {
    && Extends(a.h, b.h)
    && a.floor <= b.floor
    && a.gone <= b.gone
    && (forall id :: id in a.live && id in a.h && Ts(a.h, id) >= b.floor ==> id in b.live)
  }

  lemma AttemptGrows(a: Sys, t: Time, rec: Record)
    requires Inv(a) && NextRecord(a, t, rec)
    ensures Extends(a.h, Tried(a, t, rec))
  {
    NextRecordIsAttempted(a, t, rec);
  }

  lemma FlushGrows(a: Sys, b: Sys, t: Time, rec: Record)
    requires Extends(a.h, Tried(a, t, rec))
    requires Flushed(a, t, rec, b) || FlushFailed(a, t, rec, b) || FlushCrashed(a, t, rec, b)
    ensures Grows(a, b)
  {
  }

  lemma AnyFlushGrows(a: Sys, b: Sys)
    requires Inv(a)
    requires exists t, rec :: Flushed(a, t, rec, b) || FlushFailed(a, t, rec, b) || FlushCrashed(a, t, rec, b)
    ensures Grows(a, b)
  {
    var t, rec :| Flushed(a, t, rec, b) || FlushFailed(a, t, rec, b) || FlushCrashed(a, t, rec, b);
    AttemptGrows(a, t, rec);
    FlushGrows(a, b, t, rec);
  }

  lemma DeleteGrows(a: Sys, b: Sys, id: Id, ok: bool)
    requires id in a.h && Ts(a.h, id) < a.floor && (Deleted(a, id, ok, b) || DeleteCrashed(a, id, b))
    ensures Grows(a, b)
  {
  }

  lemma AnchorGrows(a: Sys, b: Sys, m: Meta)
    requires Anchored(a, m, b)
    ensures Grows(a, b)
  {
  }

  lemma OpenGrows(a: Sys, b: Sys, base: seq<Meta>)
    requires Reopened(a, base, b) || OpenInterrupted(a, base, b)
    ensures Grows(a, b)
  {
  }

  lemma IdleGrows(a: Sys, b: Sys)
    requires Mutated(a, b) || Stopped(a, b) || IndexLost(a, b) || a == b
    ensures Grows(a, b)
  {
  }

  lemma StepGrows(a: Sys, b: Sys)
    requires Inv(a) && Step(a, b)
    ensures Grows(a, b)
  {
    if Mutated(a, b) || Stopped(a, b) || IndexLost(a, b) {
      IdleGrows(a, b);
    } else if exists t, rec :: Flushed(a, t, rec, b) || FlushFailed(a, t, rec, b) || FlushCrashed(a, t, rec, b) {
      AnyFlushGrows(a, b);
    } else if m :| Anchored(a, m, b) {
      AnchorGrows(a, b, m);
    } else if id, ok :| Deleted(a, id, ok, b) {
      CollectableIsOld(a, id);
      DeleteGrows(a, b, id, ok);
    } else if id :| DeleteCrashed(a, id, b) {
      CollectableIsOld(a, id);
      DeleteGrows(a, b, id, false);
    } else if base :| Reopened(a, base, b) {
      OpenGrows(a, b, base);
    } else {
      var base :| OpenInterrupted(a, base, b);
      OpenGrows(a, b, base);
    }
  }

  lemma StepOfRunGrows(run: seq<Sys>, i: nat)
    requires IsRun(run) && Init(run[0]) && i + 1 < |run|
    ensures Grows(run[i], run[i + 1])
  {
    RunKeepsInv(run, i);
    assert StepAt(run, i);
    StepGrows(run[i], run[i + 1]);
  }

  lemma GrowsTransitively(a: Sys, b: Sys, c: Sys)
    requires Grows(a, b) && Grows(b, c)
    ensures Grows(a, c)
  {
    forall id | id in a.live && id in a.h && Ts(a.h, id) >= c.floor ensures id in c.live {
      assert b.h[id] == a.h[id] && id in b.live;
    }
  }

  lemma {:induction false} RunGrows(run: seq<Sys>, i: nat, j: nat)
    requires IsRun(run) && Init(run[0]) && i <= j < |run|
    ensures Grows(run[i], run[j])
    decreases j
  {
    if i == j {
      IdleGrows(run[i], run[j]);
    } else {
      RunGrows(run, i, j - 1);
      StepOfRunGrows(run, j - 1);
      GrowsTransitively(run[i], run[j - 1], run[j]);
    }
  }

  // ---- every retained snapshot rebuilds ----------------------------------------------------

  /** From the anchor on, predecessors are at or after the anchor too. */
  lemma PredecessorAboveFloor(h: History, floor: int, live: set<Id>, d: Id)
    requires HistoryOk(h, floor, live) && d in h && h[d].rec.payload.DeltaPayload? && Ts(h, d) >= floor
    ensures h[d].rec.meta.prev in h && floor <= Ts(h, h[d].rec.meta.prev) < Ts(h, d) && h[d].rec.meta.prev in live
  {
    assert GenuineAttempt(h, d);
    if floor != 0 {
      var f :| f in live && f in h && h[f].rec.payload.FullPayload? && Ts(h, f) == floor;
      assert f != d;
    }
  }

  lemma CompleteReads(fs: Fs, h: History, id: Id)
    requires Genuine(h) && Complete(fs, h, id)
    ensures Read(fs, fs, id) == Ok(LoadedFrom(h[id].rec)) && PlainId(id)
    ensures Read(fs, fs, id).value.LoadedFull? <==> h[id].rec.payload.FullPayload?
  {
    assert GenuineAttempt(h, id);
    IdIsPlain(h[id].time);
  }

  /** A snapshot that must be available, at or after the anchor, rebuilds to what was captured. */
  lemma {:induction false} AvailableRebuilds(fs: Fs, h: History, floor: int, live: set<Id>, id: Id)
    requires HistoryOk(h, floor, live) && (forall x :: x in live ==> Complete(fs, h, x))
    requires id in h && Complete(fs, h, id) && Ts(h, id) >= floor
    ensures StateAt(fs, id) == Ok(h[id].captured)
    decreases Ts(h, id) - floor
  {
    CompleteReads(fs, h, id);
    LinkIsCaptured(h, id);
    if h[id].rec.payload.FullPayload? {
      StateAtFull(fs, id);
    } else {
      PredecessorAboveFloor(h, floor, live, id);
      var prev := h[id].rec.meta.prev;
      AvailableRebuilds(fs, h, floor, live, prev);
      CompleteReads(fs, h, prev);
      StateAtDelta(fs, id);
    }
  }

  /** Reconstruction never returns anything but what was captured, on any disk a run can leave. */
  lemma NeverWrong(fs: Fs, h: History, id: Id)
    requires Genuine(h) && Faithful(fs, h) && StateAt(fs, id).Ok?
    ensures id in h && StateAt(fs, id).value == h[id].captured
    ensures |Walk(fs, id, {}).value| == h[id].depth
  {
    WalkIsCaptured(fs, h, id, {});
  }

  /**
   Faithful history. At any point of any run, every snapshot the writer lists at or after the newest
   anchor rebuilds to the buffer contents captured for it, and no ID ever rebuilds to anything else.
   */
  lemma ListedSnapshotsRebuild(run: seq<Sys>, i: nat)
    requires IsRun(run) && Init(run[0]) && i < |run|
    ensures var s := run[i];
            && (s.up ==> forall m :: m in s.list && m.ts >= s.floor ==>
                  m.id in s.h && StateAt(s.fs, m.id) == Ok(s.h[m.id].captured))
            && (forall id :: StateAt(s.fs, id).Ok? ==> id in s.h && StateAt(s.fs, id).value == s.h[id].captured)
  {
    RunKeepsInv(run, i);
    var s := run[i];
    if s.up {
      forall m | m in s.list && m.ts >= s.floor ensures m.id in s.h && StateAt(s.fs, m.id) == Ok(s.h[m.id].captured) {
        AvailableRebuilds(s.fs, s.h, s.floor, s.live, m.id);
      }
    }
    forall id | StateAt(s.fs, id).Ok? ensures id in s.h && StateAt(s.fs, id).value == s.h[id].captured {
      NeverWrong(s.fs, s.h, id);
    }
  }

  /** The history holds what the flush from `a` wrote. */
  ghost predicate Remembers(h: History, a: Sys, rec: Record)
  {
    && a.fullEvery > 0 && rec.meta.id in h
    && h[rec.meta.id].rec == rec && h[rec.meta.id].captured == a.buf
    && h[rec.meta.id].depth == a.flushNum % a.fullEvery + 1
  }

  lemma FlushIsRecorded(a: Sys, t: Time, rec: Record, b: Sys)
    requires Inv(a) && Flushed(a, t, rec, b)
    ensures Remembers(b.h, a, rec) && rec.meta.id in b.live
  {
    NextRecordIsAttempted(a, t, rec);
  }

  ghost predicate WentThrough(a: Sys, rec: Record, b: Sys)
  {
    exists t :: Flushed(a, t, rec, b)
  }

  /** Step `k` of the run is a flush that succeeded and wrote `rec`. */
  ghost predicate FlushWent(run: seq<Sys>, k: nat, rec: Record)
    requires k + 1 < |run|
  {
    WentThrough(run[k], rec, run[k + 1])
  }

  lemma RecordedInRun(run: seq<Sys>, k: nat, rec: Record)
    requires IsRun(run) && Init(run[0]) && k + 1 < |run| && FlushWent(run, k, rec)
    ensures Remembers(run[k + 1].h, run[k], rec) && rec.meta.id in run[k + 1].live
  {
    RunKeepsInv(run, k);
    var t :| Flushed(run[k], t, rec, run[k + 1]);
    FlushIsRecorded(run[k], t, rec, run[k + 1]);
  }

  lemma StaysRecorded(b: Sys, s: Sys, id: Id)
    requires Grows(b, s) && id in b.h && id in b.live
    ensures id in s.h && s.h[id] == b.h[id] && (Ts(s.h, id) >= s.floor ==> id in s.live)
  {
  }

  lemma AvailableInRun(run: seq<Sys>, j: nat, id: Id)
    requires IsRun(run) && Init(run[0]) && j < |run|
    requires id in run[j].live && id in run[j].h && Ts(run[j].h, id) >= run[j].floor
    ensures StateAt(run[j].fs, id) == Ok(run[j].h[id].captured)
    ensures run[j].up ==> run[j].h[id].rec.meta in run[j].list
  {
    RunKeepsInv(run, j);
    var s := run[j];
    AvailableRebuilds(s.fs, s.h, s.floor, s.live, id);
    if s.up {
      var m :| m in s.list && m.id == id;
    }
  }

  lemma ChainInRun(run: seq<Sys>, j: nat, id: Id)
    requires IsRun(run) && Init(run[0]) && j < |run| && StateAt(run[j].fs, id).Ok?
    ensures id in run[j].h && |Walk(run[j].fs, id, {}).value| == run[j].h[id].depth
  {
    RunKeepsInv(run, j);
    NeverWrong(run[j].fs, run[j].h, id);
  }

  lemma StaysRemembered(b: Sys, s: Sys, a: Sys, rec: Record)
    requires Grows(b, s) && rec.meta.id in b.live && Remembers(b.h, a, rec)
    ensures Remembers(s.h, a, rec) && (rec.meta.ts >= s.floor ==> rec.meta.id in s.live)
  {
    StaysRecorded(b, s, rec.meta.id);
  }

  /** What a flush wrote is remembered for good. */
  lemma WrittenIsRemembered(run: seq<Sys>, k: nat, rec: Record, j: nat)
    requires IsRun(run) && Init(run[0]) && k + 1 <= j < |run| && FlushWent(run, k, rec)
    ensures Remembers(run[j].h, run[k], rec)
    ensures rec.meta.ts >= run[j].floor ==> rec.meta.id in run[j].live
  {
    RecordedInRun(run, k, rec);
    RunGrows(run, k + 1, j);
    StaysRemembered(run[k + 1], run[j], run[k], rec);
  }

  /**
   The promise of a flush. If flush `k` of a run succeeded, then at every later point before an anchor
   passes it, crashed or not, its snapshot rebuilds to exactly the buffer of that moment, and a store
   that is open lists it.
   */
  lemma FlushedStateComesBack(run: seq<Sys>, k: nat, rec: Record, j: nat)
    requires IsRun(run) && Init(run[0]) && k + 1 <= j < |run| && FlushWent(run, k, rec)
    requires rec.meta.ts >= run[j].floor
    ensures StateAt(run[j].fs, rec.meta.id) == Ok(run[k].buf)
    ensures run[j].up ==> rec.meta in run[j].list
  {
    WrittenIsRemembered(run, k, rec, j);
    AvailableInRun(run, j, rec.meta.id);
  }

  /** Rebuilding the snapshot of successful flush number n reads exactly n mod fullEvery + 1 records. */
  lemma ChainFollowsCadence(run: seq<Sys>, k: nat, rec: Record, j: nat)
    requires IsRun(run) && Init(run[0]) && k + 1 <= j < |run| && FlushWent(run, k, rec)
    requires StateAt(run[j].fs, rec.meta.id).Ok?
    ensures run[k].fullEvery > 0
    ensures |Walk(run[j].fs, rec.meta.id, {}).value| == run[k].flushNum % run[k].fullEvery + 1 <= run[k].fullEvery
  {
    WrittenIsRemembered(run, k, rec, j);
    ChainInRun(run, j, rec.meta.id);
    DepthIsBounded(run[j].h, run[k], rec);
  }

  lemma DepthIsBounded(h: History, a: Sys, rec: Record)
    requires Remembers(h, a, rec)
    ensures h[rec.meta.id].depth == a.flushNum % a.fullEvery + 1 <= a.fullEvery
  {
  }

  lemma PredecessorLoads(s: Sys)
    requires HistoryOk(s.h, s.floor, s.live) && ListOk(s) && CursorOk(s) && !FullTurn(s)
    requires forall x :: x in s.live ==> Complete(s.fs, s.h, x)
    ensures s.prevID in Ids(s.list) && StateAt(s.fs, s.prevID) == Ok(s.prevState)
  {
    PredecessorIsAvailable(s);
    AvailableRebuilds(s.fs, s.h, s.floor, s.live, s.prevID);
  }

  lemma PredecessorInRun(run: seq<Sys>, i: nat)
    requires IsRun(run) && Init(run[0]) && i < |run| && run[i].up
    ensures var s := run[i];
            s.fullEvery > 0 && (!FullTurn(s) ==> s.prevID in Ids(s.list) && StateAt(s.fs, s.prevID) == Ok(s.prevState))
  {
    RunKeepsInv(run, i);
    if !FullTurn(run[i]) { PredecessorLoads(run[i]); }
  }

  lemma CountsInRun(run: seq<Sys>, i: nat)
    requires IsRun(run) && Init(run[0]) && i < |run| && run[i].up
    ensures run[i].fullEvery > 0 && CountsOk(run[i])
  {
    RunKeepsInv(run, i);
  }

  /** Flush counters, and the predecessor of any delta a flush would write: listed and loadable. */
  lemma CadenceHolds(run: seq<Sys>, i: nat)
    requires IsRun(run) && Init(run[0]) && i < |run| && run[i].up
    ensures var s := run[i];
            && s.fullEvery > 0
            && s.flushFull + s.flushDelta == s.flushNum
            && s.flushFull == (s.flushNum + s.fullEvery - 1) / s.fullEvery
            && (!FullTurn(s) ==> s.prevID in Ids(s.list) && StateAt(s.fs, s.prevID) == Ok(s.prevState))
  {
    PredecessorInRun(run, i);
    CountsInRun(run, i);
  }

  // ---- deletions are final ------------------------------------------------------------------------

  /** A committed deletion, or one found staged when the store is opened, never comes back. */
  lemma DeletedStaysDeleted(run: seq<Sys>, i: nat, j: nat, id: Id)
    requires IsRun(run) && Init(run[0]) && i <= j < |run| && id in run[i].gone
    ensures id !in run[j].fs.snapshots
    ensures run[j].up ==> id !in Ids(run[j].list)
    ensures StateAt(run[j].fs, id).Err?
  {
    RunKeepsInv(run, j);
    RunGrows(run, i, j);
  }

  /** Opening makes every staged deletion final. */
  lemma StagedDeletionIsFinal(run: seq<Sys>, k: nat, base: seq<Meta>, j: nat, id: Id)
    requires IsRun(run) && Init(run[0]) && k + 1 <= j < |run|
    requires Reopened(run[k], base, run[k + 1]) || OpenInterrupted(run[k], base, run[k + 1])
    requires id in run[k].fs.deleting
    ensures id !in run[j].fs.snapshots && (run[j].up ==> id !in Ids(run[j].list))
  {
    DeletedStaysDeleted(run, k + 1, j, id);
  }

  // ---- whoever opens the store, and whenever ---------------------------------------------------------

  lemma OpenedListIsSound(s: Sys, list: seq<Meta>)
    requires Inv(s) && Listing(s.fs, list)
    ensures Kept(list, s.fs, s.h, s.live, s.gone, s.stranded)
  {
    var base :| Base(s.fs, base) && list == Without(base, s.fs.deleting.Keys);
    BaseIsOk(s.fs, base, s.h, s.live, s.gone, s.stranded);
    WithoutStaged(base, s.fs, s.h, s.live, s.gone, s.stranded);
  }

  /** A listed entry gives its own record, unless a deletion stranded it; then it gives none. */
  lemma KeptEntriesLoad(list: seq<Meta>, fs: Fs, h: History, live: set<Id>, gone: set<Id>, stranded: set<Id>, m: Meta)
    requires Genuine(h) && Kept(list, fs, h, live, gone, stranded) && stranded !! fs.snapshots.Keys && m in list
    ensures m.id in h && m == h[m.id].rec.meta
    ensures Read(fs, fs, m.id) == if m.id in stranded then Err(LoadFailed(m.id)) else Ok(LoadedFrom(h[m.id].rec))
  {
    assert GenuineAttempt(h, m.id);
    if m.id !in stranded { CompleteReads(fs, h, m.id); }
  }

  /**
   Crash safety. At any point of any run, between any two filesystem operations, with the index intact or
   lost, a store opened for reading or for writing lists entries in time order; it lists everything that
   must be available and no deletion that was staged or final. Every listed entry loads with its original
   record, save those that a failed restore stranded, which do not load; and from the anchor on it rebuilds
   to what was captured.
   */
  lemma AnyOpenIsSound(run: seq<Sys>, i: nat, list: seq<Meta>)
    requires IsRun(run) && Init(run[0]) && i < |run| && Listing(run[i].fs, list)
    ensures var s := run[i];
            && StrictlySorted(TsLess, list) && s.live <= Ids(list)
            && (forall m :: m in list ==> m.id !in s.gone && m.id !in s.fs.deleting)
            && (forall m :: m in list ==>
                  && m.id in s.h && m == s.h[m.id].rec.meta
                  && Read(s.fs, s.fs, m.id)
                     == if m.id in s.stranded then Err(LoadFailed(m.id)) else Ok(LoadedFrom(s.h[m.id].rec)))
            && (forall m :: m in list && m.ts >= s.floor ==>
                  m.id in s.h && StateAt(s.fs, m.id) == Ok(s.h[m.id].captured))
  {
    RunKeepsInv(run, i);
    OpenedListIsSound(run[i], list);
    EntriesLoad(run[i], list);
    forall m | m in list && m.ts >= run[i].floor
      ensures m.id in run[i].h && StateAt(run[i].fs, m.id) == Ok(run[i].h[m.id].captured)
    {
      EntryRebuilds(run[i], list, m);
    }
  }

  lemma EntriesLoad(s: Sys, list: seq<Meta>)
    requires Inv(s) && Kept(list, s.fs, s.h, s.live, s.gone, s.stranded)
    ensures forall m :: m in list ==>
              && m.id in s.h && m == s.h[m.id].rec.meta
              && Read(s.fs, s.fs, m.id)
                 == if m.id in s.stranded then Err(LoadFailed(m.id)) else Ok(LoadedFrom(s.h[m.id].rec))
  {
    forall m | m in list
      ensures m.id in s.h && m == s.h[m.id].rec.meta
      ensures Read(s.fs, s.fs, m.id)
              == if m.id in s.stranded then Err(LoadFailed(m.id)) else Ok(LoadedFrom(s.h[m.id].rec))
    {
      KeptEntriesLoad(list, s.fs, s.h, s.live, s.gone, s.stranded, m);
    }
  }

  lemma EntryRebuilds(s: Sys, list: seq<Meta>, m: Meta)
    requires Inv(s) && Kept(list, s.fs, s.h, s.live, s.gone, s.stranded) && m in list && m.ts >= s.floor
    ensures m.id in s.h && StateAt(s.fs, m.id) == Ok(s.h[m.id].captured)
  {
    AvailableRebuilds(s.fs, s.h, s.floor, s.live, m.id);
  }

  // ---- when entries are stranded ----------------------------------------------------------------

  /** A step after which the writer still lists an entry whose directory has left `snapshots/`. */
  ghost predicate RestoreFailed(run: seq<Sys>, k: int)
    requires 0 <= k < |run| - 1
  {
    var a, b := run[k], run[k + 1];
    a.up && b.up && exists id :: id in Ids(a.list) && id in a.fs.snapshots && id in Ids(b.list) && id !in b.fs.snapshots
  }

  lemma FlushStrandsNothing(a: Sys, t: Time, rec: Record, b: Sys)
    requires Flushed(a, t, rec, b) || FlushFailed(a, t, rec, b) || FlushCrashed(a, t, rec, b)
    ensures b.stranded == a.stranded && a.fs.snapshots.Keys <= b.fs.snapshots.Keys
  {
  }

  lemma OpenStrandsNothing(a: Sys, base: seq<Meta>, b: Sys)
    requires Reopened(a, base, b) || OpenInterrupted(a, base, b)
    ensures b.stranded == a.stranded && !a.up
  {
  }

  lemma CrashStrandsNothing(a: Sys, id: Id, b: Sys)
    requires DeleteCrashed(a, id, b)
    ensures b.stranded == a.stranded && !b.up
  {
  }

  lemma IdleStrandsNothing(a: Sys, b: Sys)
    requires Mutated(a, b) || Stopped(a, b) || IndexLost(a, b)
    ensures b.stranded == a.stranded && a.fs.snapshots.Keys <= b.fs.snapshots.Keys
  {
  }

  lemma OnlyDeletionsStrand(a: Sys, b: Sys)
    requires Step(a, b) && !(exists id, ok :: Deleted(a, id, ok, b))
    ensures b.stranded == a.stranded
    ensures a.up && b.up ==> a.fs.snapshots.Keys <= b.fs.snapshots.Keys
  {
    if Mutated(a, b) || Stopped(a, b) || IndexLost(a, b) {
      IdleStrandsNothing(a, b);
    } else if t, rec :| Flushed(a, t, rec, b) || FlushFailed(a, t, rec, b) || FlushCrashed(a, t, rec, b) {
      FlushStrandsNothing(a, t, rec, b);
    } else if base :| Reopened(a, base, b) || OpenInterrupted(a, base, b) {
      OpenStrandsNothing(a, base, b);
    } else if id :| DeleteCrashed(a, id, b) {
      CrashStrandsNothing(a, id, b);
    } else {
      var m :| Anchored(a, m, b);
    }
  }

  lemma DeletionStrands(a: Sys, id: Id, ok: bool, b: Sys)
    requires Inv(a) && Deleted(a, id, ok, b)
    ensures a.stranded <= b.stranded
    ensures a.stranded == {} ==>
              (b.stranded == {} <==> !(id in a.fs.snapshots && id in Ids(b.list) && id !in b.fs.snapshots))
    ensures forall x :: x in a.fs.snapshots && x !in b.fs.snapshots ==> x == id
    ensures id in Ids(a.list)
  {
    CollectableIsOld(a, id);
    if a.stranded == {} {
      var m :| m in a.list && m.id == id;
      assert Complete(a.fs, a.h, m.id);
    }
  }

  lemma StepStrands(run: seq<Sys>, k: nat)
    requires k + 1 < |run| && Inv(run[k]) && Step(run[k], run[k + 1])
    ensures run[k].stranded <= run[k + 1].stranded
    ensures run[k].stranded == {} ==> (run[k + 1].stranded == {} <==> !RestoreFailed(run, k))
  {
    var a, b := run[k], run[k + 1];
    if id, ok :| Deleted(a, id, ok, b) {
      DeletionStrands(a, id, ok, b);
    } else {
      OnlyDeletionsStrand(a, b);
    }
  }

  lemma StrandsInRun(run: seq<Sys>, k: nat)
    requires IsRun(run) && Init(run[0]) && k + 1 < |run|
    ensures run[k].stranded <= run[k + 1].stranded
    ensures run[k].stranded == {} ==> (run[k + 1].stranded == {} <==> !RestoreFailed(run, k))
  {
    RunKeepsInv(run, k);
    assert StepAt(run, k);
    StepStrands(run, k);
  }

  /** Entries are stranded exactly when some deletion could neither go through nor be undone. */
  lemma {:induction false} NothingIsStrandedExactlyWhen(run: seq<Sys>, i: nat)
    requires IsRun(run) && Init(run[0]) && i < |run|
    ensures run[i].stranded == {} <==> forall k :: 0 <= k < i ==> !RestoreFailed(run, k)
  {
    if i > 0 {
      NothingIsStrandedExactlyWhen(run, i - 1);
      StrandsInRun(run, i - 1);
    }
  }

  // ---- nothing goes unless it is deleted ------------------------------------------------------------------

  ghost predicate IsDeletion(a: Sys, id: Id, b: Sys)
  {
    (exists ok :: Deleted(a, id, ok, b)) || DeleteCrashed(a, id, b)
  }

  /** Step `k` of the run is a deletion of `id`, whatever came of it. */
  ghost predicate Deletes(run: seq<Sys>, k: int, id: Id)
    requires 0 <= k < |run| - 1
  {
    IsDeletion(run[k], id, run[k + 1])
  }

  /** No step from `i` up to `j` is a deletion of `id`. */
  ghost predicate NeverDeleted(run: seq<Sys>, i: nat, j: nat, id: Id)
    requires j < |run|
  {
    forall k {:trigger Deletes(run, k, id)} :: i <= k < j ==> !Deletes(run, k, id)
  }

  lemma StepKeepsLive(a: Sys, b: Sys, id: Id)
    requires Step(a, b) && id in a.live && !IsDeletion(a, id, b)
    ensures id in b.live
  {
    if x, ok :| Deleted(a, x, ok, b) {
      assert x != id;
    } else if x :| DeleteCrashed(a, x, b) {
      assert x != id;
    } else if t, rec :| Flushed(a, t, rec, b) || FlushFailed(a, t, rec, b) || FlushCrashed(a, t, rec, b) {
      FlushKeepsLive(a, t, rec, b);
    } else if base :| Reopened(a, base, b) || OpenInterrupted(a, base, b) {
      OpenKeepsLive(a, base, b);
    }
  }

  lemma FlushKeepsLive(a: Sys, t: Time, rec: Record, b: Sys)
    requires Flushed(a, t, rec, b) || FlushFailed(a, t, rec, b) || FlushCrashed(a, t, rec, b)
    ensures a.live <= b.live
  {
  }

  lemma OpenKeepsLive(a: Sys, base: seq<Meta>, b: Sys)
    requires Reopened(a, base, b) || OpenInterrupted(a, base, b)
    ensures a.live <= b.live
  {
  }

  /** What must be available stays so until it is deleted, wherever the anchor is. */
  lemma {:induction false} LiveUntilDeleted(run: seq<Sys>, i: nat, j: nat, id: Id)
    requires IsRun(run) && i <= j < |run| && id in run[i].live
    requires NeverDeleted(run, i, j, id)
    ensures id in run[j].live
    decreases j
  {
    if i < j {
      LiveUntilDeleted(run, i, j - 1, id);
      assert StepAt(run, j - 1) && !Deletes(run, j - 1, id);
      StepKeepsLive(run[j - 1], run[j], id);
    }
  }

  lemma PutStaysLive(run: seq<Sys>, k: nat, rec: Record, j: nat)
    requires IsRun(run) && Init(run[0]) && k + 1 <= j < |run| && FlushWent(run, k, rec)
    requires NeverDeleted(run, k + 1, j, rec.meta.id)
    ensures rec.meta.id in run[j].live
  {
    RecordedInRun(run, k, rec);
    LiveUntilDeleted(run, k + 1, j, rec.meta.id);
  }

  lemma PutStaysInHistory(run: seq<Sys>, k: nat, rec: Record, j: nat)
    requires IsRun(run) && Init(run[0]) && k + 1 <= j < |run| && FlushWent(run, k, rec)
    ensures rec.meta.id in run[j].h && run[j].h[rec.meta.id].rec == rec
  {
    WrittenIsRemembered(run, k, rec, j);
  }

  /** A put that succeeded and was never deleted is listed by every open, and loads. */
  lemma PutIsListedUntilDeleted(run: seq<Sys>, k: nat, rec: Record, j: nat, list: seq<Meta>)
    requires IsRun(run) && Init(run[0]) && k + 1 <= j < |run| && FlushWent(run, k, rec)
    requires NeverDeleted(run, k + 1, j, rec.meta.id)
    requires Listing(run[j].fs, list)
    ensures rec.meta in list && Read(run[j].fs, run[j].fs, rec.meta.id) == Ok(LoadedFrom(rec))
  {
    PutStaysLive(run, k, rec, j);
    PutStaysInHistory(run, k, rec, j);
    LiveIsListed(run, j, rec.meta.id, list);
  }

  lemma LiveIsListed(run: seq<Sys>, j: nat, id: Id, list: seq<Meta>)
    requires IsRun(run) && Init(run[0]) && j < |run| && id in run[j].live && Listing(run[j].fs, list)
    ensures id in run[j].h && run[j].h[id].rec.meta in list
    ensures Read(run[j].fs, run[j].fs, id) == Ok(LoadedFrom(run[j].h[id].rec))
  {
    RunKeepsInv(run, j);
    OpenedListIsSound(run[j], list);
    CompleteReads(run[j].fs, run[j].h, id);
    var m :| m in list && m.id == id;
  }
}
