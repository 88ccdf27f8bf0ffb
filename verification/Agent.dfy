/** The in-cluster agent: the buffer of current state and the snapshotter that persists it. */
module Agent {
  import opened Sorting
  import opened Times
  import opened D = Delta
  import opened Files
  import opened Store
  import opened History
  import opened Runs
  import opened Visible
  import opened Collection
  import Burst

  class Buffer {
    var state: Snapshot
    var pendingChanges: nat
    ghost var events: seq<Burst.Event>

    ghost function View(): Burst.Buffered
      reads this
    {
      Burst.Buffered(state, pendingChanges)
    }

    /** The events so far have led to the present contents. */
    ghost predicate Valid()
      reads this
    {
      Burst.Play(events).buf == View()
    }

    constructor ()
      ensures Valid() && View() == Burst.Buffered(map[], 0) && events == []
    {
      state, pendingChanges, events := map[], 0, [];
    }

    method Upsert(k: Key, s: State)
      requires Valid()
      modifies this
      ensures Valid() && events == old(events) + [Burst.Upserted(k, s)]
      ensures View() == Burst.Buffered(old(state)[k := s], old(pendingChanges) + 1)
    {
      state := state[k := s];
      pendingChanges := pendingChanges + 1;
      Note(Burst.Upserted(k, s));
    }

    /** Counts as a change even when `k` is not there. */
    method Delete(k: Key)
      requires Valid()
      modifies this
      ensures Valid() && events == old(events) + [Burst.Removed(k)]
      ensures View() == Burst.Buffered(old(state) - {k}, old(pendingChanges) + 1)
    {
      state := state - {k};
      pendingChanges := pendingChanges + 1;
      Note(Burst.Removed(k));
    }

    method PendingChanges() returns (n: nat)
      ensures n == pendingChanges
    {
      n := pendingChanges;
    }

    method DrainChanges() returns (n: nat)
      requires Valid()
      modifies this
      ensures Valid() && events == old(events) + [Burst.Drained]
      ensures n == old(pendingChanges) && View() == Burst.Buffered(old(state), 0)
    {
      n := pendingChanges;
      pendingChanges := 0;
      Note(Burst.Drained);
    }

    method TakeSnapshot() returns (out: Snapshot)
      requires Valid()
      modifies this`events
      ensures Valid() && events == old(events) + [Burst.Captured]
      ensures out == state
    {
      out := Overlay(map[], state);
      assert map[] + state == state;
      Note(Burst.Captured);
    }

    /** Records an event. */
    ghost method Note(e: Burst.Event)
      modifies this`events
      ensures events == old(events) + [e]
      ensures Burst.Play(events) == Burst.Apply(Burst.Play(old(events)), e)
    {
      Burst.OneMoreEvent(events, e);
      events := events + [e];
    }
  }

  /** The most recent full snapshot at or before the cutoff, or -1. */
  method FindAnchor(metas: seq<Meta>, cutoff: int) returns (anchor: int)
    ensures -1 <= anchor < |metas|
    ensures anchor >= 0 ==> metas[anchor].kind.FullKind? && metas[anchor].ts <= cutoff
    ensures forall i :: anchor < i < |metas| ==> !(metas[i].kind.FullKind? && metas[i].ts <= cutoff)
  {
    anchor := -1;
    for i := 0 to |metas|
      invariant -1 <= anchor < i
      invariant anchor >= 0 ==> metas[anchor].kind.FullKind? && metas[anchor].ts <= cutoff
      invariant forall j :: anchor < j < i ==> !(metas[j].kind.FullKind? && metas[j].ts <= cutoff)
    {
      if metas[i].kind.FullKind? && metas[i].ts <= cutoff { anchor := i; }
    }
  }

  class Snapshotter {
    const buf: Buffer
    const store: Local
    const fullEvery: nat
    const retainDays: nat
    var prevState: Snapshot
    var prevID: Id
    var flushNum: nat
    var flushFull: nat
    var flushDelta: nat
    ghost var h: History
    ghost var floor: int
    ghost var live: set<Id>
    ghost var gone: set<Id>
    ghost var stranded: set<Id>
    ghost var tidy: bool

    ghost function View(): Sys
      reads this, buf, store, store.disk
    {
      Sys(store.disk.fs, true, store.index, buf.state, prevState, prevID, flushNum, flushFull, flushDelta, fullEvery,
          h, floor, live, gone, stranded, tidy)
    }

    /** Some run from an unused store has led here. */
    ghost predicate Valid()
      reads this, buf, store, store.disk
    {
      !store.readOnly && Reachable(View()) && buf.Valid()
    }

    /** A snapshotter for a store that was just opened for writing, continuing the history of `a`. */
    constructor (buf: Buffer, store: Local, fullEvery: int, retainDays: int, ghost a: Sys, ghost base: seq<Meta>)
      requires Reachable(a) && !a.up && !store.readOnly && buf.Valid()
      requires OpenDone(a.fs, base, store.disk.fs, store.index)
      ensures this.buf == buf && this.store == store
      ensures this.fullEvery == Max(fullEvery, 1) && this.retainDays == Max(retainDays, 0)
      ensures Reopened(a, base, View()) && Valid()
    {
      this.buf, this.store := buf, store;
      this.fullEvery := if fullEvery < 1 then 1 else fullEvery;
      this.retainDays := if retainDays < 0 then 0 else retainDays;
      prevState, prevID, flushNum, flushFull, flushDelta := map[], "", 0, 0, 0;
      h, floor, stranded, tidy := a.h, a.floor, a.stranded, a.tidy;
      live, gone := a.live + ListedFrom(store.index, a.floor), a.gone + a.fs.deleting.Keys;
      new;
      OpenReaches(a, base, View());
    }

    /** Persists the buffer; the position advances only when the write has succeeded. */
    method Flush(t: Time) returns (r: Option<Meta>, ghost rec: Record)
      requires Valid() && ClockAhead(h, t)
      modifies this, store, store.disk, buf`events
      ensures Valid() && buf.events == old(buf.events) + [Burst.Captured] + [Burst.Settled(r.Some?)]
      ensures r.Some? ==> Flushed(old(View()), t, rec, View()) && r.value == rec.meta
      ensures r.None? ==> FlushFailed(old(View()), t, rec, View())
      ensures store.disk.faults >= old(store.disk.faults)
      ensures store.disk.faults == old(store.disk.faults) ==> r.Some?
      ensures old(store.disk.trace) <= store.disk.trace
      ensures forall i :: |old(store.disk.trace)| <= i < |store.disk.trace| ==>
                PutWindow(old(store.disk.fs), old(store.index), rec, store.disk.trace[i])
    {
      ghost var a := View();
      WriterIsOk(a);
      r, rec := WriteNext(t);
      ghost var b := View();
      buf.Note(Burst.Settled(r.Some?));
      assert View() == b;
      FlushReaches(a, t, rec, b);
    }

    /** The body of `Flush`, from any position. */
    method WriteNext(t: Time) returns (r: Option<Meta>, ghost rec: Record)
      requires fullEvery > 0 && !store.readOnly && ClockAhead(h, t) && buf.Valid()
      modifies this, store, store.disk, buf`events
      ensures buf.Valid() && buf.events == old(buf.events) + [Burst.Captured]
      ensures NextRecord(old(View()), t, rec)
      ensures r.Some? ==> Flushed(old(View()), t, rec, View()) && r.value == rec.meta
      ensures r.None? ==> FlushFailed(old(View()), t, rec, View())
      ensures store.disk.faults >= old(store.disk.faults)
      ensures store.disk.faults == old(store.disk.faults) ==>
                (r.Some? <==> rec.meta.id !in old(store.disk.fs).snapshots)
      ensures old(store.disk.trace) <= store.disk.trace
      ensures forall i :: |old(store.disk.trace)| <= i < |store.disk.trace| ==>
                PutWindow(old(store.disk.fs), old(store.index), rec, store.disk.trace[i])
    {
      var curr := buf.TakeSnapshot();
      if flushNum % fullEvery == 0 {
        r, rec := WriteFull(t, curr);
      } else {
        r, rec := WriteDelta(t, curr);
      }
    }

    /** Moves on to the state just persisted. */
    method Advance(curr: Snapshot, id: Id, full: bool)
      modifies this
      ensures View() == old(View()).(
                prevState := curr, prevID := id, flushNum := old(flushNum) + 1, live := old(live) + {id},
                flushFull := if full then old(flushFull) + 1 else old(flushFull),
                flushDelta := if full then old(flushDelta) else old(flushDelta) + 1)
    {
      prevState, prevID, flushNum := curr, id, flushNum + 1;
      if full { flushFull := flushFull + 1; } else { flushDelta := flushDelta + 1; }
      live := live + {id};
    }

    method WriteFull(t: Time, curr: Snapshot) returns (r: Option<Meta>, ghost rec: Record)
      requires fullEvery > 0 && !store.readOnly && ClockAhead(h, t)
      requires curr == buf.state && FullTurn(View())
      modifies this, store, store.disk
      ensures NextRecord(old(View()), t, rec)
      ensures r.Some? ==> Flushed(old(View()), t, rec, View()) && r.value == rec.meta
      ensures r.None? ==> FlushFailed(old(View()), t, rec, View())
      ensures store.disk.faults >= old(store.disk.faults)
      ensures store.disk.faults == old(store.disk.faults) ==>
                (r.Some? <==> rec.meta.id !in old(store.disk.fs).snapshots)
      ensures old(store.disk.trace) <= store.disk.trace
      ensures forall i :: |old(store.disk.trace)| <= i < |store.disk.trace| ==>
                PutWindow(old(store.disk.fs), old(store.index), rec, store.disk.trace[i])
    {
      ghost var a := View();
      r, rec := store.PutFull(t, curr);
      h := Tried(a, t, rec);
      if r.Some? { Advance(curr, r.value.id, true); }
    }

    method WriteDelta(t: Time, curr: Snapshot) returns (r: Option<Meta>, ghost rec: Record)
      requires fullEvery > 0 && !store.readOnly && ClockAhead(h, t)
      requires curr == buf.state && !FullTurn(View())
      modifies this, store, store.disk
      ensures NextRecord(old(View()), t, rec)
      ensures r.Some? ==> Flushed(old(View()), t, rec, View()) && r.value == rec.meta
      ensures r.None? ==> FlushFailed(old(View()), t, rec, View())
      ensures store.disk.faults >= old(store.disk.faults)
      ensures store.disk.faults == old(store.disk.faults) ==>
                (r.Some? <==> rec.meta.id !in old(store.disk.fs).snapshots)
      ensures old(store.disk.trace) <= store.disk.trace
      ensures forall i :: |old(store.disk.trace)| <= i < |store.disk.trace| ==>
                PutWindow(old(store.disk.fs), old(store.index), rec, store.disk.trace[i])
    {
      ghost var a := View();
      var d := Compute(prevState, curr);
      r, rec := store.PutDelta(t, prevID, d);
      h := Tried(a, t, rec);
      if r.Some? { Advance(curr, r.value.id, false); }
    }

    /**
     One collection pass. `run` is the pass as steps of the system: the anchor, then one deletion for every
     entry before it, oldest first, whatever became of the others. Whatever state the disk goes through is
     seen in that run, and every entry that should have gone and did not has cost a fault.
     */
    method Gc(cutoff: int) returns (ghost run: seq<Sys>)
      requires Valid()
      modifies this, store, store.disk
      ensures Valid()
      ensures IsRun(run) && run[0] == old(View()) && run[|run| - 1] == View()
      ensures if retainDays == 0 then |run| == 1 else IsPass(run, cutoff)
      ensures store.disk.faults >= old(store.disk.faults)
      ensures retainDays > 0 ==>
                |Leftovers(old(store.index), store.index, old(store.disk.fs).snapshots, cutoff)|
                <= store.disk.faults - old(store.disk.faults)
      ensures retainDays > 0 && store.disk.faults == old(store.disk.faults) ==>
                Swept(old(store.index), store.index, old(store.disk.fs).snapshots, cutoff)
      ensures Collected(old(View()), View(), cutoff)
      ensures old(store.disk.trace) <= store.disk.trace
      ensures forall i :: |old(store.disk.trace)| <= i < |store.disk.trace| ==> Seen(run, store.disk.trace[i])
    {
      WriterIsOk(View());
      run := Collect(cutoff);
      RunReaches(run, |run| - 1);
      if retainDays > 0 && store.disk.faults == old(store.disk.faults) {
        NoLeftoversIsSwept(old(store.index), store.index, old(store.disk.fs).snapshots, cutoff);
      }
    }

    /** The body of `Gc`, for any list in time order. */
    method Collect(cutoff: int) returns (ghost run: seq<Sys>)
      requires !store.readOnly && Listed(store.index, h) && AllPlain(store.index)
      modifies this, store, store.disk
      ensures IsRun(run) && run[0] == old(View()) && run[|run| - 1] == View()
      ensures if retainDays == 0 then |run| == 1 else IsPass(run, cutoff)
      ensures store.disk.faults >= old(store.disk.faults)
      ensures retainDays > 0 ==>
                |Leftovers(old(store.index), store.index, old(store.disk.fs).snapshots, cutoff)|
                <= store.disk.faults - old(store.disk.faults)
      ensures Collected(old(View()), View(), cutoff)
      ensures old(store.disk.trace) <= store.disk.trace
      ensures forall i :: |old(store.disk.trace)| <= i < |store.disk.trace| ==> Seen(run, store.disk.trace[i])
    {
      run := [View()];
      if retainDays <= 0 { return; }
      var metas := store.List();
      var anchor := FindAnchor(metas, cutoff);
      if anchor < 0 {
        LeftoversAreBeforeAnchor(metas, anchor, cutoff, store.index, store.disk.fs.snapshots);
        return;
      }
      run := CollectFrom(metas, anchor, cutoff);
    }

    /** Settles on the anchor and deletes what is before it. */
    method CollectFrom(metas: seq<Meta>, anchor: nat, cutoff: int) returns (ghost run: seq<Sys>)
      requires !store.readOnly && Listed(store.index, h) && AllPlain(store.index) && metas == store.index
      requires AnchorAt(metas, cutoff, anchor)
      modifies this, store, store.disk
      ensures IsRun(run) && run[0] == old(View()) && run[|run| - 1] == View() && IsPass(run, cutoff)
      ensures store.disk.faults >= old(store.disk.faults)
      ensures |Leftovers(metas, store.index, old(store.disk.fs).snapshots, cutoff)|
              <= store.disk.faults - old(store.disk.faults)
      ensures Collected(old(View()), View(), cutoff)
      ensures old(store.disk.trace) <= store.disk.trace
      ensures forall i :: |old(store.disk.trace)| <= i < |store.disk.trace| ==> Seen(run, store.disk.trace[i])
    {
      ghost var run0 := Settle(metas[anchor]);
      run := DeleteBefore(metas, anchor, run0);
      PassIsOver(old(View()), run0[1], View(), cutoff, anchor, run, store.disk.faults - old(store.disk.faults));
    }

    /** Takes `m` as the anchor. */
    ghost method Settle(m: Meta) returns (run: seq<Sys>)
      requires m in store.index && m.kind.FullKind?
      modifies this`floor
      ensures run == [old(View()), View()] && IsRun(run) && Anchored(old(View()), m, View())
      ensures m.ts <= floor
    {
      ghost var a := View();
      floor := Max(floor, m.ts);
      assert Anchored(a, m, View());
      run := AppendStep([a], View());
    }

    /** Deletes everything listed before the anchor, as far as it goes. */
    method DeleteBefore(metas: seq<Meta>, anchor: nat, ghost run0: seq<Sys>) returns (ghost run: seq<Sys>)
      requires !store.readOnly && metas == store.index && Listed(metas, h) && AllPlain(metas)
      requires anchor < |metas| && metas[anchor].ts <= floor
      requires IsRun(run0) && run0[|run0| - 1] == View()
      modifies this, store, store.disk
      ensures Underway(anchor, anchor, run0, run, old(View()), View(), store.disk.faults - old(store.disk.faults))
      ensures store.disk.faults >= old(store.disk.faults)
      ensures old(store.disk.trace) <= store.disk.trace
      ensures AllSeen(run, store.disk.trace, |old(store.disk.trace)|)
    {
      run := run0;
      ghost var a := View();
      NothingTriedYet(anchor, run0, a);
      for i := 0 to anchor
        invariant Underway(i, anchor, run0, run, a, View(), store.disk.faults - old(store.disk.faults))
        invariant store.disk.faults >= old(store.disk.faults)
        invariant old(store.disk.trace) <= store.disk.trace
        invariant AllSeen(run, store.disk.trace, |old(store.disk.trace)|)
      {
        ghost var shorter, trace := run, store.disk.trace;
        run := DeleteNext(metas[i], i, anchor, run0, shorter, a, old(store.disk.faults));
        StillAllSeen(shorter, run, trace, store.disk.trace, |old(store.disk.trace)|);
      }
    }

    /** The next entry of a pass that is under way. */
    method DeleteNext(m: Meta, ghost i: nat, ghost anchor: nat, ghost run0: seq<Sys>, ghost shorter: seq<Sys>,
                      ghost a: Sys, ghost spent: nat)
      returns (ghost run: seq<Sys>)
      requires !store.readOnly && Listed(a.list, a.h) && AllPlain(a.list) && spent <= store.disk.faults
      requires i < anchor < |a.list| && a.list[anchor].ts <= a.floor && m == a.list[i]
      requires Underway(i, anchor, run0, shorter, a, View(), store.disk.faults - spent)
      modifies this, store, store.disk
      ensures Underway(i + 1, anchor, run0, run, a, View(), store.disk.faults - spent)
      ensures store.disk.faults >= old(store.disk.faults)
      ensures shorter <= run && old(store.disk.trace) <= store.disk.trace
      ensures AllSeen(run, store.disk.trace, |old(store.disk.trace)|)
    {
      ghost var b, before := View(), store.disk.faults - spent;
      NextIsListed(i, anchor, run0, shorter, a, b, before);
      run := DeleteListed(m, shorter);
      StillUnderway(i, anchor, run0, shorter, a, b, View(), before, store.disk.faults - spent);
    }

    /** One deletion of the pass, recorded as a step; a failure is passed over. */
    method DeleteListed(m: Meta, ghost run0: seq<Sys>) returns (ghost run: seq<Sys>)
      requires !store.readOnly && PlainId(m.id) && m in store.index && m.ts < floor
      requires IsRun(run0) && run0[|run0| - 1] == View()
      modifies this, store, store.disk
      ensures IsRun(run) && run == run0 + [View()] && TriesDeletion(old(View()), m.id, View())
      ensures forall x :: x in store.index ==> x in old(store.index)
      ensures forall x :: x in old(store.index) && x.id != m.id ==> x in store.index
      ensures SameExcept(old(store.disk.fs).snapshots, store.disk.fs.snapshots, m.id)
      ensures store.disk.faults >= old(store.disk.faults)
      ensures store.disk.faults == old(store.disk.faults) && m.id in old(store.disk.fs).snapshots ==> m !in store.index
      ensures SamePosition(old(View()), View()) && floor == old(floor)
      ensures old(store.disk.trace) <= store.disk.trace
      ensures forall k :: |old(store.disk.trace)| <= k < |store.disk.trace| ==> Seen(run, store.disk.trace[k])
    {
      ghost var a := View();
      var ok := DeleteOne(m.id);
      DeletionIsSeen(run0, m.id, ok, View());
      run := AppendStep(run0, View());
    }

    method DeleteOne(id: Id) returns (ok: bool)
      requires !store.readOnly && PlainId(id) && Collectable(View(), id)
      modifies this, store, store.disk
      ensures Deleted(old(View()), id, ok, View())
      ensures store.disk.faults >= old(store.disk.faults)
      ensures store.disk.faults == old(store.disk.faults) && id in old(store.disk.fs).snapshots ==>
                id !in Ids(store.index)
      ensures old(store.disk.trace) <= store.disk.trace
      ensures forall k :: |old(store.disk.trace)| <= k < |store.disk.trace| ==>
                DeleteWindow(old(store.disk.fs), old(store.index), id, store.disk.trace[k])
    {
      ghost var list := store.index;
      ok := store.Delete(id);
      live := live - {id};
      if store.index != list { gone := gone + {id}; }
      if id in Ids(store.index) && id !in store.disk.fs.snapshots { stranded := stranded + {id}; }
    }

    /** The step `Run` repeats: drain the burst counter, collect, flush. */
    method DoFlush(t: Time, cutoff: int) returns (r: Option<Meta>, ghost run: seq<Sys>, ghost rec: Record)
      requires Valid() && ClockAhead(h, t)
      modifies this, buf, store, store.disk
      ensures Valid()
      ensures IsRun(run) && run[0] == old(View()) && run[|run| - 1] == View()
      ensures |run| >= 2 && Collected(run[0], run[|run| - 2], cutoff)
      ensures if retainDays == 0 then |run| == 2 else IsPass(run[..|run| - 1], cutoff)
      ensures if r.Some? then Flushed(run[|run| - 2], t, rec, View()) else FlushFailed(run[|run| - 2], t, rec, View())
      ensures store.disk.faults >= old(store.disk.faults) && (store.disk.faults == old(store.disk.faults) ==> r.Some?)
      ensures retainDays > 0 ==>
                |Leftovers(old(store.index), run[|run| - 2].list, old(store.disk.fs).snapshots, cutoff)|
                <= store.disk.faults - old(store.disk.faults)
      ensures old(store.disk.trace) <= store.disk.trace
      ensures forall i :: |old(store.disk.trace)| <= i < |store.disk.trace| ==> Seen(run, store.disk.trace[i])
      // the counter is drained first, then the buffer is captured, and then it is saved or not
      ensures buf.View() == Burst.Buffered(old(buf.state), 0)
      ensures buf.events == old(buf.events) + [Burst.Drained] + [Burst.Captured] + [Burst.Settled(r.Some?)]
    {
      var drained := buf.DrainChanges();
      r, run, rec := CollectThenFlush(t, cutoff);
    }

    method CollectThenFlush(t: Time, cutoff: int) returns (r: Option<Meta>, ghost run: seq<Sys>, ghost rec: Record)
      requires Valid() && ClockAhead(h, t)
      modifies this, store, store.disk, buf`events
      ensures Valid() && buf.events == old(buf.events) + [Burst.Captured] + [Burst.Settled(r.Some?)]
      ensures IsRun(run) && run[0] == old(View()) && run[|run| - 1] == View()
      ensures |run| >= 2 && Collected(run[0], run[|run| - 2], cutoff)
      ensures if retainDays == 0 then |run| == 2 else IsPass(run[..|run| - 1], cutoff)
      ensures if r.Some? then Flushed(run[|run| - 2], t, rec, View()) else FlushFailed(run[|run| - 2], t, rec, View())
      ensures store.disk.faults >= old(store.disk.faults) && (store.disk.faults == old(store.disk.faults) ==> r.Some?)
      ensures retainDays > 0 ==>
                |Leftovers(old(store.index), run[|run| - 2].list, old(store.disk.fs).snapshots, cutoff)|
                <= store.disk.faults - old(store.disk.faults)
      ensures old(store.disk.trace) <= store.disk.trace
      ensures forall i :: |old(store.disk.trace)| <= i < |store.disk.trace| ==> Seen(run, store.disk.trace[i])
    {
      run := Gc(cutoff);
      ghost var passed := run;
      r, run, rec := FlushStep(t, passed);
      SeenInLonger(passed, run);
      assert run[..|run| - 1] == passed;
      assert run[|passed| - 1] == passed[|passed| - 1] && run[0] == passed[0];
    }

    /** The flush of the pass, recorded as a step. */
    method FlushStep(t: Time, ghost run0: seq<Sys>) returns (r: Option<Meta>, ghost run: seq<Sys>, ghost rec: Record)
      requires Valid() && ClockAhead(h, t)
      requires IsRun(run0) && run0[|run0| - 1] == View()
      modifies this, store, store.disk, buf`events
      ensures Valid() && buf.events == old(buf.events) + [Burst.Captured] + [Burst.Settled(r.Some?)]
      ensures IsRun(run) && |run| == |run0| + 1 && run0 <= run && run[|run| - 1] == View()
      ensures store.disk.faults >= old(store.disk.faults) && (store.disk.faults == old(store.disk.faults) ==> r.Some?)
      ensures if r.Some? then Flushed(old(View()), t, rec, View()) else FlushFailed(old(View()), t, rec, View())
      ensures old(store.disk.trace) <= store.disk.trace
      ensures forall i :: |old(store.disk.trace)| <= i < |store.disk.trace| ==> Seen(run, store.disk.trace[i])
    {
      ghost var a := View();
      r, rec := Flush(t);
      FlushIsAStep(a, t, rec, View());
      FlushIsSeen(run0, t, rec, View());
      run := AppendStep(run0, View());
    }
  }

  /**
   Opens the store for writing and puts a snapshotter over it, going on from `a`, the state a run has left.
   If the open fails, the run has gone through an interrupted open.
   */
  method Start(disk: Disk, buf: Buffer, fullEvery: int, retainDays: int, ghost a: Sys)
    returns (s: Snapshotter?, ghost run: seq<Sys>)
    requires Reachable(a) && !a.up && disk.fs == a.fs && buf.Valid()
    modifies disk
    ensures IsRun(run) && |run| == 2 && run[0] == a && run[1].fs == disk.fs && Reachable(run[1])
    ensures s != null ==>
              && fresh(s) && fresh(s.store) && s.store.disk == disk && s.buf == buf
              && s.fullEvery == Max(fullEvery, 1) && s.retainDays == Max(retainDays, 0)
              && s.Valid() && run[1] == s.View() && s.flushNum == 0
    ensures s == null ==> !run[1].up && run[1].h == a.h
    ensures disk.faults >= old(disk.faults) && (disk.faults == old(disk.faults) ==> s != null)
    ensures old(disk.trace) <= disk.trace
    ensures forall i :: |old(disk.trace)| <= i < |disk.trace| ==> Seen(run, disk.trace[i])
  {
    ghost var base;
    var store, ok;
    store, ok, base := NewLocal(disk);
    if ok {
      s := new Snapshotter(buf, store, fullEvery, retainDays, a, base);
      run := OpenedRun(a, base, s.View());
    } else {
      s := null;
      run := OpenedRun(a, base, a.(fs := disk.fs, gone := a.gone + a.fs.deleting.Keys));
    }
  }

  lemma OpenedRun(a: Sys, base: seq<Meta>, b: Sys) returns (run: seq<Sys>)
    requires Reachable(a) && (Reopened(a, base, b) || OpenInterrupted(a, base, b))
    ensures run == [a, b] && IsRun(run) && Reachable(b)
    ensures forall fs :: OpenWindow(a.fs, base, fs) ==> Seen(run, fs)
  {
    run := [a, b];
    assert Step(a, b);
    StepReaches(a, b);
    OpenIsSeen(a, base, b);
    forall i | 0 <= i < |run| - 1 ensures StepAt(run, i) {}
  }

  lemma OpenReaches(a: Sys, base: seq<Meta>, b: Sys)
    requires Reachable(a) && Reopened(a, base, b)
    ensures Reachable(b)
  {
    assert Step(a, b);
    StepReaches(a, b);
  }

  lemma FlushIsAStep(a: Sys, t: Time, rec: Record, b: Sys)
    requires Flushed(a, t, rec, b) || FlushFailed(a, t, rec, b)
    ensures Step(a, b)
  {
  }

  /** The run goes on from `run0` with one deletion for each of the first `i` entries, and has come to `s`. */
  ghost predicate Trying(run0: seq<Sys>, run: seq<Sys>, metas: seq<Meta>, i: nat, s: Sys)
    requires i <= |metas|
  {
    && run0 != [] && run0 <= run && |run| == |run0| + i
    && IsRun(run) && run[|run| - 1] == s && DeletesInOrder(run, |run0| - 1, metas, i)
  }

  /** A pass over what `a` lists has tried the entries before `i` at the cost of so many faults, and left `b`. */
  ghost predicate Underway(i: nat, anchor: nat, run0: seq<Sys>, run: seq<Sys>, a: Sys, b: Sys, faults: int)
  {
    && i <= anchor < |a.list|
    && Trying(run0, run, a.list, i, b)
    && Progress(a.list, i, b.list, a.fs.snapshots.Keys, b.fs.snapshots.Keys, faults)
    && UntouchedFrom(a.h, a.list[anchor].ts, a.fs, b.fs)
    && SamePosition(a, b) && b.floor == a.floor
  }

  lemma NothingTriedYet(anchor: nat, run0: seq<Sys>, a: Sys)
    requires IsRun(run0) && run0[|run0| - 1] == a && anchor < |a.list|
    ensures Underway(0, anchor, run0, run0, a, a, 0)
  {
  }

  lemma NextIsListed(i: nat, anchor: nat, run0: seq<Sys>, run: seq<Sys>, a: Sys, b: Sys, faults: int)
    requires i < anchor && Underway(i, anchor, run0, run, a, b, faults) && StrictlySorted(TsLess, a.list)
    ensures a.list[i] in a.list && a.list[i] in b.list && a.list[i].ts < a.list[anchor].ts
    ensures IsRun(run) && run[|run| - 1] == b && b.floor == a.floor
  {
    TsMonotone(a.list, i, anchor);
  }

  lemma StillUnderway(i: nat, anchor: nat, run0: seq<Sys>, run: seq<Sys>, a: Sys, b: Sys, c: Sys,
                      spent: int, faults: int)
    requires i < anchor && Underway(i, anchor, run0, run, a, b, spent) && Listed(a.list, a.h) && spent <= faults
    requires IsRun(run + [c]) && TriesDeletion(b, a.list[i].id, c) && SamePosition(b, c) && c.floor == b.floor
    requires forall x :: x in c.list ==> x in b.list
    requires forall x :: x in b.list && x.id != a.list[i].id ==> x in c.list
    requires SameExcept(b.fs.snapshots, c.fs.snapshots, a.list[i].id)
    requires faults == spent && a.list[i].id in b.fs.snapshots ==> a.list[i] !in c.list
    ensures Underway(i + 1, anchor, run0, run + [c], a, c, faults)
  {
    var m := a.list[i];
    NextIsListed(i, anchor, run0, run, a, b, spent);
    ListIsDistinct(a.list, a.h);
    StillTrying(run0, run, a.list, i, b, c);
    UntouchedGoesOn(a.h, a.list[anchor].ts, a.fs, b.fs, c.fs, m.id);
    ProgressGoesOn(a.list, i, b.list, c.list, a.fs.snapshots.Keys, b.fs.snapshots.Keys, c.fs.snapshots.Keys,
                   spent, faults);
  }

  /** What a pass amounts to once everything before its anchor has been tried. */
  lemma PassIsOver(a: Sys, settled: Sys, b: Sys, cutoff: int, anchor: nat, run: seq<Sys>, faults: int)
    requires StrictlySorted(TsLess, a.list) && AnchorAt(a.list, cutoff, anchor)
    requires Anchored(a, a.list[anchor], settled)
    requires Underway(anchor, anchor, [a, settled], run, settled, b, faults)
    ensures IsRun(run) && run[0] == a && run[|run| - 1] == b && IsPass(run, cutoff)
    ensures |Leftovers(a.list, b.list, a.fs.snapshots, cutoff)| <= faults
    ensures Collected(a, b, cutoff)
  {
    assert run[0] == a && run[1] == settled;
    PassIsCollection(a, b, anchor, cutoff);
    LeftoversAreBeforeAnchor(a.list, anchor, cutoff, b.list, a.fs.snapshots);
  }

  lemma StillTrying(run0: seq<Sys>, run: seq<Sys>, metas: seq<Meta>, i: nat, a: Sys, b: Sys)
    requires i < |metas| && Trying(run0, run, metas, i, a) && IsRun(run + [b]) && TriesDeletion(a, metas[i].id, b)
    ensures Trying(run0, run + [b], metas, i + 1, b)
  {
    OneMoreDeletion(run, |run0| - 1, metas, i, b);
  }

  /** The disk states from number `from` on are seen in the run. */
  ghost predicate AllSeen(run: seq<Sys>, trace: seq<Fs>, from: nat)
  {
    forall k :: from <= k < |trace| ==> Seen(run, trace[k])
  }

  lemma StillAllSeen(run: seq<Sys>, longer: seq<Sys>, trace: seq<Fs>, more: seq<Fs>, from: nat)
    requires run <= longer && trace <= more && from <= |trace| && AllSeen(run, trace, from)
    requires AllSeen(longer, more, |trace|)
    ensures AllSeen(longer, more, from)
  {
    SeenInLonger(run, longer);
  }

  predicate AllPlain(l: seq<Meta>)
  {
    forall m :: m in l ==> PlainId(m.id)
  }

  lemma ListedArePlain(l: seq<Meta>, h: History)
    requires Genuine(h) && Listed(l, h)
    ensures AllPlain(l)
  {
    forall m | m in l ensures PlainId(m.id) {
      assert GenuineAttempt(h, m.id);
      IdIsPlain(h[m.id].time);
    }
  }

  lemma WriterIsOk(s: Sys)
    requires Reachable(s) && s.up
    ensures s.fullEvery > 0 && Listed(s.list, s.h) && AllPlain(s.list)
  {
    ReachableKeepsInv(s);
    ListedArePlain(s.list, s.h);
  }

  ghost method AppendStep(run: seq<Sys>, s: Sys) returns (run': seq<Sys>)
    requires IsRun(run) && Step(run[|run| - 1], s)
    ensures IsRun(run') && run' == run + [s]
  {
    OneMoreStep(run, s);
    run' := run + [s];
  }

  /** A flush takes a run further, and its ID was free. */
  lemma FlushReaches(a: Sys, t: Time, rec: Record, b: Sys)
    requires Reachable(a) && (Flushed(a, t, rec, b) || FlushFailed(a, t, rec, b))
    ensures Reachable(b) && rec.meta.id !in a.fs.snapshots
  {
    FlushIsAStep(a, t, rec, b);
    StepReaches(a, b);
    ReachableKeepsInv(a);
    FreshAttempt(a.h, t);
  }
}
