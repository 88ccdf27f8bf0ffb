/** A listed delta whose data a retried deletion has discarded, and what blame makes of it. */
module Losses {
  import opened Sorting
  import opened Times
  import opened D = Delta
  import opened Files
  import opened Store
  import opened History
  import opened Reconstruct
  import opened Runs
  import opened Promises
  import opened Orphans
  import Blame
  import StoreLaws

  // ---- the pass does not notice ---------------------------------------------------

  lemma {:induction false} PassGoesThrough(fs: Fs, list: seq<Meta>, target: Key)
    requires forall m :: m in list ==> Blame.Skips(m, target) || Read(fs, fs, m.id).Ok?
    ensures Blame.Fold(fs, list, target).Ok?
  {
    if list != [] {
      assert list[|list| - 1] in list;
      PassGoesThrough(fs, list[..|list| - 1], target);
    }
  }

  /**
   When the one unreadable entry is a delta that does not touch the target's kind, the pass reports rows
   although that entry's state, and with it the naive timeline, is gone.
   */
  lemma LostDeltaIsSkipped(fs: Fs, list: seq<Meta>, d: Meta, target: Key)
    requires d in list && Read(fs, fs, d.id).Err?
    requires d.kind.DeltaKind? && d.kinds != [] && target.kind !in d.kinds
    requires forall m :: m in list && m != d ==> Read(fs, fs, m.id).Ok?
    ensures Blame.Fold(fs, list, target).Ok? && Blame.Naive(fs, list, target).Err?
  {
    PassGoesThrough(fs, list, target);
    var i :| 0 <= i < |list| && list[i] == d;
    Blame.NaiveNeedsEveryState(fs, list, i);
  }

  // ---- how a delta gets lost ------------------------------------------------------

  /** A deletion that stages the directory, fails to write the index, and fails to put the directory back. */
  function Stranded(a: Sys, id: Id): Sys
    requires id in a.fs.snapshots
  {
    a.(fs := a.fs.(snapshots := a.fs.snapshots - {id}, deleting := a.fs.deleting[id := a.fs.snapshots[id]]),
       live := a.live - {id}, stranded := a.stranded + {id})
  }

  /** The same deletion tried again: it discards the tombstone and then finds nothing to stage. */
  function Discarded(a: Sys, id: Id): Sys
    requires id in a.fs.snapshots
  {
    a.(fs := a.fs.(snapshots := a.fs.snapshots - {id}, deleting := a.fs.deleting - {id}),
       live := a.live - {id}, stranded := a.stranded + {id})
  }

  lemma CollectableIsListed(a: Sys, id: Id)
    requires Collectable(a, id)
    ensures id in Ids(a.list)
  {
  }

  lemma StrandingIsAStep(a: Sys, id: Id)
    requires Collectable(a, id) && id in a.fs.snapshots && id !in a.fs.deleting
    ensures Step(a, Stranded(a, id))
  {
    CollectableIsListed(a, id);
    var b := Stranded(a, id);
    assert DeleteWindow(a.fs, a.list, id, b.fs);
    assert Deleted(a, id, false, b);
  }

  lemma DiscardingIsAStep(a: Sys, id: Id)
    requires Collectable(a, id) && id in a.fs.snapshots && id !in a.fs.deleting
    ensures Step(Stranded(a, id), Discarded(a, id))
  {
    CollectableIsListed(a, id);
    var b, c := Stranded(a, id), Discarded(a, id);
    assert Collectable(b, id);
    assert c.fs.deleting == b.fs.deleting - {id};
    assert DeleteWindow(b.fs, b.list, id, c.fs);
    assert c.live == b.live - {id} && c.stranded == b.stranded + {id};
    assert Deleted(b, id, false, c);
  }

  /** Wherever a run stands, a listed snapshot that collection is about to delete can be lost instead. */
  lemma CanBeLost(run: seq<Sys>, id: Id)
    requires IsRun(run) && Collectable(run[|run| - 1], id)
    requires id in run[|run| - 1].fs.snapshots && id !in run[|run| - 1].fs.deleting
    ensures IsRun(run + [Stranded(run[|run| - 1], id)] + [Discarded(run[|run| - 1], id)])
  {
    var a := run[|run| - 1];
    StrandingIsAStep(a, id);
    OneMoreStep(run, Stranded(a, id));
    DiscardingIsAStep(a, id);
    OneMoreStep(run + [Stranded(a, id)], Discarded(a, id));
  }

  lemma DiscardedReads(a: Sys, d: Id, x: Id)
    requires d in a.fs.snapshots
    ensures var fs := Discarded(a, d).fs;
            Read(fs, fs, x) == if x == d then Err(LoadFailed(d)) else Read(a.fs, a.fs, x)
  {
  }

  lemma DiscardedLists(a: Sys, d: Id, list: seq<Meta>)
    requires d in a.fs.snapshots && a.fs.index == Data(a.list) && a.fs.deleting == map[]
    ensures Listing(Discarded(a, d).fs, list) <==> list == a.list
  {
    var fs := Discarded(a, d).fs;
    WithoutNothing(a.list, fs.deleting.Keys);
    assert Base(fs, a.list);
    if Listing(fs, list) { StoreLaws.ListingIsUnique(fs, list, a.list); }
  }

  /**
   So no run is safe from it: a delta that collection is about to delete can be lost, be the index file never
   lost and the list in order. Every open then lists the same entries in the same order, and blame reports
   rows for every resource of a kind the delta does not touch, although the history it reports on is gone.
   */
  lemma LostDeltaMisleadsBlame(run: seq<Sys>, d: Meta, target: Key, list: seq<Meta>)
    requires IsRun(run) && Collectable(run[|run| - 1], d.id) && d in run[|run| - 1].list
    requires run[|run| - 1].fs.index == Data(run[|run| - 1].list) && run[|run| - 1].fs.deleting == map[]
    requires d.id in run[|run| - 1].fs.snapshots && Blame.AllReadable(run[|run| - 1].fs, run[|run| - 1].list)
    requires d.kind.DeltaKind? && d.kinds != [] && target.kind !in d.kinds
    requires forall m :: m in run[|run| - 1].list && m.id == d.id ==> m == d
    ensures var a := run[|run| - 1];
            var c := Discarded(a, d.id);
            && IsRun(run + [Stranded(a, d.id)] + [c]) && c.tidy == a.tidy
            && (Listing(c.fs, list) <==> list == a.list)
            && Blame.Fold(c.fs, a.list, target).Ok? && Blame.Naive(c.fs, a.list, target).Err?
  {
    var a := run[|run| - 1];
    var c := Discarded(a, d.id);
    CanBeLost(run, d.id);
    DiscardedLists(a, d.id, list);
    forall m | m in a.list ensures Read(c.fs, c.fs, m.id).Ok? <==> m != d { DiscardedReads(a, d.id, m.id); }
    LostDeltaIsSkipped(c.fs, a.list, d, target);
  }

  // ---- a run that comes to such a point ---------------------------------------------

  /** After a full flush of nothing: a resource appears and is flushed as a delta. */
  function WithDelta(t1: Time, t2: Time, key: Key, s: State): Sys
  {
    var f := FullOfNothing(t1);
    var d := OneAdded(t2, f.meta.id, key, s);
    FirstFlushed(map[], 2, t1, f).(
      buf := map[key := s], list := [f.meta, d.meta],
      fs := Fs(Data([f.meta, d.meta]), map[f.meta.id := WholeDir(f), d.meta.id := WholeDir(d)], map[]),
      h := map[f.meta.id := Attempt(f, map[], t1, 1), d.meta.id := Attempt(d, map[key := s], t2, 2)],
      live := {f.meta.id, d.meta.id}, prevState := map[key := s], prevID := d.meta.id, flushNum := 2, flushDelta := 1)
  }

  /** It goes again, and a full flush follows, which a pass takes as its anchor. */
  function WithAnchor(t1: Time, t2: Time, t3: Time, key: Key, s: State): Sys
  {
    var f, g, a := FullOfNothing(t1), FullOfNothing(t3), WithDelta(t1, t2, key, s);
    var d := OneAdded(t2, f.meta.id, key, s);
    a.(buf := map[], list := a.list + [g.meta],
       fs := Fs(Data(a.list + [g.meta]), a.fs.snapshots[g.meta.id := WholeDir(g)], map[]),
       h := a.h[g.meta.id := Attempt(g, map[], t3, 1)],
       live := a.live + {g.meta.id}, prevState := map[], prevID := g.meta.id, flushNum := 3, flushFull := 2)
  }

  lemma AppendedLater(l: seq<Meta>, m: Meta)
    requires StrictlySorted(TsLess, l) && forall x :: x in l ==> x.ts < m.ts
    ensures Appended(l, m) == l + [m]
  {
    StoreLaws.AppendedIsOrdered(l, m);
  }

  lemma DeltaIsReached(t1: Time, t2: Time, key: Key, s: State)
    requires ValidTime(t1) && ValidTime(t2) && Millis(t1) < Millis(t2)
    ensures Step(FirstFlushed(map[], 2, t1, FullOfNothing(t1)).(buf := map[key := s]), WithDelta(t1, t2, key, s))
  {
    var f := FullOfNothing(t1);
    var d, a := OneAdded(t2, f.meta.id, key, s), FirstFlushed(map[], 2, t1, f).(buf := map[key := s]);
    var b := WithDelta(t1, t2, key, s);
    LaterIdIsNew(t1, t2);
    OrphanIsNext(t1, t2, key, s, 2);
    AppendedLater([f.meta], d.meta);
    assert b.h == Tried(a, t2, d) && b.live == a.live + {d.meta.id};
    assert PutDone(a.fs, a.list, d, b.fs, b.list);
    assert Flushed(a, t2, d, b);
  }

  lemma AnchorIsNext(t1: Time, t2: Time, t3: Time, key: Key, s: State)
    requires ValidTime(t1) && ValidTime(t2) && ValidTime(t3) && Millis(t1) < Millis(t2) < Millis(t3)
    ensures NextRecord(WithDelta(t1, t2, key, s).(buf := map[]), t3, FullOfNothing(t3))
  {
    FullOfNothingIsRecord(t3);
  }

  lemma AnchorIsReached(t1: Time, t2: Time, t3: Time, key: Key, s: State)
    requires ValidTime(t1) && ValidTime(t2) && ValidTime(t3) && Millis(t1) < Millis(t2) < Millis(t3)
    ensures Step(WithDelta(t1, t2, key, s).(buf := map[]), WithAnchor(t1, t2, t3, key, s))
  {
    var a, b, g := WithDelta(t1, t2, key, s).(buf := map[]), WithAnchor(t1, t2, t3, key, s), FullOfNothing(t3);
    LaterIdIsNew(t1, t2);
    LaterIdIsNew(t1, t3);
    LaterIdIsNew(t2, t3);
    AnchorIsNext(t1, t2, t3, key, s);
    AppendedLater(a.list, g.meta);
    assert b.h == Tried(a, t3, g);
    assert PutDone(a.fs, a.list, g, b.fs, b.list);
    assert Flushed(a, t3, g, b);
  }

  lemma AnchoringIsAStep(a: Sys, m: Meta)
    requires a.up && m in a.list && m.kind.FullKind?
    ensures Step(a, a.(floor := Max(a.floor, m.ts)))
  {
    assert Anchored(a, m, a.(floor := Max(a.floor, m.ts)));
  }

  lemma LeadsFurther(run: seq<Sys>, a: Sys, b: Sys)
    requires Runs.LeadsTo(run, a) && Step(a, b)
    ensures Runs.LeadsTo(run + [b], b)
  {
    OneMoreStep(run, b);
  }

  lemma RunToFirst(t1: Time) returns (run: seq<Sys>)
    requires ValidTime(t1)
    ensures Runs.LeadsTo(run, FirstFlushed(map[], 2, t1, FullOfNothing(t1)))
  {
    FullOfNothingIsRecord(t1);
    run := RecordingStarts(map[], 2, t1, FullOfNothing(t1));
  }

  lemma RunToDelta(t1: Time, t2: Time, key: Key, s: State) returns (run: seq<Sys>)
    requires ValidTime(t1) && ValidTime(t2) && Millis(t1) < Millis(t2)
    ensures Runs.LeadsTo(run, WithDelta(t1, t2, key, s))
  {
    var first := FirstFlushed(map[], 2, t1, FullOfNothing(t1));
    run := RunToFirst(t1);
    ChangeIsAStep(first, map[key := s]);
    LeadsFurther(run, first, first.(buf := map[key := s]));
    run := run + [first.(buf := map[key := s])];
    DeltaIsReached(t1, t2, key, s);
    LeadsFurther(run, first.(buf := map[key := s]), WithDelta(t1, t2, key, s));
    run := run + [WithDelta(t1, t2, key, s)];
  }

  /** A run to the point where a pass is about to delete a full snapshot and its delta, all of it readable. */
  lemma RunToCollectableDelta(t1: Time, t2: Time, t3: Time, key: Key, s: State) returns (run: seq<Sys>, a: Sys, d: Meta)
    requires ValidTime(t1) && ValidTime(t2) && ValidTime(t3) && Millis(t1) < Millis(t2) < Millis(t3)
    ensures Runs.LeadsTo(run, a) && a.tidy && a.fs.index == Data(a.list) && a.fs.deleting == map[]
    ensures d in a.list && d.kind.DeltaKind? && d.kinds == [key.kind] && Collectable(a, d.id) && d.id in a.fs.snapshots
    ensures Blame.InOrder(a.list) && Blame.AllReadable(a.fs, a.list)
    ensures forall m :: m in a.list && m.id == d.id ==> m == d
  {
    run := RunToDelta(t1, t2, key, s);
    var first, c := WithDelta(t1, t2, key, s), WithAnchor(t1, t2, t3, key, s);
    var b := first.(buf := map[]);
    ChangeIsAStep(first, map[]);
    LeadsFurther(run, first, b);
    run := run + [b];
    AnchorIsReached(t1, t2, t3, key, s);
    LeadsFurther(run, b, c);
    run := run + [c];
    var g := FullOfNothing(t3).meta;
    assert c.list[2] == g;
    AnchoringIsAStep(c, g);
    a := c.(floor := Max(c.floor, g.ts));
    LeadsFurther(run, c, a);
    run := run + [a];
    d := OneAdded(t2, FullOfNothing(t1).meta.id, key, s).meta;
    ListOfAnchor(t1, t2, t3, key, s, a);
  }

  lemma AnchorReads(t1: Time, t2: Time, t3: Time, key: Key, s: State, m: Meta)
    requires ValidTime(t1) && ValidTime(t2) && ValidTime(t3) && Millis(t1) < Millis(t2) < Millis(t3)
    requires m in WithAnchor(t1, t2, t3, key, s).list
    ensures var fs := WithAnchor(t1, t2, t3, key, s).fs;
            m.id in fs.snapshots && Read(fs, fs, m.id).Ok?
  {
    LaterIdIsNew(t1, t2);
    LaterIdIsNew(t1, t3);
    LaterIdIsNew(t2, t3);
    IdIsPlain(t1);
    IdIsPlain(t2);
    IdIsPlain(t3);
  }

  lemma ListOfAnchor(t1: Time, t2: Time, t3: Time, key: Key, s: State, a: Sys)
    requires ValidTime(t1) && ValidTime(t2) && ValidTime(t3) && Millis(t1) < Millis(t2) < Millis(t3)
    requires a == WithAnchor(t1, t2, t3, key, s).(floor := Max(0, Rank(t3)))
    ensures var d := OneAdded(t2, FullOfNothing(t1).meta.id, key, s).meta;
            && d in a.list && Collectable(a, d.id) && d.id in a.fs.snapshots
            && Blame.InOrder(a.list) && Blame.AllReadable(a.fs, a.list)
            && forall m :: m in a.list && m.id == d.id ==> m == d
  {
    var f, g := FullOfNothing(t1), FullOfNothing(t3);
    var d := OneAdded(t2, f.meta.id, key, s);
    LaterIdIsNew(t1, t2);
    LaterIdIsNew(t2, t3);
    assert a.list == [f.meta, d.meta, g.meta];
    assert a.list[1] == d.meta;
    forall m | m in a.list ensures m.id in a.fs.snapshots && Read(a.fs, a.fs, m.id).Ok? {
      AnchorReads(t1, t2, t3, key, s, m);
    }
  }
}
