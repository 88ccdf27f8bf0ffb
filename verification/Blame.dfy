/** The timeline of one resource over the recorded history. */
module Blame {
  import opened Times
  import opened D = Delta
  import opened Wire
  import opened Files
  import opened Store
  import opened History
  import opened Reconstruct

  datatype Op = Created | Modified | Removed

  /** `shown` is the state whose field managers the row displays. */
  datatype Row = Row(ts: int, op: Op, shown: State, id: Id)

  function Look(s: Snapshot, target: Key): Option<State>
  {
    if target in s then Some(s[target]) else None
  }

  function RowFor(prev: Option<State>, cur: Option<State>, ts: int, id: Id): seq<Row>
  {
    match (prev, cur)
    case (None, Some(c)) => [Row(ts, Created, c, id)]
    case (Some(p), None) => [Row(ts, Removed, p, id)]
    case (Some(p), Some(c)) => if p != c then [Row(ts, Modified, c, id)] else []
    case (None, None) => []
  }

  /** A delta whose recorded kinds leave out the target's kind is not loaded. */
  predicate Skips(m: Meta, target: Key)
  {
    m.kind.DeltaKind? && |m.kinds| > 0 && !KindsContain(m.kinds, target.kind)
  }

  // ---- one pass with a running state ------------------------------------------

  datatype Acc = Acc(rows: seq<Row>, running: Snapshot, prev: Option<State>)

  function Advance(acc: Acc, l: Loaded, m: Meta, target: Key): Acc
  {
    var running := if l.LoadedFull? then l.snap else Patch(acc.running, l.delta);
    var cur := Look(running, target);
    Acc(acc.rows + RowFor(acc.prev, cur, m.ts, m.id), running, cur)
  }

  function Fold(fs: Fs, list: seq<Meta>, target: Key): Result<Acc>
  {
    if list == [] then Ok(Acc([], map[], None))
    else
      var m, before := list[|list| - 1], Fold(fs, list[..|list| - 1], target);
      if before.Err? || Skips(m, target) then before
      else match Read(fs, fs, m.id)
        case Err(e) => Err(e)
        case Ok(l) => Ok(Advance(before.value, l, m, target))
  }

  function RowsOf(r: Result<Acc>): Result<seq<Row>>
  {
    if r.Ok? then Ok(r.value.rows) else Err(r.error)
  }

  /** A quiet disk that holds every attempt of the history whole. */
  function Archive(h: History): Fs
  {
    Fs(Absent, map id | id in h :: WholeDir(h[id].rec), map[])
  }

  lemma ArchiveReads(timeline: seq<Fs>, h: History, id: Id, l: Loaded)
    requires Genuine(h) && (forall fs :: fs in timeline ==> Faithful(fs, h)) && ReadDuring(timeline, id, l)
    ensures Read(Archive(h), Archive(h), id) == Ok(l)
  {
    var i, j :| 0 <= i <= j < |timeline| && Read(timeline[i], timeline[j], id) == Ok(l);
    ReadIsGenuine(timeline[i], timeline[j], h, id);
    assert GenuineAttempt(h, id);
  }

  /** All states of the disk tell one story. */
  ghost predicate OneStory(timeline: seq<Fs>, h: History)
  {
    Genuine(h) && forall fs :: fs in timeline ==> Faithful(fs, h)
  }

  /**
   `timeline` holds the states the disk goes through while the pass runs. Beside a writer, a pass that
   succeeds reports what the same pass over the whole records of the history would.
   */
  method ComputeBlame(timeline: seq<Fs>, list: seq<Meta>, target: Key) returns (r: Result<seq<Row>>)
    requires timeline != []
    ensures |timeline| == 1 ==> r == RowsOf(Fold(timeline[0], list, target))
    ensures |timeline| == 1 && WellFormed(timeline[0], list) ==> r == Naive(timeline[0], list, target)
    ensures |timeline| == 1 && WellFormed(timeline[0], list) ==> TellsChanges(timeline[0], list, target, r)
    ensures forall h :: OneStory(timeline, h) && r.Ok? ==> r == RowsOf(Fold(Archive(h), list, target))
  {
    var rows: seq<Row>, running: Snapshot, prev: Option<State> := [], map[], None;
    var i, now := 0, 0;
    RefinesNaive(timeline[0], list, target);
    NaiveTellsChanges(timeline[0], list, target);
    while i < |list|
      invariant 0 <= i <= |list| && now < |timeline|
      invariant PassSoFar(timeline, list[..i], target, Acc(rows, running, prev))
    {
      var m := list[i];
      assert list[..i + 1] == list[..i] + [m];
      if Skips(m, target) {
        PassSkips(timeline, list[..i], m, target, Acc(rows, running, prev));
      } else {
        var loaded, later := Get(timeline, now, m.id);
        if loaded.Err? {
          if |timeline| == 1 { PassBreaks(timeline[0], list, i, target); }
          return Err(loaded.error);
        }
        PassLoads(timeline, list[..i], m, target, Acc(rows, running, prev), loaded.value);
        now := later;
        match loaded.value {
          case LoadedFull(_, snap) => running := snap;
          case LoadedDelta(_, d) => running := D.Apply(running, d);
        }
        var cur := Look(running, target);
        rows := rows + RowFor(prev, cur, m.ts, m.id);
        prev := cur;
      }
      i := i + 1;
    }
    assert list[..|list|] == list;
    r := Ok(rows);
  }

  /** The pass over the entries so far, on a quiescent disk and against any history the disk agrees with. */
  ghost predicate PassSoFar(timeline: seq<Fs>, list: seq<Meta>, target: Key, acc: Acc)
  {
    && (|timeline| == 1 ==> Fold(timeline[0], list, target) == Ok(acc))
    && forall h :: OneStory(timeline, h) ==> Fold(Archive(h), list, target) == Ok(acc)
  }

  lemma FoldOneMore(fs: Fs, list: seq<Meta>, m: Meta, target: Key, acc: Acc)
    requires Fold(fs, list, target) == Ok(acc)
    ensures Skips(m, target) ==> Fold(fs, list + [m], target) == Ok(acc)
    ensures !Skips(m, target) && Read(fs, fs, m.id).Ok? ==>
              Fold(fs, list + [m], target) == Ok(Advance(acc, Read(fs, fs, m.id).value, m, target))
    ensures !Skips(m, target) && Read(fs, fs, m.id).Err? ==>
              Fold(fs, list + [m], target) == Err(Read(fs, fs, m.id).error)
  {
    assert (list + [m])[..|list|] == list;
  }

  lemma PassSkips(timeline: seq<Fs>, list: seq<Meta>, m: Meta, target: Key, acc: Acc)
    requires PassSoFar(timeline, list, target, acc) && Skips(m, target)
    ensures PassSoFar(timeline, list + [m], target, acc)
  {
    if |timeline| == 1 { FoldOneMore(timeline[0], list, m, target, acc); }
    forall h | OneStory(timeline, h) ensures Fold(Archive(h), list + [m], target) == Ok(acc) {
      FoldOneMore(Archive(h), list, m, target, acc);
    }
  }

  lemma PassLoads(timeline: seq<Fs>, list: seq<Meta>, m: Meta, target: Key, acc: Acc, l: Loaded)
    requires PassSoFar(timeline, list, target, acc) && !Skips(m, target) && ReadDuring(timeline, m.id, l)
    requires |timeline| == 1 ==> Read(timeline[0], timeline[0], m.id) == Ok(l)
    ensures PassSoFar(timeline, list + [m], target, Advance(acc, l, m, target))
  {
    if |timeline| == 1 { FoldOneMore(timeline[0], list, m, target, acc); }
    forall h | OneStory(timeline, h) ensures Fold(Archive(h), list + [m], target) == Ok(Advance(acc, l, m, target)) {
      ArchiveReads(timeline, h, m.id, l);
      FoldOneMore(Archive(h), list, m, target, acc);
    }
  }

  /** An entry that does not load ends the pass. */
  lemma PassBreaks(fs: Fs, list: seq<Meta>, i: nat, target: Key)
    requires i < |list| && Fold(fs, list[..i], target).Ok?
    requires !Skips(list[i], target) && Read(fs, fs, list[i].id).Err?
    ensures Fold(fs, list, target) == Err(Read(fs, fs, list[i].id).error)
  {
    assert list[..i + 1] == list[..i] + [list[i]];
    FoldOneMore(fs, list[..i], list[i], target, Fold(fs, list[..i], target).value);
    FoldFails(fs, list, i + 1, target);
  }

  lemma {:induction false} FoldFails(fs: Fs, list: seq<Meta>, i: nat, target: Key)
    requires i <= |list| && Fold(fs, list[..i], target).Err?
    ensures Fold(fs, list, target) == Fold(fs, list[..i], target)
  {
    if i == |list| {
      assert list[..i] == list;
    } else {
      assert list[..|list| - 1][..i] == list[..i];
      FoldFails(fs, list[..|list| - 1], i, target);
    }
  }

  // ---- the naive algorithm: rebuild every snapshot, compare neighbours ------------

  datatype Point = Point(ts: int, id: Id, state: Snapshot)

  function Points(fs: Fs, list: seq<Meta>): Result<seq<Point>>
  {
    if list == [] then Ok([])
    else
      var m, before := list[|list| - 1], Points(fs, list[..|list| - 1]);
      if before.Err? then before
      else match StateAt(fs, m.id)
        case Err(e) => Err(e)
        case Ok(s) => Ok(before.value + [Point(m.ts, m.id, s)])
  }

  /** The change seen at point `i`, against the point before it. */
  function RowAt(points: seq<Point>, i: nat, target: Key): seq<Row>
    requires i < |points|
  {
    var prev := if i == 0 then None else Look(points[i - 1].state, target);
    RowFor(prev, Look(points[i].state, target), points[i].ts, points[i].id)
  }

  /** The rows of the points numbered from `i` up to `j`. */
  function Rows(points: seq<Point>, i: nat, j: nat, target: Key): seq<Row>
    requires i <= j <= |points|
    decreases j
  {
    if i == j then [] else Rows(points, i, j - 1, target) + RowAt(points, j - 1, target)
  }

  function Naive(fs: Fs, list: seq<Meta>, target: Key): Result<seq<Row>>
  {
    match Points(fs, list)
    case Err(e) => Err(e)
    case Ok(points) => Ok(Rows(points, 0, |points|, target))
  }

  // ---- what a timeline says --------------------------------------------------------

  /** The state before point `i`: nothing before the first. */
  function Before(ps: seq<Point>, i: nat): Snapshot
    requires i <= |ps|
  {
    if i == 0 then map[] else ps[i - 1].state
  }

  /** The target is in only one of the two, or not the same in both. */
  predicate Differs(before: Snapshot, after: Snapshot, target: Key)
  {
    if target in before && target in after then before[target] != after[target]
    else target in before || target in after
  }

  /** A row for the point `p` behind `before`: what happened, and the state to show for it. */
  predicate TellsOf(row: Row, before: Snapshot, p: Point, target: Key)
  {
    && row.ts == p.ts && row.id == p.id
    && (row.op == Created <==> target !in before && target in p.state)
    && (row.op == Modified <==> target in before && target in p.state)
    && (row.op == Removed <==> target in before && target !in p.state)
    && (target in p.state ==> row.shown == p.state[target])
    && (target !in p.state && target in before ==> row.shown == before[target])
  }

  predicate DiffersAt(ps: seq<Point>, i: nat, target: Key)
    requires i < |ps|
  {
    Differs(Before(ps, i), ps[i].state, target)
  }

  predicate TellsAt(row: Row, ps: seq<Point>, i: nat, target: Key)
    requires i < |ps|
  {
    TellsOf(row, Before(ps, i), ps[i], target)
  }

  /** A point has a row exactly when the target differs there; the row says how. */
  lemma RowTellsOfChange(ps: seq<Point>, i: nat, target: Key)
    requires i < |ps|
    ensures if DiffersAt(ps, i, target)
            then |RowAt(ps, i, target)| == 1 && TellsAt(RowAt(ps, i, target)[0], ps, i, target)
            else RowAt(ps, i, target) == []
  {
  }

  /** The points before `j` at which the target differs, in order. */
  function Changes(ps: seq<Point>, j: nat, target: Key): seq<nat>
    requires j <= |ps|
  {
    if j == 0 then []
    else if DiffersAt(ps, j - 1, target) then Changes(ps, j - 1, target) + [j - 1] else Changes(ps, j - 1, target)
  }

  lemma {:induction false} ChangesAreAllChanges(ps: seq<Point>, j: nat, target: Key)
    requires j <= |ps|
    ensures var cs := Changes(ps, j, target);
            && (forall n :: 0 <= n < |cs| ==> cs[n] < j)
            && (forall m, n :: 0 <= m < n < |cs| ==> cs[m] < cs[n])
            && (forall i :: 0 <= i < j ==> (i in cs <==> DiffersAt(ps, i, target)))
  {
    if j > 0 { ChangesAreAllChanges(ps, j - 1, target); }
  }

  ghost predicate TellsOfAll(rows: seq<Row>, cs: seq<nat>, ps: seq<Point>, target: Key)
  {
    |rows| == |cs| && forall n :: 0 <= n < |cs| ==> cs[n] < |ps| && TellsAt(rows[n], ps, cs[n], target)
  }

  /** One row for each point at which the target differs, in order, and no other. */
  ghost predicate IsTimeline(rows: seq<Row>, ps: seq<Point>, target: Key)
  {
    exists cs: seq<nat> ::
      && TellsOfAll(rows, cs, ps, target)
      && (forall m, n :: 0 <= m < n < |cs| ==> cs[m] < cs[n])
      && (forall i :: 0 <= i < |ps| ==> (i in cs <==> DiffersAt(ps, i, target)))
  }

  lemma {:induction false} RowsTellOfChanges(ps: seq<Point>, j: nat, target: Key)
    requires j <= |ps|
    ensures TellsOfAll(Rows(ps, 0, j, target), Changes(ps, j, target), ps, target)
  {
    if j > 0 {
      RowsTellOfChanges(ps, j - 1, target);
      RowTellsOfChange(ps, j - 1, target);
    }
  }

  /** If there is a report, it is the timeline of the target over the rebuilt states. */
  ghost predicate TellsChanges(fs: Fs, list: seq<Meta>, target: Key, r: Result<seq<Row>>)
  {
    r.Ok? ==> Points(fs, list).Ok? && IsTimeline(r.value, Points(fs, list).value, target)
  }

  lemma NaiveTellsChanges(fs: Fs, list: seq<Meta>, target: Key)
    ensures TellsChanges(fs, list, target, Naive(fs, list, target))
  {
    if Points(fs, list).Ok? {
      var ps := Points(fs, list).value;
      RowsTellOfChanges(ps, |ps|, target);
      ChangesAreAllChanges(ps, |ps|, target);
    }
  }

  /** The pass goes through, and reports what rebuilding every snapshot does. */
  ghost predicate PassIsRight(fs: Fs, list: seq<Meta>, target: Key)
  {
    Fold(fs, list, target).Ok? && RowsOf(Fold(fs, list, target)) == Naive(fs, list, target)
  }

  ghost predicate AllReadable(fs: Fs, list: seq<Meta>)
  {
    forall m :: m in list ==> Read(fs, fs, m.id).Ok?
  }

  // ---- the refinement -----------------------------------------------------------------

  /** An entry loads as listed, and the kinds recorded for a delta cover what it touches. */
  ghost predicate LoadsAsListed(fs: Fs, m: Meta)
  {
    && m.id != "" && Read(fs, fs, m.id).Ok?
    && var l := Read(fs, fs, m.id).value;
    && l.meta == m
    && (l.LoadedDelta? ==> m.kinds == [] || forall k :: k in Touched(l.delta) ==> KindsContain(m.kinds, k.kind))
  }

  ghost predicate AllLoad(fs: Fs, list: seq<Meta>)
  {
    forall m :: m in list ==> LoadsAsListed(fs, m)
  }

  /** Entry `i` loads as listed and follows its predecessor. */
  ghost predicate InPlace(fs: Fs, list: seq<Meta>, i: nat)
    requires i < |list|
  {
    && LoadsAsListed(fs, list[i])
    && (Read(fs, fs, list[i].id).value.LoadedDelta? && i > 0 ==> list[i].prev == list[i - 1].id)
  }

  /** A listed history that starts at a full snapshot, each delta behind the entry it is relative to. */
  ghost predicate WellFormed(fs: Fs, list: seq<Meta>)
  {
    (forall i :: 0 <= i < |list| ==> InPlace(fs, list, i)) && (list == [] || list[0].kind.FullKind?)
  }

  /** What a reader can check on the list alone: a full snapshot first, each delta behind its predecessor. */
  ghost predicate InOrder(list: seq<Meta>)
  {
    && (list == [] || list[0].kind.FullKind?)
    && forall i, j :: 0 <= i < j < |list| && j == i + 1 && list[j].kind.DeltaKind? ==> list[j].prev == list[i].id
  }

  lemma InOrderIsWellFormed(fs: Fs, list: seq<Meta>)
    requires AllLoad(fs, list)
    ensures InOrder(list) <==> WellFormed(fs, list)
  {
    forall m | m in list ensures Read(fs, fs, m.id).value.LoadedDelta? <==> m.kind.DeltaKind? { KindIsAsListed(fs, m); }
    if InOrder(list) {
      forall i | 0 <= i < |list| ensures InPlace(fs, list, i) { assert list[i] in list; }
    }
    if WellFormed(fs, list) {
      forall i, j | 0 <= i < j < |list| && j == i + 1 && list[j].kind.DeltaKind? ensures list[j].prev == list[i].id {
        assert InPlace(fs, list, j) && list[j] in list;
      }
    }
  }

  /** If entry `i` is a delta, it leads from the state before it in the list to its own. */
  ghost predicate InStep(fs: Fs, list: seq<Meta>, ps: seq<Point>, i: nat)
    requires i < |list| == |ps|
  {
    var r := Read(fs, fs, list[i].id);
    r.Ok? && r.value.LoadedDelta? ==> ps[i].state == Patch(Before(ps, i), r.value.delta)
  }

  ghost predicate AllInStep(fs: Fs, list: seq<Meta>, ps: seq<Point>)
  {
    |ps| == |list| && forall i :: 0 <= i < |list| ==> InStep(fs, list, ps, i)
  }

  ghost predicate AgreeOn(kind: string, a: Snapshot, b: Snapshot)
  {
    forall k: Key :: k.kind == kind ==> (k in a <==> k in b) && (k in a && k in b ==> a[k] == b[k])
  }

  lemma PatchAgrees(kind: string, a: Snapshot, b: Snapshot, d: D.Delta)
    requires AgreeOn(kind, a, b)
    ensures AgreeOn(kind, Patch(a, d), Patch(b, d))
    ensures (forall k :: k in Touched(d) ==> k.kind != kind) ==> AgreeOn(kind, a, Patch(b, d))
  {
    if forall k :: k in Touched(d) ==> k.kind != kind {
      forall k: Key | k.kind == kind ensures k !in Touched(d) {}
    }
  }

  lemma PointsSplit(fs: Fs, list: seq<Meta>)
    requires Points(fs, list).Ok? && list != []
    ensures var init, ps := list[..|list| - 1], Points(fs, list).value;
            && ps != [] && Points(fs, init) == Ok(ps[..|ps| - 1])
            && StateAt(fs, list[|list| - 1].id) == Ok(ps[|ps| - 1].state)
            && ps[|ps| - 1].ts == list[|list| - 1].ts && ps[|ps| - 1].id == list[|list| - 1].id
  {
    var before := Points(fs, list[..|list| - 1]).value;
    assert Points(fs, list).value[..|before|] == before;
  }

  lemma {:induction false} PointsMatch(fs: Fs, list: seq<Meta>)
    requires Points(fs, list).Ok?
    ensures var ps := Points(fs, list).value;
            |ps| == |list| && forall k :: 0 <= k < |list| ==> ps[k].ts == list[k].ts && ps[k].id == list[k].id
  {
    if list != [] {
      PointsSplit(fs, list);
      PointsMatch(fs, list[..|list| - 1]);
    }
  }

  lemma {:induction false} PointsOfPrefix(fs: Fs, list: seq<Meta>, i: nat)
    requires Points(fs, list).Ok? && |Points(fs, list).value| == |list| && i <= |list|
    ensures Points(fs, list[..i]) == Ok(Points(fs, list).value[..i])
    decreases |list|
  {
    var ps := Points(fs, list).value;
    if i == |list| {
      assert list[..i] == list && ps[..i] == ps;
    } else {
      PointsSplit(fs, list);
      PointsOfPrefix(fs, list[..|list| - 1], i);
      assert list[..|list| - 1][..i] == list[..i] && ps[..|ps| - 1][..i] == ps[..i];
    }
  }

  lemma {:induction false} RowsOfPrefix(ps: seq<Point>, qs: seq<Point>, i: nat, j: nat, target: Key)
    requires i <= j <= |ps| && ps <= qs
    ensures Rows(ps, i, j, target) == Rows(qs, i, j, target)
    decreases j
  {
    if i < j { RowsOfPrefix(ps, qs, i, j - 1, target); }
  }

  /** The pass is right so far: rows, last seen state, and running state on the target's kind. */
  ghost predicate OnTrack(acc: Acc, ps: seq<Point>, target: Key)
  {
    && acc.rows == Rows(ps, 0, |ps|, target)
    && AgreeOn(target.kind, acc.running, Before(ps, |ps|)) && acc.prev == Look(Before(ps, |ps|), target)
  }

  /** What an entry adds to a pass that is on track: the row for the state the pass arrives at. */
  lemma StepOfPass(acc: Acc, before: seq<Point>, l: Loaded, m: Meta, target: Key)
    requires OnTrack(acc, before, target) && l.meta == m && (l.LoadedDelta? <==> m.kind.DeltaKind?)
    requires l.LoadedDelta? ==> m.kinds == [] || forall k :: k in Touched(l.delta) ==> KindsContain(m.kinds, k.kind)
    ensures var after := if Skips(m, target) then acc else Advance(acc, l, m, target);
            var state := if l.LoadedFull? then l.snap else Patch(Before(before, |before|), l.delta);
            && after.rows == acc.rows + RowFor(Look(Before(before, |before|), target), Look(state, target), m.ts, m.id)
            && AgreeOn(target.kind, after.running, state) && after.prev == Look(state, target)
  {
    if l.LoadedDelta? {
      PatchAgrees(target.kind, acc.running, Before(before, |before|), l.delta);
      if Skips(m, target) {
        assert target !in Touched(l.delta);
        assert acc.rows + [] == acc.rows;
      }
    }
  }

  lemma OnePointFurther(acc: Acc, before: seq<Point>, p: Point, target: Key, after: Acc)
    requires OnTrack(acc, before, target)
    requires after.rows == acc.rows + RowFor(Look(Before(before, |before|), target), Look(p.state, target), p.ts, p.id)
    requires AgreeOn(target.kind, after.running, p.state) && after.prev == Look(p.state, target)
    ensures OnTrack(after, before + [p], target)
  {
    var ps := before + [p];
    RowsOfPrefix(before, ps, 0, |before|, target);
    assert Rows(ps, 0, |ps|, target) == Rows(ps, 0, |before|, target) + RowAt(ps, |before|, target);
  }

  lemma KindIsAsListed(fs: Fs, m: Meta)
    requires LoadsAsListed(fs, m)
    ensures Read(fs, fs, m.id).value.LoadedDelta? <==> m.kind.DeltaKind?
    ensures Read(fs, fs, m.id).value.LoadedFull? ==> StateAt(fs, m.id) == Ok(Read(fs, fs, m.id).value.snap)
  {
    if Read(fs, fs, m.id).value.LoadedFull? { StateAtFull(fs, m.id); }
  }

  /** While every delta is in step, the pass is on track, and its running state is right on the target's kind. */
  lemma {:induction false} PassTracksStates(fs: Fs, list: seq<Meta>, target: Key)
    requires AllLoad(fs, list) && Points(fs, list).Ok? && AllInStep(fs, list, Points(fs, list).value)
    ensures Fold(fs, list, target).Ok? && OnTrack(Fold(fs, list, target).value, Points(fs, list).value, target)
  {
    if list != [] {
      var init, m := list[..|list| - 1], list[|list| - 1];
      var ps := Points(fs, list).value;
      PointsSplit(fs, list);
      InStepBefore(fs, list, ps, |init|);
      PassTracksStates(fs, init, target);
      var acc, before, p := Fold(fs, init, target).value, ps[..|ps| - 1], ps[|ps| - 1];
      assert m in list && InStep(fs, list, ps, |init|);
      KindIsAsListed(fs, m);
      StepOfPass(acc, before, Read(fs, fs, m.id).value, m, target);
      OnePointFurther(acc, before, p, target, Fold(fs, list, target).value);
      assert before + [p] == ps;
    }
  }

  lemma InStepBefore(fs: Fs, list: seq<Meta>, ps: seq<Point>, i: nat)
    requires |ps| == |list| && i <= |list| && forall j :: 0 <= j < i ==> InStep(fs, list, ps, j)
    ensures AllInStep(fs, list[..i], ps[..i])
    ensures AllLoad(fs, list) ==> AllLoad(fs, list[..i])
  {
    forall j | 0 <= j < i ensures InStep(fs, list[..i], ps[..i], j) { assert InStep(fs, list, ps, j); }
  }

  lemma LastFollows(fs: Fs, list: seq<Meta>, before: seq<Point>)
    requires list != [] && Points(fs, list[..|list| - 1]) == Ok(before) && |before| == |list| - 1
    requires InPlace(fs, list, |list| - 1) && (|list| == 1 ==> list[0].kind.FullKind?)
    requires |list| > 1 ==> before[|before| - 1].id == list[|list| - 2].id && list[|list| - 2].id != ""
    requires |list| > 1 ==> StateAt(fs, list[|list| - 2].id) == Ok(before[|before| - 1].state)
    ensures Points(fs, list).Ok? && |Points(fs, list).value| == |list|
    ensures Points(fs, list).value[..|list| - 1] == before && InStep(fs, list, Points(fs, list).value, |list| - 1)
  {
    var m := list[|list| - 1];
    KindIsAsListed(fs, m);
    if m.kind.DeltaKind? { StateAtDelta(fs, m.id); }
    var ps := before + [Point(m.ts, m.id, StateAt(fs, m.id).value)];
    assert Points(fs, list) == Ok(ps) && ps[..|list| - 1] == before;
  }

  lemma PlacedLoads(fs: Fs, list: seq<Meta>)
    requires forall i :: 0 <= i < |list| ==> InPlace(fs, list, i)
    ensures AllLoad(fs, list)
  {
    forall m | m in list ensures LoadsAsListed(fs, m) {
      var i :| 0 <= i < |list| && list[i] == m;
      assert InPlace(fs, list, i);
    }
  }

  lemma WellFormedInit(fs: Fs, list: seq<Meta>)
    requires WellFormed(fs, list) && list != []
    ensures WellFormed(fs, list[..|list| - 1])
  {
    var init := list[..|list| - 1];
    forall i | 0 <= i < |init| ensures InPlace(fs, init, i) { assert InPlace(fs, list, i); }
  }

  /** In a well-formed history every state can be rebuilt, and every delta is in step. */
  lemma {:induction false} WellFormedIsInStep(fs: Fs, list: seq<Meta>)
    requires WellFormed(fs, list)
    ensures AllLoad(fs, list) && Points(fs, list).Ok? && AllInStep(fs, list, Points(fs, list).value)
  {
    PlacedLoads(fs, list);
    if list != [] {
      var init := list[..|list| - 1];
      WellFormedInit(fs, list);
      WellFormedIsInStep(fs, init);
      var before := Points(fs, init).value;
      if init != [] {
        PointsSplit(fs, init);
        assert InPlace(fs, list, |list| - 2);
      }
      assert InPlace(fs, list, |list| - 1);
      LastFollows(fs, list, before);
      InStepOneMore(fs, list, Points(fs, list).value);
    }
  }

  lemma InStepOneMore(fs: Fs, list: seq<Meta>, ps: seq<Point>)
    requires list != [] && |ps| == |list|
    requires AllInStep(fs, list[..|list| - 1], ps[..|list| - 1]) && InStep(fs, list, ps, |list| - 1)
    ensures AllInStep(fs, list, ps)
  {
    forall i | 0 <= i < |list| - 1 ensures InStep(fs, list, ps, i) {
      assert InStep(fs, list[..|list| - 1], ps[..|list| - 1], i);
    }
  }

  /** On a well-formed history the single pass emits exactly the naive rows. */
  lemma RefinesNaive(fs: Fs, list: seq<Meta>, target: Key)
    ensures WellFormed(fs, list) ==> RowsOf(Fold(fs, list, target)) == Naive(fs, list, target)
  {
    if WellFormed(fs, list) {
      WellFormedIsInStep(fs, list);
      PassTracksStates(fs, list, target);
    }
  }

  // ---- exactly when the pass is right ----------------------------------------------------

  lemma {:induction false} PassSucceeds(fs: Fs, list: seq<Meta>, target: Key)
    requires AllLoad(fs, list)
    ensures Fold(fs, list, target).Ok?
  {
    if list != [] {
      PassSucceeds(fs, list[..|list| - 1], target);
      assert list[|list| - 1] in list;
    }
  }

  ghost predicate RowsFrom(rows: seq<Row>, ids: set<Id>)
  {
    forall r :: r in rows ==> r.id in ids
  }

  lemma LastAppends(fs: Fs, list: seq<Meta>, target: Key) returns (last: seq<Row>)
    requires list != [] && Fold(fs, list[..|list| - 1], target).Ok? && Fold(fs, list, target).Ok?
    ensures Fold(fs, list, target).value.rows == Fold(fs, list[..|list| - 1], target).value.rows + last
    ensures RowsFrom(last, {list[|list| - 1].id})
  {
    var m, acc := list[|list| - 1], Fold(fs, list[..|list| - 1], target).value;
    if Skips(m, target) {
      last := [];
    } else {
      last := RowFor(acc.prev, Fold(fs, list, target).value.prev, m.ts, m.id);
    }
  }

  /** The entries from `j` on only append rows of their own. */
  lemma {:induction false} PassAppends(fs: Fs, list: seq<Meta>, j: nat, target: Key) returns (more: seq<Row>)
    requires AllLoad(fs, list) && j <= |list| && Fold(fs, list[..j], target).Ok? && Fold(fs, list, target).Ok?
    ensures Fold(fs, list, target).value.rows == Fold(fs, list[..j], target).value.rows + more
    ensures RowsFrom(more, Ids(list[j..]))
    decreases |list|
  {
    if j == |list| {
      assert list[..j] == list;
      more := [];
    } else {
      var init, m := list[..|list| - 1], list[|list| - 1];
      PassSucceeds(fs, init, target);
      assert init[..j] == list[..j];
      var some := PassAppends(fs, init, j, target);
      var last := LastAppends(fs, list, target);
      more := some + last;
      assert list[j..] == init[j..] + [m];
    }
  }

  lemma {:induction false} RowsAppend(ps: seq<Point>, j: nat, n: nat, target: Key)
    requires j <= n <= |ps|
    ensures RowsFrom(Rows(ps, j, n, target), set p | p in ps[j..n] :: p.id)
    decreases n
  {
    if j < n {
      RowsAppend(ps, j, n - 1, target);
      assert ps[j..n] == ps[j..n - 1] + [ps[n - 1]];
    }
  }

  lemma RowsTellStates(p: Option<State>, a: Option<State>, b: Option<State>, ts: int, id: Id)
    requires a != b
    ensures RowFor(p, a, ts, id) != RowFor(p, b, ts, id)
    ensures |RowFor(p, a, ts, id)| <= 1 && |RowFor(p, b, ts, id)| <= 1
    ensures RowsFrom(RowFor(p, a, ts, id), {id}) && RowsFrom(RowFor(p, b, ts, id), {id})
  {
  }

  lemma NextRowDiffers(common: seq<Row>, a: Row, b: seq<Row>, x: seq<Row>, y: seq<Row>, later: set<Id>)
    requires [a] != b && |b| <= 1 && RowsFrom(y, later) && a.id !in later
    ensures common + [a] + x != common + b + y
  {
    var u, v, n := common + [a] + x, common + b + y, |common|;
    assert u[n] == a;
    if |b| == 1 {
      assert b == [b[0]] && v[n] == b[0];
    } else if |y| > 0 {
      assert v[n] == y[0] && y[0] in y;
    }
  }

  /** Rows of later entries do not make up for a difference. */
  lemma LaterRowsDoNotMend(common: seq<Row>, a: seq<Row>, b: seq<Row>, x: seq<Row>, y: seq<Row>, id: Id, later: set<Id>)
    requires a != b && |a| <= 1 && |b| <= 1 && RowsFrom(a, {id}) && RowsFrom(b, {id})
    requires RowsFrom(x, later) && RowsFrom(y, later) && id !in later
    ensures common + a + x != common + b + y
  {
    if |a| == 1 {
      assert a == [a[0]] && a[0] in a;
      NextRowDiffers(common, a[0], b, x, y, later);
    } else {
      assert b == [b[0]] && b[0] in b;
      NextRowDiffers(common, b[0], a, y, x, later);
    }
  }

  lemma SameLooks(a: Snapshot, b: Snapshot)
    requires forall k :: Look(a, k) == Look(b, k)
    ensures a == b
  {
    forall k ensures (k in a <==> k in b) && (k in a && k in b ==> a[k] == b[k]) { assert Look(a, k) == Look(b, k); }
  }

  lemma DifferSomewhere(a: Snapshot, b: Snapshot) returns (k: Key)
    requires a != b
    ensures Look(a, k) != Look(b, k)
  {
    if forall k :: Look(a, k) == Look(b, k) { SameLooks(a, b); }
    k :| Look(a, k) != Look(b, k);
  }

  /** Once a delta is out of step, the timeline of some resource is wrong. */
  lemma OutOfStepShows(fs: Fs, list: seq<Meta>, i: nat) returns (target: Key)
    requires AllLoad(fs, list) && Points(fs, list).Ok? && |Points(fs, list).value| == |list| && i < |list|
    requires forall x, y :: 0 <= x < y < |list| ==> list[x].id != list[y].id
    requires !InStep(fs, list, Points(fs, list).value, i)
    requires forall j :: 0 <= j < i ==> InStep(fs, list, Points(fs, list).value, j)
    ensures RowsOf(Fold(fs, list, target)) != Naive(fs, list, target)
  {
    var ps, m := Points(fs, list).value, list[i];
    var l := Read(fs, fs, m.id).value;
    var got := Patch(Before(ps, i), l.delta);
    target := DifferSomewhere(got, ps[i].state);
    var p, ra, rb := Look(Before(ps, i), target), Look(got, target), Look(ps[i].state, target);
    RowsTellStates(p, ra, rb, m.ts, m.id);
    var x := PassUpTo(fs, list, i, target);
    var y := NaiveUpTo(fs, list, i, target);
    assert m.id !in Ids(list[i + 1..]);
    LaterRowsDoNotMend(Rows(ps, 0, i, target), RowFor(p, ra, m.ts, m.id), RowFor(p, rb, m.ts, m.id), x, y,
                       m.id, Ids(list[i + 1..]));
  }

  lemma PassUpTo(fs: Fs, list: seq<Meta>, i: nat, target: Key) returns (more: seq<Row>)
    requires AllLoad(fs, list) && Points(fs, list).Ok? && |Points(fs, list).value| == |list| && i < |list|
    requires Read(fs, fs, list[i].id).Ok? && Read(fs, fs, list[i].id).value.LoadedDelta?
    requires forall j :: 0 <= j < i ==> InStep(fs, list, Points(fs, list).value, j)
    ensures RowsFrom(more, Ids(list[i + 1..])) && Fold(fs, list, target).Ok?
    ensures var ps, m := Points(fs, list).value, list[i];
            Fold(fs, list, target).value.rows
            == Rows(ps, 0, i, target)
               + RowFor(Look(Before(ps, i), target),
                        Look(Patch(Before(ps, i), Read(fs, fs, m.id).value.delta), target), m.ts, m.id)
               + more
  {
    var ps, m, upTo := Points(fs, list).value, list[i], list[..i + 1];
    PointsOfPrefix(fs, list, i);
    InStepBefore(fs, list, ps, i);
    PassTracksStates(fs, list[..i], target);
    RowsOfPrefix(ps[..i], ps, 0, i, target);
    assert m in list && upTo[..i] == list[..i] && upTo[i] == m;
    KindIsAsListed(fs, m);
    StepOfPass(Fold(fs, list[..i], target).value, ps[..i], Read(fs, fs, m.id).value, m, target);
    PassSucceeds(fs, upTo, target);
    PassSucceeds(fs, list, target);
    more := PassAppends(fs, list, i + 1, target);
  }

  lemma NaiveUpTo(fs: Fs, list: seq<Meta>, i: nat, target: Key) returns (more: seq<Row>)
    requires Points(fs, list).Ok? && |Points(fs, list).value| == |list| && i < |list|
    ensures RowsFrom(more, Ids(list[i + 1..]))
    ensures var ps, m := Points(fs, list).value, list[i];
            Naive(fs, list, target)
            == Ok(Rows(ps, 0, i, target)
                  + RowFor(Look(Before(ps, i), target), Look(ps[i].state, target), m.ts, m.id)
                  + more)
  {
    var ps, m, n := Points(fs, list).value, list[i], |list|;
    PointsMatch(fs, list);
    RowsSplit(ps, 0, i + 1, n, target);
    RowsAppend(ps, i + 1, n, target);
    more := Rows(ps, i + 1, n, target);
    forall p | p in ps[i + 1..n] ensures p.id in Ids(list[i + 1..]) {
      var k :| 0 <= k < |ps[i + 1..n]| && ps[i + 1..n][k] == p;
      assert list[i + 1..][k] == list[i + 1 + k];
      assert list[i + 1..][k] in list[i + 1..];
    }
    assert Rows(ps, 0, i + 1, target) == Rows(ps, 0, i, target) + RowAt(ps, i, target);
  }

  /**
   Over entries that all load, the pass is right for every resource exactly when every listed state can be
   rebuilt and every delta leads there from the state listed before it. A collection that leaves deltas
   behind without their full snapshot fails the first, an orphan that a rebuild lists the second.
   */
  lemma RightExactlyWhenInStep(fs: Fs, list: seq<Meta>)
    requires AllLoad(fs, list)
    requires forall x, y :: 0 <= x < y < |list| ==> list[x].id != list[y].id
    ensures (forall target :: RowsOf(Fold(fs, list, target)) == Naive(fs, list, target))
            <==> Points(fs, list).Ok? && AllInStep(fs, list, Points(fs, list).value)
  {
    var someKey := Key("", "", "");
    PassSucceeds(fs, list, someKey);
    if Points(fs, list).Ok? {
      var ps := Points(fs, list).value;
      PointsMatch(fs, list);
      if AllInStep(fs, list, ps) {
        forall target ensures RowsOf(Fold(fs, list, target)) == Naive(fs, list, target) {
          PassTracksStates(fs, list, target);
        }
      } else {
        var i := FirstOutOfStep(fs, list, ps);
        var target := OutOfStepShows(fs, list, i);
      }
    } else {
      assert RowsOf(Fold(fs, list, someKey)) != Naive(fs, list, someKey);
    }
  }

  lemma FirstOutOfStep(fs: Fs, list: seq<Meta>, ps: seq<Point>) returns (i: nat)
    requires |ps| == |list| && !AllInStep(fs, list, ps)
    ensures i < |list| && !InStep(fs, list, ps, i) && forall j :: 0 <= j < i ==> InStep(fs, list, ps, j)
  {
    i := 0;
    while i < |list| && InStep(fs, list, ps, i)
      invariant i <= |list| && forall j :: 0 <= j < i ==> InStep(fs, list, ps, j)
    {
      i := i + 1;
    }
  }

  lemma {:induction false} NaiveNeedsEveryState(fs: Fs, list: seq<Meta>, i: nat)
    requires i < |list| && StateAt(fs, list[i].id).Err?
    ensures Points(fs, list).Err?
  {
    if i < |list| - 1 { NaiveNeedsEveryState(fs, list[..|list| - 1], i); }
  }

  /**
   After a collection that deleted a full snapshot but not all of its deltas, the pass still reports rows
   for a list whose first states cannot be rebuilt. It is right exactly when the list starts at a full
   snapshot.
   */
  lemma RefinesNaiveExactlyFromFull(fs: Fs, list: seq<Meta>, target: Key)
    requires forall i :: 0 <= i < |list| ==> InPlace(fs, list, i)
    requires list != [] && list[0].kind.DeltaKind? ==> list[0].prev != "" && StateAt(fs, list[0].prev).Err?
    ensures RowsOf(Fold(fs, list, target)) == Naive(fs, list, target) <==> list == [] || list[0].kind.FullKind?
  {
    RefinesNaive(fs, list, target);
    if list != [] && !list[0].kind.FullKind? {
      assert InPlace(fs, list, 0);
      KindIsAsListed(fs, list[0]);
      StateAtDelta(fs, list[0].id);
      NaiveNeedsEveryState(fs, list, 0);
      PlacedLoads(fs, list);
      PassSucceeds(fs, list, target);
    }
  }

  // ---- blame after collection -------------------------------------------------------------

  /** Seen from a later start, later rows are the same. */
  lemma {:induction false} RowsOfSuffix(points: seq<Point>, a: nat, j: nat, target: Key)
    requires a < j <= |points|
    ensures Rows(points[a..], 1, j - a, target) == Rows(points, a + 1, j, target)
    decreases j
  {
    if j > a + 1 {
      RowsOfSuffix(points, a, j - 1, target);
      SameRowInSuffix(points, a, j - 1, target);
    }
  }

  lemma SameRowInSuffix(points: seq<Point>, a: nat, i: nat, target: Key)
    requires a < i < |points|
    ensures RowAt(points[a..], i - a, target) == RowAt(points, i, target)
  {
  }

  lemma RowsFromStart(points: seq<Point>, target: Key)
    requires points != []
    ensures Rows(points, 0, 1, target) == RowFor(None, Look(points[0].state, target), points[0].ts, points[0].id)
  {
    assert Rows(points, 0, 1, target) == [] + RowAt(points, 0, target);
  }

  lemma {:induction false} RowsSplit(points: seq<Point>, i: nat, a: nat, j: nat, target: Key)
    requires i <= a <= j <= |points|
    ensures Rows(points, i, j, target) == Rows(points, i, a, target) + Rows(points, a, j, target)
    decreases j
  {
    if a < j { RowsSplit(points, i, a, j - 1, target); }
  }

  function RowsAfter(rows: seq<Row>, ts: int): seq<Row>
  {
    if rows == [] then []
    else if rows[|rows| - 1].ts > ts then RowsAfter(rows[..|rows| - 1], ts) + [rows[|rows| - 1]]
    else RowsAfter(rows[..|rows| - 1], ts)
  }

  lemma {:induction false} RowsAfterConcat(x: seq<Row>, y: seq<Row>, ts: int)
    ensures RowsAfter(x + y, ts) == RowsAfter(x, ts) + RowsAfter(y, ts)
  {
    if y == [] {
      assert x + y == x;
    } else {
      assert (x + y)[..|x + y| - 1] == x + y[..|y| - 1];
      RowsAfterConcat(x, y[..|y| - 1], ts);
    }
  }

  ghost predicate Ascending(points: seq<Point>)
  {
    forall i, j :: 0 <= i < j < |points| ==> points[i].ts < points[j].ts
  }

  lemma {:induction false} RowsKeepLater(rows: seq<Row>, ts: int)
    ensures (forall r :: r in rows ==> r.ts > ts) ==> RowsAfter(rows, ts) == rows
    ensures (forall r :: r in rows ==> r.ts <= ts) ==> RowsAfter(rows, ts) == []
  {
    if rows != [] {
      var init, last := rows[..|rows| - 1], rows[|rows| - 1];
      assert rows == init + [last] && last in rows;
      RowsKeepLater(init, ts);
      assert forall r :: r in init ==> r in rows;
    }
  }

  /** Rows carry the times of the points they come from. */
  lemma {:induction false} RowsInTime(points: seq<Point>, i: nat, j: nat, target: Key, ts: int)
    requires i <= j <= |points|
    ensures (forall k :: i <= k < j ==> points[k].ts > ts) ==>
              forall r :: r in Rows(points, i, j, target) ==> r.ts > ts
    ensures (forall k :: i <= k < j ==> points[k].ts <= ts) ==>
              forall r :: r in Rows(points, i, j, target) ==> r.ts <= ts
    decreases j
  {
    if i < j {
      RowsInTime(points, i, j - 1, target, ts);
      assert forall r :: r in RowAt(points, j - 1, target) ==> r.ts == points[j - 1].ts;
    }
  }

  lemma RowsSinceAnchor(points: seq<Point>, a: nat, target: Key)
    requires a < |points| && Ascending(points)
    ensures RowsAfter(Rows(points, 0, |points|, target), points[a].ts) == Rows(points, a + 1, |points|, target)
  {
    var n, ts := |points|, points[a].ts;
    RowsSplit(points, 0, a + 1, n, target);
    RowsAfterConcat(Rows(points, 0, a + 1, target), Rows(points, a + 1, n, target), ts);
    RowsInTime(points, 0, a + 1, target, ts);
    RowsInTime(points, a + 1, n, target, ts);
    RowsKeepLater(Rows(points, 0, a + 1, target), ts);
    RowsKeepLater(Rows(points, a + 1, n, target), ts);
  }

  /**
   Dropping everything before the anchor `a` leaves the old rows after the anchor, preceded by a
   CREATED row at the anchor exactly when the target is present there.
   */
  lemma TimelineAfterCollection(points: seq<Point>, a: nat, target: Key)
    requires a < |points| && Ascending(points)
    ensures Rows(points[a..], 0, |points| - a, target) ==
            (if target in points[a].state
             then [Row(points[a].ts, Created, points[a].state[target], points[a].id)] else [])
            + RowsAfter(Rows(points, 0, |points|, target), points[a].ts)
  {
    var n, p := |points|, points[a];
    var late := Rows(points, a + 1, n, target);
    assert Rows(points[a..], 0, n - a, target) == RowFor(None, Look(p.state, target), p.ts, p.id) + late by {
      RowsSplit(points[a..], 0, 1, n - a, target);
      RowsFromStart(points[a..], target);
      RowsOfSuffix(points, a, n, target);
    }
    assert RowsAfter(Rows(points, 0, n, target), p.ts) == late by { RowsSinceAnchor(points, a, target); }
    FirstRow(p, target);
  }

  lemma FirstRow(p: Point, target: Key)
    ensures RowFor(None, Look(p.state, target), p.ts, p.id)
            == if target in p.state then [Row(p.ts, Created, p.state[target], p.id)] else []
  {
  }
}
