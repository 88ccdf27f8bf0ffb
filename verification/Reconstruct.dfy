/** Rebuilding the state at a snapshot: walk back to a full one, then replay forwards. */
module Reconstruct {
  import opened Times
  import opened D = Delta
  import opened Wire
  import opened Files
  import opened History

  datatype Error = EmptyId | LoadFailed(id: Id) | NoPrevId(id: Id) | CycleAt(id: Id)

  datatype Result<T> = Ok(value: T) | Err(error: Error)

  datatype Loaded = LoadedFull(meta: Meta, snap: Snapshot) | LoadedDelta(meta: Meta, delta: D.Delta)

  /** `Get`: metadata as `m` holds it, then the payload as `p` holds it; an ID that is not plain is refused. */
  function Read(m: Fs, p: Fs, id: Id): Result<Loaded>
  {
    if !PlainId(id) || id !in m.snapshots || !m.snapshots[id].meta.Data? then Err(LoadFailed(id))
    else
      var meta := m.snapshots[id].meta.value;
      match meta.kind
      case FullKind =>
        if id in p.snapshots && p.snapshots[id].full.Data?
        then Ok(LoadedFull(meta, WireToSnapshot(p.snapshots[id].full.value))) else Err(LoadFailed(id))
      case DeltaKind =>
        if id in p.snapshots && p.snapshots[id].delta.Data?
        then Ok(LoadedDelta(meta, WireToDelta(p.snapshots[id].delta.value))) else Err(LoadFailed(id))
      case OtherKind => Err(LoadFailed(id))
  }

  /** The records from `cur` back to the nearest full snapshot, newest first. */
  function Walk(fs: Fs, cur: Id, visited: set<Id>): Result<seq<Loaded>>
    decreases fs.snapshots.Keys - visited
  {
    if cur in visited then Err(CycleAt(cur))
    else match Read(fs, fs, cur)
      case Err(e) => Err(e)
      case Ok(l) =>
        if l.LoadedFull? then Ok([l])
        else if l.meta.prev == "" then Err(NoPrevId(cur))
        else Prepend([l], Walk(fs, l.meta.prev, visited + {cur}))
  }

  function Prepend(chain: seq<Loaded>, r: Result<seq<Loaded>>): Result<seq<Loaded>>
  {
    if r.Ok? then Ok(chain + r.value) else r
  }

  /** A run of deltas, newest first, ending in a full snapshot. */
  predicate IsChain(chain: seq<Loaded>)
  {
    && chain != []
    && chain[|chain| - 1].LoadedFull?
    && forall i :: 0 <= i < |chain| - 1 ==> chain[i].LoadedDelta?
  }

  function ReplayChain(chain: seq<Loaded>): Snapshot
    requires IsChain(chain)
  {
    if |chain| == 1 then chain[0].snap else Patch(ReplayChain(chain[1..]), chain[0].delta)
  }

  lemma {:induction false} WalkIsChain(fs: Fs, cur: Id, visited: set<Id>)
    ensures Walk(fs, cur, visited).Ok? ==> IsChain(Walk(fs, cur, visited).value)
    decreases fs.snapshots.Keys - visited
  {
    if Walk(fs, cur, visited).Ok? {
      var l := Read(fs, fs, cur).value;
      if !l.LoadedFull? { WalkIsChain(fs, l.meta.prev, visited + {cur}); }
    }
  }

  function StateAt(fs: Fs, id: Id): Result<Snapshot>
  {
    if id == "" then Err(EmptyId)
    else
      var w := Walk(fs, id, {});
      WalkIsChain(fs, id, {});
      if w.Ok? then Ok(ReplayChain(w.value)) else Err(w.error)
  }

  // ---- the procedure, beside a writer that may be at work --------------------

  ghost function AllIds(timeline: seq<Fs>): set<Id>
  {
    set fs, id | fs in timeline && id in fs.snapshots :: id
  }

  /** What record `l` for `id` was read from: two states of the disk, in time order. */
  ghost predicate ReadDuring(timeline: seq<Fs>, id: Id, l: Loaded)
  {
    exists i, j :: 0 <= i <= j < |timeline| && Read(timeline[i], timeline[j], id) == Ok(l)
  }

  /** Reads one record; the disk may move on before and between the two file reads. */
  method Get(timeline: seq<Fs>, now: nat, id: Id) returns (r: Result<Loaded>, later: nat)
    requires now < |timeline|
    ensures now <= later < |timeline|
    ensures |timeline| == 1 ==> r == Read(timeline[0], timeline[0], id)
    ensures r.Ok? ==> ReadDuring(timeline, id, r.value) && id in AllIds(timeline)
    ensures r.Err? ==> r.error == LoadFailed(id)
  {
    var m: nat :| now <= m < |timeline|;
    var p: nat :| m <= p < |timeline|;
    r, later := Read(timeline[m], timeline[p], id), p;
  }

  /** The records `chain` were read along the PrevID links of `ids`. */
  ghost predicate ReadAlong(timeline: seq<Fs>, ids: seq<Id>, chain: seq<Loaded>)
  {
    && |ids| == |chain|
    && (forall i :: 0 <= i < |chain| ==> ReadDuring(timeline, ids[i], chain[i]))
    && Linked(ids, chain)
  }

  /**
   `timeline` holds the states the disk goes through while the walk runs; with one state only, the
   store is quiescent. Terminates on any store, corrupt or not.
   */
  method Reconstruct(timeline: seq<Fs>, id: Id) returns (r: Result<Snapshot>)
    requires timeline != []
    ensures |timeline| == 1 ==> r == StateAt(timeline[0], id)
    ensures forall h: History :: Genuine(h) && (forall fs :: fs in timeline ==> Faithful(fs, h)) && r.Ok?
              ==> id in h && r.value == h[id].captured
  {
    if id == "" { return Err(EmptyId); }
    var walked, ids := WalkBack(timeline, id);
    if walked.Err? { return Err(walked.error); }
    var chain := walked.value;
    var out := Replay(chain);
    forall h: History | Genuine(h) && (forall fs :: fs in timeline ==> Faithful(fs, h))
      ensures id in h && out == h[id].captured
    {
      ChainIsCaptured(timeline, h, ids, chain);
    }
    r := Ok(out);
  }

  /** Follows PrevID from `id` to a full snapshot; a visited ID ends the walk. */
  method WalkBack(timeline: seq<Fs>, id: Id) returns (r: Result<seq<Loaded>>, ghost ids: seq<Id>)
    requires timeline != []
    ensures |timeline| == 1 ==> r == Walk(timeline[0], id, {})
    ensures r.Ok? ==> IsChain(r.value) && ReadAlong(timeline, ids, r.value) && ids[0] == id
  {
    var chain: seq<Loaded> := [];
    var visited: set<Id> := {};
    ids := [];
    var cur, now := id, 0;
    NothingWalked(timeline, id);
    while true
      invariant now < |timeline|
      invariant Walking(timeline, id, ids, chain, cur, visited)
      decreases AllIds(timeline) - visited
    {
      if cur in visited { return Err(CycleAt(cur)), ids; }
      var loaded, later := Get(timeline, now, cur);
      if loaded.Err? { return Err(loaded.error), ids; }
      var l := loaded.value;
      StepBack(timeline, id, ids, chain, cur, visited, l);
      visited, ids, chain, now := visited + {cur}, ids + [cur], chain + [l], later;
      if l.LoadedFull? { return Ok(chain), ids; }
      if l.meta.prev == "" { return Err(NoPrevId(cur)), ids; }
      cur := l.meta.prev;
    }
  }

  /** The walk has read `chain` along `ids` and comes to `cur`. */
  ghost predicate Walking(timeline: seq<Fs>, id: Id, ids: seq<Id>, chain: seq<Loaded>, cur: Id, visited: set<Id>)
  {
    && ReadAlong(timeline, ids, chain)
    && visited <= AllIds(timeline)
    && (if ids == [] then cur == id else ids[0] == id && chain[|chain| - 1].meta.prev == cur)
    && (forall i :: 0 <= i < |chain| ==> chain[i].LoadedDelta?)
    && Ahead(timeline, id, chain, cur, visited)
  }

  /** One record further back. */
  lemma StepBack(timeline: seq<Fs>, id: Id, ids: seq<Id>, chain: seq<Loaded>, cur: Id, visited: set<Id>, l: Loaded)
    requires Walking(timeline, id, ids, chain, cur, visited) && cur !in visited && cur in AllIds(timeline)
    requires ReadDuring(timeline, cur, l) && (|timeline| == 1 ==> Read(timeline[0], timeline[0], cur) == Ok(l))
    ensures ReadAlong(timeline, ids + [cur], chain + [l]) && (ids + [cur])[0] == id
    ensures l.LoadedFull? ==> IsChain(chain + [l]) && (|timeline| == 1 ==> Walk(timeline[0], id, {}) == Ok(chain + [l]))
    ensures l.LoadedDelta? && l.meta.prev == "" && |timeline| == 1 ==>
              Walk(timeline[0], id, {}) == Err(NoPrevId(cur))
    ensures l.LoadedDelta? && l.meta.prev != "" ==>
              Walking(timeline, id, ids + [cur], chain + [l], l.meta.prev, visited + {cur})
  {
    WalkGoesOn(timeline, id, chain, cur, visited, l);
    ReadGoesOn(timeline, ids, chain, cur, l);
    DeltasGoOn(chain, l);
  }

  lemma DeltasGoOn(chain: seq<Loaded>, l: Loaded)
    requires forall i :: 0 <= i < |chain| ==> chain[i].LoadedDelta?
    ensures l.LoadedFull? ==> IsChain(chain + [l])
    ensures l.LoadedDelta? ==> forall i :: 0 <= i < |chain + [l]| ==> (chain + [l])[i].LoadedDelta?
  {
  }

  /** On a quiescent store, the records read and the walk that lies ahead make up the whole walk. */
  ghost predicate Ahead(timeline: seq<Fs>, id: Id, chain: seq<Loaded>, cur: Id, visited: set<Id>)
  {
    |timeline| == 1 ==> Walk(timeline[0], id, {}) == Prepend(chain, Walk(timeline[0], cur, visited))
  }

  lemma NothingWalked(timeline: seq<Fs>, id: Id)
    ensures Ahead(timeline, id, [], id, {})
  {
    if |timeline| == 1 && Walk(timeline[0], id, {}).Ok? {
      var w := Walk(timeline[0], id, {}).value;
      assert [] + w == w;
    }
  }

  lemma WalkGoesOn(timeline: seq<Fs>, id: Id, chain: seq<Loaded>, cur: Id, visited: set<Id>, l: Loaded)
    requires Ahead(timeline, id, chain, cur, visited) && cur !in visited
    requires |timeline| == 1 ==> Read(timeline[0], timeline[0], cur) == Ok(l)
    ensures |timeline| == 1 && l.LoadedFull? ==> Walk(timeline[0], id, {}) == Ok(chain + [l])
    ensures |timeline| == 1 && l.LoadedDelta? && l.meta.prev == "" ==> Walk(timeline[0], id, {}) == Err(NoPrevId(cur))
    ensures l.LoadedDelta? && l.meta.prev != "" ==> Ahead(timeline, id, chain + [l], l.meta.prev, visited + {cur})
  {
    if |timeline| == 1 && l.LoadedDelta? && l.meta.prev != "" {
      var w := Walk(timeline[0], l.meta.prev, visited + {cur});
      if w.Ok? { assert chain + ([l] + w.value) == chain + [l] + w.value; }
    }
  }

  lemma ReadGoesOn(timeline: seq<Fs>, ids: seq<Id>, chain: seq<Loaded>, cur: Id, l: Loaded)
    requires ReadAlong(timeline, ids, chain) && ReadDuring(timeline, cur, l)
    requires chain != [] ==> chain[|chain| - 1].LoadedDelta? && chain[|chain| - 1].meta.prev == cur
    ensures ReadAlong(timeline, ids + [cur], chain + [l])
  {
    ReadsGoOn(timeline, ids, chain, cur, l);
    LinksGoOn(ids, chain, cur, l);
  }

  lemma ReadsGoOn(timeline: seq<Fs>, ids: seq<Id>, chain: seq<Loaded>, cur: Id, l: Loaded)
    requires |ids| == |chain| && ReadDuring(timeline, cur, l)
    requires forall i :: 0 <= i < |chain| ==> ReadDuring(timeline, ids[i], chain[i])
    ensures forall i :: 0 <= i < |chain + [l]| ==> ReadDuring(timeline, (ids + [cur])[i], (chain + [l])[i])
  {
    forall i | 0 <= i < |chain + [l]| ensures ReadDuring(timeline, (ids + [cur])[i], (chain + [l])[i]) {
      if i < |chain| {
        assert (ids + [cur])[i] == ids[i] && (chain + [l])[i] == chain[i];
      } else {
        assert (ids + [cur])[i] == cur && (chain + [l])[i] == l;
      }
    }
  }

  /** Each record but the last is a delta that names the next. */
  ghost predicate Linked(ids: seq<Id>, chain: seq<Loaded>)
    requires |ids| == |chain|
  {
    forall i :: 0 <= i < |chain| - 1 ==> chain[i].LoadedDelta? && chain[i].meta.prev == ids[i + 1]
  }

  lemma LinksGoOn(ids: seq<Id>, chain: seq<Loaded>, cur: Id, l: Loaded)
    requires |ids| == |chain| && Linked(ids, chain)
    requires chain != [] ==> chain[|chain| - 1].LoadedDelta? && chain[|chain| - 1].meta.prev == cur
    ensures Linked(ids + [cur], chain + [l])
  {
  }

  /** Starts from the full snapshot at the end and applies the deltas, oldest first. */
  method Replay(chain: seq<Loaded>) returns (out: Snapshot)
    requires IsChain(chain)
    ensures out == ReplayChain(chain)
  {
    out := chain[|chain| - 1].snap;
    var i := |chain| - 1;
    assert chain[i..] == [chain[i]];
    while i > 0
      invariant 0 <= i < |chain|
      invariant IsChain(chain[i..]) && out == ReplayChain(chain[i..])
    {
      i := i - 1;
      assert chain[i..][1..] == chain[i + 1..];
      out := D.Apply(out, chain[i].delta);
    }
    assert chain[0..] == chain;
  }

  /** On faithful disks, both halves of a read belong to the one record of that ID. */
  lemma ReadIsGenuine(m: Fs, p: Fs, h: History, id: Id)
    requires Genuine(h) && Faithful(m, h) && Faithful(p, h)
    requires Read(m, p, id).Ok?
    ensures id in h && Read(m, p, id).value == LoadedFrom(h[id].rec)
  {
    assert id in h && GenuineAttempt(h, id);
  }

  function LoadedFrom(rec: Record): Loaded
  {
    match rec.payload
    case FullPayload(w) => LoadedFull(rec.meta, WireToSnapshot(w))
    case DeltaPayload(w) => LoadedDelta(rec.meta, WireToDelta(w))
  }

  /** What the history says about one link of a chain. */
  lemma LinkIsCaptured(h: History, id: Id)
    requires Genuine(h) && id in h
    ensures match LoadedFrom(h[id].rec)
            case LoadedFull(_, snap) => snap == h[id].captured && h[id].depth == 1
            case LoadedDelta(meta, d) =>
              && meta.prev in h && Patch(h[meta.prev].captured, d) == h[id].captured
              && h[id].depth == h[meta.prev].depth + 1
  {
    assert GenuineAttempt(h, id);
  }

  /** `chain` holds the records of `ids`, each the predecessor of the one before. */
  ghost predicate ChainOf(h: History, ids: seq<Id>, chain: seq<Loaded>)
  {
    && |ids| == |chain|
    && (forall i :: 0 <= i < |chain| ==> ids[i] in h && chain[i] == LoadedFrom(h[ids[i]].rec))
    && (forall i :: 0 <= i < |chain| - 1 ==> chain[i].meta.prev == ids[i + 1])
  }

  lemma {:induction false} ChainReplays(h: History, ids: seq<Id>, chain: seq<Loaded>)
    requires Genuine(h) && IsChain(chain) && ChainOf(h, ids, chain)
    ensures ReplayChain(chain) == h[ids[0]].captured && |chain| == h[ids[0]].depth
  {
    LinkIsCaptured(h, ids[0]);
    if |chain| > 1 {
      assert chain[0].meta.prev == ids[1];
      ChainReplays(h, ids[1..], chain[1..]);
    }
  }

  /** Whatever the interleaving, a chain that was read completely replays to the captured state. */
  lemma ChainIsCaptured(timeline: seq<Fs>, h: History, ids: seq<Id>, chain: seq<Loaded>)
    requires Genuine(h) && forall fs :: fs in timeline ==> Faithful(fs, h)
    requires ReadAlong(timeline, ids, chain) && IsChain(chain)
    ensures ids[0] in h && ReplayChain(chain) == h[ids[0]].captured
    ensures |chain| == h[ids[0]].depth
  {
    forall k | 0 <= k < |chain| ensures ids[k] in h && chain[k] == LoadedFrom(h[ids[k]].rec) {
      assert ReadDuring(timeline, ids[k], chain[k]);
      var i, j :| 0 <= i <= j < |timeline| && Read(timeline[i], timeline[j], ids[k]) == Ok(chain[k]);
      ReadIsGenuine(timeline[i], timeline[j], h, ids[k]);
    }
    ChainReplays(h, ids, chain);
  }

  // ---- what each outcome means ------------------------------------------------

  /** Distinct records, each a delta naming the next, with a non-empty PrevID. */
  ghost predicate Trail(fs: Fs, path: seq<Id>)
  {
    && (forall i :: 0 <= i < |path| ==> Read(fs, fs, path[i]).Ok?)
    && (forall i, j :: 0 <= i < j < |path| ==> path[i] != path[j])
    && (forall i, j :: 0 <= i < j < |path| && j == i + 1 ==> Link(fs, path[i], path[j]))
  }

  predicate Link(fs: Fs, id: Id, prev: Id)
  {
    var r := Read(fs, fs, id);
    r.Ok? && r.value.LoadedDelta? && r.value.meta.prev == prev && prev != ""
  }

  ghost predicate EndsFull(fs: Fs, path: seq<Id>)
  {
    path != [] && Trail(fs, path) && Read(fs, fs, path[|path| - 1]).value.LoadedFull?
  }

  /** `x` is what the last record of the trail names as its predecessor, or the starting point. */
  ghost predicate LeadsTo(fs: Fs, start: Id, path: seq<Id>, x: Id)
  {
    if path == [] then x == start
    else
      && Trail(fs, path) && path[0] == start
      && var l := Read(fs, fs, path[|path| - 1]).value; l.LoadedDelta? && l.meta.prev == x
  }

  lemma TrailGrows(fs: Fs, cur: Id, rest: seq<Id>)
    requires Trail(fs, rest) && Read(fs, fs, cur).Ok? && cur !in rest
    requires rest != [] ==> Link(fs, cur, rest[0])
    ensures Trail(fs, [cur] + rest)
  {
    var path := [cur] + rest;
    forall i | 0 <= i < |path| ensures Read(fs, fs, path[i]).Ok? { if i > 0 { assert path[i] == rest[i - 1]; } }
    forall i, j | 0 <= i < j < |path| ensures path[i] != path[j] {
      assert path[j] == rest[j - 1] && rest[j - 1] in rest;
    }
    forall i, j | 0 <= i < j < |path| && j == i + 1 ensures Link(fs, path[i], path[j]) {
      if i > 0 { assert path[i] == rest[i - 1] && path[j] == rest[i]; }
    }
  }

  lemma {:induction false} WalkTrail(fs: Fs, cur: Id, visited: set<Id>) returns (path: seq<Id>)
    ensures Trail(fs, path) && (path != [] ==> path[0] == cur)
    ensures forall x :: x in path ==> x !in visited
    ensures match Walk(fs, cur, visited)
            case Ok(chain) => EndsFull(fs, path) && |chain| == |path|
            case Err(LoadFailed(x)) => LeadsTo(fs, cur, path, x) && Read(fs, fs, x).Err?
            case Err(NoPrevId(x)) => LeadsTo(fs, cur, path, "") && path != [] && path[|path| - 1] == x
            case Err(CycleAt(x)) => LeadsTo(fs, cur, path, x) && (x in visited || x in path)
            case Err(EmptyId) => false
    decreases fs.snapshots.Keys - visited
  {
    if cur in visited || Read(fs, fs, cur).Err? {
      path := [];
    } else {
      var l := Read(fs, fs, cur).value;
      if l.LoadedFull? || l.meta.prev == "" {
        path := [cur];
      } else {
        var rest := WalkTrail(fs, l.meta.prev, visited + {cur});
        TrailGrows(fs, cur, rest);
        path := [cur] + rest;
        assert rest != [] ==> path[|path| - 1] == rest[|rest| - 1];
      }
    }
  }

  /** A trail that ends in a full snapshot is the one the walk takes. */
  lemma {:induction false} TrailIsWalked(fs: Fs, path: seq<Id>, visited: set<Id>)
    requires EndsFull(fs, path)
    requires forall x :: x in path ==> x !in visited
    ensures Walk(fs, path[0], visited).Ok?
    decreases |path|
  {
    assert path[0] in path;
    if |path| > 1 {
      assert Link(fs, path[0], path[1]);
      forall x | x in path[1..] ensures x !in visited + {path[0]} { assert x in path; }
      TrailIsWalked(fs, path[1..], visited + {path[0]});
    }
  }

  /**
   On any store whatever, reconstruction succeeds exactly when the PrevID links lead through distinct,
   readable records to a full snapshot; otherwise it says what is wrong, truthfully.
   */
  lemma StateAtIsTotal(fs: Fs, id: Id)
    requires id != ""
    ensures StateAt(fs, id).Ok? <==> exists path :: EndsFull(fs, path) && path[0] == id
    ensures match StateAt(fs, id)
            case Ok(_) => true
            case Err(LoadFailed(x)) => Read(fs, fs, x).Err? && exists path :: LeadsTo(fs, id, path, x)
            case Err(NoPrevId(x)) => exists path :: LeadsTo(fs, id, path, "") && path != [] && path[|path| - 1] == x
            case Err(CycleAt(x)) => exists path :: LeadsTo(fs, id, path, x) && x in path
            case Err(EmptyId) => false
  {
    var path := WalkTrail(fs, id, {});
    WalkIsChain(fs, id, {});
    forall p | EndsFull(fs, p) && p[0] == id ensures StateAt(fs, id).Ok? {
      TrailIsWalked(fs, p, {});
    }
  }

  // ---- one link at a time -------------------------------------------------------

  lemma {:induction false} WalkIgnoresVisited(fs: Fs, cur: Id, v1: set<Id>, v2: set<Id>)
    requires Walk(fs, cur, v1).Ok? && Walk(fs, cur, v2).Ok?
    ensures Walk(fs, cur, v1) == Walk(fs, cur, v2)
    decreases fs.snapshots.Keys - v1
  {
    var l := Read(fs, fs, cur).value;
    if !l.LoadedFull? { WalkIgnoresVisited(fs, l.meta.prev, v1 + {cur}, v2 + {cur}); }
  }

  /** The state at a delta is its predecessor's state patched, and exists exactly when that one does. */
  lemma StateAtDelta(fs: Fs, id: Id)
    requires id != "" && Read(fs, fs, id).Ok? && Read(fs, fs, id).value.LoadedDelta?
    requires Read(fs, fs, id).value.meta.prev != ""
    ensures var l := Read(fs, fs, id).value;
            match StateAt(fs, l.meta.prev)
            case Ok(before) => StateAt(fs, id) == Ok(Patch(before, l.delta))
            case Err(_) => StateAt(fs, id).Err?
  {
    var l := Read(fs, fs, id).value;
    var prev := l.meta.prev;
    assert Link(fs, id, prev);
    var path := WalkTrail(fs, prev, {});
    if StateAt(fs, prev).Ok? {
      forall k | 0 <= k < |path| ensures path[k] != id {
        if k + 1 < |path| { assert Link(fs, path[k], path[k + 1]); }
      }
      assert {} + {id} == {id};
      TrailIsWalked(fs, path, {id});
      WalkIgnoresVisited(fs, prev, {}, {id});
      var w := Walk(fs, prev, {}).value;
      WalkIsChain(fs, prev, {});
      assert Walk(fs, id, {}) == Ok([l] + w);
      assert ([l] + w)[1..] == w;
    } else if StateAt(fs, id).Ok? {
      var whole := WalkTrail(fs, id, {});
      assert |whole| > 1 && Link(fs, whole[0], whole[1]);
      TrailIsWalked(fs, whole[1..], {});
    }
  }

  lemma StateAtFull(fs: Fs, id: Id)
    requires id != "" && Read(fs, fs, id).Ok? && Read(fs, fs, id).value.LoadedFull?
    ensures StateAt(fs, id) == Ok(Read(fs, fs, id).value.snap)
  {
    assert Walk(fs, id, {}) == Ok([Read(fs, fs, id).value]);
  }

  lemma ChainGrows(l: Loaded, w: seq<Loaded>)
    requires IsChain(w) && l.LoadedDelta?
    ensures IsChain([l] + w) && ReplayChain([l] + w) == Patch(ReplayChain(w), l.delta)
  {
    assert ([l] + w)[1..] == w;
  }

  /** A walk that succeeds on a faithful disk replays to what was captured, over `depth` records. */
  lemma {:induction false} WalkIsCaptured(fs: Fs, h: History, cur: Id, visited: set<Id>)
    requires Genuine(h) && Faithful(fs, h) && Walk(fs, cur, visited).Ok?
    ensures cur in h && IsChain(Walk(fs, cur, visited).value)
    ensures ReplayChain(Walk(fs, cur, visited).value) == h[cur].captured
    ensures |Walk(fs, cur, visited).value| == h[cur].depth
    decreases fs.snapshots.Keys - visited
  {
    ReadIsGenuine(fs, fs, h, cur);
    LinkIsCaptured(h, cur);
    var l := Read(fs, fs, cur).value;
    if l.LoadedDelta? {
      WalkIsCaptured(fs, h, l.meta.prev, visited + {cur});
      ChainGrows(l, Walk(fs, l.meta.prev, visited + {cur}).value);
    }
  }
}
