/** Snapshots of opaque resource state, and set-difference deltas between them. */
module Delta {
  datatype Key = Key(kind: string, ns: string, name: string)

  newtype byte = b: int | 0 <= b < 256
  type State = seq<byte>
  type Snapshot = map<Key, State>
  datatype Delta = Delta(added: map<Key, State>, modified: map<Key, State>, removed: set<Key>)

  /** What `Compute` builds. */
  function Diff(prev: Snapshot, next: Snapshot): Delta
  {
    Delta(
      map k | k in next && k !in prev :: next[k],
      map k | k in next && k in prev && prev[k] != next[k] :: next[k],
      prev.Keys - next.Keys)
  }

  /** What `Apply` builds: removals reach only `prev`, modifications win over additions. */
  function Patch(prev: Snapshot, d: Delta): Snapshot
  {
    (prev - d.removed) + d.added + d.modified
  }

  function Touched(d: Delta): set<Key>
  {
    d.added.Keys + d.modified.Keys + d.removed
  }

  method Compute(prev: Snapshot, next: Snapshot) returns (d: Delta)
    ensures d == Diff(prev, next)
    ensures d.added.Keys == next.Keys - prev.Keys && d.removed == prev.Keys - next.Keys
    ensures forall k :: k in d.modified <==> k in prev && k in next && prev[k] != next[k]
    ensures forall k :: k in d.added ==> d.added[k] == next[k]
    ensures forall k :: k in d.modified ==> d.modified[k] == next[k]
  {
    var added: map<Key, State>, modified: map<Key, State>, removed: set<Key> := map[], map[], {};
    var todo := next.Keys;
    while todo != {}
      invariant todo <= next.Keys
      invariant added == map k | k in next.Keys - todo && k !in prev :: next[k]
      invariant modified == map k | k in next.Keys - todo && k in prev && prev[k] != next[k] :: next[k]
    {
      var k :| k in todo;
      if k !in prev {
        added := added[k := next[k]];
      } else if prev[k] != next[k] {
        modified := modified[k := next[k]];
      }
      todo := todo - {k};
    }
    todo := prev.Keys;
    while todo != {}
      invariant todo <= prev.Keys
      invariant removed == (prev.Keys - todo) - next.Keys
    {
      var k :| k in todo;
      if k !in next { removed := removed + {k}; }
      todo := todo - {k};
    }
    d := Delta(added, modified, removed);
    DiffTellsThePartsApart(prev, next);
  }

  method Apply(prev: Snapshot, d: Delta) returns (out: Snapshot)
    ensures out == Patch(prev, d)
  {
    out := map[];
    var todo := prev.Keys;
    while todo != {}
      invariant todo <= prev.Keys
      invariant out == map k | k in prev.Keys - todo && k !in d.removed :: prev[k]
    {
      var k :| k in todo;
      if k !in d.removed { out := out[k := prev[k]]; }
      todo := todo - {k};
    }
    assert out == prev - d.removed;
    out := Overlay(out, d.added);
    out := Overlay(out, d.modified);
  }

  method Overlay(base: Snapshot, top: Snapshot) returns (out: Snapshot)
    ensures out == base + top
  {
    out := base;
    var todo := top.Keys;
    while todo != {}
      invariant todo <= top.Keys
      invariant out == base + (map k | k in top.Keys - todo :: top[k])
    {
      var k :| k in todo;
      out := out[k := top[k]];
      todo := todo - {k};
    }
    assert top == map k | k in top.Keys :: top[k];
  }

  /** The package's central law. */
  lemma PatchUndoesDiff(prev: Snapshot, next: Snapshot)
    ensures Patch(prev, Diff(prev, next)) == next
  {
    var out := Patch(prev, Diff(prev, next));
    assert forall k :: k in out <==> k in next;
    assert forall k :: k in next ==> out[k] == next[k];
  }

  /** The three parts never overlap, and a key appears in one of them exactly when it differs. */
  lemma DiffIsMinimal(prev: Snapshot, next: Snapshot, k: Key)
    ensures var d := Diff(prev, next);
            && d.added.Keys !! d.modified.Keys !! d.removed
            && (k in Touched(d) <==> (k in prev) != (k in next) || (k in prev && k in next && prev[k] != next[k]))
  {
    assert (k in Diff(prev, next).modified) <==> (k in next && k in prev && prev[k] != next[k]);
  }

  /** New keys are added, changed ones modified, missing ones removed, with the state they have now. */
  lemma DiffTellsThePartsApart(prev: Snapshot, next: Snapshot)
    ensures var d := Diff(prev, next);
            && d.added.Keys == next.Keys - prev.Keys && d.removed == prev.Keys - next.Keys
            && (forall k :: k in d.modified <==> k in prev && k in next && prev[k] != next[k])
            && (forall k :: k in d.added ==> d.added[k] == next[k])
            && (forall k :: k in d.modified ==> d.modified[k] == next[k])
  {
    var d := Diff(prev, next);
    forall k ensures k in d.modified <==> k in prev && k in next && prev[k] != next[k] {
      assert (k in d.modified) <==> (k in next && k in prev && prev[k] != next[k]);
    }
  }

  /** Any delta, one that `Compute` would never build included: what each key is afterwards. */
  lemma PatchAt(prev: Snapshot, d: Delta, k: Key)
    ensures var out := Patch(prev, d);
            && (k in d.modified ==> k in out && out[k] == d.modified[k])
            && (k in d.added && k !in d.modified ==> k in out && out[k] == d.added[k])
            && (k in d.removed && k !in d.added && k !in d.modified ==> k !in out)
  {
  }

  /** A delta changes nothing outside the keys it touches. */
  lemma PatchIsLocal(prev: Snapshot, d: Delta, k: Key)
    requires k !in Touched(d)
    ensures (k in Patch(prev, d) <==> k in prev) && (k in prev ==> Patch(prev, d)[k] == prev[k])
  {
  }

  /** Deltas computed along a history of states. */
  function Diffs(states: seq<Snapshot>): (ds: seq<Delta>)
    requires states != []
    ensures |ds| == |states| - 1
  {
    if |states| == 1 then [] else Diffs(states[..|states| - 1]) + [Diff(states[|states| - 2], states[|states| - 1])]
  }

  function Replay(start: Snapshot, ds: seq<Delta>): Snapshot
  {
    if ds == [] then start else Patch(Replay(start, ds[..|ds| - 1]), ds[|ds| - 1])
  }

  /** Replaying a chain of computed deltas of any length reaches the last state. */
  lemma {:induction false} ReplayReachesLastState(states: seq<Snapshot>)
    requires states != []
    ensures Replay(states[0], Diffs(states)) == states[|states| - 1]
  {
    if |states| > 1 {
      var init := states[..|states| - 1];
      ReplayReachesLastState(init);
      assert Diffs(states)[..|states| - 2] == Diffs(init);
      PatchUndoesDiff(states[|states| - 2], states[|states| - 1]);
    }
  }

  /** The `diff` command's namespace filter. */
  function InNamespace(s: Snapshot, ns: string): Snapshot
  {
    map k | k in s && k.ns == ns :: s[k]
  }

  method FilterByNamespace(s: Snapshot, ns: string) returns (out: Snapshot)
    ensures out == InNamespace(s, ns)
    ensures forall k :: k in out <==> k in s && k.ns == ns
    ensures forall k :: k in out ==> out[k] == s[k]
  {
    out := map[];
    var todo := s.Keys;
    while todo != {}
      invariant todo <= s.Keys
      invariant out == map k | k in s.Keys - todo && k.ns == ns :: s[k]
    {
      var k :| k in todo;
      if k.ns == ns { out := out[k := s[k]]; }
      todo := todo - {k};
    }
    assert s.Keys - todo == s.Keys;
  }

  /** Filtering both sides first shows exactly the filtered part of the whole diff. */
  lemma FilterCommutesWithDiff(prev: Snapshot, next: Snapshot, ns: string)
    ensures var d := Diff(prev, next);
            Diff(InNamespace(prev, ns), InNamespace(next, ns))
            == Delta(InNamespace(d.added, ns), InNamespace(d.modified, ns), set k | k in d.removed && k.ns == ns)
  {
    var d, p, n := Diff(prev, next), InNamespace(prev, ns), InNamespace(next, ns);
    var e := Diff(p, n);
    assert e.added == InNamespace(d.added, ns);
    assert e.modified == InNamespace(d.modified, ns);
    assert e.removed == set k | k in d.removed && k.ns == ns;
  }
}
