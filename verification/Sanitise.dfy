/**
 Metadata sanitisation: what is stripped from an object before it is recorded, on the typed path and on
 the dynamic one. A `None` annotation map is Go's nil map, which JSON encodes like an empty one.
 */
module Sanitise {
  import opened Sorting
  import opened Store
  import opened Text
  import D = Delta

  type Annotations = map<string, string>

  datatype ManagedFieldsEntry = ManagedFieldsEntry(manager: string, fields: seq<D.byte>)

  /** `rest` is everything the sanitiser keeps: name, UID, labels, creation time, and the body. */
  datatype Object = Object(resourceVersion: string, managedFields: seq<ManagedFieldsEntry>, generation: int,
                           annotations: Option<Annotations>, rest: seq<D.byte>)

  const MANAGERS_KEY := "ktm.io/managers"

  const KUBECTL := "kubectl.kubernetes.io/"

  const NOISE_KEYS: set<string> := {
    KUBECTL + "last-applied-configuration",
    "deployment.kubernetes.io/revision",
    "deprecated.daemonset.template.generation"}

  const NOISE_PREFIXES: seq<string> := [
    "argocd.argoproj.io/", "fluxcd.io/", "kustomize.toolkit.fluxcd.io/", "meta.helm.sh/"]

  predicate IsNoise(key: string)
  {
    key in NOISE_KEYS || exists i :: 0 <= i < |NOISE_PREFIXES| && NOISE_PREFIXES[i] <= key
  }

  lemma NoiseSpelledOut(key: string)
    ensures IsNoise(key) <==>
              || key == KUBECTL + "last-applied-configuration" || key == "deployment.kubernetes.io/revision"
              || key == "deprecated.daemonset.template.generation"
              || "argocd.argoproj.io/" <= key || "fluxcd.io/" <= key || "kustomize.toolkit.fluxcd.io/" <= key
              || "meta.helm.sh/" <= key
  {
    assert NOISE_PREFIXES[0] == "argocd.argoproj.io/" && NOISE_PREFIXES[1] == "fluxcd.io/";
    assert NOISE_PREFIXES[2] == "kustomize.toolkit.fluxcd.io/" && NOISE_PREFIXES[3] == "meta.helm.sh/";
  }

  lemma ManagersKeyIsNoNoise()
    ensures !IsNoise(MANAGERS_KEY)
  {
    assert MANAGERS_KEY[1] == 't';
    assert KUBECTL[1] == 'u';
    assert "deployment.kubernetes.io/revision"[1] == 'e' && "deprecated.daemonset.template.generation"[1] == 'e';
    forall i | 0 <= i < |NOISE_PREFIXES| ensures !(NOISE_PREFIXES[i] <= MANAGERS_KEY) {
      assert NOISE_PREFIXES[i][1] != 't';
    }
  }

  // ---- the manager names ------------------------------------------------------

  function ManagerSet(entries: seq<ManagedFieldsEntry>): set<string>
  {
    set e | e in entries && e.manager != "" :: e.manager
  }

  /** The distinct manager names, ascending. */
  function ManagerNames(entries: seq<ManagedFieldsEntry>): seq<string>
  {
    if entries == [] then []
    else
      var names, m := ManagerNames(entries[..|entries| - 1]), entries[|entries| - 1].manager;
      if m == "" || m in names then names else Insert(StrLess, names, m)
  }

  lemma {:induction false} ManagerNamesAreSorted(entries: seq<ManagedFieldsEntry>)
    ensures StrictlySorted(StrLess, ManagerNames(entries))
    ensures forall x :: x in ManagerNames(entries) <==> x in ManagerSet(entries)
  {
    if entries != [] {
      var init, last := entries[..|entries| - 1], entries[|entries| - 1];
      ManagerNamesAreSorted(init);
      assert entries == init + [last];
      var names, m := ManagerNames(init), last.manager;
      if m != "" && m !in names {
        StrLessIsStrictOrder();
        forall y | y in names ensures StrLess(m, y) || StrLess(y, m) { StrLessTotal(m, y); }
        InsertSorts(StrLess, names, m);
        InsertElements(StrLess, names, m);
      }
      assert ManagerSet(entries) == ManagerSet(init) + (if m == "" then {} else {m});
    }
  }

  /** The names depend only on which managers occur, not on order or repetition. */
  lemma NamesIgnoreOrder(a: seq<ManagedFieldsEntry>, names: seq<string>)
    requires StrictlySorted(StrLess, names) && forall x :: x in names <==> x in ManagerSet(a)
    ensures names == ManagerNames(a)
  {
    ManagerNamesAreSorted(a);
    StrLessIsStrictOrder();
    StrictlySortedUnique(StrLess, names, ManagerNames(a));
  }

  method ExtractManagers(entries: seq<ManagedFieldsEntry>) returns (names: seq<string>)
    ensures names == ManagerNames(entries)
    ensures StrictlySorted(StrLess, names)
    ensures forall x :: x in names <==> x != "" && exists e :: e in entries && e.manager == x
  {
    ManagerNamesAreSorted(entries);
    if |entries| == 0 { return []; }
    var seen: set<string> := {};
    for i := 0 to |entries|
      invariant seen == ManagerSet(entries[..i])
    {
      assert entries[..i + 1] == entries[..i] + [entries[i]];
      if entries[i].manager != "" { seen := seen + {entries[i].manager}; }
    }
    assert entries[..|entries|] == entries;
    names := SortedStrings(seen);
    NamesIgnoreOrder(entries, names);
  }

  // ---- the annotations ----------------------------------------------------------

  function Present(o: Option<Annotations>): Annotations
  {
    if o.Some? then o.value else map[]
  }

  function Kept(a: Annotations): Annotations
  {
    map k | k in a && !IsNoise(k) :: a[k]
  }

  /** The annotations recorded for `o`: no noise, and the managers noted if there are any. */
  function Recorded(o: Object): Annotations
  {
    var names := ManagerNames(o.managedFields);
    if names == [] then Kept(Present(o.annotations)) else Kept(Present(o.annotations))[MANAGERS_KEY := Join(names)]
  }

  function Bare(o: Object, annotations: Option<Annotations>): Object
  {
    Object("", [], 0, annotations, o.rest)
  }

  /** `after` is `before` sanitised; whether empty annotations are nil is left open. */
  ghost predicate Sanitised(before: Object, after: Object)
  {
    after == Bare(before, after.annotations) && Present(after.annotations) == Recorded(before)
  }

  method IsNoiseAnnotationKey(key: string) returns (noise: bool)
    ensures noise <==> IsNoise(key)
    ensures noise <==>
              || key == KUBECTL + "last-applied-configuration" || key == "deployment.kubernetes.io/revision"
              || key == "deprecated.daemonset.template.generation"
              || "argocd.argoproj.io/" <= key || "fluxcd.io/" <= key || "kustomize.toolkit.fluxcd.io/" <= key
              || "meta.helm.sh/" <= key
  {
    NoiseSpelledOut(key);
    if key in NOISE_KEYS { return true; }
    for i := 0 to |NOISE_PREFIXES|
      invariant forall j :: 0 <= j < i ==> !(NOISE_PREFIXES[j] <= key)
    {
      if NOISE_PREFIXES[i] <= key { return true; }
    }
    noise := false;
  }

  method WithoutNoise(annotations: Annotations) returns (out: Annotations)
    ensures out == Kept(annotations)
  {
    out := annotations;
    var todo := annotations.Keys;
    while todo != {}
      invariant todo <= annotations.Keys
      invariant out == map k | k in annotations && (k in todo || !IsNoise(k)) :: annotations[k]
    {
      var key :| key in todo;
      var noise := IsNoiseAnnotationKey(key);
      if noise { out := out - {key}; }
      todo := todo - {key};
    }
  }

  /** The metadata of a private copy of a live object. */
  class ObjectMeta {
    var resourceVersion: string
    var managedFields: seq<ManagedFieldsEntry>
    var generation: int
    var annotations: Option<Annotations>
    var rest: seq<D.byte>

    ghost function View(): Object
      reads this
    {
      Object(resourceVersion, managedFields, generation, annotations, rest)
    }

    constructor DeepCopy(o: Object)
      ensures View() == o
    {
      resourceVersion, managedFields, generation, annotations, rest :=
        o.resourceVersion, o.managedFields, o.generation, o.annotations, o.rest;
    }

    /** Typed path. An annotation map that was empty to begin with is left as it is. */
    method StripNoiseAnnotations()
      modifies this`annotations
      ensures Present(annotations) == Kept(Present(old(annotations)))
      ensures annotations == Some(map[]) <==> old(annotations) == Some(map[])
    {
      if annotations.None? || |annotations.value| == 0 { return; }
      var stripped := WithoutNoise(annotations.value);
      annotations := if |stripped| == 0 then None else Some(stripped);
    }

    method SanitiseMeta()
      modifies this
      ensures Sanitised(old(View()), View())
      ensures resourceVersion == "" && managedFields == [] && generation == 0 && rest == old(rest)
      ensures annotations == Some(map[]) ==> old(annotations) == Some(map[])
    {
      var managers := ExtractManagers(managedFields);
      resourceVersion, managedFields, generation := "", [], 0;
      StripNoiseAnnotations();
      if |managers| > 0 {
        if annotations.None? { annotations := Some(map[]); }
        annotations := Some(annotations.value[MANAGERS_KEY := Join(managers)]);
        assert MANAGERS_KEY in annotations.value;
      }
    }

    /** Dynamic path. Empty annotations are removed. */
    method SanitiseUnstructuredMeta()
      modifies this
      ensures Sanitised(old(View()), View())
      ensures resourceVersion == "" && managedFields == [] && generation == 0 && rest == old(rest)
      ensures annotations != Some(map[])
    {
      var managers := ExtractManagers(managedFields);
      resourceVersion, managedFields, generation := "", [], 0;
      var anns := if annotations.None? then map[] else annotations.value;
      anns := WithoutNoise(anns);
      if |managers| > 0 { anns := anns[MANAGERS_KEY := Join(managers)]; }
      annotations := if |anns| == 0 then None else Some(anns);
    }
  }

  // ---- a normal form ------------------------------------------------------------------

  /** Equal up to nil against empty annotations, which no recorded byte distinguishes. */
  predicate Same(a: Object, b: Object)
  {
    a.(annotations := None) == b.(annotations := None) && Present(a.annotations) == Present(b.annotations)
  }

  lemma RecordedIsClean(o: Object)
    ensures Kept(Recorded(o)) == Recorded(o)
  {
    ManagersKeyIsNoNoise();
  }

  /** Sanitising again changes nothing, whichever path does it. */
  lemma SanitisingIsIdempotent(o: Object, once: Object, twice: Object)
    requires Sanitised(o, once) && Sanitised(once, twice)
    ensures Same(once, twice)
  {
    RecordedIsClean(o);
  }

  /** Both paths, on whatever runs, yield the same object. */
  lemma PathsAgree(o: Object, typed: Object, dynamic: Object)
    requires Sanitised(o, typed) && Sanitised(o, dynamic)
    ensures Same(typed, dynamic)
  {
  }

  function Lookup(a: Annotations, key: string): Option<string>
  {
    if key in a then Some(a[key]) else None
  }

  /** The note on managers: who owns fields now, else what the annotation already said. */
  function ManagersNote(o: Object): Option<string>
  {
    var names := ManagerNames(o.managedFields);
    if names == [] then Lookup(Present(o.annotations), MANAGERS_KEY) else Some(Join(names))
  }

  /** The note gives the managers back, one by one, exactly when no name holds a comma. */
  lemma NoteTellsManagersExactlyWhen(o: Object)
    requires ManagerNames(o.managedFields) != []
    ensures MANAGERS_KEY in Recorded(o)
    ensures Split(Recorded(o)[MANAGERS_KEY], {','}) == ManagerNames(o.managedFields)
            <==> forall m :: m in ManagerNames(o.managedFields) ==> ',' !in m
  {
    var names := ManagerNames(o.managedFields);
    if forall m :: m in names ==> ',' !in m {
      SplitUndoesJoin(names);
    } else {
      PiecesAreFree(Recorded(o)[MANAGERS_KEY], {','});
      assert !forall n :: n in names ==> Free(n, {','});
    }
  }

  /** Equal in all that a user means: the body, the managers' note, and every annotation but noise. */
  ghost predicate SameIntent(a: Object, b: Object)
  {
    && a.rest == b.rest && ManagersNote(a) == ManagersNote(b)
    && forall k :: !IsNoise(k) && k != MANAGERS_KEY ==>
                     Lookup(Present(a.annotations), k) == Lookup(Present(b.annotations), k)
  }

  lemma RecordedLookup(o: Object, k: string)
    ensures Lookup(Recorded(o), k) ==
            if k == MANAGERS_KEY then ManagersNote(o)
            else if IsNoise(k) then None else Lookup(Present(o.annotations), k)
  {
    ManagersKeyIsNoNoise();
  }

  lemma SameLookups(a: Annotations, b: Annotations)
    requires forall k :: Lookup(a, k) == Lookup(b, k)
    ensures a == b
  {
    forall k ensures k in a <==> k in b { assert Lookup(a, k) == Lookup(b, k); }
    forall k | k in a ensures a[k] == b[k] { assert Lookup(a, k) == Lookup(b, k); }
  }

  /** Two objects sanitise alike exactly when they mean the same: nothing else is kept, and nothing lost. */
  lemma SanitiseAlikeExactlyWhenSameIntent(a: Object, b: Object, a': Object, b': Object)
    requires Sanitised(a, a') && Sanitised(b, b')
    ensures Same(a', b') <==> SameIntent(a, b)
  {
    if Same(a', b') {
      RecordedLookup(a, MANAGERS_KEY);
      RecordedLookup(b, MANAGERS_KEY);
      forall k | !IsNoise(k) && k != MANAGERS_KEY
        ensures Lookup(Present(a.annotations), k) == Lookup(Present(b.annotations), k)
      {
        RecordedLookup(a, k);
        RecordedLookup(b, k);
      }
    }
    if SameIntent(a, b) {
      forall k ensures Lookup(Recorded(a), k) == Lookup(Recorded(b), k) {
        RecordedLookup(a, k);
        RecordedLookup(b, k);
      }
      SameLookups(Recorded(a), Recorded(b));
    }
  }

  /** Objects that differ in noise only: version, generation, noise annotations, and how managers are listed. */
  ghost predicate NoiseApart(a: Object, b: Object)
  {
    && a.rest == b.rest && ManagerSet(a.managedFields) == ManagerSet(b.managedFields)
    && Kept(Present(a.annotations)) == Kept(Present(b.annotations))
  }

  /** Noise never shows up in a delta, for any encoding that does not tell nil from empty annotations. */
  lemma NoiseIsNotRecorded(a: Object, b: Object, a': Object, b': Object,
                           encode: (seq<D.byte>, Annotations) -> D.State,
                           prev: D.Snapshot, next: D.Snapshot, key: D.Key)
    requires NoiseApart(a, b) && Sanitised(a, a') && Sanitised(b, b')
    requires key in prev && prev[key] == encode(a'.rest, Present(a'.annotations))
    requires key in next && next[key] == encode(b'.rest, Present(b'.annotations))
    ensures Same(a', b') && key !in D.Touched(D.Diff(prev, next))
  {
    ManagerNamesAreSorted(b.managedFields);
    NamesIgnoreOrder(a.managedFields, ManagerNames(b.managedFields));
  }
}
