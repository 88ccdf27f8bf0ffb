/** The on-disk form of snapshots and deltas: lists of entries, sorted by key. */
module Wire {
  import opened Sorting
  import opened Delta

  datatype Entry = Entry(key: Key, state: State)
  datatype WireSnapshot = WireSnapshot(entries: seq<Entry>)
  datatype WireDelta = WireDelta(added: seq<Entry>, modified: seq<Entry>, removed: seq<Key>)

  predicate KeyLess(a: Key, b: Key)
  {
    if a.kind != b.kind then StrLess(a.kind, b.kind)
    else if a.ns != b.ns then StrLess(a.ns, b.ns)
    else StrLess(a.name, b.name)
  }

  predicate EntryLess(a: Entry, b: Entry)
  {
    KeyLess(a.key, b.key)
  }

  /** `KeyLess` is a strict total order. */
  lemma KeyLessIsStrictTotalOrder()
    ensures StrictOrder(KeyLess)
    ensures forall a, b :: a == b || KeyLess(a, b) || KeyLess(b, a)
  {
    forall x { StrLessIrreflexive(x); }
    forall a, b, c | KeyLess(a, b) && KeyLess(b, c) ensures KeyLess(a, c) {
      StrLessIsStrictOrder();
    }
    forall a, b ensures a == b || KeyLess(a, b) || KeyLess(b, a) {
      StrLessTotal(a.kind, b.kind);
      StrLessTotal(a.ns, b.ns);
      StrLessTotal(a.name, b.name);
    }
  }

  lemma StrLessOneWay(a: string, b: string)
    requires StrLess(a, b)
    ensures !StrLess(b, a)
  {
    StrLessIsStrictOrder();
    assert StrLess(b, a) ==> StrLess(a, a);
  }

  /** A sorted list goes by kind, within a kind by namespace, and within a namespace by name. */
  lemma KeysAreGrouped(ks: seq<Key>, i: nat, j: nat)
    requires StrictlySorted(KeyLess, ks) && i < j < |ks|
    ensures !StrLess(ks[j].kind, ks[i].kind)
    ensures ks[i].kind == ks[j].kind ==> !StrLess(ks[j].ns, ks[i].ns)
    ensures ks[i].kind == ks[j].kind && ks[i].ns == ks[j].ns ==> StrLess(ks[i].name, ks[j].name)
  {
    var a, b := ks[i], ks[j];
    assert KeyLess(a, b);
    StrLessIrreflexive(a.kind);
    StrLessIrreflexive(a.ns);
    if a.kind != b.kind { StrLessOneWay(a.kind, b.kind); }
    if a.ns != b.ns && a.kind == b.kind { StrLessOneWay(a.ns, b.ns); }
  }

  lemma EntryLessIsStrictOrder()
    ensures StrictOrder(EntryLess)
  {
    KeyLessIsStrictTotalOrder();
    forall x: Entry ensures !EntryLess(x, x) { assert !KeyLess(x.key, x.key); }
    forall x: Entry, y: Entry, z: Entry | EntryLess(x, y) && EntryLess(y, z) ensures EntryLess(x, z) {
      assert KeyLess(x.key, y.key) && KeyLess(y.key, z.key);
    }
  }

  /** `es` lists exactly the bindings of `m`, in strictly ascending key order. */
  ghost predicate Lists(es: seq<Entry>, m: map<Key, State>)
  {
    && StrictlySorted(EntryLess, es)
    && (forall e :: e in es ==> e.key in m && m[e.key] == e.state)
    && (forall k :: k in m ==> Entry(k, m[k]) in es)
  }

  ghost predicate ListsKeys(ks: seq<Key>, s: set<Key>)
  {
    StrictlySorted(KeyLess, ks) && forall k :: k in ks <==> k in s
  }

  ghost predicate SnapshotOnWire(w: WireSnapshot, s: Snapshot)
  {
    Lists(w.entries, s)
  }

  ghost predicate DeltaOnWire(w: WireDelta, d: Delta)
  {
    Lists(w.added, d.added) && Lists(w.modified, d.modified) && ListsKeys(w.removed, d.removed)
  }

  /** Decoding inserts the entries in order, so a repeated key keeps its last state. */
  function ToMap(es: seq<Entry>): map<Key, State>
  {
    if es == [] then map[] else var e := es[|es| - 1]; ToMap(es[..|es| - 1])[e.key := e.state]
  }

  /** Of several entries for one key, the last one counts. */
  lemma {:induction false} LastEntryCounts(es: seq<Entry>, i: nat)
    requires i < |es| && forall j :: i < j < |es| ==> es[j].key != es[i].key
    ensures es[i].key in ToMap(es) && ToMap(es)[es[i].key] == es[i].state
  {
    if i < |es| - 1 { LastEntryCounts(es[..|es| - 1], i); }
  }

  function WireToSnapshot(w: WireSnapshot): Snapshot
  {
    ToMap(w.entries)
  }

  function WireToDelta(w: WireDelta): Delta
  {
    Delta(ToMap(w.added), ToMap(w.modified), set k | k in w.removed)
  }

  method Decode(es: seq<Entry>) returns (m: map<Key, State>)
    ensures m == ToMap(es)
  {
    m := map[];
    for i := 0 to |es|
      invariant m == ToMap(es[..i])
    {
      assert es[..i + 1][..i] == es[..i];
      m := m[es[i].key := es[i].state];
    }
    assert es[..|es|] == es;
  }

  /** Whatever order the map is visited in, the sorted list is the same. */
  method Encode(m: map<Key, State>) returns (es: seq<Entry>)
    ensures Lists(es, m)
  {
    var keys := Enumerate(m.Keys);
    es := [];
    for i := 0 to |keys|
      invariant |es| == i
      invariant forall j :: 0 <= j < i ==> es[j] == Entry(keys[j], m[keys[j]])
    {
      es := es + [Entry(keys[i], m[keys[i]])];
    }
    forall k | k in m ensures Entry(k, m[k]) in es {
      assert k in keys;
      var j :| 0 <= j < |keys| && keys[j] == k;
      assert es[j] == Entry(k, m[k]);
    }
    KeyLessIsStrictTotalOrder();
    EntryLessIsStrictOrder();
    forall i, j | 0 <= i < j < |es| ensures EntryLess(es[i], es[j]) || EntryLess(es[j], es[i]) {
      assert keys[i] != keys[j];
    }
    SortBySorts(EntryLess, es);
    es := SortBy(EntryLess, es);
  }

  method EncodeKeys(s: set<Key>) returns (ks: seq<Key>)
    ensures ListsKeys(ks, s)
  {
    ks := Enumerate(s);
    KeyLessIsStrictTotalOrder();
    assert Comparable(KeyLess, ks);
    SortBySorts(KeyLess, ks);
    ks := SortBy(KeyLess, ks);
  }

  method SnapshotToWire(s: Snapshot) returns (w: WireSnapshot)
    ensures SnapshotOnWire(w, s) && WireToSnapshot(w) == s
  {
    var es := Encode(s);
    DecodeUndoesEncode(es, s);
    w := WireSnapshot(es);
  }

  method DeltaToWire(d: Delta) returns (w: WireDelta)
    ensures DeltaOnWire(w, d) && WireToDelta(w) == d
  {
    var a := Encode(d.added);
    var m := Encode(d.modified);
    var r := EncodeKeys(d.removed);
    w := WireDelta(a, m, r);
    DeltaRoundTrip(w, d);
  }

  lemma {:induction false} ToMapOfDistinct(es: seq<Entry>)
    requires StrictlySorted(EntryLess, es)
    ensures forall e :: e in es ==> e.key in ToMap(es) && ToMap(es)[e.key] == e.state
    ensures forall k :: k in ToMap(es) ==> Entry(k, ToMap(es)[k]) in es
  {
    if es != [] {
      var init, l := es[..|es| - 1], es[|es| - 1];
      ToMapOfDistinct(init);
      assert es == init + [l];
      KeyLessIsStrictTotalOrder();
      forall e | e in init ensures e.key != l.key { assert EntryLess(e, l); }
    }
  }

  /** Decoding the list of a map gives the map back. */
  lemma DecodeUndoesEncode(es: seq<Entry>, m: map<Key, State>)
    requires Lists(es, m)
    ensures ToMap(es) == m
  {
    ToMapOfDistinct(es);
    forall k | k in ToMap(es) ensures k in m && m[k] == ToMap(es)[k] {
      assert Entry(k, ToMap(es)[k]) in es;
    }
    forall k | k in m ensures k in ToMap(es) { assert Entry(k, m[k]) in es; }
  }

  lemma DeltaRoundTrip(w: WireDelta, d: Delta)
    requires DeltaOnWire(w, d)
    ensures WireToDelta(w) == d
  {
    DecodeUndoesEncode(w.added, d.added);
    DecodeUndoesEncode(w.modified, d.modified);
    assert (set k | k in w.removed) == d.removed;
  }

  /** Equal maps serialise to equal lists: the encoding is a function of the map alone. */
  lemma EncodingIsUnique(a: seq<Entry>, b: seq<Entry>, m: map<Key, State>)
    requires Lists(a, m) && Lists(b, m)
    ensures a == b
  {
    EntryLessIsStrictOrder();
    forall e | e in a ensures e in b { assert e == Entry(e.key, m[e.key]); }
    forall e | e in b ensures e in a { assert e == Entry(e.key, m[e.key]); }
    StrictlySortedUnique(EntryLess, a, b);
  }

  /** Serialised values are equal exactly when what they stand for is equal. */
  lemma DeltaEncodingIsCanonical(w1: WireDelta, d1: Delta, w2: WireDelta, d2: Delta)
    requires DeltaOnWire(w1, d1) && DeltaOnWire(w2, d2)
    ensures w1 == w2 <==> d1 == d2
  {
    DeltaRoundTrip(w1, d1);
    DeltaRoundTrip(w2, d2);
    if d1 == d2 {
      EncodingIsUnique(w1.added, w2.added, d1.added);
      EncodingIsUnique(w1.modified, w2.modified, d1.modified);
      KeyLessIsStrictTotalOrder();
      StrictlySortedUnique(KeyLess, w1.removed, w2.removed);
    }
  }

  /** Reading a strictly sorted list and writing it again is the identity. */
  lemma EncodeUndoesDecode(es: seq<Entry>, again: seq<Entry>)
    requires StrictlySorted(EntryLess, es)
    requires Lists(again, ToMap(es))
    ensures again == es
  {
    ToMapOfDistinct(es);
    EncodingIsUnique(again, es, ToMap(es));
  }

  // ---- the kinds recorded in the metadata --------------------------------

  function KindsOf(keys: set<Key>): set<string>
  {
    set k | k in keys :: k.kind
  }

  /** The sorted list of kinds kept with a snapshot; empty only when nothing is touched. */
  ghost predicate KindsCover(kinds: seq<string>, keys: set<Key>)
  {
    StrictlySorted(StrLess, kinds) && forall s :: s in kinds <==> s in KindsOf(keys)
  }

  method SortedKinds(keys: set<Key>) returns (kinds: seq<string>)
    ensures KindsCover(kinds, keys)
    ensures forall s :: s in kinds <==> exists k :: k in keys && k.kind == s
  {
    var seen: set<string> := {};
    var todo := keys;
    while todo != {}
      invariant todo <= keys
      invariant seen == KindsOf(keys - todo)
    {
      var k :| k in todo;
      seen := seen + {k.kind};
      todo := todo - {k};
      assert k in keys - todo;
    }
    assert keys - todo == keys;
    kinds := SortedStrings(seen);
  }

  predicate KindsContain(kinds: seq<string>, kind: string)
  {
    exists i :: 0 <= i < |kinds| && kinds[i] == kind
  }
}
