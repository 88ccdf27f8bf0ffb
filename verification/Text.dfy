/** Texts with separators: names joined by a comma, and paths. */
module Text {

  /** The pieces of `s` between separators; there is always at least one. */
  function Split(s: string, separators: set<char>): (parts: seq<string>)
    ensures parts != []
  {
    if s == "" then [""]
    else
      var parts, c := Split(s[..|s| - 1], separators), s[|s| - 1];
      if c in separators then parts + [""]
      else parts[..|parts| - 1] + [parts[|parts| - 1] + [c]]
  }

  function Join(names: seq<string>): string
  {
    if names == [] then "" else if |names| == 1 then names[0]
    else Join(names[..|names| - 1]) + "," + names[|names| - 1]
  }

  predicate Free(s: string, separators: set<char>)
  {
    forall c :: c in s ==> c !in separators
  }

  lemma {:induction false} PiecesAreFree(s: string, separators: set<char>)
    ensures forall p :: p in Split(s, separators) ==> Free(p, separators)
  {
    if s != "" {
      var before := Split(s[..|s| - 1], separators);
      PiecesAreFree(s[..|s| - 1], separators);
      assert before[|before| - 1] in before;
    }
  }

  lemma {:induction false} FreeIsOnePiece(s: string, separators: set<char>)
    requires Free(s, separators)
    ensures Split(s, separators) == [s]
  {
    if s != "" {
      FreeIsOnePiece(s[..|s| - 1], separators);
      assert s == s[..|s| - 1] + [s[|s| - 1]];
    }
  }

  /** A piece behind one more separator is one more piece. */
  lemma {:induction false} SplitOneMore(s: string, c: char, w: string, separators: set<char>)
    requires c in separators && Free(w, separators)
    ensures Split(s + [c] + w, separators) == Split(s, separators) + [w]
  {
    var all := s + [c] + w;
    if w == "" {
      assert all == s + [c] && all[..|all| - 1] == s;
    } else {
      SplitOneMore(s, c, w[..|w| - 1], separators);
      assert all[..|all| - 1] == s + [c] + w[..|w| - 1];
      assert w == w[..|w| - 1] + [w[|w| - 1]];
    }
  }

  /** Splitting at the commas gives the joined names back. */
  lemma {:induction false} SplitUndoesJoin(names: seq<string>)
    requires names != [] && forall n :: n in names ==> Free(n, {','})
    ensures Split(Join(names), {','}) == names
  {
    var init, last := names[..|names| - 1], names[|names| - 1];
    assert names == init + [last];
    if init == [] {
      FreeIsOnePiece(last, {','});
    } else {
      SplitUndoesJoin(init);
      SplitOneMore(Join(init), ',', last, {','});
      assert Join(names) == Join(init) + [','] + last;
    }
  }

  // ---- paths --------------------------------------------------------------------

  const SLASHES: set<char> := {'/', '\\'}

  /** Where a path leads from the directory `at`. */
  function Resolve(at: seq<string>, path: seq<string>): seq<string>
  {
    if path == [] then at
    else
      var before, p := Resolve(at, path[..|path| - 1]), path[|path| - 1];
      if p == "" || p == "." then before
      else if p == ".." then (if before == [] then [] else before[..|before| - 1])
      else before + [p]
  }

  /** What can stand as one element of a path and name an entry. */
  predicate Element(p: string)
  {
    p != "" && p != "." && p != ".." && Free(p, SLASHES)
  }

  lemma {:induction false} ResolvedIsElements(at: seq<string>, path: seq<string>)
    requires forall p :: p in at ==> Element(p)
    requires forall p :: p in path ==> Free(p, SLASHES)
    ensures forall p :: p in Resolve(at, path) ==> Element(p)
  {
    if path != [] { ResolvedIsElements(at, path[..|path| - 1]); }
  }

  /** A text leads to the entry of that name in a directory exactly when it is an element of a path. */
  lemma ElementStaysInDirectory(dir: seq<string>, s: string)
    requires forall p :: p in dir ==> Element(p)
    ensures Element(s) <==> Resolve(dir, Split(s, SLASHES)) == dir + [s]
  {
    if Element(s) {
      FreeIsOnePiece(s, SLASHES);
      assert Resolve(dir, []) == dir;
    }
    PiecesAreFree(s, SLASHES);
    ResolvedIsElements(dir, Split(s, SLASHES));
    if Resolve(dir, Split(s, SLASHES)) == dir + [s] {
      assert (dir + [s])[|dir|] == s;
    }
  }
}
