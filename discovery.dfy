/**
  `listJsFiles(dir)`: the depth-first walk of a directory that collects the regular files
  whose extension is `.js`, in the order the listings give them.
*/
module Discovery {
  import opened Wrappers
  import opened FileTree
  import opened Io

  /**
    `extname(name) === '.js'` for a single name: it ends in `.js` and the dot is not its
    first character (`extname('.js')` is empty).
  */
  predicate HasJsExtension(name: Name) {
    |name| > 3 && name[|name| - 3..] == ".js"
  }

  /**
    The paths the walk collects from entries `i..` of the listing `es` of `dir`, each
    entry's contribution at its own position.
  */
  function JsFilesFrom(dir: Path, es: seq<Entry>, i: nat): seq<Path>
    requires i <= |es|
    decreases Dir(es), 0, |es| - i
  {
    if i == |es| then [] else EntryFiles(dir, es[i]) + JsFilesFrom(dir, es, i + 1)
  }

  /**
    What one entry of `dir` contributes: a subdirectory its own walk, a regular `.js`
    file `dir + [name]`, anything else nothing.
  */
  function EntryFiles(dir: Path, e: Entry): seq<Path>
    decreases e.node, 1
  {
    match e.node
    case Dir(sub) => JsFilesFrom(dir + [e.name], sub, 0)
    case File(_) => if HasJsExtension(e.name) then [dir + [e.name]] else []
    case Other => []
  }

  /** What `listJsFiles(dir)` returns when `dir` lists as `es`. */
  function JsFiles(dir: Path, es: seq<Entry>): seq<Path> {
    JsFilesFrom(dir, es, 0)
  }

  /** The `readdir` calls the walk makes below `dir` for entries `i..`, in the order it makes them. */
  function ReadDirsFrom(dir: Path, es: seq<Entry>, i: nat): seq<Event>
    requires i <= |es|
    decreases Dir(es), 0, |es| - i
  {
    if i == |es| then [] else EntryReadDirs(dir, es[i]) + ReadDirsFrom(dir, es, i + 1)
  }

  function EntryReadDirs(dir: Path, e: Entry): seq<Event>
    decreases e.node, 1
  {
    match e.node
    case Dir(sub) => [ReadDirCall(dir + [e.name])] + ReadDirsFrom(dir + [e.name], sub, 0)
    case _ => []
  }

  /** The whole call `listJsFiles(dir)`: it throws when `dir` cannot be listed. */
  function ListOp(w: World, dir: Path): (World, Option<seq<Path>>) {
    match Lookup(w.root, dir)
    case Some(Dir(es)) =>
      (World(w.root, w.log + [ReadDirCall(dir)] + ReadDirsFrom(dir, es, 0)), Some(JsFiles(dir, es)))
    case _ => (Emit(w, ReadDirCall(dir)), None)
  }

  /** A regular file with the `.js` extension sits at `rel` below `n`. */
  predicate IsJsFileAt(n: Node, rel: Path) {
    rel != [] && HasJsExtension(rel[|rel| - 1]) && Lookup(n, rel).Some? && Lookup(n, rel).value.File?
  }

  ghost function NodeAt(root: Node, p: Path): Node {
    match Lookup(root, p)
    case Some(n) => n
    case None => Other
  }

  // ----- the walk, as the program performs it -----

  method ListJsFiles(host: Host, dir: Path) returns (files: Option<seq<Path>>)
    requires host.Valid()
    modifies host
    ensures host.Valid() && (host.State(), files) == ListOp(old(host.State()), dir)
    decreases NodeAt(host.root, dir)
  {
    ghost var w0 := host.State();
    var entries := host.ReadDir(dir);
    if entries.None? {
      return None;
    }
    var es := entries.value;
    assert Lookup(w0.root, dir) == Some(Dir(es));
    ghost var log0 := host.log;
    var found: seq<Path> := [];
    for i := 0 to |es|
      invariant host.Valid() && host.root == w0.root
      invariant host.log + ReadDirsFrom(dir, es, i) == log0 + ReadDirsFrom(dir, es, 0)
      invariant found + JsFilesFrom(dir, es, i) == JsFiles(dir, es)
    {
      var entry := es[i];
      var fullPath := dir + [entry.name];
      ghost var before, prior := host.log, found;
      if entry.node.Dir? {
        LookupChild(host.root, dir, es, i);
        assert NodeAt(host.root, fullPath) == entry.node < Dir(es) == NodeAt(host.root, dir);
        var sub := ListJsFiles(host, fullPath);
        Associative(before, [ReadDirCall(fullPath)], ReadDirsFrom(fullPath, entry.node.entries, 0));
        found := found + sub.value;
      } else {
        assert host.log == before + [];
        if entry.node.File? && HasJsExtension(entry.name) {
          found := found + [fullPath];
        } else {
          assert found == prior + [];
        }
      }
      assert host.log == before + EntryReadDirs(dir, entry);
      assert found == prior + EntryFiles(dir, entry);
      WalkStep(dir, es, i, prior, before, log0);
    }
    assert found == JsFiles(dir, es) by {
      assert JsFilesFrom(dir, es, |es|) == [];
      assert found + [] == found;
    }
    assert host.log == w0.log + [ReadDirCall(dir)] + ReadDirsFrom(dir, es, 0) by {
      assert ReadDirsFrom(dir, es, |es|) == [];
      assert host.log + [] == host.log;
    }
    files := Some(found);
  }

  /** One iteration of the walk's loop keeps both of its invariants. */
  lemma WalkStep(dir: Path, es: seq<Entry>, i: nat, prior: seq<Path>, before: seq<Event>, log0: seq<Event>)
    requires i < |es|
    requires prior + JsFilesFrom(dir, es, i) == JsFiles(dir, es)
    requires before + ReadDirsFrom(dir, es, i) == log0 + ReadDirsFrom(dir, es, 0)
    ensures prior + EntryFiles(dir, es[i]) + JsFilesFrom(dir, es, i + 1) == JsFiles(dir, es)
    ensures before + EntryReadDirs(dir, es[i]) + ReadDirsFrom(dir, es, i + 1) == log0 + ReadDirsFrom(dir, es, 0)
  {
    var ef, rest := EntryFiles(dir, es[i]), JsFilesFrom(dir, es, i + 1);
    assert JsFilesFrom(dir, es, i) == ef + rest;
    Associative(prior, ef, rest);
    var ed, later := EntryReadDirs(dir, es[i]), ReadDirsFrom(dir, es, i + 1);
    assert ReadDirsFrom(dir, es, i) == ed + later;
    Associative(before, ed, later);
  }

  lemma Associative<T>(a: seq<T>, b: seq<T>, c: seq<T>)
    ensures a + b + c == a + (b + c)
  {
  }

  // ----- what the walk finds -----

  /** Every collected path is `dir` followed by at least one more segment. */
  lemma {:induction false} JsFilesBelow(dir: Path, es: seq<Entry>, i: nat)
    requires i <= |es|
    ensures forall p :: p in JsFilesFrom(dir, es, i) ==> |p| > |dir| && IsPrefix(dir, p)
    decreases Dir(es), 0, |es| - i
  {
    if i < |es| {
      var head, tail := EntryFiles(dir, es[i]), JsFilesFrom(dir, es, i + 1);
      assert JsFilesFrom(dir, es, i) == head + tail;
      JsFilesBelow(dir, es, i + 1);
      EntryFilesBelow(dir, es[i]);
      forall p | p in head + tail ensures |p| > |dir| && IsPrefix(dir, p) {
        if p in head {
          assert p[..|dir|] == dir;
        } else {
          assert p in tail;
        }
      }
    }
  }

  /** What an entry contributes starts with `dir + [e.name]`. */
  lemma {:induction false} EntryFilesBelow(dir: Path, e: Entry)
    ensures forall p :: p in EntryFiles(dir, e) ==> |p| > |dir| && p[..|dir|] == dir && p[|dir|] == e.name
    decreases e.node, 1
  {
    match e.node {
      case Dir(sub) =>
        JsFilesBelow(dir + [e.name], sub, 0);
        forall p | p in EntryFiles(dir, e) ensures p[..|dir|] == dir && p[|dir|] == e.name {
          assert p[..|dir| + 1] == dir + [e.name];
          assert p[..|dir|] == p[..|dir| + 1][..|dir|];
        }
      case File(_) =>
      case Other =>
    }
  }

  /**
    From entry `i` on, the walk collects exactly the paths below `dir` whose first segment
    names an entry at index `i` or later and that lead to a regular `.js` file.
  */
  lemma {:induction false} JsFilesFromExact(dir: Path, es: seq<Entry>, i: nat, p: Path)
    requires WellFormed(Dir(es)) && i <= |es|
    ensures p in JsFilesFrom(dir, es, i) <==>
      |p| > |dir| && p[..|dir|] == dir && Find(es, p[|dir|]).Some? &&
      Find(es, p[|dir|]).value >= i && IsJsFileAt(Dir(es), p[|dir|..])
    decreases Dir(es), 0, |es| - i
  {
    if i < |es| {
      var x := es[i].name;
      assert JsFilesFrom(dir, es, i) == EntryFiles(dir, es[i]) + JsFilesFrom(dir, es, i + 1);
      JsFilesFromExact(dir, es, i + 1, p);
      FindUnique(es, i);
      EntryFilesBelow(dir, es[i]);
      if |p| > |dir| && p[..|dir|] == dir && p[|dir|] == x {
        EntryFilesExact(dir, es, i, p);
      }
    }
  }

  /** Entry `i` contributes exactly the `.js` files below `dir + [es[i].name]`. */
  lemma {:induction false} EntryFilesExact(dir: Path, es: seq<Entry>, i: nat, p: Path)
    requires WellFormed(Dir(es)) && i < |es|
    requires |p| > |dir| && p[..|dir|] == dir && p[|dir|] == es[i].name
    ensures p in EntryFiles(dir, es[i]) <==> IsJsFileAt(Dir(es), p[|dir|..])
    decreases es[i].node, 1
  {
    var n := es[i].name;
    var rel := p[|dir|..];
    FindUnique(es, i);
    assert p[..|dir| + 1] == dir + [n] by {
      assert p[..|dir| + 1] == p[..|dir|] + [p[|dir|]];
    }
    assert rel[0] == n && rel[1..] == p[|dir| + 1..];
    assert Lookup(Dir(es), rel) == Lookup(es[i].node, p[|dir| + 1..]);
    assert rel[|rel| - 1] == p[|p| - 1];
    match es[i].node {
      case Dir(sub) =>
        if |p| > |dir| + 1 {
          JsFilesFromExact(dir + [n], sub, 0, p);
          var rest := p[|dir| + 1..];
          assert rest == p[|dir + [n]|..];
          assert rest[|rest| - 1] == p[|p| - 1];
          assert rest[0] == p[|dir| + 1];
        } else {
          JsFilesBelow(dir + [n], sub, 0);
        }
      case File(_) =>
        if |p| == |dir| + 1 {
          assert p == p[..|dir| + 1];
        } else {
          JsFilesBelow(dir + [n], [], 0);
        }
      case Other =>
    }
  }
  /**
    In a well-formed tree, `listJsFiles(dir)` returns exactly the paths below `dir` that lead
    to a regular file with the `.js` extension; directories and other entries never appear.
  */
  lemma JsFilesExact(dir: Path, es: seq<Entry>, p: Path)
    requires WellFormed(Dir(es))
    ensures p in JsFiles(dir, es) <==>
      |p| > |dir| && IsPrefix(dir, p) && IsJsFileAt(Dir(es), p[|dir|..])
  {
    JsFilesFromExact(dir, es, 0, p);
  }

  /**
    The same over the whole tree: when `listJsFiles(dir)` succeeds it returns exactly the
    paths strictly below `dir` that are regular files named with the `.js` extension.
  */
  lemma ListJsFilesExact(w: World, dir: Path, p: Path)
    requires WellFormed(w.root) && ListOp(w, dir).1.Some?
    ensures p in ListOp(w, dir).1.value <==>
      |p| > |dir| && IsPrefix(dir, p) && HasJsExtension(p[|p| - 1]) &&
      Lookup(w.root, p).Some? && Lookup(w.root, p).value.File?
  {
    var es := Lookup(w.root, dir).value.entries;
    WellFormedBelow(w.root, dir);
    JsFilesExact(dir, es, p);
    if |p| > |dir| && IsPrefix(dir, p) {
      var rel := p[|dir|..];
      assert p == dir + rel;
      LookupConcat(w.root, dir, rel);
      assert rel[|rel| - 1] == p[|p| - 1];
    }
  }

  lemma DistinctConcat<T>(s: seq<T>, t: seq<T>)
    requires Distinct(s) && Distinct(t) && forall x :: x in s ==> x !in t
    ensures Distinct(s + t)
  {
    forall a, b | 0 <= a < b < |s + t| ensures (s + t)[a] != (s + t)[b] {
      if a < |s| && b >= |s| {
        assert (s + t)[a] in s && (s + t)[b] in t;
      }
    }
  }

  /** In a well-formed tree the walk never collects a path twice. */
  lemma {:induction false} JsFilesFromDistinct(dir: Path, es: seq<Entry>, i: nat)
    requires WellFormed(Dir(es)) && i <= |es|
    ensures Distinct(JsFilesFrom(dir, es, i))
    decreases Dir(es), 0, |es| - i
  {
    if i < |es| {
      var head, tail := EntryFiles(dir, es[i]), JsFilesFrom(dir, es, i + 1);
      JsFilesFromDistinct(dir, es, i + 1);
      match es[i].node {
        case Dir(sub) => JsFilesFromDistinct(dir + [es[i].name], sub, 0);
        case File(_) =>
        case Other =>
      }
      EntryFilesBelow(dir, es[i]);
      FindUnique(es, i);
      forall x | x in head ensures x !in tail {
        JsFilesFromExact(dir, es, i + 1, x);
      }
      DistinctConcat(head, tail);
    }
  }

  /**
    Below `dir`, each collected path continues with valid names only, and no path is
    collected twice.
  */
  lemma ListJsFilesDistinct(w: World, dir: Path)
    requires WellFormed(w.root) && ListOp(w, dir).1.Some?
    ensures Distinct(ListOp(w, dir).1.value)
    ensures forall p :: p in ListOp(w, dir).1.value ==> |p| > |dir| && ValidPath(p[|dir|..])
  {
    var es := Lookup(w.root, dir).value.entries;
    WellFormedBelow(w.root, dir);
    JsFilesFromDistinct(dir, es, 0);
    forall p | p in ListOp(w, dir).1.value ensures |p| > |dir| && ValidPath(p[|dir|..]) {
      JsFilesExact(dir, es, p);
      LookupValidPath(Dir(es), p[|dir|..]);
    }
  }

  lemma {:induction false} JsFilesFromShift(dir: Path, a: seq<Entry>, b: seq<Entry>, k: nat)
    requires k <= |b|
    ensures JsFilesFrom(dir, a + b, |a| + k) == JsFilesFrom(dir, b, k)
    decreases |b| - k
  {
    if k < |b| {
      assert (a + b)[|a| + k] == b[k];
      JsFilesFromShift(dir, a, b, k + 1);
    }
  }

  lemma {:induction false} JsFilesFromConcat(dir: Path, a: seq<Entry>, b: seq<Entry>, j: nat)
    requires j <= |a|
    ensures JsFilesFrom(dir, a + b, j) == JsFilesFrom(dir, a, j) + JsFiles(dir, b)
    decreases |a| - j
  {
    if j == |a| {
      JsFilesFromShift(dir, a, b, 0);
    } else {
      assert (a + b)[j] == a[j];
      JsFilesFromConcat(dir, a, b, j + 1);
    }
  }

  /** Walking two listings one after the other gives the two walks concatenated. */
  lemma JsFilesConcat(dir: Path, a: seq<Entry>, b: seq<Entry>)
    ensures JsFiles(dir, a + b) == JsFiles(dir, a) + JsFiles(dir, b)
  {
    JsFilesFromConcat(dir, a, b, 0);
  }

  /**
    Depth-first pre-order: the files of a subdirectory are spliced into the result at the
    position of that subdirectory's entry, between the files of the entries listed before
    it and those listed after it.
  */
  lemma JsFilesSplice(dir: Path, es: seq<Entry>, i: nat)
    requires i < |es| && es[i].node.Dir?
    ensures JsFiles(dir, es) ==
      JsFiles(dir, es[..i]) + JsFiles(dir + [es[i].name], es[i].node.entries) + JsFiles(dir, es[i + 1..])
  {
    assert es == es[..i] + ([es[i]] + es[i + 1..]);
    JsFilesConcat(dir, es[..i], [es[i]] + es[i + 1..]);
    JsFilesConcat(dir, [es[i]], es[i + 1..]);
    assert JsFiles(dir, [es[i]]) == EntryFiles(dir, es[i]) + JsFilesFrom(dir, [es[i]], 1);
  }

  /** The walk only lists directories: every call it logs is a `readdir`. */
  lemma {:induction false} ReadDirsFromOnly(dir: Path, es: seq<Entry>, i: nat)
    requires i <= |es|
    ensures forall k :: 0 <= k < |ReadDirsFrom(dir, es, i)| ==> ReadDirsFrom(dir, es, i)[k].ReadDirCall?
    decreases Dir(es), 0, |es| - i
  {
    if i < |es| {
      EntryReadDirsOnly(dir, es[i]);
      ReadDirsFromOnly(dir, es, i + 1);
    }
  }

  lemma {:induction false} EntryReadDirsOnly(dir: Path, e: Entry)
    ensures forall k :: 0 <= k < |EntryReadDirs(dir, e)| ==> EntryReadDirs(dir, e)[k].ReadDirCall?
    decreases e.node, 1
  {
    match e.node {
      case Dir(sub) => ReadDirsFromOnly(dir + [e.name], sub, 0);
      case File(_) =>
      case Other =>
    }
  }

  /** `listJsFiles` changes nothing and only logs `readdir` calls, the first of them on `dir`. */
  lemma ListOpOnlyLists(w: World, dir: Path)
    ensures ListOp(w, dir).0.root == w.root
    ensures |ListOp(w, dir).0.log| > |w.log| && ListOp(w, dir).0.log[..|w.log| + 1] == w.log + [ReadDirCall(dir)]
    ensures forall k :: |w.log| <= k < |ListOp(w, dir).0.log| ==> ListOp(w, dir).0.log[k].ReadDirCall?
  {
    var log := ListOp(w, dir).0.log;
    if Lookup(w.root, dir).Some? && Lookup(w.root, dir).value.Dir? {
      var es := Lookup(w.root, dir).value.entries;
      ReadDirsFromOnly(dir, es, 0);
      assert log == (w.log + [ReadDirCall(dir)]) + ReadDirsFrom(dir, es, 0);
      forall k | |w.log| + 1 <= k < |log| ensures log[k].ReadDirCall? {
        assert log[k] == ReadDirsFrom(dir, es, 0)[k - |w.log| - 1];
      }
    }
  }
  /** In particular the walk removes nothing. */
  lemma ListOpKeepsRemovals(w: World, dir: Path)
    ensures Removals(ListOp(w, dir).0.log) == Removals(w.log)
  {
    ListOpOnlyLists(w, dir);
    RemovalsUnchanged(w.log, ListOp(w, dir).0.log);
  }


  /**
    An example: below `/src`, a listing of `a.js`, a subdirectory `nested` holding `b.js`,
    `c.txt`, a symlink `link.js` and `.js` gives `/src/a.js` then `/src/nested/b.js`.
  */
  lemma ListingExample()
    ensures JsFiles(["src"], [Entry("a.js", File("1")),
                              Entry("nested", Dir([Entry("b.js", File("2"))])),
                              Entry("c.txt", File("3")),
                              Entry("link.js", Other),
                              Entry(".js", File("4"))])
            == [["src", "a.js"], ["src", "nested", "b.js"]]
  {
    var es := [Entry("a.js", File("1")), Entry("nested", Dir([Entry("b.js", File("2"))])),
               Entry("c.txt", File("3")), Entry("link.js", Other), Entry(".js", File("4"))];
    var src, nested := ["src"], ["src", "nested"];
    assert HasJsExtension("a.js") && HasJsExtension("b.js");
    assert !HasJsExtension("c.txt") && !HasJsExtension(".js");
    assert JsFilesFrom(src, es, 2) == [] by {
      assert JsFilesFrom(src, es, 5) == [];
      assert JsFilesFrom(src, es, 4) == [] + JsFilesFrom(src, es, 5);
      assert JsFilesFrom(src, es, 3) == [] + JsFilesFrom(src, es, 4);
      assert JsFilesFrom(src, es, 2) == [] + JsFilesFrom(src, es, 3);
    }
    var sub := [Entry("b.js", File("2"))];
    assert src + ["nested"] == nested;
    assert nested + ["b.js"] == ["src", "nested", "b.js"];
    assert src + ["a.js"] == ["src", "a.js"];
    assert EntryFiles(nested, sub[0]) == [["src", "nested", "b.js"]];
    assert JsFilesFrom(nested, sub, 0) == [["src", "nested", "b.js"]] + JsFilesFrom(nested, sub, 1);
    assert EntryFiles(src, es[1]) == [["src", "nested", "b.js"]];
    assert EntryFiles(src, es[0]) == [["src", "a.js"]];
    assert JsFilesFrom(src, es, 1) == [["src", "nested", "b.js"]] + [];
    assert JsFilesFrom(src, es, 0) == [["src", "a.js"]] + [["src", "nested", "b.js"]];
  }
}
