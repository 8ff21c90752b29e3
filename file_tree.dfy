/**
  An abstract filesystem: a tree of directories whose listings are ordered, the way
  `readdir` returns them. A path is the sequence of segment names below the root.
  The primitives `mkdir -p`, `writeFile` and `rm -rf` are pure functions on the tree.
*/
module FileTree {
  import opened Wrappers

  type Name = string
  type Path = seq<Name>

  /** `Other` is any entry that is neither a regular file nor a directory (a symlink, a socket). */
  datatype Node = File(content: string) | Dir(entries: seq<Entry>) | Other
  datatype Entry = Entry(name: Name, node: Node)

  /** A name a directory entry can have: no separator, not empty, not `.` or `..`. */
  predicate ValidName(name: Name) {
    name != "" && name != "." && name != ".." && '/' !in name
  }

  predicate ValidPath(p: Path) {
    forall i :: 0 <= i < |p| ==> ValidName(p[i])
  }

  /** No element occurs twice. */
  predicate Distinct<T(==)>(s: seq<T>) {
    forall a, b :: 0 <= a < b < |s| ==> s[a] != s[b]
  }

  predicate IsPrefix(p: Path, q: Path) {
    |p| <= |q| && q[..|p|] == p
  }

  predicate UniqueNames(es: seq<Entry>) {
    forall i, j :: 0 <= i < j < |es| ==> es[i].name != es[j].name
  }

  /** What every real directory tree satisfies: names in a directory are valid and distinct. */
  predicate WellFormed(n: Node) {
    match n
    case Dir(es) =>
      UniqueNames(es) && forall i :: 0 <= i < |es| ==> ValidName(es[i].name) && WellFormed(es[i].node)
    case _ => true
  }

  /** The index of the first entry called `name`. */
  function Find(es: seq<Entry>, name: Name): (r: Option<nat>)
    ensures r.Some? ==> r.value < |es| && es[r.value].name == name
    ensures r.Some? ==> forall j :: 0 <= j < r.value ==> es[j].name != name
    ensures r.None? ==> forall j :: 0 <= j < |es| ==> es[j].name != name
  {
    if es == [] then None
    else if es[0].name == name then Some(0)
    else match Find(es[1..], name)
      case None => None
      case Some(i) => Some(i + 1)
  }

  /** The node a path leads to, if any. */
  function Lookup(n: Node, p: Path): Option<Node>
  {
    if p == [] then Some(n)
    else match n
      case Dir(es) =>
        (match Find(es, p[0])
         case Some(i) => Lookup(es[i].node, p[1..])
         case None => None)
      case _ => None
  }

  /** A chain of fresh, empty directories along `p`. */
  function Chain(p: Path): (n: Node)
    ensures n.Dir?
  {
    if p == [] then Dir([]) else Dir([Entry(p[0], Chain(p[1..]))])
  }

  /**
    `mkdir(p, { recursive: true })`: succeeds when `p` already is a directory, creates the
    missing directories along `p`, and fails when a segment is taken by a non-directory.
  */
  function MakeDirs(n: Node, p: Path): (r: Option<Node>)
  {
    if p == [] then (if n.Dir? then Some(n) else None)
    else match n
      case Dir(es) =>
        (match Find(es, p[0])
         case None => if ValidPath(p) then Some(Dir(es + [Entry(p[0], Chain(p[1..]))])) else None
         case Some(i) =>
           (match MakeDirs(es[i].node, p[1..])
            case None => None
            case Some(m) => Some(Dir(es[i := Entry(p[0], m)]))))
      case _ => None
  }

  /**
    `writeFile(p, c)`: replaces a regular file or creates one in an existing directory;
    fails when the parent is missing or not a directory, or `p` names a directory.
  */
  function WriteFile(n: Node, p: Path, c: string): (r: Option<Node>)
  {
    if p == [] then None
    else match n
      case Dir(es) =>
        (match Find(es, p[0])
         case None =>
           if |p| == 1 && ValidName(p[0]) then Some(Dir(es + [Entry(p[0], File(c))])) else None
         case Some(i) =>
           if |p| == 1 then
             (if es[i].node.File? then Some(Dir(es[i := Entry(p[0], File(c))])) else None)
           else
             (match WriteFile(es[i].node, p[1..], c)
              case None => None
              case Some(m) => Some(Dir(es[i := Entry(p[0], m)]))))
      case _ => None
  }

  /** `rm(p, { recursive: true, force: true })`: a missing path is not an error. */
  function Remove(n: Node, p: Path): Node
  {
    if p == [] then Dir([])
    else match n
      case Dir(es) =>
        (match Find(es, p[0])
         case None => n
         case Some(i) =>
           if |p| == 1 then Dir(es[..i] + es[i + 1..])
           else Dir(es[i := Entry(p[0], Remove(es[i].node, p[1..]))]))
      case _ => n
  }

  // ----- how lookups see the primitives -----

  /** Looking a name up depends only on the names of the entries. */
  lemma FindSameNames(es: seq<Entry>, fs: seq<Entry>, name: Name)
    requires |es| == |fs|
    requires forall j :: 0 <= j < |es| ==> es[j].name == fs[j].name
    ensures Find(es, name) == Find(fs, name)
  {
  }

  /** A name appended to a listing is found only where no earlier entry has it. */
  lemma FindAppend(es: seq<Entry>, e: Entry, name: Name)
    ensures Find(es + [e], name) ==
      if Find(es, name).Some? then Find(es, name) else if e.name == name then Some(|es|) else None
  {
    assert forall j :: 0 <= j < |es| ==> (es + [e])[j] == es[j];
    if Find(es, name).Some? {
      assert (es + [e])[Find(es, name).value].name == name;
    } else {
      assert (es + [e])[|es|] == e;
    }
  }

  /** Replacing the node of an entry keeps every lookup of a name where it was. */
  lemma FindReplaced(es: seq<Entry>, i: nat, x: Node, name: Name)
    requires i < |es|
    ensures Find(es[i := Entry(es[i].name, x)], name) == Find(es, name)
  {
    FindSameNames(es, es[i := Entry(es[i].name, x)], name);
  }

  /** In a directory with distinct names, each entry is found by its own name. */
  lemma FindUnique(es: seq<Entry>, i: nat)
    requires UniqueNames(es) && i < |es|
    ensures Find(es, es[i].name) == Some(i)
  {
  }

  /** Resolving `p + q` is resolving `p`, then `q` from there. */
  lemma {:induction false} LookupConcat(n: Node, p: Path, q: Path)
    ensures Lookup(n, p + q) == match Lookup(n, p) case Some(m) => Lookup(m, q) case None => None
  {
    if p == [] {
      assert p + q == q;
    } else {
      assert (p + q)[0] == p[0] && (p + q)[1..] == p[1..] + q;
      match n {
        case Dir(es) =>
          match Find(es, p[0]) {
            case Some(i) => LookupConcat(es[i].node, p[1..], q);
            case None =>
          }
        case _ =>
      }
    }
  }

  /** In a well-formed tree, the child entry of a directory is reached by appending its name. */
  lemma LookupChild(n: Node, p: Path, es: seq<Entry>, i: nat)
    requires WellFormed(n) && Lookup(n, p) == Some(Dir(es)) && i < |es|
    ensures Lookup(n, p + [es[i].name]) == Some(es[i].node)
  {
    LookupConcat(n, p, [es[i].name]);
    WellFormedBelow(n, p);
    FindUnique(es, i);
  }

  /** Every subtree of a well-formed tree is well formed. */
  lemma {:induction false} WellFormedBelow(n: Node, p: Path)
    requires WellFormed(n) && Lookup(n, p).Some?
    ensures WellFormed(Lookup(n, p).value)
  {
    if p != [] {
      var i := Find(n.entries, p[0]).value;
      WellFormedBelow(n.entries[i].node, p[1..]);
    }
  }

  /** After `writeFile(p, c)` succeeds, `p` holds `c`. */
  lemma {:induction false} WriteFileStores(n: Node, p: Path, c: string)
    requires WriteFile(n, p, c).Some?
    ensures Lookup(WriteFile(n, p, c).value, p) == Some(File(c))
  {
    var es := n.entries;
    match Find(es, p[0])
    case None =>
      FindAppend(es, Entry(p[0], File(c)), p[0]);
    case Some(i) =>
      if |p| == 1 {
        FindReplaced(es, i, File(c), p[0]);
      } else {
        var m := WriteFile(es[i].node, p[1..], c).value;
        FindReplaced(es, i, m, p[0]);
        WriteFileStores(es[i].node, p[1..], c);
      }
  }

  /** `writeFile(p, _)` leaves every other regular file as it was. */
  lemma {:induction false} WriteFileKeepsFiles(n: Node, p: Path, c: string, q: Path, d: string)
    requires WriteFile(n, p, c).Some? && Lookup(n, q) == Some(File(d)) && q != p
    ensures Lookup(WriteFile(n, p, c).value, q) == Some(File(d))
  {
    var es := n.entries;
    var m := WriteFile(n, p, c).value;
    assert q != [];
    match Find(es, p[0])
    case None =>
      FindAppend(es, Entry(p[0], File(c)), q[0]);
    case Some(i) =>
      var x := if |p| == 1 then File(c) else WriteFile(es[i].node, p[1..], c).value;
      assert m == Dir(es[i := Entry(p[0], x)]);
      FindReplaced(es, i, x, q[0]);
      if q[0] == p[0] && |p| > 1 && |q| > 1 {
        assert q[1..] != p[1..];
        WriteFileKeepsFiles(es[i].node, p[1..], c, q[1..], d);
      }
  }

  /** `mkdir -p` never changes a regular file. */
  lemma {:induction false} MakeDirsKeepsFiles(n: Node, p: Path, q: Path, d: string)
    requires MakeDirs(n, p).Some? && Lookup(n, q) == Some(File(d))
    ensures Lookup(MakeDirs(n, p).value, q) == Some(File(d))
  {
    if p != [] {
      var es := n.entries;
      match Find(es, p[0])
      case None =>
        FindAppend(es, Entry(p[0], Chain(p[1..])), q[0]);
      case Some(i) =>
        var x := MakeDirs(es[i].node, p[1..]).value;
        FindReplaced(es, i, x, q[0]);
        if q[0] == p[0] {
          MakeDirsKeepsFiles(es[i].node, p[1..], q[1..], d);
        }
    }
  }

  /** After a successful `mkdir -p`, the path is a directory. */
  lemma {:induction false} MakeDirsMakesDir(n: Node, p: Path)
    requires MakeDirs(n, p).Some?
    ensures Lookup(MakeDirs(n, p).value, p).Some? && Lookup(MakeDirs(n, p).value, p).value.Dir?
  {
    if p != [] {
      var es := n.entries;
      match Find(es, p[0])
      case None =>
        FindAppend(es, Entry(p[0], Chain(p[1..])), p[0]);
        ChainLeadsToDir(p[1..]);
      case Some(i) =>
        var x := MakeDirs(es[i].node, p[1..]).value;
        FindReplaced(es, i, x, p[0]);
        MakeDirsMakesDir(es[i].node, p[1..]);
    }
  }

  lemma {:induction false} ChainLeadsToDir(p: Path)
    ensures Lookup(Chain(p), p) == Some(Dir([]))
  {
    if p != [] {
      ChainLeadsToDir(p[1..]);
    }
  }

  // ----- when `mkdir -p` and `writeFile` succeed -----

  /** Every node met along `p`, from the root down to `p` itself, is a directory. */
  predicate DirsAlong(n: Node, p: Path) {
    forall k :: 0 <= k <= |p| && Lookup(n, p[..k]).Some? ==> Lookup(n, p[..k]).value.Dir?
  }

  /**
    `p` can take a regular file once its parent is made: every node met on the way to the
    parent is a directory, and `p` itself is absent or a regular file.
  */
  predicate Writable(n: Node, p: Path) {
    p != [] && DirsAlong(n, p[..|p| - 1]) && (Lookup(n, p).None? || Lookup(n, p).value.File?)
  }

  /** A node below a directory entry is looked up from that entry's node. */
  lemma DirsAlongStep(n: Node, p: Path)
    requires n.Dir? && p != [] && Find(n.entries, p[0]).Some?
    ensures DirsAlong(n, p) <==> DirsAlong(n.entries[Find(n.entries, p[0]).value].node, p[1..])
  {
    var child := n.entries[Find(n.entries, p[0]).value].node;
    assert p[..0] == [];
    forall k | 0 <= k < |p| ensures Lookup(n, p[..k + 1]) == Lookup(child, p[1..][..k]) {
      assert p[..k + 1][0] == p[0] && p[..k + 1][1..] == p[1..][..k];
    }
    if DirsAlong(child, p[1..]) {
      forall k | 0 <= k <= |p| && Lookup(n, p[..k]).Some? ensures Lookup(n, p[..k]).value.Dir? {
        if k > 0 {
          assert Lookup(n, p[..k]) == Lookup(child, p[1..][..k - 1]);
        }
      }
    }
    if DirsAlong(n, p) {
      forall k | 0 <= k <= |p[1..]| && Lookup(child, p[1..][..k]).Some? ensures Lookup(child, p[1..][..k]).value.Dir? {
        assert Lookup(n, p[..k + 1]) == Lookup(child, p[1..][..k]);
      }
    }
  }

  /**
    `mkdir -p` succeeds exactly when every node along the path is a directory (the names it
    has to create being valid): it fails on a regular file or other entry in the way.
  */
  lemma {:induction false} MakeDirsSucceeds(n: Node, p: Path)
    ensures MakeDirs(n, p).Some? ==> DirsAlong(n, p)
    ensures ValidPath(p) && DirsAlong(n, p) ==> MakeDirs(n, p).Some?
  {
    assert p[..0] == [];
    if p != [] && n.Dir? {
      var es := n.entries;
      match Find(es, p[0])
      case None =>
        forall k | 0 < k <= |p| ensures Lookup(n, p[..k]).None? {
          assert p[..k][0] == p[0];
        }
      case Some(i) =>
        DirsAlongStep(n, p);
        MakeDirsSucceeds(es[i].node, p[1..]);
    }
  }

  /**
    `writeFile(p, c)` succeeds exactly when the parent of `p` is a directory and `p` is
    either absent (with a valid last name) or a regular file.
  */
  lemma {:induction false} WriteFileSucceeds(n: Node, p: Path, c: string)
    ensures WriteFile(n, p, c).Some? <==>
      p != [] && Lookup(n, p[..|p| - 1]).Some? && Lookup(n, p[..|p| - 1]).value.Dir? &&
      match Lookup(n, p)
      case None => ValidName(p[|p| - 1])
      case Some(x) => x.File?
  {
    if p != [] {
      assert p[..0] == [];
      if |p| > 1 {
        assert p[..|p| - 1][0] == p[0];
      }
      if n.Dir? && |p| > 1 {
        var es := n.entries;
        match Find(es, p[0])
        case None =>
        case Some(i) =>
          assert p[..|p| - 1][1..] == p[1..][..|p[1..]| - 1];
          assert p[|p| - 1] == p[1..][|p[1..]| - 1];
          WriteFileSucceeds(es[i].node, p[1..], c);
      }
    }
  }

  /** At a chain of fresh directories, only directories along the chain are found. */
  lemma {:induction false} ChainLookup(p: Path, q: Path)
    requires Lookup(Chain(p), q).Some?
    ensures IsPrefix(q, p) && Lookup(Chain(p), q).value.Dir?
  {
    if q != [] {
      assert p != [] && q[0] == p[0];
      ChainLookup(p[1..], q[1..]);
      assert p[..|q|] == [p[0]] + p[1..][..|q| - 1];
    }
  }

  /**
    `mkdir -p p` adds only directories, all of them along `p`: every node it leaves that is
    not a directory was there before, and every node it adds lies on the way to `p`.
  */
  lemma {:induction false} MakeDirsAddsOnlyDirs(n: Node, p: Path, q: Path)
    requires MakeDirs(n, p).Some? && Lookup(MakeDirs(n, p).value, q).Some?
    ensures !Lookup(MakeDirs(n, p).value, q).value.Dir? ==> Lookup(n, q) == Lookup(MakeDirs(n, p).value, q)
    ensures Lookup(n, q).None? ==> IsPrefix(q, p)
  {
    if p != [] && q != [] {
      var es := n.entries;
      match Find(es, p[0])
      case None =>
        FindAppend(es, Entry(p[0], Chain(p[1..])), q[0]);
        if q[0] == p[0] {
          ChainLookup(p[1..], q[1..]);
          assert p[..|q|] == [p[0]] + p[1..][..|q| - 1];
        }
      case Some(i) =>
        var x := MakeDirs(es[i].node, p[1..]).value;
        FindReplaced(es, i, x, q[0]);
        if q[0] == p[0] {
          MakeDirsAddsOnlyDirs(es[i].node, p[1..], q[1..]);
          if Lookup(n, q).None? {
            assert p[..|q|] == [p[0]] + p[1..][..|q| - 1];
          }
        }
    }
  }

  /**
    `writeFile(p, _)` adds nothing but `p`: every other node it leaves was there before, and
    one that is not a directory is unchanged.
  */
  lemma {:induction false} WriteFileAddsOnlyAt(n: Node, p: Path, c: string, q: Path)
    requires WriteFile(n, p, c).Some? && q != p && Lookup(WriteFile(n, p, c).value, q).Some?
    ensures Lookup(n, q).Some?
    ensures !Lookup(WriteFile(n, p, c).value, q).value.Dir? ==> Lookup(n, q) == Lookup(WriteFile(n, p, c).value, q)
  {
    if q != [] {
      var es := n.entries;
      assert q == [q[0]] + q[1..] && p == [p[0]] + p[1..];
      match Find(es, p[0])
      case None =>
        FindAppend(es, Entry(p[0], File(c)), q[0]);
      case Some(i) =>
        var x := if |p| == 1 then File(c) else WriteFile(es[i].node, p[1..], c).value;
        FindReplaced(es, i, x, q[0]);
        if q[0] == p[0] && |p| > 1 {
          WriteFileAddsOnlyAt(es[i].node, p[1..], c, q[1..]);
        }
    }
  }

  /** `mkdir -p d` keeps a path writable unless that path lies on the way to `d`. */
  lemma MakeDirsKeepsWritable(n: Node, d: Path, p: Path)
    requires MakeDirs(n, d).Some? && Writable(n, p) && !IsPrefix(p, d)
    ensures Writable(MakeDirs(n, d).value, p)
  {
    var m := MakeDirs(n, d).value;
    var up := p[..|p| - 1];
    forall k | 0 <= k <= |up| && Lookup(m, up[..k]).Some? ensures Lookup(m, up[..k]).value.Dir? {
      MakeDirsAddsOnlyDirs(n, d, up[..k]);
    }
    if Lookup(m, p).Some? {
      MakeDirsAddsOnlyDirs(n, d, p);
      if Lookup(n, p).Some? {
        MakeDirsKeepsFiles(n, d, p, Lookup(n, p).value.content);
      }
    }
  }

  /** `writeFile(q, _)` keeps a path writable unless `q` lies on the way to it or is it. */
  lemma WriteFileKeepsWritable(n: Node, q: Path, c: string, p: Path)
    requires WriteFile(n, q, c).Some? && Writable(n, p) && !IsPrefix(q, p)
    ensures Writable(WriteFile(n, q, c).value, p)
  {
    var m := WriteFile(n, q, c).value;
    var up := p[..|p| - 1];
    forall k | 0 <= k <= |up| && Lookup(m, up[..k]).Some? ensures Lookup(m, up[..k]).value.Dir? {
      assert up[..k] == p[..k];
      assert up[..k] != q;
      WriteFileAddsOnlyAt(n, q, c, up[..k]);
    }
    if Lookup(m, p).Some? {
      WriteFileAddsOnlyAt(n, q, c, p);
      WriteFileKeepsFiles(n, q, c, p, Lookup(n, p).value.content);
    }
  }

  /** On a writable path with valid names, `mkdir -p` of its parent and then `writeFile` both succeed. */
  lemma WritableSucceeds(n: Node, p: Path, c: string)
    requires Writable(n, p) && ValidPath(p)
    ensures MakeDirs(n, p[..|p| - 1]).Some?
    ensures WriteFile(MakeDirs(n, p[..|p| - 1]).value, p, c).Some?
  {
    var d := p[..|p| - 1];
    MakeDirsSucceeds(n, d);
    var m := MakeDirs(n, d).value;
    MakeDirsMakesDir(n, d);
    if Lookup(m, p).Some? {
      MakeDirsAddsOnlyDirs(n, d, p);
      if Lookup(n, p).Some? {
        MakeDirsKeepsFiles(n, d, p, Lookup(n, p).value.content);
      }
    }
    WriteFileSucceeds(m, p, c);
  }

  /** Nothing lies below a node that is not a directory. */
  lemma LookupBelowLeaf(n: Node, p: Path, q: Path)
    requires Lookup(n, p).Some? && !Lookup(n, p).value.Dir? && Lookup(n, q).Some?
    ensures IsPrefix(p, q) ==> q == p
  {
    if IsPrefix(p, q) {
      assert q == p + q[|p|..];
      LookupConcat(n, p, q[|p|..]);
    }
  }

  /**
    When `d` is absent and every node on the way to it is a directory, every path strictly
    below `d` is writable.
  */
  lemma AbsentWritable(n: Node, d: Path, p: Path)
    requires d != [] && Lookup(n, d).None? && DirsAlong(n, d[..|d| - 1])
    requires IsPrefix(d, p) && |p| > |d|
    ensures Writable(n, p)
  {
    forall k | |d| <= k <= |p| ensures Lookup(n, p[..k]).None? {
      assert p[..k] == d + p[..k][|d|..];
      LookupConcat(n, d, p[..k][|d|..]);
    }
    var up := p[..|p| - 1];
    forall k | 0 <= k <= |up| && Lookup(n, up[..k]).Some? ensures Lookup(n, up[..k]).value.Dir? {
      assert up[..k] == p[..k];
      if k < |d| {
        assert p[..k] == d[..|d| - 1][..k];
      }
    }
    assert p[..|p|] == p;
  }

  /** After `rm -rf p`, nothing is found at `p`. */
  lemma {:induction false} RemoveRemoves(n: Node, p: Path)
    requires WellFormed(n) && p != []
    ensures Lookup(Remove(n, p), p) == None
  {
    match n {
      case Dir(es) =>
        match Find(es, p[0]) {
          case None =>
          case Some(i) =>
            if |p| == 1 {
              var rest := es[..i] + es[i + 1..];
              assert forall j :: 0 <= j < |rest| ==> rest[j].name != p[0];
            } else {
              FindReplaced(es, i, Remove(es[i].node, p[1..]), p[0]);
              RemoveRemoves(es[i].node, p[1..]);
            }
        }
      case _ =>
    }
  }

  /** Deleting an entry with another name keeps every lookup of `name` on the same entry. */
  lemma FindRemoved(es: seq<Entry>, i: nat, name: Name)
    requires i < |es| && es[i].name != name
    ensures var rest := es[..i] + es[i + 1..];
      match Find(es, name)
      case None => Find(rest, name).None?
      case Some(j) => Find(rest, name).Some? && rest[Find(rest, name).value] == es[j]
  {
    var rest := es[..i] + es[i + 1..];
    assert forall k :: 0 <= k < |rest| ==> rest[k] == if k < i then es[k] else es[k + 1];
    match Find(es, name)
    case None =>
    case Some(j) =>
      var k := if j < i then j else j - 1;
      assert rest[k] == es[j];
  }

  /** `rm -rf p` leaves every path that is neither below `p` nor above it where it was. */
  lemma {:induction false} RemoveKeeps(n: Node, p: Path, q: Path)
    requires !IsPrefix(p, q) && !IsPrefix(q, p) && Lookup(n, q).Some?
    ensures Lookup(Remove(n, p), q) == Lookup(n, q)
  {
    assert q != [] && p != [];
    var es := n.entries;
    match Find(es, p[0]) {
      case None =>
      case Some(i) =>
        if q[0] != p[0] {
          if |p| == 1 {
            FindRemoved(es, i, q[0]);
          } else {
            FindReplaced(es, i, Remove(es[i].node, p[1..]), q[0]);
          }
        } else {
          assert q[..1] == [q[0]] && p[..1] == [p[0]];
          assert !IsPrefix(p[1..], q[1..]) by {
            if |p| <= |q| {
              assert q[..|p|] == [q[0]] + q[1..][..|p| - 1];
            }
          }
          assert !IsPrefix(q[1..], p[1..]) by {
            if |q| <= |p| {
              assert p[..|q|] == [p[0]] + p[1..][..|q| - 1];
            }
          }
          FindReplaced(es, i, Remove(es[i].node, p[1..]), q[0]);
          RemoveKeeps(es[i].node, p[1..], q[1..]);
        }
    }
  }

  /** `rm -rf p` leaves every regular file that is not below `p` as it was. */
  lemma {:induction false} RemoveKeepsFiles(n: Node, p: Path, q: Path)
    requires !IsPrefix(p, q) && Lookup(n, q).Some? && Lookup(n, q).value.File?
    ensures Lookup(Remove(n, p), q) == Lookup(n, q)
  {
    if q != [] {
      var es := n.entries;
      match Find(es, p[0]) {
        case None =>
        case Some(i) =>
          if q[0] != p[0] {
            if |p| == 1 {
              FindRemoved(es, i, q[0]);
            } else {
              FindReplaced(es, i, Remove(es[i].node, p[1..]), q[0]);
            }
          } else {
            assert q[..1] == [q[0]];
            assert !IsPrefix(p[1..], q[1..]) by {
              if |p| <= |q| {
                assert q[..|p|] == [q[0]] + q[1..][..|p| - 1];
              }
            }
            FindReplaced(es, i, Remove(es[i].node, p[1..]), q[0]);
            RemoveKeepsFiles(es[i].node, p[1..], q[1..]);
          }
      }
    }
  }

  /**
    `rm -rf` never creates or changes a regular file, nor any other entry that is not a
    directory: every such entry it leaves was there before.
  */
  lemma {:induction false} RemoveAddsNoFiles(n: Node, p: Path, q: Path)
    requires WellFormed(n) && Lookup(Remove(n, p), q).Some? && !Lookup(Remove(n, p), q).value.Dir?
    ensures Lookup(n, q) == Lookup(Remove(n, p), q)
  {
    if p != [] && q != [] && n.Dir? {
      var es := n.entries;
      match Find(es, p[0]) {
        case None =>
        case Some(i) =>
          if |p| == 1 {
            if q[0] != p[0] {
              FindRemoved(es, i, q[0]);
            }
          } else {
            var x := Remove(es[i].node, p[1..]);
            FindReplaced(es, i, x, q[0]);
            if q[0] == p[0] {
              if |q| == 1 {
                assert !x.Dir?;
                assert es[i].node.Dir? ==> x.Dir?;
              } else {
                RemoveAddsNoFiles(es[i].node, p[1..], q[1..]);
              }
            }
          }
      }
    }
  }

  /** `rm -rf` puts nothing but directories in the way: a path with only directories along it keeps that. */
  lemma RemoveKeepsDirsAlong(n: Node, p: Path, d: Path)
    requires WellFormed(n) && DirsAlong(n, d)
    ensures DirsAlong(Remove(n, p), d)
  {
    var r := Remove(n, p);
    forall k | 0 <= k <= |d|
      ensures Lookup(r, d[..k]).Some? && !Lookup(r, d[..k]).value.Dir? ==> Lookup(n, d[..k]) == Lookup(r, d[..k])
    {
      if Lookup(r, d[..k]).Some? && !Lookup(r, d[..k]).value.Dir? {
        RemoveAddsNoFiles(n, p, d[..k]);
      }
    }
  }

  // ----- the primitives keep the tree well formed -----

  lemma ChainWellFormed(p: Path)
    requires ValidPath(p)
    ensures WellFormed(Chain(p))
  {
    if p != [] {
      ChainWellFormed(p[1..]);
    }
  }

  lemma {:induction false} MakeDirsWellFormed(n: Node, p: Path)
    requires WellFormed(n) && MakeDirs(n, p).Some?
    ensures WellFormed(MakeDirs(n, p).value)
  {
    if p != [] {
      var es := n.entries;
      match Find(es, p[0])
      case None =>
        ChainWellFormed(p[1..]);
        var es' := es + [Entry(p[0], Chain(p[1..]))];
        assert forall j :: 0 <= j < |es| ==> es'[j] == es[j];
      case Some(i) =>
        MakeDirsWellFormed(es[i].node, p[1..]);
    }
  }

  lemma {:induction false} WriteFileWellFormed(n: Node, p: Path, c: string)
    requires WellFormed(n) && WriteFile(n, p, c).Some?
    ensures WellFormed(WriteFile(n, p, c).value)
  {
    var es := n.entries;
    match Find(es, p[0])
    case None =>
      var es' := es + [Entry(p[0], File(c))];
      assert forall j :: 0 <= j < |es| ==> es'[j] == es[j];
    case Some(i) =>
      if |p| > 1 {
        WriteFileWellFormed(es[i].node, p[1..], c);
      }
  }

  lemma {:induction false} RemoveWellFormed(n: Node, p: Path)
    requires WellFormed(n)
    ensures WellFormed(Remove(n, p))
  {
    if p != [] {
      match n {
        case Dir(es) =>
          match Find(es, p[0]) {
            case None =>
            case Some(i) =>
              if |p| == 1 {
                var rest := es[..i] + es[i + 1..];
                assert forall j :: 0 <= j < |rest| ==> rest[j] == if j < i then es[j] else es[j + 1];
              } else {
                RemoveWellFormed(es[i].node, p[1..]);
              }
          }
        case _ =>
      }
    }
  }

  /** In a well-formed tree, every path that leads somewhere is made of valid names. */
  lemma {:induction false} LookupValidPath(n: Node, p: Path)
    requires WellFormed(n) && Lookup(n, p).Some?
    ensures ValidPath(p)
  {
    if p != [] {
      var i := Find(n.entries, p[0]).value;
      LookupValidPath(n.entries[i].node, p[1..]);
      assert p == [p[0]] + p[1..];
    }
  }
}
