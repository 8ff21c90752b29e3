/**
  The process's outside world: the filesystem tree and the trace of everything the program
  did to it or through it (filesystem calls with their outcome, engine calls, output).
  Each operation is a pure function on a `World`; class `Host` performs them in place.
*/
module Io {
  import opened Wrappers
  import opened FileTree
  import opened NodePath
  import opened Engine

  datatype Event =
    | StatCall(path: Path)
    | ExistsCall(path: Path)
    | RemoveCall(path: Path)
    | ReadDirCall(path: Path)
    | ReadFileCall(path: Path)
    | StdinRead
    | EngineCall(code: string)
    | MkdirCall(path: Path, ok: bool)
    | WriteCall(path: Path, content: string, ok: bool)
    | StdoutWrite(text: string)
    | FailureReport(path: Path)
    | ModulesNote

  datatype World = World(root: Node, log: seq<Event>)

  /** What `stat` reports (it follows the entry; `Other` covers everything that is neither). */
  datatype Kind = RegularFile | Directory | OtherKind

  function Emit(w: World, e: Event): World {
    World(w.root, w.log + [e])
  }

  /** `stat(p)`: fails when nothing is at `p`. */
  function StatOp(w: World, p: Path): (World, Option<Kind>) {
    (Emit(w, StatCall(p)),
     match Lookup(w.root, p)
     case None => None
     case Some(File(_)) => Some(RegularFile)
     case Some(Dir(_)) => Some(Directory)
     case Some(Other) => Some(OtherKind))
  }

  /** `existsSync(p)`. */
  function ExistsOp(w: World, p: Path): (World, bool) {
    (Emit(w, ExistsCall(p)), Lookup(w.root, p).Some?)
  }

  /** `rm(p, { recursive: true, force: true })`. */
  function RemoveOp(w: World, p: Path): World {
    World(Remove(w.root, p), w.log + [RemoveCall(p)])
  }

  /** `readdir(p, { withFileTypes: true })`: fails unless `p` is a directory. */
  function ReadDirOp(w: World, p: Path): (World, Option<seq<Entry>>) {
    (Emit(w, ReadDirCall(p)),
     match Lookup(w.root, p)
     case Some(Dir(es)) => Some(es)
     case _ => None)
  }

  /** `readFile(p, 'utf8')`: fails unless `p` is a regular file. */
  function ReadFileOp(w: World, p: Path): (World, Option<string>) {
    (Emit(w, ReadFileCall(p)),
     match Lookup(w.root, p)
     case Some(File(c)) => Some(c)
     case _ => None)
  }

  /** `mkdir(p, { recursive: true })`. */
  function MkdirOp(w: World, p: Path): (World, bool) {
    match MakeDirs(w.root, p)
    case Some(r) => (World(r, w.log + [MkdirCall(p, true)]), true)
    case None => (World(w.root, w.log + [MkdirCall(p, false)]), false)
  }

  /** `writeFile(p, c, 'utf8')`. */
  function WriteOp(w: World, p: Path, c: string): (World, bool) {
    match WriteFile(w.root, p, c)
    case Some(r) => (World(r, w.log + [WriteCall(p, c, true)]), true)
    case None => (World(w.root, w.log + [WriteCall(p, c, false)]), false)
  }

  /**
    A save operation of the engine's result (`bundle.save(dir)`, `result.save(dir)`): each file
    is written below `dir` after its parent directory is created; the first failure throws
    and leaves what was already written. A module path that does not name a file strictly
    below `dir` is refused.
  */
  function SaveOp(w: World, dir: Path, ms: seq<Module>): (World, bool)
    decreases |ms|
  {
    if ms == [] then (w, true)
    else if ms[0].path == [] || !ValidPath(ms[0].path) then (w, false)
    else
      var target := dir + ms[0].path;
      var (w1, made) := MkdirOp(w, Dirname(target));
      if !made then (w1, false)
      else
        var (w2, wrote) := WriteOp(w1, target, ms[0].code);
        if !wrote then (w2, false) else SaveOp(w2, dir, ms[1..])
  }

  // ----- what the trace says about the tree -----

  /** The content of the last successful write to `p` in `log`. */
  function LastWrite(log: seq<Event>, p: Path): Option<string>
  {
    if log == [] then None
    else
      var e := log[|log| - 1];
      if e.WriteCall? && e.ok && e.path == p then Some(e.content)
      else LastWrite(log[..|log| - 1], p)
  }

  /** The paths removed, in order. */
  function Removals(log: seq<Event>): seq<Path> {
    if log == [] then []
    else
      var e := log[|log| - 1];
      Removals(log[..|log| - 1]) + (if e.RemoveCall? then [e.path] else [])
  }

  /** A continuation of `log` without removals removes nothing more. */
  lemma {:induction false} RemovalsUnchanged(log: seq<Event>, next: seq<Event>)
    requires |log| <= |next| && next[..|log|] == log
    requires forall i :: |log| <= i < |next| ==> !next[i].RemoveCall?
    ensures Removals(next) == Removals(log)
    decreases |next|
  {
    if |next| > |log| {
      assert next[..|next| - 1][..|log|] == log;
      RemovalsUnchanged(log, next[..|next| - 1]);
    } else {
      assert next == log;
    }
  }

  /** Every path successfully written in `log` holds what was written last. */
  ghost predicate Reflects(log: seq<Event>, root: Node) {
    forall p :: LastWrite(log, p).Some? ==> Lookup(root, p) == Some(File(LastWrite(log, p).value))
  }

  lemma {:induction false} LastWriteConcat(a: seq<Event>, b: seq<Event>, p: Path)
    ensures LastWrite(a + b, p) == if LastWrite(b, p).Some? then LastWrite(b, p) else LastWrite(a, p)
    decreases |b|
  {
    if b == [] {
      assert a + b == a;
    } else {
      assert (a + b)[..|a + b| - 1] == a + b[..|b| - 1];
      LastWriteConcat(a, b[..|b| - 1], p);
    }
  }

  /** Events other than successful writes do not change what was last written. */
  lemma LastWriteOther(log: seq<Event>, e: Event, p: Path)
    requires !(e.WriteCall? && e.ok)
    ensures LastWrite(log + [e], p) == LastWrite(log, p)
  {
    assert (log + [e])[..|log|] == log;
  }

  /** `w'` is `w` with more events recorded. */
  predicate Extends(w: World, w': World) {
    |w.log| <= |w'.log| && w'.log[..|w.log|] == w.log
  }

  lemma EmitReflects(w: World, e: Event, k: nat)
    requires k <= |w.log| && Reflects(w.log[k..], w.root) && !(e.WriteCall? && e.ok)
    ensures Extends(w, Emit(w, e))
    ensures Reflects(Emit(w, e).log[k..], w.root)
  {
    var d := w.log[k..];
    assert Emit(w, e).log[k..] == d + [e];
    forall q | LastWrite(d + [e], q).Some?
      ensures Lookup(w.root, q) == Some(File(LastWrite(d + [e], q).value))
    {
      LastWriteOther(d, e, q);
    }
  }

  lemma MkdirOpReflects(w: World, p: Path, k: nat)
    requires k <= |w.log| && Reflects(w.log[k..], w.root)
    ensures Extends(w, MkdirOp(w, p).0)
    ensures Reflects(MkdirOp(w, p).0.log[k..], MkdirOp(w, p).0.root)
  {
    var e := MkdirCall(p, MkdirOp(w, p).1);
    var d := w.log[k..];
    assert MkdirOp(w, p).0.log[k..] == d + [e];
    forall q | LastWrite(d + [e], q).Some?
      ensures Lookup(MkdirOp(w, p).0.root, q) == Some(File(LastWrite(d + [e], q).value))
    {
      LastWriteOther(d, e, q);
      if MkdirOp(w, p).1 {
        MakeDirsKeepsFiles(w.root, p, q, LastWrite(d, q).value);
      }
    }
  }

  lemma WriteOpReflects(w: World, p: Path, c: string, k: nat)
    requires k <= |w.log| && Reflects(w.log[k..], w.root)
    ensures Extends(w, WriteOp(w, p, c).0)
    ensures Reflects(WriteOp(w, p, c).0.log[k..], WriteOp(w, p, c).0.root)
  {
    var e := WriteCall(p, c, WriteOp(w, p, c).1);
    var d := w.log[k..];
    assert WriteOp(w, p, c).0.log[k..] == d + [e];
    forall q | LastWrite(d + [e], q).Some?
      ensures Lookup(WriteOp(w, p, c).0.root, q) == Some(File(LastWrite(d + [e], q).value))
    {
      assert (d + [e])[..|d|] == d;
      if WriteOp(w, p, c).1 {
        if q == p {
          WriteFileStores(w.root, p, c);
        } else {
          WriteFileKeepsFiles(w.root, p, c, q, LastWrite(d, q).value);
        }
      }
    }
  }

  /** A save only adds events, and keeps every successful write reflected in the tree. */
  lemma {:induction false} SaveOpReflects(w: World, dir: Path, ms: seq<Module>, k: nat)
    requires k <= |w.log| && Reflects(w.log[k..], w.root)
    ensures Extends(w, SaveOp(w, dir, ms).0)
    ensures Reflects(SaveOp(w, dir, ms).0.log[k..], SaveOp(w, dir, ms).0.root)
    decreases |ms|
  {
    if ms != [] && ms[0].path != [] && ValidPath(ms[0].path) {
      var target := dir + ms[0].path;
      var (w1, made) := MkdirOp(w, Dirname(target));
      MkdirOpReflects(w, Dirname(target), k);
      if made {
        var (w2, wrote) := WriteOp(w1, target, ms[0].code);
        WriteOpReflects(w1, target, ms[0].code, k);
        if wrote {
          SaveOpReflects(w2, dir, ms[1..], k);
          ExtendsTransitive(w, w2, SaveOp(w2, dir, ms[1..]).0);
        }
      }
    }
  }

  /** The world after a save has written its first module. */
  function SaveHead(w: World, dir: Path, m: Module): World {
    WriteOp(MkdirOp(w, Dirname(dir + m.path)).0, dir + m.path, m.code).0
  }

  /** A save that succeeds creates the first module's directory, writes it, then saves the rest. */
  lemma SaveOpUnfold(w: World, dir: Path, ms: seq<Module>)
    requires ms != [] && SaveOp(w, dir, ms).1
    ensures var w2 := SaveHead(w, dir, ms[0]);
      var target := dir + ms[0].path;
      w2.log == w.log + [MkdirCall(Dirname(target), true), WriteCall(target, ms[0].code, true)] &&
      SaveOp(w, dir, ms) == SaveOp(w2, dir, ms[1..])
  {
  }

  /**
    A save that succeeds leaves, for modules with distinct paths, each module's code as the
    last write to its path below `dir`, and writes nothing anywhere else.
  */
  lemma {:induction false} SaveOpStores(w: World, dir: Path, ms: seq<Module>)
    requires SaveOp(w, dir, ms).1
    requires DistinctPaths(ms)
    ensures Extends(w, SaveOp(w, dir, ms).0)
    ensures var d := SaveOp(w, dir, ms).0.log[|w.log|..];
      forall q :: LastWrite(d, q) == if exists j :: 0 <= j < |ms| && q == dir + ms[j].path then Some(SaveCode(dir, ms, q)) else None
    decreases |ms|
  {
    var next := SaveOp(w, dir, ms).0;
    if ms == [] {
      assert next.log[|w.log|..] == [];
    } else {
      var target := dir + ms[0].path;
      var w2 := SaveHead(w, dir, ms[0]);
      SaveOpUnfold(w, dir, ms);
      var head := [MkdirCall(Dirname(target), true), WriteCall(target, ms[0].code, true)];
      SaveOpStores(w2, dir, ms[1..]);
      var rest := next.log[|w2.log|..];
      SliceAfter(w.log, head, next.log);
      forall q ensures LastWrite(head + rest, q) ==
        if exists j :: 0 <= j < |ms| && q == dir + ms[j].path then Some(SaveCode(dir, ms, q)) else None
      {
        SaveStoresStep(dir, ms, rest, q);
      }
    }
  }

  /**
    A save that succeeds, of modules with distinct paths, leaves each module's code stored
    at its path below `dir`.
  */
  lemma SaveOpLeavesFiles(w: World, dir: Path, ms: seq<Module>)
    requires SaveOp(w, dir, ms).1
    requires DistinctPaths(ms)
    ensures forall j :: 0 <= j < |ms| ==> Lookup(SaveOp(w, dir, ms).0.root, dir + ms[j].path) == Some(File(ms[j].code))
  {
    var next := SaveOp(w, dir, ms).0;
    assert w.log[|w.log|..] == [];
    SaveOpReflects(w, dir, ms, |w.log|);
    SaveOpStores(w, dir, ms);
    forall j | 0 <= j < |ms| ensures Lookup(next.root, dir + ms[j].path) == Some(File(ms[j].code)) {
      SaveCodeAt(dir, ms, j);
    }
  }

  /** Distinct module paths: each path's saved code is that module's. */
  lemma {:induction false} SaveCodeAt(dir: Path, ms: seq<Module>, j: nat)
    requires j < |ms| && DistinctPaths(ms)
    ensures SaveCode(dir, ms, dir + ms[j].path) == ms[j].code
  {
    if j > 0 {
      assert dir + ms[j].path != dir + ms[0].path by {
        assert (dir + ms[j].path)[|dir|..] == ms[j].path;
        assert (dir + ms[0].path)[|dir|..] == ms[0].path;
      }
      assert ms[1..][j - 1] == ms[j];
      SaveCodeAt(dir, ms[1..], j - 1);
    }
  }

  lemma SliceAfter(a: seq<Event>, h: seq<Event>, b: seq<Event>)
    requires |a + h| <= |b| && b[..|a + h|] == a + h
    ensures |a| <= |b| && b[..|a|] == a && b[|a|..] == h + b[|a + h|..]
  {
    assert b[..|a|] == b[..|a + h|][..|a|];
    assert b == b[..|a + h|] + b[|a + h|..];
  }

  lemma SaveStoresStep(dir: Path, ms: seq<Module>, rest: seq<Event>, q: Path)
    requires ms != []
    requires DistinctPaths(ms)
    requires LastWrite(rest, q) ==
      if exists j :: 0 <= j < |ms| - 1 && q == dir + ms[1..][j].path then Some(SaveCode(dir, ms[1..], q)) else None
    ensures var target := dir + ms[0].path;
      LastWrite([MkdirCall(Dirname(target), true), WriteCall(target, ms[0].code, true)] + rest, q) ==
      if exists j :: 0 <= j < |ms| && q == dir + ms[j].path then Some(SaveCode(dir, ms, q)) else None
  {
    var target := dir + ms[0].path;
    LastWriteConcat([MkdirCall(Dirname(target), true), WriteCall(target, ms[0].code, true)], rest, q);
    LastWritePair(Dirname(target), target, ms[0].code, q);
    SaveCodeTail(dir, ms, q);
  }

  /** The code of the module saved at `q`, the first one whose path leads there. */
  function SaveCode(dir: Path, ms: seq<Module>, q: Path): string {
    if ms == [] then "" else if q == dir + ms[0].path then ms[0].code else SaveCode(dir, ms[1..], q)
  }

  lemma SaveCodeTail(dir: Path, ms: seq<Module>, q: Path)
    requires ms != []
    requires DistinctPaths(ms)
    ensures (exists j :: 0 <= j < |ms| && q == dir + ms[j].path) <==>
      q == dir + ms[0].path || exists j :: 0 <= j < |ms| - 1 && q == dir + ms[1..][j].path
    ensures q == dir + ms[0].path ==> forall j :: 0 <= j < |ms| - 1 ==> q != dir + ms[1..][j].path
  {
    if exists j :: 0 <= j < |ms| && q == dir + ms[j].path {
      var j :| 0 <= j < |ms| && q == dir + ms[j].path;
      if j > 0 {
        assert ms[1..][j - 1] == ms[j];
      }
    }
    if exists j :: 0 <= j < |ms| - 1 && q == dir + ms[1..][j].path {
      var j :| 0 <= j < |ms| - 1 && q == dir + ms[1..][j].path;
      assert ms[1..][j] == ms[j + 1];
    }
    if q == dir + ms[0].path {
      forall j | 0 <= j < |ms| - 1 ensures q != dir + ms[1..][j].path {
        assert ms[1..][j] == ms[j + 1];
        assert (dir + ms[j + 1].path)[|dir|..] == ms[j + 1].path;
        assert q[|dir|..] == ms[0].path;
      }
    }
  }

  lemma LastWritePair(d: Path, p: Path, c: string, q: Path)
    ensures LastWrite([MkdirCall(d, true), WriteCall(p, c, true)], q) == if q == p then Some(c) else None
  {
    var log := [MkdirCall(d, true), WriteCall(p, c, true)];
    assert log[..|log| - 1] == [MkdirCall(d, true)];
    assert [MkdirCall(d, true)][..0] == [];
    assert LastWrite([MkdirCall(d, true)], q) == None;
  }

  lemma ExtendsTransitive(a: World, b: World, c: World)
    requires Extends(a, b) && Extends(b, c)
    ensures Extends(a, c)
  {
    assert c.log[..|a.log|] == c.log[..|b.log|][..|a.log|];
  }

  /** An event a save may log below `dir`: creating a directory or writing a file there. */
  predicate SaveEvent(e: Event, dir: Path) {
    (e.MkdirCall? || e.WriteCall?) && IsPrefix(dir, e.path)
  }

  /** A save only creates directories and writes files, and all of them lie below `dir`. */
  lemma {:induction false} SaveOpStaysBelow(w: World, dir: Path, ms: seq<Module>)
    ensures Extends(w, SaveOp(w, dir, ms).0)
    ensures forall i :: |w.log| <= i < |SaveOp(w, dir, ms).0.log| ==> SaveEvent(SaveOp(w, dir, ms).0.log[i], dir)
    decreases |ms|
  {
    var next := SaveOp(w, dir, ms).0;
    if ms != [] && ms[0].path != [] && ValidPath(ms[0].path) {
      var target := dir + ms[0].path;
      var d := Dirname(target);
      assert IsPrefix(dir, d) by {
        assert d[..|dir|] == target[..|dir|];
      }
      var (w1, made) := MkdirOp(w, d);
      assert w1.log == w.log + [MkdirCall(d, made)];
      if !made {
        assert next == w1;
      } else {
        var (w2, wrote) := WriteOp(w1, target, ms[0].code);
        assert w2.log == w1.log + [WriteCall(target, ms[0].code, wrote)];
        assert IsPrefix(dir, target);
        if !wrote {
          assert next == w2;
        } else {
          assert next == SaveOp(w2, dir, ms[1..]).0;
          SaveOpStaysBelow(w2, dir, ms[1..]);
          assert Extends(w, w2);
          ExtendsTransitive(w, w2, next);
          forall i | |w.log| <= i < |next.log| ensures SaveEvent(next.log[i], dir) {
            if i < |w2.log| {
              assert next.log[i] == next.log[..|w2.log|][i] == w2.log[i];
            }
          }
        }
      }
    }
  }

  /** A save leaves every regular file outside `dir` as it was. */
  lemma {:induction false} SaveOpKeepsOutside(w: World, dir: Path, ms: seq<Module>, q: Path)
    requires !IsPrefix(dir, q) && Lookup(w.root, q).Some? && Lookup(w.root, q).value.File?
    ensures Lookup(SaveOp(w, dir, ms).0.root, q) == Lookup(w.root, q)
    decreases |ms|
  {
    if ms != [] && ms[0].path != [] && ValidPath(ms[0].path) {
      var target := dir + ms[0].path;
      assert target[..|dir|] == dir;
      var (w1, made) := MkdirOp(w, Dirname(target));
      if made {
        MakeDirsKeepsFiles(w.root, Dirname(target), q, Lookup(w.root, q).value.content);
        var (w2, wrote) := WriteOp(w1, target, ms[0].code);
        if wrote {
          WriteFileKeepsFiles(w1.root, target, ms[0].code, q, Lookup(w.root, q).value.content);
          SaveOpKeepsOutside(w2, dir, ms[1..], q);
        }
      }
    }
  }

  // ----- the operations keep the tree well formed -----

  lemma {:induction false} SaveOpWellFormed(w: World, dir: Path, ms: seq<Module>)
    requires WellFormed(w.root)
    ensures WellFormed(SaveOp(w, dir, ms).0.root)
    decreases |ms|
  {
    if ms != [] && ms[0].path != [] && ValidPath(ms[0].path) {
      var target := dir + ms[0].path;
      var (w1, made) := MkdirOp(w, Dirname(target));
      if made {
        MakeDirsWellFormed(w.root, Dirname(target));
        var (w2, wrote) := WriteOp(w1, target, ms[0].code);
        if wrote {
          WriteFileWellFormed(w1.root, target, ms[0].code);
          SaveOpWellFormed(w2, dir, ms[1..]);
        }
      }
    }
  }

  /**
    The process's environment, updated in place: the filesystem tree and the trace.
    Each method is one call the program makes.
  */
  class Host {
    var root: Node
    var log: seq<Event>

    function State(): World
      reads this
    {
      World(root, log)
    }

    predicate Valid()
      reads this
    {
      WellFormed(root)
    }

    constructor (root: Node)
      requires WellFormed(root)
      ensures Valid() && State() == World(root, [])
    {
      this.root := root;
      this.log := [];
    }

    method Record(e: Event)
      requires Valid()
      modifies this
      ensures Valid() && State() == Emit(old(State()), e)
    {
      log := log + [e];
    }

    method Stat(p: Path) returns (k: Option<Kind>)
      requires Valid()
      modifies this
      ensures Valid() && (State(), k) == StatOp(old(State()), p)
    {
      var r := StatOp(State(), p);
      k := r.1;
      log := r.0.log;
    }

    method Exists(p: Path) returns (b: bool)
      requires Valid()
      modifies this
      ensures Valid() && (State(), b) == ExistsOp(old(State()), p)
    {
      b := Lookup(root, p).Some?;
      log := log + [ExistsCall(p)];
    }

    method Rm(p: Path)
      requires Valid()
      modifies this
      ensures Valid() && State() == RemoveOp(old(State()), p)
    {
      RemoveWellFormed(root, p);
      root := Remove(root, p);
      log := log + [RemoveCall(p)];
    }

    method ReadDir(p: Path) returns (es: Option<seq<Entry>>)
      requires Valid()
      modifies this
      ensures Valid() && (State(), es) == ReadDirOp(old(State()), p)
    {
      var r := ReadDirOp(State(), p);
      es := r.1;
      log := r.0.log;
    }

    method ReadFile(p: Path) returns (c: Option<string>)
      requires Valid()
      modifies this
      ensures Valid() && (State(), c) == ReadFileOp(old(State()), p)
    {
      var r := ReadFileOp(State(), p);
      c := r.1;
      log := r.0.log;
    }

    /** `await webcrack(code, options)`. */
    method Invoke(transform: Transform, code: string, options: Options) returns (r: Option<Processed>)
      requires Valid()
      modifies this
      ensures Valid() && State() == Emit(old(State()), EngineCall(code))
      ensures r == transform(code, options)
    {
      r := transform(code, options);
      log := log + [EngineCall(code)];
    }

    method Mkdir(p: Path) returns (ok: bool)
      requires Valid()
      modifies this
      ensures Valid() && (State(), ok) == MkdirOp(old(State()), p)
    {
      var made := MakeDirs(root, p);
      ok := made.Some?;
      if ok {
        MakeDirsWellFormed(root, p);
        root := made.value;
      }
      log := log + [MkdirCall(p, ok)];
    }

    method WriteFile(p: Path, c: string) returns (ok: bool)
      requires Valid()
      modifies this
      ensures Valid() && (State(), ok) == WriteOp(old(State()), p, c)
    {
      var written := FileTree.WriteFile(root, p, c);
      ok := written.Some?;
      if ok {
        WriteFileWellFormed(root, p, c);
        root := written.value;
      }
      log := log + [WriteCall(p, c, ok)];
    }

    /** `bundle.save(dir)` or `result.save(dir)`: opaque to the program, performed as one step. */
    method Save(dir: Path, ms: seq<Module>) returns (ok: bool)
      requires Valid()
      modifies this
      ensures Valid() && (State(), ok) == SaveOp(old(State()), dir, ms)
    {
      SaveOpWellFormed(State(), dir, ms);
      var r := SaveOp(State(), dir, ms);
      ok := r.1;
      root, log := r.0.root, r.0.log;
    }
  }
}
