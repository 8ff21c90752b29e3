/**
  The directory batch: every discovered file is read, transformed and written to its
  mirrored place below the output directory, each inside its own try/catch, so that a
  failure on one file is reported and the loop goes on with the next.
*/
module Batch {
  import opened Wrappers
  import opened FileTree
  import opened NodePath
  import opened Engine
  import opened Io
  import opened Discovery

  /** The call of the per-file try block that threw. */
  datatype Stage = Reading | Transforming | MakingDir | Writing | SavingBundle

  /** How one file ended: its output written (as `code` at `outFile`), or caught at a stage. */
  datatype Status = Written(outFile: Path, code: string) | Failed(stage: Stage)

  /**
    One iteration of the loop: the try block on `file` and, when one of its calls throws,
    the catch block.
  */
  function StepOp(w: World, absIn: Path, absOut: Path, file: Path, t: Transform, opts: Options): (World, Status) {
    var (w1, code) := ReadFileOp(w, file);
    if code.None? then Caught(w1, file, Reading)
    else
      var w2 := Emit(w1, EngineCall(code.value));
      match t(code.value, opts)
      case None => Caught(w2, file, Transforming)
      case Some(result) => OutputOp(w2, file, OutFile(absIn, absOut, file), result)
  }

  /** The catch block: the failure is reported and the loop moves on. */
  function Caught(w: World, file: Path, stage: Stage): (World, Status) {
    (Emit(w, FailureReport(file)), Failed(stage))
  }

  /** The rest of the try block once the engine returned: create `outDir`, then write the output. */
  function OutputOp(w: World, file: Path, outFile: Path, result: Processed): (World, Status) {
    var (w3, made) := MkdirOp(w, Dirname(outFile));
    if !made then Caught(w3, file, MakingDir)
    else WriteOutputOp(w3, file, outFile, result)
  }

  /** Once `outDir` exists: write `outFile`, then save the bundle into `outDir`. */
  function WriteOutputOp(w: World, file: Path, outFile: Path, result: Processed): (World, Status) {
    var (w4, wrote) := WriteOp(w, outFile, result.code);
    if !wrote then Caught(w4, file, Writing)
    else
      match result.bundle
      case None => (w4, Written(outFile, result.code))
      case Some(b) =>
        var (w5, saved) := SaveOp(w4, Dirname(outFile), b.modules);
        if !saved then Caught(w5, file, SavingBundle)
        else (w5, Written(outFile, result.code))
  }

  /** The whole loop over `files`, in order: the final world and each file's status. */
  function BatchOp(w: World, absIn: Path, absOut: Path, files: seq<Path>, t: Transform, opts: Options): (r: (World, seq<Status>))
    ensures |r.1| == |files|
    decreases |files|
  {
    if files == [] then (w, [])
    else
      var (w1, done) := BatchOp(w, absIn, absOut, files[..|files| - 1], t, opts);
      var (w2, s) := StepOp(w1, absIn, absOut, files[|files| - 1], t, opts);
      (w2, done + [s])
  }

  method ProcessFile(host: Host, absIn: Path, absOut: Path, file: Path, t: Transform, opts: Options)
      returns (status: Status)
    requires host.Valid()
    modifies host
    ensures host.Valid() && (host.State(), status) == StepOp(old(host.State()), absIn, absOut, file, t, opts)
  {
    var code := host.ReadFile(file);
    if code.None? {
      host.Record(FailureReport(file));
      return Failed(Reading);
    }
    var r := host.Invoke(t, code.value, opts);
    if r.None? {
      host.Record(FailureReport(file));
      return Failed(Transforming);
    }
    var result := r.value;
    var outFile := OutFile(absIn, absOut, file);
    var outDir := OutDir(absIn, absOut, file);
    var made := host.Mkdir(outDir);
    if !made {
      host.Record(FailureReport(file));
      return Failed(MakingDir);
    }
    var wrote := host.WriteFile(outFile, result.code);
    if !wrote {
      host.Record(FailureReport(file));
      return Failed(Writing);
    }
    if result.bundle.Some? {
      var saved := host.Save(outDir, result.bundle.value.modules);
      if !saved {
        host.Record(FailureReport(file));
        return Failed(SavingBundle);
      }
    }
    status := Written(outFile, result.code);
  }

  method ProcessBatch(host: Host, absIn: Path, absOut: Path, files: seq<Path>, t: Transform, opts: Options)
      returns (statuses: seq<Status>)
    requires host.Valid()
    modifies host
    ensures host.Valid() && (host.State(), statuses) == BatchOp(old(host.State()), absIn, absOut, files, t, opts)
  {
    ghost var w0 := host.State();
    statuses := [];
    for i := 0 to |files|
      invariant host.Valid()
      invariant (host.State(), statuses) == BatchOp(w0, absIn, absOut, files[..i], t, opts)
    {
      assert files[..i + 1][..i] == files[..i];
      var s := ProcessFile(host, absIn, absOut, files[i], t, opts);
      statuses := statuses + [s];
    }
    assert files[..|files|] == files;
  }

  // ----- projections of the trace -----

  /** The files read, in the order they were read. */
  function ReadsOf(log: seq<Event>): seq<Path> {
    if log == [] then []
    else
      var e := log[|log| - 1];
      ReadsOf(log[..|log| - 1]) + (if e.ReadFileCall? then [e.path] else [])
  }

  /** The files reported as failed, in the order they were reported. */
  function ReportsOf(log: seq<Event>): seq<Path> {
    if log == [] then []
    else
      var e := log[|log| - 1];
      ReportsOf(log[..|log| - 1]) + (if e.FailureReport? then [e.path] else [])
  }

  /** The files whose status is a failure, in order. */
  function FailedOf(files: seq<Path>, statuses: seq<Status>): seq<Path>
    requires |files| == |statuses|
  {
    if files == [] then []
    else
      var n := |files| - 1;
      FailedOf(files[..n], statuses[..n]) + (if statuses[n].Failed? then [files[n]] else [])
  }

  /** The events that a step of the batch may log. */
  predicate BatchEvent(e: Event) {
    e.ReadFileCall? || e.EngineCall? || e.MkdirCall? || e.WriteCall? || e.FailureReport?
  }

  /**
    `next` continues `log` with events of the batch only, reading the files `read` and
    reporting the files `reported` on the way.
  */
  ghost predicate Traced(log: seq<Event>, next: seq<Event>, read: seq<Path>, reported: seq<Path>) {
    |log| <= |next| && next[..|log|] == log &&
    (forall i :: |log| <= i < |next| ==> BatchEvent(next[i])) &&
    ReadsOf(next) == ReadsOf(log) + read && ReportsOf(next) == ReportsOf(log) + reported
  }

  lemma TracedEvent(log: seq<Event>, e: Event)
    requires BatchEvent(e)
    ensures Traced(log, log + [e], if e.ReadFileCall? then [e.path] else [], if e.FailureReport? then [e.path] else [])
  {
    assert (log + [e])[..|log|] == log;
  }

  lemma TracedNothing(log: seq<Event>)
    ensures Traced(log, log, [], [])
  {
    assert log[..|log|] == log;
  }

  lemma TracedThen(a: seq<Event>, b: seq<Event>, c: seq<Event>, r1: seq<Path>, p1: seq<Path>, r2: seq<Path>, p2: seq<Path>)
    requires Traced(a, b, r1, p1) && Traced(b, c, r2, p2)
    ensures Traced(a, c, r1 + r2, p1 + p2)
  {
    assert c[..|a|] == c[..|b|][..|a|];
    forall i | |a| <= i < |c| ensures BatchEvent(c[i]) {
      if i < |b| {
        assert c[i] == c[..|b|][i];
      }
    }
  }

  /** A save only creates directories and writes files. */
  lemma {:induction false} SaveTraced(w: World, dir: Path, ms: seq<Module>)
    ensures Traced(w.log, SaveOp(w, dir, ms).0.log, [], [])
    decreases |ms|
  {
    if ms != [] && ms[0].path != [] && ValidPath(ms[0].path) {
      var target := dir + ms[0].path;
      var (w1, made) := MkdirOp(w, Dirname(target));
      TracedEvent(w.log, MkdirCall(Dirname(target), made));
      if made {
        var (w2, wrote) := WriteOp(w1, target, ms[0].code);
        TracedEvent(w1.log, WriteCall(target, ms[0].code, wrote));
        TracedThen(w.log, w1.log, w2.log, [], [], [], []);
        if wrote {
          SaveTraced(w2, dir, ms[1..]);
          TracedThen(w.log, w2.log, SaveOp(w2, dir, ms[1..]).0.log, [], [], [], []);
        }
      }
    } else {
      TracedNothing(w.log);
    }
  }

  lemma CaughtTraced(w: World, file: Path, stage: Stage)
    ensures Traced(w.log, Caught(w, file, stage).0.log, [], [file])
  {
    TracedEvent(w.log, FailureReport(file));
  }

  lemma OutputTraced(w: World, file: Path, outFile: Path, result: Processed)
    ensures Traced(w.log, OutputOp(w, file, outFile, result).0.log, [],
      if OutputOp(w, file, outFile, result).1.Failed? then [file] else [])
  {
    AppendEmpty([file]);
    var (w3, made) := MkdirOp(w, Dirname(outFile));
    TracedEvent(w.log, MkdirCall(Dirname(outFile), made));
    if !made {
      CaughtTraced(w3, file, MakingDir);
      TracedThen(w.log, w3.log, Caught(w3, file, MakingDir).0.log, [], [], [], [file]);
    } else {
      var r := WriteOutputOp(w3, file, outFile, result);
      WriteOutputTraced(w3, file, outFile, result);
      TracedThen(w.log, w3.log, r.0.log, [], [], [], if r.1.Failed? then [file] else []);
    }
  }

  lemma WriteOutputTraced(w: World, file: Path, outFile: Path, result: Processed)
    ensures Traced(w.log, WriteOutputOp(w, file, outFile, result).0.log, [],
      if WriteOutputOp(w, file, outFile, result).1.Failed? then [file] else [])
  {
    AppendEmpty([file]);
    var (w4, wrote) := WriteOp(w, outFile, result.code);
    TracedEvent(w.log, WriteCall(outFile, result.code, wrote));
    if !wrote {
      CaughtTraced(w4, file, Writing);
      TracedThen(w.log, w4.log, Caught(w4, file, Writing).0.log, [], [], [], [file]);
    } else if result.bundle.Some? {
      var (w5, saved) := SaveOp(w4, Dirname(outFile), result.bundle.value.modules);
      SaveTraced(w4, Dirname(outFile), result.bundle.value.modules);
      TracedThen(w.log, w4.log, w5.log, [], [], [], []);
      if !saved {
        CaughtTraced(w5, file, SavingBundle);
        TracedThen(w.log, w5.log, Caught(w5, file, SavingBundle).0.log, [], [], [], [file]);
      }
    }
  }

  /** One step reads `file` once, and reports it exactly when the step failed. */
  lemma StepTraced(w: World, absIn: Path, absOut: Path, file: Path, t: Transform, opts: Options)
    ensures Traced(w.log, StepOp(w, absIn, absOut, file, t, opts).0.log, [file],
      if StepOp(w, absIn, absOut, file, t, opts).1.Failed? then [file] else [])
  {
    var (w1, code) := ReadFileOp(w, file);
    TracedEvent(w.log, ReadFileCall(file));
    AppendEmpty([file]);
    if code.None? {
      CaughtTraced(w1, file, Reading);
      TracedThen(w.log, w1.log, Caught(w1, file, Reading).0.log, [file], [], [], [file]);
    } else {
      var w2 := Emit(w1, EngineCall(code.value));
      TracedEvent(w1.log, EngineCall(code.value));
      TracedThen(w.log, w1.log, w2.log, [file], [], [], []);
      match t(code.value, opts)
      case None =>
        CaughtTraced(w2, file, Transforming);
        TracedThen(w.log, w2.log, Caught(w2, file, Transforming).0.log, [file], [], [], [file]);
      case Some(result) =>
        var outFile := OutFile(absIn, absOut, file);
        OutputTraced(w2, file, outFile, result);
        TracedThen(w.log, w2.log, OutputOp(w2, file, outFile, result).0.log, [file], [],
          [], if OutputOp(w2, file, outFile, result).1.Failed? then [file] else []);
    }
  }

  /**
    One failure never blocks the files after it: the batch reads every listed file, once
    and in list order, reports exactly the files that failed, in order, and makes no call
    other than reads, engine calls, directory creations, writes and reports.
  */
  lemma {:induction false} BatchTraced(w: World, absIn: Path, absOut: Path, files: seq<Path>, t: Transform, opts: Options)
    ensures Traced(w.log, BatchOp(w, absIn, absOut, files, t, opts).0.log, files,
      FailedOf(files, BatchOp(w, absIn, absOut, files, t, opts).1))
    decreases |files|
  {
    if files == [] {
      TracedNothing(w.log);
    } else {
      var n := |files| - 1;
      var (w1, done) := BatchOp(w, absIn, absOut, files[..n], t, opts);
      var (next, s) := StepOp(w1, absIn, absOut, files[n], t, opts);
      var statuses := done + [s];
      var failed := FailedOf(files[..n], done);
      var own := if s.Failed? then [files[n]] else [];
      assert BatchOp(w, absIn, absOut, files, t, opts) == (next, statuses);
      assert FailedOf(files, statuses) == failed + own by {
        assert statuses[..n] == done;
      }
      LastSplit(files);
      BatchTraced(w, absIn, absOut, files[..n], t, opts);
      StepTraced(w1, absIn, absOut, files[n], t, opts);
      TracedThen(w.log, w1.log, next.log, files[..n], failed, [files[n]], own);
    }
  }

  /** In particular the batch never removes anything and never prints. */
  lemma BatchNeverRemoves(w: World, absIn: Path, absOut: Path, files: seq<Path>, t: Transform, opts: Options)
    ensures forall i :: |w.log| <= i < |BatchOp(w, absIn, absOut, files, t, opts).0.log| ==>
      var e := BatchOp(w, absIn, absOut, files, t, opts).0.log[i];
      !e.RemoveCall? && !e.StdoutWrite? && !e.ReadDirCall? && !e.StatCall?
    ensures Removals(BatchOp(w, absIn, absOut, files, t, opts).0.log) == Removals(w.log)
  {
    var next := BatchOp(w, absIn, absOut, files, t, opts).0;
    BatchTraced(w, absIn, absOut, files, t, opts);
    RemovalsUnchanged(w.log, next.log);
  }

  // ----- what each step does to the tree -----

  /**
    How a step ends: it fails at the read exactly when `file` cannot be read, at the engine
    exactly when the engine throws on the code read, and a written output is always the
    engine's code at the mapped path. A file that cannot be read or transformed leaves the
    tree as it was: nothing is created or written for it.
  */
  lemma StepOutcome(w: World, absIn: Path, absOut: Path, file: Path, t: Transform, opts: Options)
    ensures var s := StepOp(w, absIn, absOut, file, t, opts).1;
      var code := ReadFileOp(w, file).1;
      (s == Failed(Reading) <==> code.None?) &&
      (s == Failed(Transforming) <==> code.Some? && t(code.value, opts).None?) &&
      (s.Written? ==> code.Some? && t(code.value, opts).Some? &&
                      s == Written(OutFile(absIn, absOut, file), t(code.value, opts).value.code))
    ensures var code := ReadFileOp(w, file).1;
      code.Some? && t(code.value, opts).Some? ==>
        (StepOp(w, absIn, absOut, file, t, opts).1.Written? <==>
         OutputSucceeds(Transformed(w, file, code.value), OutFile(absIn, absOut, file), t(code.value, opts).value))
    ensures var s := StepOp(w, absIn, absOut, file, t, opts).1;
      s in {Failed(Reading), Failed(Transforming)} ==> StepOp(w, absIn, absOut, file, t, opts).0.root == w.root
  {
    var code := ReadFileOp(w, file).1;
    if code.Some? && t(code.value, opts).Some? {
      var outFile := OutFile(absIn, absOut, file);
      var r := t(code.value, opts).value;
      var w2 := Transformed(w, file, code.value);
      assert StepOp(w, absIn, absOut, file, t, opts) == OutputOp(w2, file, outFile, r);
      var (w3, made) := MkdirOp(w2, Dirname(outFile));
      if made {
        assert OutputOp(w2, file, outFile, r) == WriteOutputOp(w3, file, outFile, r);
      }
    }
  }

  /** The world in which the try block has read `file` and called the engine on its `code`. */
  function Transformed(w: World, file: Path, code: string): World {
    Emit(Emit(w, ReadFileCall(file)), EngineCall(code))
  }

  /**
    Once the engine returned `r`, every remaining call of the try block succeeds: `mkdir`
    of `outDir`, the write of `outFile` and, when there is a bundle, its save into `outDir`.
  */
  predicate OutputSucceeds(w: World, outFile: Path, r: Processed) {
    var (w3, made) := MkdirOp(w, Dirname(outFile));
    var (w4, wrote) := WriteOp(w3, outFile, r.code);
    made && wrote && (r.bundle.Some? ==> SaveOp(w4, Dirname(outFile), r.bundle.value.modules).1)
  }

  /** A written status names the mapped output path of its file. */
  lemma StepWrittenAt(w: World, absIn: Path, absOut: Path, file: Path, t: Transform, opts: Options)
    ensures var s := StepOp(w, absIn, absOut, file, t, opts).1;
      s.Written? ==> s.outFile == OutFile(absIn, absOut, file)
  {
  }

  /**
    When the engine returns a bundle and the primary file is written, the step logs the read,
    the engine call, the creation of `outDir` and the write of `outFile`, in that order, and
    after them only the bundle's own directory creations and writes, all below `outDir`, and
    at most the report of a failed save as the very last event.
  */
  lemma StepBundleAfterPrimary(w: World, absIn: Path, absOut: Path, file: Path, t: Transform, opts: Options)
    requires ReadFileOp(w, file).1.Some?
    requires var r := t(ReadFileOp(w, file).1.value, opts); r.Some? && r.value.bundle.Some?
    requires var r := t(ReadFileOp(w, file).1.value, opts).value;
      var outFile := OutFile(absIn, absOut, file);
      var w2 := World(w.root, w.log + [ReadFileCall(file), EngineCall(ReadFileOp(w, file).1.value)]);
      MkdirOp(w2, Dirname(outFile)).1 && WriteOp(MkdirOp(w2, Dirname(outFile)).0, outFile, r.code).1
    ensures var code := ReadFileOp(w, file).1.value;
      var r := t(code, opts).value;
      var log := StepOp(w, absIn, absOut, file, t, opts).0.log;
      var outFile := OutFile(absIn, absOut, file);
      |log| >= |w.log| + 4 &&
      log[..|w.log| + 4] == w.log + [ReadFileCall(file), EngineCall(code),
                                     MkdirCall(Dirname(outFile), true), WriteCall(outFile, r.code, true)] &&
      forall i :: |w.log| + 4 <= i < |log| ==>
        SaveEvent(log[i], Dirname(outFile)) || (i == |log| - 1 && log[i] == FailureReport(file))
  {
    var code := ReadFileOp(w, file).1.value;
    var r := t(code, opts).value;
    var outFile := OutFile(absIn, absOut, file);
    var outDir := Dirname(outFile);
    var w2 := Emit(ReadFileOp(w, file).0, EngineCall(code));
    assert w2 == World(w.root, w.log + [ReadFileCall(file), EngineCall(code)]);
    var w3 := MkdirOp(w2, outDir).0;
    var w4 := WriteOp(w3, outFile, r.code).0;
    assert w4.log == w.log + [ReadFileCall(file), EngineCall(code), MkdirCall(outDir, true), WriteCall(outFile, r.code, true)];
    var (w5, saved) := SaveOp(w4, outDir, r.bundle.value.modules);
    SaveOpStaysBelow(w4, outDir, r.bundle.value.modules);
    var log := StepOp(w, absIn, absOut, file, t, opts).0.log;
    assert log == if saved then w5.log else w5.log + [FailureReport(file)];
    assert log[..|w4.log|] == w4.log by {
      assert log[..|w4.log|] == w5.log[..|w4.log|];
    }
    forall i | |w4.log| <= i < |log|
      ensures SaveEvent(log[i], outDir) || (i == |log| - 1 && log[i] == FailureReport(file))
    {
      if i < |w5.log| {
        assert log[i] == w5.log[i];
      }
    }
  }

  /** Every step keeps what was last written reflected in the tree. */
  lemma OutputReflects(w: World, file: Path, outFile: Path, result: Processed, k: nat)
    requires k <= |w.log| && Reflects(w.log[k..], w.root)
    ensures |OutputOp(w, file, outFile, result).0.log| >= |w.log|
    ensures Reflects(OutputOp(w, file, outFile, result).0.log[k..], OutputOp(w, file, outFile, result).0.root)
  {
    OutputTraced(w, file, outFile, result);
    var outDir := Dirname(outFile);
    var (w3, made) := MkdirOp(w, outDir);
    MkdirOpReflects(w, outDir, k);
    if !made {
      EmitReflects(w3, FailureReport(file), k);
    } else {
      var (w4, wrote) := WriteOp(w3, outFile, result.code);
      WriteOpReflects(w3, outFile, result.code, k);
      if !wrote {
        EmitReflects(w4, FailureReport(file), k);
      } else if result.bundle.Some? {
        var (w5, saved) := SaveOp(w4, outDir, result.bundle.value.modules);
        SaveOpReflects(w4, outDir, result.bundle.value.modules, k);
        if !saved {
          EmitReflects(w5, FailureReport(file), k);
        }
      }
    }
  }

  lemma StepReflects(w: World, absIn: Path, absOut: Path, file: Path, t: Transform, opts: Options, k: nat)
    requires k <= |w.log| && Reflects(w.log[k..], w.root)
    ensures |StepOp(w, absIn, absOut, file, t, opts).0.log| >= |w.log|
    ensures Reflects(StepOp(w, absIn, absOut, file, t, opts).0.log[k..], StepOp(w, absIn, absOut, file, t, opts).0.root)
  {
    StepTraced(w, absIn, absOut, file, t, opts);
    var (w1, code) := ReadFileOp(w, file);
    EmitReflects(w, ReadFileCall(file), k);
    if code.None? {
      EmitReflects(w1, FailureReport(file), k);
    } else {
      var w2 := Emit(w1, EngineCall(code.value));
      EmitReflects(w1, EngineCall(code.value), k);
      match t(code.value, opts)
      case None => EmitReflects(w2, FailureReport(file), k);
      case Some(result) => OutputReflects(w2, file, OutFile(absIn, absOut, file), result, k);
    }
  }

  /**
    Last write wins: after the batch, every path written successfully since position `k` of
    the trace holds the content of the last write to it.
  */
  lemma {:induction false} BatchReflects(w: World, absIn: Path, absOut: Path, files: seq<Path>, t: Transform, opts: Options, k: nat)
    requires k <= |w.log| && Reflects(w.log[k..], w.root)
    ensures |BatchOp(w, absIn, absOut, files, t, opts).0.log| >= |w.log|
    ensures Reflects(BatchOp(w, absIn, absOut, files, t, opts).0.log[k..], BatchOp(w, absIn, absOut, files, t, opts).0.root)
    decreases |files|
  {
    BatchTraced(w, absIn, absOut, files, t, opts);
    if files != [] {
      var n := |files| - 1;
      var w1 := BatchOp(w, absIn, absOut, files[..n], t, opts).0;
      BatchReflects(w, absIn, absOut, files[..n], t, opts, k);
      BatchTraced(w, absIn, absOut, files[..n], t, opts);
      StepReflects(w1, absIn, absOut, files[n], t, opts, k);
    }
  }

  // ----- each file's own outcome -----

  /** The status of the `i`-th file is that of its step, taken in the world the files before it left. */
  lemma {:induction false} BatchStatusAt(w: World, absIn: Path, absOut: Path, files: seq<Path>, t: Transform, opts: Options, i: nat)
    requires i < |files|
    ensures BatchOp(w, absIn, absOut, files, t, opts).1[i] ==
      StepOp(BatchOp(w, absIn, absOut, files[..i], t, opts).0, absIn, absOut, files[i], t, opts).1
    decreases |files|
  {
    var n := |files| - 1;
    var (w1, done) := BatchOp(w, absIn, absOut, files[..n], t, opts);
    var s := StepOp(w1, absIn, absOut, files[n], t, opts).1;
    assert BatchOp(w, absIn, absOut, files, t, opts).1 == done + [s];
    if i < n {
      BatchStatusAt(w, absIn, absOut, files[..n], t, opts, i);
      assert files[..n][..i] == files[..i] && files[..n][i] == files[i];
      assert (done + [s])[i] == done[i];
    } else {
      assert (done + [s])[i] == s;
    }
  }

  /** Every listed file lies strictly below the input root, by valid names. */
  ghost predicate BelowInput(absIn: Path, files: seq<Path>) {
    forall i :: 0 <= i < |files| ==> |files[i]| > |absIn| && IsPrefix(absIn, files[i]) && ValidPath(files[i][|absIn|..])
  }

  /** A step creates and writes only below the output root: every regular file outside it stays as it was. */
  lemma StepKeepsOutside(w: World, absIn: Path, absOut: Path, file: Path, t: Transform, opts: Options, q: Path)
    requires |file| > |absIn| && IsPrefix(absIn, file) && ValidPath(file[|absIn|..]) && ValidPath(absOut)
    requires !IsPrefix(absOut, q) && Lookup(w.root, q).Some? && Lookup(w.root, q).value.File?
    ensures Lookup(StepOp(w, absIn, absOut, file, t, opts).0.root, q) == Lookup(w.root, q)
  {
    var code := ReadFileOp(w, file).1;
    if code.Some? && t(code.value, opts).Some? {
      var r := t(code.value, opts).value;
      var outFile := OutFile(absIn, absOut, file);
      var outDir := Dirname(outFile);
      OutFileMirrors(absIn, absOut, file);
      assert outDir[..|absOut|] == absOut;
      var d := Lookup(w.root, q).value.content;
      var w2 := Transformed(w, file, code.value);
      var (w3, made) := MkdirOp(w2, outDir);
      if made {
        MakeDirsKeepsFiles(w2.root, outDir, q, d);
        var (w4, wrote) := WriteOp(w3, outFile, r.code);
        if wrote {
          WriteFileKeepsFiles(w3.root, outFile, r.code, q, d);
          if r.bundle.Some? {
            SaveOpKeepsOutside(w4, outDir, r.bundle.value.modules, q);
          }
        }
      }
    }
  }

  /** The whole batch keeps every regular file outside the output root as it was. */
  lemma {:induction false} BatchKeepsOutside(w: World, absIn: Path, absOut: Path, files: seq<Path>, t: Transform, opts: Options, q: Path)
    requires BelowInput(absIn, files) && ValidPath(absOut)
    requires !IsPrefix(absOut, q) && Lookup(w.root, q).Some? && Lookup(w.root, q).value.File?
    ensures Lookup(BatchOp(w, absIn, absOut, files, t, opts).0.root, q) == Lookup(w.root, q)
    decreases |files|
  {
    if files != [] {
      var n := |files| - 1;
      assert BelowInput(absIn, files[..n]) by {
        forall i | 0 <= i < n ensures files[..n][i] == files[i] {
        }
      }
      BatchKeepsOutside(w, absIn, absOut, files[..n], t, opts, q);
      StepKeepsOutside(BatchOp(w, absIn, absOut, files[..n], t, opts).0, absIn, absOut, files[n], t, opts, q);
    }
  }

  /** The listed files, as the batch finds them: regular files below the input root and outside the output root. */
  ghost predicate Sources(root: Node, absIn: Path, absOut: Path, files: seq<Path>) {
    Mirrorable(absIn, absOut, files) && BelowInput(absIn, files) &&
    forall i :: 0 <= i < |files| ==>
      !IsPrefix(absOut, files[i]) && Lookup(root, files[i]).Some? && Lookup(root, files[i]).value.File?
  }

  /**
    What becomes of each listed file, in terms of its content `c` before the batch: it is
    always read (no output of another file lands on it), it fails at the engine exactly when
    the engine throws on `c`, a written status holds the engine's code for `c` at the mapped
    path, and once the engine returned the file is written exactly when `mkdir`, the write
    and the bundle's save succeed in the tree the files before it left.
  */
  lemma BatchOutcomes(w: World, absIn: Path, absOut: Path, files: seq<Path>, t: Transform, opts: Options)
    requires Sources(w.root, absIn, absOut, files)
    ensures var statuses := BatchOp(w, absIn, absOut, files, t, opts).1;
      forall i :: 0 <= i < |files| ==>
        var c := Lookup(w.root, files[i]).value.content;
        var s := statuses[i];
        s != Failed(Reading) &&
        (s == Failed(Transforming) <==> t(c, opts).None?) &&
        (s.Written? ==> s == Written(OutFile(absIn, absOut, files[i]), t(c, opts).value.code)) &&
        (t(c, opts).Some? ==>
           (s.Written? <==> OutputSucceeds(Transformed(BatchOp(w, absIn, absOut, files[..i], t, opts).0, files[i], c),
                                            OutFile(absIn, absOut, files[i]), t(c, opts).value)))
  {
    var statuses := BatchOp(w, absIn, absOut, files, t, opts).1;
    forall i | 0 <= i < |files|
      ensures var c := Lookup(w.root, files[i]).value.content;
        var s := statuses[i];
        s != Failed(Reading) &&
        (s == Failed(Transforming) <==> t(c, opts).None?) &&
        (s.Written? ==> s == Written(OutFile(absIn, absOut, files[i]), t(c, opts).value.code)) &&
        (t(c, opts).Some? ==>
           (s.Written? <==> OutputSucceeds(Transformed(BatchOp(w, absIn, absOut, files[..i], t, opts).0, files[i], c),
                                            OutFile(absIn, absOut, files[i]), t(c, opts).value)))
    {
      var wi := BatchOp(w, absIn, absOut, files[..i], t, opts).0;
      BatchStatusAt(w, absIn, absOut, files, t, opts, i);
      assert BelowInput(absIn, files[..i]) by {
        forall k | 0 <= k < i ensures files[..i][k] == files[k] {
        }
      }
      BatchKeepsOutside(w, absIn, absOut, files[..i], t, opts, files[i]);
      StepOutcome(wi, absIn, absOut, files[i], t, opts);
    }
  }

  // ----- every file the engine accepts is written -----

  /** A step keeps writable every path that neither lies on the way to its output nor below it. */
  lemma StepKeepsWritable(w: World, absIn: Path, absOut: Path, file: Path, t: Transform, opts: Options, p: Path)
    requires NoBundles(t, opts) && Writable(w.root, p)
    requires !IsPrefix(OutFile(absIn, absOut, file), p) && !IsPrefix(p, OutFile(absIn, absOut, file))
    ensures Writable(StepOp(w, absIn, absOut, file, t, opts).0.root, p)
  {
    var code := ReadFileOp(w, file).1;
    if code.Some? && t(code.value, opts).Some? {
      var outFile := OutFile(absIn, absOut, file);
      var r := t(code.value, opts).value;
      var w2 := Transformed(w, file, code.value);
      assert StepOp(w, absIn, absOut, file, t, opts) == OutputOp(w2, file, outFile, r);
      var (w3, made) := MkdirOp(w2, Dirname(outFile));
      if made {
        assert !IsPrefix(p, Dirname(outFile)) by {
          if |p| <= |Dirname(outFile)| {
            assert outFile[..|p|] == Dirname(outFile)[..|p|];
          }
        }
        MakeDirsKeepsWritable(w2.root, Dirname(outFile), p);
        assert OutputOp(w2, file, outFile, r) == WriteOutputOp(w3, file, outFile, r);
        var (w4, wrote) := WriteOp(w3, outFile, r.code);
        if wrote {
          WriteFileKeepsWritable(w3.root, outFile, r.code, p);
        }
      }
    }
  }

  /** The batch keeps writable every path that neither lies on the way to any of its outputs nor below one. */
  lemma {:induction false} BatchKeepsWritable(w: World, absIn: Path, absOut: Path, files: seq<Path>, t: Transform, opts: Options, p: Path)
    requires NoBundles(t, opts) && Writable(w.root, p)
    requires forall i :: 0 <= i < |files| ==>
      !IsPrefix(OutFile(absIn, absOut, files[i]), p) && !IsPrefix(p, OutFile(absIn, absOut, files[i]))
    ensures Writable(BatchOp(w, absIn, absOut, files, t, opts).0.root, p)
    decreases |files|
  {
    if files != [] {
      var n := |files| - 1;
      var prefix, last := files[..n], files[n];
      assert forall i :: 0 <= i < n ==> prefix[i] == files[i];
      BatchKeepsWritable(w, absIn, absOut, prefix, t, opts, p);
      var wn := BatchOp(w, absIn, absOut, prefix, t, opts).0;
      assert !IsPrefix(OutFile(absIn, absOut, last), p) && !IsPrefix(p, OutFile(absIn, absOut, last));
      StepKeepsWritable(wn, absIn, absOut, last, t, opts, p);
      assert BatchOp(w, absIn, absOut, files, t, opts).0 == StepOp(wn, absIn, absOut, last, t, opts).0;
    }
  }

  /** The outputs of two different listed files never lie on the way to one another. */
  lemma SourcesSeparate(root: Node, absIn: Path, absOut: Path, files: seq<Path>, i: nat, j: nat)
    requires Sources(root, absIn, absOut, files) && i < |files| && j < |files| && i != j
    ensures !IsPrefix(OutFile(absIn, absOut, files[i]), OutFile(absIn, absOut, files[j]))
  {
    OutFileNests(absIn, absOut, files[i], files[j]);
    LookupBelowLeaf(root, files[i], files[j]);
  }

  /**
    The file at index `i`, once the engine returns on its content, is written: when the
    output root is absent and only directories lie on the way to it, the files before it
    leave its output writable, so its `mkdir` and its write both succeed.
  */
  lemma BatchWritesAt(w: World, absIn: Path, absOut: Path, files: seq<Path>, t: Transform, opts: Options, i: nat)
    requires NoBundles(t, opts) && Sources(w.root, absIn, absOut, files) && i < |files|
    requires Lookup(w.root, absOut).None? && DirsAlong(w.root, Dirname(absOut))
    requires t(Lookup(w.root, files[i]).value.content, opts).Some?
    ensures var c := Lookup(w.root, files[i]).value.content;
      OutputSucceeds(Transformed(BatchOp(w, absIn, absOut, files[..i], t, opts).0, files[i], c),
                     OutFile(absIn, absOut, files[i]), t(c, opts).value)
  {
    var c := Lookup(w.root, files[i]).value.content;
    var out := OutFile(absIn, absOut, files[i]);
    OutFileMirrors(absIn, absOut, files[i]);
    var rel := files[i][|absIn|..];
    assert ValidPath(out) by {
      assert forall k :: 0 <= k < |out| ==> out[k] == if k < |absOut| then absOut[k] else rel[k - |absOut|];
    }
    AbsentWritable(w.root, absOut, out);
    forall k | 0 <= k < i
      ensures !IsPrefix(OutFile(absIn, absOut, files[..i][k]), out) && !IsPrefix(out, OutFile(absIn, absOut, files[..i][k]))
    {
      SourcesSeparate(w.root, absIn, absOut, files, k, i);
      SourcesSeparate(w.root, absIn, absOut, files, i, k);
    }
    BatchKeepsWritable(w, absIn, absOut, files[..i], t, opts, out);
    var wi := Transformed(BatchOp(w, absIn, absOut, files[..i], t, opts).0, files[i], c);
    var r := t(c, opts).value;
    WritableSucceeds(wi.root, out, r.code);
    assert Dirname(out) == out[..|out| - 1];
    var (w3, made) := MkdirOp(wi, Dirname(out));
    assert made && w3.root == MakeDirs(wi.root, out[..|out| - 1]).value;
    assert WriteOp(w3, out, r.code).1;
    assert r.bundle.None?;
  }

  /**
    Isolation: when the output root is absent and only directories lie on the way to it, each
    listed file ends written with the engine's code for its content exactly when the engine
    returns on that content, and caught at the engine otherwise, whatever becomes of the
    other files.
  */
  lemma BatchWritesAll(w: World, absIn: Path, absOut: Path, files: seq<Path>, t: Transform, opts: Options)
    requires NoBundles(t, opts) && Sources(w.root, absIn, absOut, files)
    requires Lookup(w.root, absOut).None? && DirsAlong(w.root, Dirname(absOut))
    ensures var statuses := BatchOp(w, absIn, absOut, files, t, opts).1;
      forall i :: 0 <= i < |files| ==>
        var r := t(Lookup(w.root, files[i]).value.content, opts);
        statuses[i] == if r.Some? then Written(OutFile(absIn, absOut, files[i]), r.value.code) else Failed(Transforming)
  {
    BatchOutcomes(w, absIn, absOut, files, t, opts);
    var statuses := BatchOp(w, absIn, absOut, files, t, opts).1;
    forall i | 0 <= i < |files|
      ensures var r := t(Lookup(w.root, files[i]).value.content, opts);
        statuses[i] == if r.Some? then Written(OutFile(absIn, absOut, files[i]), r.value.code) else Failed(Transforming)
    {
      if t(Lookup(w.root, files[i]).value.content, opts).Some? {
        BatchWritesAt(w, absIn, absOut, files, t, opts, i);
      }
    }
  }

  // ----- what the batch leaves in the tree -----

  /** The engine never returns a bundle (under these options). */
  ghost predicate NoBundles(t: Transform, opts: Options) {
    forall c :: t(c, opts).Some? ==> t(c, opts).value.bundle.None?
  }

  /** The only successful write `next` adds to `log` is `write`, if any. */
  ghost predicate WritesOnly(log: seq<Event>, next: seq<Event>, write: Option<Module>) {
    forall q :: LastWrite(next, q) == if write.Some? && q == write.value.path then Some(write.value.code) else LastWrite(log, q)
  }

  lemma WritesOnlyEvent(log: seq<Event>, e: Event)
    ensures WritesOnly(log, log + [e], if e.WriteCall? && e.ok then Some(Module(e.path, e.content)) else None)
  {
    assert (log + [e])[..|log|] == log;
  }

  lemma WritesOnlyThen(a: seq<Event>, b: seq<Event>, c: seq<Event>, x: Option<Module>)
    requires WritesOnly(a, b, None) && WritesOnly(b, c, x)
    ensures WritesOnly(a, c, x)
  {
  }

  /** Without a bundle, a step writes successfully only its own output, and only when it succeeds. */
  lemma StepWritesOnly(w: World, absIn: Path, absOut: Path, file: Path, t: Transform, opts: Options)
    requires NoBundles(t, opts)
    ensures var (next, s) := StepOp(w, absIn, absOut, file, t, opts);
      WritesOnly(w.log, next.log, if s.Written? then Some(Module(s.outFile, s.code)) else None)
  {
    var (w1, code) := ReadFileOp(w, file);
    WritesOnlyEvent(w.log, ReadFileCall(file));
    if code.None? {
      WritesOnlyEvent(w1.log, FailureReport(file));
    } else {
      var w2 := Emit(w1, EngineCall(code.value));
      WritesOnlyEvent(w1.log, EngineCall(code.value));
      WritesOnlyThen(w.log, w1.log, w2.log, None);
      match t(code.value, opts)
      case None =>
        WritesOnlyEvent(w2.log, FailureReport(file));
        WritesOnlyThen(w.log, w2.log, Caught(w2, file, Transforming).0.log, None);
      case Some(result) =>
        var outFile := OutFile(absIn, absOut, file);
        var (w3, made) := MkdirOp(w2, Dirname(outFile));
        WritesOnlyEvent(w2.log, MkdirCall(Dirname(outFile), made));
        WritesOnlyThen(w.log, w2.log, w3.log, None);
        if !made {
          WritesOnlyEvent(w3.log, FailureReport(file));
          WritesOnlyThen(w.log, w3.log, Caught(w3, file, MakingDir).0.log, None);
        } else {
          var (w4, wrote) := WriteOp(w3, outFile, result.code);
          WritesOnlyEvent(w3.log, WriteCall(outFile, result.code, wrote));
          if !wrote {
            WritesOnlyThen(w.log, w3.log, w4.log, None);
            WritesOnlyEvent(w4.log, FailureReport(file));
            WritesOnlyThen(w.log, w4.log, Caught(w4, file, Writing).0.log, None);
          } else {
            WritesOnlyThen(w.log, w3.log, w4.log, Some(Module(outFile, result.code)));
          }
        }
    }
  }

  /** A written status names the mapped output path of its file. */
  lemma {:induction false} BatchWrittenAt(w: World, absIn: Path, absOut: Path, files: seq<Path>, t: Transform, opts: Options)
    ensures var statuses := BatchOp(w, absIn, absOut, files, t, opts).1;
      forall i :: 0 <= i < |files| && statuses[i].Written? ==> statuses[i].outFile == OutFile(absIn, absOut, files[i])
    decreases |files|
  {
    if files != [] {
      var n := |files| - 1;
      var (w1, done) := BatchOp(w, absIn, absOut, files[..n], t, opts);
      BatchWrittenAt(w, absIn, absOut, files[..n], t, opts);
      var s := StepOp(w1, absIn, absOut, files[n], t, opts).1;
      var statuses := done + [s];
      assert BatchOp(w, absIn, absOut, files, t, opts).1 == statuses;
      assert s.Written? ==> s.outFile == OutFile(absIn, absOut, files[n]) by {
        StepWrittenAt(w1, absIn, absOut, files[n], t, opts);
      }
      forall i | 0 <= i < |files| && statuses[i].Written?
        ensures statuses[i].outFile == OutFile(absIn, absOut, files[i])
      {
        if i < n {
          assert statuses[i] == done[i] && files[..n][i] == files[i];
        }
      }
    }
  }

  /** The conditions under which distinct listed files have distinct mapped outputs. */
  ghost predicate Mirrorable(absIn: Path, absOut: Path, files: seq<Path>) {
    ValidPath(absOut) && Distinct(files) &&
    forall i :: 0 <= i < |files| ==> IsPrefix(absIn, files[i]) && ValidPath(files[i][|absIn|..])
  }

  lemma MirrorablePrefix(absIn: Path, absOut: Path, files: seq<Path>, n: nat)
    requires Mirrorable(absIn, absOut, files) && n <= |files|
    ensures Mirrorable(absIn, absOut, files[..n])
  {
    forall i | 0 <= i < n ensures files[..n][i] == files[i] {
    }
  }

  /**
    Without bundles, and with distinct files below the input directory: after the batch the
    last write to each written output is that file's engine code, nothing was written at the
    output of a file that failed, and nothing at all was written anywhere else.
  */
  lemma {:induction false} BatchWrites(w: World, absIn: Path, absOut: Path, files: seq<Path>, t: Transform, opts: Options)
    requires NoBundles(t, opts) && Mirrorable(absIn, absOut, files)
    ensures var (next, statuses) := BatchOp(w, absIn, absOut, files, t, opts);
      forall i :: 0 <= i < |files| ==>
        (statuses[i].Written? ==> LastWrite(next.log, statuses[i].outFile) == Some(statuses[i].code)) &&
        (statuses[i].Failed? ==>
           LastWrite(next.log, OutFile(absIn, absOut, files[i])) == LastWrite(w.log, OutFile(absIn, absOut, files[i])))
    ensures var next := BatchOp(w, absIn, absOut, files, t, opts).0;
      forall q :: (forall i :: 0 <= i < |files| ==> q != OutFile(absIn, absOut, files[i])) ==>
        LastWrite(next.log, q) == LastWrite(w.log, q)
    decreases |files|
  {
    if files != [] {
      var n := |files| - 1;
      var (w1, done) := BatchOp(w, absIn, absOut, files[..n], t, opts);
      var (next, s) := StepOp(w1, absIn, absOut, files[n], t, opts);
      var statuses := done + [s];
      assert BatchOp(w, absIn, absOut, files, t, opts) == (next, statuses);
      MirrorablePrefix(absIn, absOut, files, n);
      BatchWrites(w, absIn, absOut, files[..n], t, opts);
      BatchWrittenAt(w, absIn, absOut, files[..n], t, opts);
      var own := OutFile(absIn, absOut, files[n]);
      assert s.Written? ==> s.outFile == own by {
        StepWrittenAt(w1, absIn, absOut, files[n], t, opts);
      }
      assert forall q :: LastWrite(next.log, q) == if s.Written? && q == own then Some(s.code) else LastWrite(w1.log, q) by {
        StepWritesOnly(w1, absIn, absOut, files[n], t, opts);
      }
      forall i | 0 <= i < n
        ensures OutFile(absIn, absOut, files[i]) != own
      {
        OutFileInjective(absIn, absOut, files[i], files[n]);
      }
      WritesExtend(w.log, w1.log, next.log, absIn, absOut, files, done, s);
    }
  }

  /** The inductive step of `BatchWrites`: what one more step adds to the writes of the batch so far. */
  lemma WritesExtend(log0: seq<Event>, mid: seq<Event>, next: seq<Event>, absIn: Path, absOut: Path,
                     files: seq<Path>, done: seq<Status>, s: Status)
    requires files != [] && |done| == |files| - 1
    requires var n := |files| - 1;
      forall i :: 0 <= i < n ==>
        (done[i].Written? ==> done[i].outFile == OutFile(absIn, absOut, files[..n][i])) &&
        (done[i].Written? ==> LastWrite(mid, done[i].outFile) == Some(done[i].code)) &&
        (done[i].Failed? ==>
           LastWrite(mid, OutFile(absIn, absOut, files[..n][i])) == LastWrite(log0, OutFile(absIn, absOut, files[..n][i])))
    requires var n := |files| - 1;
      forall q :: (forall i :: 0 <= i < n ==> q != OutFile(absIn, absOut, files[..n][i])) ==>
        LastWrite(mid, q) == LastWrite(log0, q)
    requires var own := OutFile(absIn, absOut, files[|files| - 1]);
      (s.Written? ==> s.outFile == own) &&
      (forall q :: LastWrite(next, q) == if s.Written? && q == own then Some(s.code) else LastWrite(mid, q)) &&
      forall i :: 0 <= i < |files| - 1 ==> OutFile(absIn, absOut, files[i]) != own
    ensures var statuses := done + [s];
      forall i :: 0 <= i < |files| ==>
        (statuses[i].Written? ==> LastWrite(next, statuses[i].outFile) == Some(statuses[i].code)) &&
        (statuses[i].Failed? ==>
           LastWrite(next, OutFile(absIn, absOut, files[i])) == LastWrite(log0, OutFile(absIn, absOut, files[i])))
    ensures forall q :: (forall i :: 0 <= i < |files| ==> q != OutFile(absIn, absOut, files[i])) ==>
      LastWrite(next, q) == LastWrite(log0, q)
  {
    var n := |files| - 1;
    var own := OutFile(absIn, absOut, files[n]);
    var statuses := done + [s];
    forall i | 0 <= i < |files|
      ensures statuses[i].Written? ==> LastWrite(next, statuses[i].outFile) == Some(statuses[i].code)
      ensures statuses[i].Failed? ==>
        LastWrite(next, OutFile(absIn, absOut, files[i])) == LastWrite(log0, OutFile(absIn, absOut, files[i]))
    {
      if i < n {
        assert statuses[i] == done[i] && files[..n][i] == files[i];
      }
    }
    forall q | forall i :: 0 <= i < |files| ==> q != OutFile(absIn, absOut, files[i])
      ensures LastWrite(next, q) == LastWrite(log0, q)
    {
      assert q != own;
      forall j | 0 <= j < n ensures q != OutFile(absIn, absOut, files[..n][j]) {
        assert files[..n][j] == files[j];
      }
    }
  }

  /**
    Under the same conditions, starting from a tree that holds what the trace last wrote:
    every file whose status is written ends with its engine code stored at its output path.
    When the files are regular files outside the output root, that code is the engine's
    result on the file's content before the batch, and a file is written exactly when the
    engine returns for it and `mkdir` and the write of its output succeed.
  */
  lemma BatchStoresOutputs(w: World, absIn: Path, absOut: Path, files: seq<Path>, t: Transform, opts: Options)
    requires NoBundles(t, opts) && Mirrorable(absIn, absOut, files) && Reflects(w.log, w.root)
    ensures var (next, statuses) := BatchOp(w, absIn, absOut, files, t, opts);
      forall i :: 0 <= i < |files| && statuses[i].Written? ==>
        statuses[i].outFile == OutFile(absIn, absOut, files[i]) &&
        Lookup(next.root, statuses[i].outFile) == Some(File(statuses[i].code))
    ensures Sources(w.root, absIn, absOut, files) ==>
      var (next, statuses) := BatchOp(w, absIn, absOut, files, t, opts);
      forall i :: 0 <= i < |files| ==>
        var c := Lookup(w.root, files[i]).value.content;
        (statuses[i].Written? <==>
           t(c, opts).Some? &&
           OutputSucceeds(Transformed(BatchOp(w, absIn, absOut, files[..i], t, opts).0, files[i], c),
                          OutFile(absIn, absOut, files[i]), t(c, opts).value)) &&
        (statuses[i].Written? ==>
           Lookup(next.root, OutFile(absIn, absOut, files[i])) == Some(File(t(c, opts).value.code)))
  {
    assert w.log[0..] == w.log;
    BatchReflects(w, absIn, absOut, files, t, opts, 0);
    BatchWrites(w, absIn, absOut, files, t, opts);
    BatchWrittenAt(w, absIn, absOut, files, t, opts);
    var next := BatchOp(w, absIn, absOut, files, t, opts).0;
    assert next.log[0..] == next.log;
    if Sources(w.root, absIn, absOut, files) {
      BatchOutcomes(w, absIn, absOut, files, t, opts);
    }
  }

  /** An event of the preparation before the batch: a `stat`, an existence check, a removal, a listing. */
  predicate Preparing(e: Event) {
    e.StatCall? || e.ExistsCall? || e.RemoveCall? || e.ReadDirCall?
  }

  /** A trace of preparation reads no file, reports no failure and writes nothing. */
  lemma {:induction false} PreparationIsQuiet(log: seq<Event>)
    requires forall i :: 0 <= i < |log| ==> Preparing(log[i])
    ensures ReadsOf(log) == [] && ReportsOf(log) == []
    ensures forall p :: LastWrite(log, p).None?
    decreases |log|
  {
    if log != [] {
      PreparationIsQuiet(log[..|log| - 1]);
    }
  }
}
