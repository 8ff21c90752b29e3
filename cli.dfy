/**
  The command's action handler: the mode dispatch on the input argument, the conflict
  check on the output directory, the directory batch and the single-unit path that either
  saves the engine's result or prints its code.
*/
module Cli {
  import opened Wrappers
  import opened FileTree
  import opened NodePath
  import opened Engine
  import opened Io
  import opened Discovery
  import opened Batch

  /**
    The parsed command line. Paths are given already resolved against the working
    directory; an absent or empty argument is `None`.
  */
  datatype Args = Args(input: Option<Path>, output: Option<Path>, force: bool, options: Options)

  /** Why a run ended early: a usage error (`program.error`) or an exception nobody catches. */
  datatype Failure =
    | InputMissing      // `stat(input)` threw
    | OutputRequired    // a directory input without `--output`
    | OutputExists      // the output exists and `--force` was not given
    | ListingFailed     // `listJsFiles(absInput)` threw
    | ReadFailed        // reading the single input threw
    | EngineFailed      // the engine threw in single mode
    | SaveFailed        // `result.save(output)` threw

  datatype Outcome =
    | Aborted(why: Failure)
    | BatchDone(files: seq<Path>, statuses: seq<Status>)
    | Printed(code: string)
    | Saved

  // ----- standard input -----

  /** The text of the chunks read from standard input, in order. */
  function Concat(chunks: seq<string>): string {
    if chunks == [] then "" else Concat(chunks[..|chunks| - 1]) + chunks[|chunks| - 1]
  }

  /** `readStdin()`: accumulates every chunk of the stream. */
  method ReadStdin(chunks: seq<string>) returns (data: string)
    ensures data == Concat(chunks)
  {
    data := "";
    for i := 0 to |chunks|
      invariant data == Concat(chunks[..i])
    {
      assert chunks[..i + 1][..i] == chunks[..i];
      data := data + chunks[i];
    }
    assert chunks[..|chunks|] == chunks;
  }

  // ----- the conflict check on the output -----

  /**
    `if (existsSync(output)) { if (force) rm(output) else program.error(...) }`; the
    boolean says whether the run proceeds.
  */
  function ClearOp(w: World, output: Path, force: bool): (World, bool) {
    var (w1, present) := ExistsOp(w, output);
    if !present then (w1, true)
    else if force then (RemoveOp(w1, output), true)
    else (w1, false)
  }

  method ClearOutput(host: Host, output: Path, force: bool) returns (proceed: bool)
    requires host.Valid()
    modifies host
    ensures host.Valid() && (host.State(), proceed) == ClearOp(old(host.State()), output, force)
  {
    var present := host.Exists(output);
    if present {
      if force {
        host.Rm(output);
      } else {
        return false;
      }
    }
    proceed := true;
  }

  // ----- the action, as a function of the world -----

  /** The whole action handler. */
  function RunOp(w: World, args: Args, stdin: seq<string>, t: Transform): (World, Outcome) {
    match args.input
    case None => SingleOp(w, args, stdin, t)
    case Some(input) =>
      var (w1, kind) := StatOp(w, input);
      if kind.None? then (w1, Aborted(InputMissing))
      else if kind.value == Directory then DirectoryOp(w1, input, args, t)
      else SingleOp(w1, args, stdin, t)
  }

  /** Directory mode: check the output, list the input's `.js` files, run the batch, return. */
  function DirectoryOp(w: World, input: Path, args: Args, t: Transform): (World, Outcome) {
    match args.output
    case None => (w, Aborted(OutputRequired))
    case Some(output) =>
      var (w1, proceed) := ClearOp(w, output, args.force);
      if !proceed then (w1, Aborted(OutputExists))
      else
        var (w2, files) := ListOp(w1, input);
        if files.None? then (w2, Aborted(ListingFailed))
        else
          var (w3, statuses) := BatchOp(w2, input, output, files.value, t, args.options);
          (w3, BatchDone(files.value, statuses))
  }

  /** The code of the single unit: the input file's text, or everything on standard input. */
  function SourceOp(w: World, input: Option<Path>, stdin: seq<string>): (World, Option<string>) {
    match input
    case Some(p) => ReadFileOp(w, p)
    case None => (Emit(w, StdinRead), Some(Concat(stdin)))
  }

  /**
    Single mode: read the code, check the output, run the engine (nothing catches its
    failure), then save the result to the output or print its code.
  */
  function SingleOp(w: World, args: Args, stdin: seq<string>, t: Transform): (World, Outcome) {
    var (w1, code) := SourceOp(w, args.input, stdin);
    if code.None? then (w1, Aborted(ReadFailed))
    else
      var (w2, proceed) := CheckOp(w1, args);
      if !proceed then (w2, Aborted(OutputExists))
      else TransformOp(w2, code.value, args, t)
  }

  /** The conflict check of single mode, made only when an output is given. */
  function CheckOp(w: World, args: Args): (World, bool) {
    if args.output.Some? then ClearOp(w, args.output.value, args.force) else (w, true)
  }

  /** The engine call of single mode and what becomes of its result. */
  function TransformOp(w: World, code: string, args: Args, t: Transform): (World, Outcome) {
    var w3 := Emit(w, EngineCall(code));
    match t(code, args.options)
    case None => (w3, Aborted(EngineFailed))
    case Some(r) =>
      match args.output
      case Some(output) =>
        var (w4, ok) := SaveOp(w3, output, SavedFiles(r));
        (w4, if ok then Saved else Aborted(SaveFailed))
      case None =>
        var w4 := Emit(w3, StdoutWrite(r.code));
        (if r.bundle.Some? then Emit(w4, ModulesNote) else w4, Printed(r.code))
  }

  // ----- the action, performed on the host -----

  method Action(host: Host, args: Args, stdin: seq<string>, t: Transform) returns (outcome: Outcome)
    requires host.Valid()
    modifies host
    ensures host.Valid() && (host.State(), outcome) == RunOp(old(host.State()), args, stdin, t)
  {
    if args.input.Some? {
      var input := args.input.value;
      var kind := host.Stat(input);
      if kind.None? {
        return Aborted(InputMissing);
      }
      if kind.value == Directory {
        outcome := DirectoryMode(host, input, args, t);
        return;
      }
    }
    outcome := SingleMode(host, args, stdin, t);
  }

  method DirectoryMode(host: Host, input: Path, args: Args, t: Transform) returns (outcome: Outcome)
    requires host.Valid()
    modifies host
    ensures host.Valid() && (host.State(), outcome) == DirectoryOp(old(host.State()), input, args, t)
  {
    if args.output.None? {
      return Aborted(OutputRequired);
    }
    var output := args.output.value;
    var proceed := ClearOutput(host, output, args.force);
    if !proceed {
      return Aborted(OutputExists);
    }
    var files := ListJsFiles(host, input);
    if files.None? {
      return Aborted(ListingFailed);
    }
    var statuses := ProcessBatch(host, input, output, files.value, t, args.options);
    outcome := BatchDone(files.value, statuses);
  }

  method SingleMode(host: Host, args: Args, stdin: seq<string>, t: Transform) returns (outcome: Outcome)
    requires host.Valid()
    modifies host
    ensures host.Valid() && (host.State(), outcome) == SingleOp(old(host.State()), args, stdin, t)
  {
    var code: Option<string>;
    if args.input.Some? {
      code := host.ReadFile(args.input.value);
    } else {
      host.Record(StdinRead);
      var data := ReadStdin(stdin);
      code := Some(data);
    }
    if code.None? {
      return Aborted(ReadFailed);
    }
    if args.output.Some? {
      var proceed := ClearOutput(host, args.output.value, args.force);
      if !proceed {
        return Aborted(OutputExists);
      }
    }
    var r := host.Invoke(t, code.value, args.options);
    if r.None? {
      return Aborted(EngineFailed);
    }
    if args.output.Some? {
      var ok := host.Save(args.output.value, SavedFiles(r.value));
      outcome := if ok then Saved else Aborted(SaveFailed);
    } else {
      host.Record(StdoutWrite(r.value.code));
      if r.value.bundle.Some? {
        host.Record(ModulesNote);
      }
      outcome := Printed(r.value.code);
    }
  }

  // ----- properties -----

  /** The chunks of two stretches of the stream read as the two texts joined. */
  lemma {:induction false} ConcatAppend(a: seq<string>, b: seq<string>)
    ensures Concat(a + b) == Concat(a) + Concat(b)
    decreases |b|
  {
    if b == [] {
      assert a + b == a;
    } else {
      assert (a + b)[..|a + b| - 1] == a + b[..|b| - 1];
      ConcatAppend(a, b[..|b| - 1]);
    }
  }

  /**
    The decision table of the conflict check: it looks once; an absent output proceeds
    with nothing removed, a present output is removed and the run proceeds with `force`,
    and is refused without it. When the run proceeds, nothing is left at the output path.
  */
  lemma ClearOpTable(w: World, output: Path, force: bool)
    ensures var (next, proceed) := ClearOp(w, output, force);
      var present := Lookup(w.root, output).Some?;
      (proceed <==> !present || force) &&
      next.root == (if present && force then Remove(w.root, output) else w.root) &&
      next.log == w.log + [ExistsCall(output)] + (if present && force then [RemoveCall(output)] else [])
    ensures WellFormed(w.root) && output != [] && ClearOp(w, output, force).1 ==>
      Lookup(ClearOp(w, output, force).0.root, output).None?
  {
    if WellFormed(w.root) && output != [] {
      RemoveRemoves(w.root, output);
    }
  }

  /** The input is a directory: the run takes the batch path. */
  predicate RunsBatch(w: World, args: Args) {
    args.input.Some? && Lookup(w.root, args.input.value).Some? && Lookup(w.root, args.input.value).value.Dir?
  }

  /** Standard input, or an input that exists and is not a directory: the single-unit path. */
  predicate RunsSingle(w: World, args: Args) {
    args.input.None? || (Lookup(w.root, args.input.value).Some? && !Lookup(w.root, args.input.value).value.Dir?)
  }

  /** The run dispatches on the input: a missing input stops at the `stat`, the other two take their paths. */
  lemma Dispatch(w: World, args: Args, stdin: seq<string>, t: Transform)
    ensures RunsBatch(w, args) ==>
      RunOp(w, args, stdin, t) == DirectoryOp(Emit(w, StatCall(args.input.value)), args.input.value, args, t)
    ensures RunsSingle(w, args) ==>
      RunOp(w, args, stdin, t) == SingleOp(if args.input.Some? then Emit(w, StatCall(args.input.value)) else w, args, stdin, t)
    ensures !RunsBatch(w, args) && !RunsSingle(w, args) ==>
      RunOp(w, args, stdin, t) == (Emit(w, StatCall(args.input.value)), Aborted(InputMissing))
  {
  }

  /**
    Directory mode without an output is a usage error raised right after the `stat`:
    nothing is checked, removed, listed, read or written.
  */
  lemma DirectoryNeedsOutput(w: World, args: Args, stdin: seq<string>, t: Transform)
    requires RunsBatch(w, args) && args.output.None?
    ensures RunOp(w, args, stdin, t) == (World(w.root, w.log + [StatCall(args.input.value)]), Aborted(OutputRequired))
  {
  }

  /**
    Directory mode with an output that exists and no `force` is a usage error raised after
    the existence check: nothing is removed, listed, read or written.
  */
  lemma DirectoryRefusesExisting(w: World, args: Args, stdin: seq<string>, t: Transform)
    requires RunsBatch(w, args) && args.output.Some? && Lookup(w.root, args.output.value).Some? && !args.force
    ensures RunOp(w, args, stdin, t) ==
      (World(w.root, w.log + [StatCall(args.input.value), ExistsCall(args.output.value)]), Aborted(OutputExists))
  {
    assert w.log + [StatCall(args.input.value)] + [ExistsCall(args.output.value)] ==
      w.log + [StatCall(args.input.value), ExistsCall(args.output.value)];
  }

  lemma RemovalsAfterClear(w: World, output: Path, force: bool)
    ensures Removals(ClearOp(w, output, force).0.log) == Removals(w.log) +
      (if Lookup(w.root, output).Some? && force then [output] else [])
  {
    var w1 := Emit(w, ExistsCall(output));
    assert w1.log[..|w.log|] == w.log;
    if Lookup(w.root, output).Some? && force {
      assert RemoveOp(w1, output).log[..|w1.log|] == w1.log;
    }
  }

  /** The output is looked at: it is given and the run gets past reading the single input. */
  predicate ChecksOutput(w: World, args: Args, stdin: seq<string>) {
    args.output.Some? &&
    (RunsBatch(w, args) || (RunsSingle(w, args) && SourceOp(w, args.input, stdin).1.Some?))
  }

  /**
    In both modes `rm` is called on the output exactly when the run reaches the conflict check,
    the output exists and `force` is given; no other `rm` call is made.
  */
  lemma RemovesOnlyWithForce(w: World, args: Args, stdin: seq<string>, t: Transform)
    ensures Removals(RunOp(w, args, stdin, t).0.log) == Removals(w.log) +
      (if ChecksOutput(w, args, stdin) && Lookup(w.root, args.output.value).Some? && args.force
       then [args.output.value] else [])
  {
    var w0 := if args.input.Some? then Emit(w, StatCall(args.input.value)) else w;
    assert w0.log[..|w.log|] == w.log;
    RemovalsUnchanged(w.log, w0.log);
    if RunsBatch(w, args) {
      DirectoryRemovals(w0, args.input.value, args, t);
    } else if RunsSingle(w, args) {
      if args.input.Some? {
        StatKeepsSource(w, args, stdin);
      }
      SingleRemovals(w0, args, stdin, t);
    }
  }

  lemma DirectoryRemovals(w: World, input: Path, args: Args, t: Transform)
    ensures Removals(DirectoryOp(w, input, args, t).0.log) == Removals(w.log) +
      (if args.output.Some? && Lookup(w.root, args.output.value).Some? && args.force
       then [args.output.value] else [])
  {
    var next := DirectoryOp(w, input, args, t).0;
    if args.output.Some? {
      var output := args.output.value;
      var (w1, proceed) := ClearOp(w, output, args.force);
      RemovalsAfterClear(w, output, args.force);
      if !proceed {
        assert next == w1;
      } else {
        var (w2, files) := ListOp(w1, input);
        ListOpKeepsRemovals(w1, input);
        if files.None? {
          assert next == w2;
        } else {
          assert next == BatchOp(w2, input, output, files.value, t, args.options).0;
          BatchNeverRemoves(w2, input, output, files.value, t, args.options);
        }
      }
    }
  }

  lemma SingleRemovals(w: World, args: Args, stdin: seq<string>, t: Transform)
    ensures Removals(SingleOp(w, args, stdin, t).0.log) == Removals(w.log) +
      (if args.output.Some? && SourceOp(w, args.input, stdin).1.Some? && Lookup(w.root, args.output.value).Some? && args.force
       then [args.output.value] else [])
  {
    var (w1, code) := SourceOp(w, args.input, stdin);
    assert w1.root == w.root && w1.log[..|w.log|] == w.log;
    RemovalsUnchanged(w.log, w1.log);
    if code.Some? {
      var (w2, proceed) := CheckOp(w1, args);
      if args.output.Some? {
        RemovalsAfterClear(w1, args.output.value, args.force);
      }
      if proceed {
        TransformRemovals(w2, code.value, args, t);
      }
    }
  }

  lemma TransformRemovals(w: World, code: string, args: Args, t: Transform)
    ensures Removals(TransformOp(w, code, args, t).0.log) == Removals(w.log)
  {
    var w3 := Emit(w, EngineCall(code));
    assert w3.log[..|w.log|] == w.log;
    RemovalsUnchanged(w.log, w3.log);
    var next := TransformOp(w, code, args, t).0;
    match t(code, args.options)
    case None =>
    case Some(r) =>
      match args.output {
        case Some(output) =>
          SaveOpStaysBelow(w3, output, SavedFiles(r));
          RemovalsUnchanged(w3.log, next.log);
        case None =>
          assert next.log[..|w3.log|] == w3.log;
          RemovalsUnchanged(w3.log, next.log);
      }
  }

  /** The code the single-unit path works on, read from the input file or standard input. */
  function SingleCode(w: World, args: Args, stdin: seq<string>): Option<string> {
    SourceOp(w, args.input, stdin).1
  }

  /** The conflict check, when there is one, lets the run proceed. */
  predicate OutputClear(w: World, args: Args) {
    args.output.None? || Lookup(w.root, args.output.value).None? || args.force
  }

  lemma StatKeepsSource(w: World, args: Args, stdin: seq<string>)
    requires args.input.Some?
    ensures SourceOp(Emit(w, StatCall(args.input.value)), args.input, stdin).1 == SingleCode(w, args, stdin)
  {
  }

  /**
    Without an output nothing in the tree changes, whatever the mode; a printed result is the
    engine's code for the single unit, written to standard output as the last event but for
    the note about modules, which follows exactly when the result has a bundle.
  */
  lemma StdoutModeKeepsTree(w: World, args: Args, stdin: seq<string>, t: Transform)
    requires args.output.None?
    ensures RunOp(w, args, stdin, t).0.root == w.root
    ensures var (next, outcome) := RunOp(w, args, stdin, t);
      outcome.Printed? ==>
        RunsSingle(w, args) && SingleCode(w, args, stdin).Some? &&
        var r := t(SingleCode(w, args, stdin).value, args.options);
        r.Some? && outcome.code == r.value.code &&
        if r.value.bundle.Some?
        then |next.log| >= 2 && next.log[|next.log| - 2..] == [StdoutWrite(outcome.code), ModulesNote]
        else |next.log| >= 1 && next.log[|next.log| - 1] == StdoutWrite(outcome.code)
  {
    if args.input.Some? {
      StatKeepsSource(w, args, stdin);
    }
  }

  /**
    In single mode the engine's failure is not caught: the run ends with `EngineFailed`
    exactly when the unit was read, the conflict check let it proceed and the engine threw.
    The engine call is then the last thing the run does; the tree is as the conflict check
    left it, so nothing is written or printed.
  */
  lemma EngineFailurePropagates(w: World, args: Args, stdin: seq<string>, t: Transform)
    ensures var (next, outcome) := RunOp(w, args, stdin, t);
      outcome == Aborted(EngineFailed) <==>
        RunsSingle(w, args) && SingleCode(w, args, stdin).Some? && OutputClear(w, args) &&
        t(SingleCode(w, args, stdin).value, args.options).None?
    ensures var (next, outcome) := RunOp(w, args, stdin, t);
      outcome == Aborted(EngineFailed) ==>
        next.log != [] && next.log[|next.log| - 1] == EngineCall(SingleCode(w, args, stdin).value) &&
        next.root == if args.output.Some? && Lookup(w.root, args.output.value).Some? && args.force
                     then Remove(w.root, args.output.value) else w.root
  {
    if args.input.Some? {
      StatKeepsSource(w, args, stdin);
    }
    if RunsBatch(w, args) && args.output.Some? {
      var w0 := Emit(w, StatCall(args.input.value));
      var w1 := ClearOp(w0, args.output.value, args.force).0;
      var (w2, files) := ListOp(w1, args.input.value);
      if ClearOp(w0, args.output.value, args.force).1 && files.Some? {
        assert RunOp(w, args, stdin, t).1 == BatchDone(files.value, BatchOp(w2, args.input.value, args.output.value, files.value, t, args.options).1);
      }
    }
  }

  /** `next` continues `log` with events of the preparation or of the batch only. */
  ghost predicate PreparesOrBatches(log: seq<Event>, next: seq<Event>) {
    |log| <= |next| && next[..|log|] == log &&
    forall i :: |log| <= i < |next| ==> Preparing(next[i]) || BatchEvent(next[i])
  }

  lemma PreparesOrBatchesThen(a: seq<Event>, b: seq<Event>, c: seq<Event>)
    requires PreparesOrBatches(a, b) && PreparesOrBatches(b, c)
    ensures PreparesOrBatches(a, c)
  {
    assert c[..|a|] == c[..|b|][..|a|];
    forall i | |a| <= i < |c| ensures Preparing(c[i]) || BatchEvent(c[i]) {
      if i < |b| {
        assert c[i] == c[..|b|][i];
      }
    }
  }

  lemma DirectoryOpEvents(w: World, input: Path, args: Args, t: Transform)
    ensures var (next, outcome) := DirectoryOp(w, input, args, t);
      (outcome.BatchDone? || outcome.why in {OutputRequired, OutputExists, ListingFailed}) &&
      PreparesOrBatches(w.log, next.log)
  {
    var next := DirectoryOp(w, input, args, t).0;
    if args.output.Some? {
      var output := args.output.value;
      var (w1, proceed) := ClearOp(w, output, args.force);
      ClearOpTable(w, output, args.force);
      assert PreparesOrBatches(w.log, w1.log) by {
        assert w1.log[..|w.log|] == w.log;
        forall i | |w.log| <= i < |w1.log| ensures Preparing(w1.log[i]) {
          assert w1.log[i] == ([ExistsCall(output)] + (if Lookup(w.root, output).Some? && args.force then [RemoveCall(output)] else []))[i - |w.log|];
        }
      }
      if proceed {
        var (w2, files) := ListOp(w1, input);
        ListOpOnlyLists(w1, input);
        assert PreparesOrBatches(w1.log, w2.log) by {
          assert w2.log[..|w1.log|] == w2.log[..|w1.log| + 1][..|w1.log|];
        }
        PreparesOrBatchesThen(w.log, w1.log, w2.log);
        if files.Some? {
          BatchTraced(w2, input, output, files.value, t, args.options);
          PreparesOrBatchesThen(w.log, w2.log, next.log);
        }
      }
    } else {
      assert w.log[..|w.log|] == w.log;
    }
  }

  /**
    Directory mode returns after the batch: it ends in the batch or in one of its own
    errors, and it never reads standard input, prints, or saves a single result; the
    only calls it makes are the `stat`, the conflict check, the listing and the batch's own.
  */
  lemma DirectoryModeReturns(w: World, args: Args, stdin: seq<string>, t: Transform)
    requires RunsBatch(w, args)
    ensures var (next, outcome) := RunOp(w, args, stdin, t);
      (outcome.BatchDone? || outcome.why in {OutputRequired, OutputExists, ListingFailed}) &&
      PreparesOrBatches(w.log, next.log)
  {
    var w0 := Emit(w, StatCall(args.input.value));
    Dispatch(w, args, stdin, t);
    DirectoryOpEvents(w0, args.input.value, args, t);
    assert PreparesOrBatches(w.log, w0.log) by {
      assert w0.log[..|w.log|] == w.log;
    }
    PreparesOrBatchesThen(w.log, w0.log, RunOp(w, args, stdin, t).0.log);
  }

  /** `next` continues `log` without listing any directory. */
  ghost predicate ListsNothing(log: seq<Event>, next: seq<Event>) {
    |log| <= |next| && next[..|log|] == log && forall i :: |log| <= i < |next| ==> !next[i].ReadDirCall?
  }

  lemma ListsNothingThen(a: seq<Event>, b: seq<Event>, c: seq<Event>)
    requires ListsNothing(a, b) && ListsNothing(b, c)
    ensures ListsNothing(a, c)
  {
    assert c[..|a|] == c[..|b|][..|a|];
    forall i | |a| <= i < |c| ensures !c[i].ReadDirCall? {
      if i < |b| {
        assert c[i] == c[..|b|][i];
      }
    }
  }

  lemma ListsNothingEvents(log: seq<Event>, d: seq<Event>)
    requires forall i :: 0 <= i < |d| ==> !d[i].ReadDirCall?
    ensures ListsNothing(log, log + d)
  {
    assert (log + d)[..|log|] == log;
    forall i | |log| <= i < |log + d| ensures !(log + d)[i].ReadDirCall? {
      assert (log + d)[i] == d[i - |log|];
    }
  }

  lemma SingleOpListsNothing(w: World, args: Args, stdin: seq<string>, t: Transform)
    ensures ListsNothing(w.log, SingleOp(w, args, stdin, t).0.log)
  {
    var next := SingleOp(w, args, stdin, t).0;
    var (w1, code) := SourceOp(w, args.input, stdin);
    ListsNothingEvents(w.log, [if args.input.Some? then ReadFileCall(args.input.value) else StdinRead]);
    if code.Some? {
      var (w2, proceed) := CheckOp(w1, args);
      CheckOpListsNothing(w1, args);
      ListsNothingThen(w.log, w1.log, w2.log);
      if proceed {
        TransformOpListsNothing(w2, code.value, args, t);
        ListsNothingThen(w.log, w2.log, next.log);
      }
    }
  }

  lemma CheckOpListsNothing(w: World, args: Args)
    ensures ListsNothing(w.log, CheckOp(w, args).0.log)
  {
    if args.output.Some? {
      ClearOpTable(w, args.output.value, args.force);
      var present := Lookup(w.root, args.output.value).Some?;
      var d := [ExistsCall(args.output.value)] + (if present && args.force then [RemoveCall(args.output.value)] else []);
      ListsNothingEvents(w.log, d);
      assert CheckOp(w, args).0.log == w.log + d;
    } else {
      ListsNothingEvents(w.log, []);
      assert w.log + [] == w.log;
    }
  }

  lemma TransformOpListsNothing(w: World, code: string, args: Args, t: Transform)
    ensures ListsNothing(w.log, TransformOp(w, code, args, t).0.log)
  {
    var next := TransformOp(w, code, args, t).0;
    var w3 := Emit(w, EngineCall(code));
    ListsNothingEvents(w.log, [EngineCall(code)]);
    match t(code, args.options)
    case None =>
    case Some(r) =>
      match args.output {
        case Some(output) =>
          SaveOpStaysBelow(w3, output, SavedFiles(r));
          ListsNothingEvents(w3.log, next.log[|w3.log|..]);
          assert next.log == w3.log + next.log[|w3.log|..];
        case None =>
          var d := [StdoutWrite(r.code)] + (if r.bundle.Some? then [ModulesNote] else []);
          ListsNothingEvents(w3.log, d);
          assert next.log == w3.log + d;
      }
      ListsNothingThen(w.log, w3.log, next.log);
  }

  /** The single-unit path never lists a directory and never runs the batch. */
  lemma SingleModeNeverLists(w: World, args: Args, stdin: seq<string>, t: Transform)
    requires RunsSingle(w, args)
    ensures var (next, outcome) := RunOp(w, args, stdin, t);
      !outcome.BatchDone? && (outcome.Aborted? ==> outcome.why in {ReadFailed, OutputExists, EngineFailed, SaveFailed}) &&
      ListsNothing(w.log, next.log)
  {
    var w0 := if args.input.Some? then Emit(w, StatCall(args.input.value)) else w;
    Dispatch(w, args, stdin, t);
    SingleOpListsNothing(w0, args, stdin, t);
    ListsNothingEvents(w.log, if args.input.Some? then [StatCall(args.input.value)] else []);
    assert w0.log == w.log + (if args.input.Some? then [StatCall(args.input.value)] else []);
    ListsNothingThen(w.log, w0.log, SingleOp(w0, args, stdin, t).0.log);
  }

  // ----- what the run leaves in the tree -----

  /** Every result the engine returns (under these options) saves to distinct paths. */
  ghost predicate DistinctSaves(t: Transform, opts: Options) {
    forall c :: t(c, opts).Some? ==> DistinctPaths(SavedFiles(t(c, opts).value))
  }

  lemma TransformOpSaves(w: World, code: string, args: Args, t: Transform)
    requires args.output.Some? && t(code, args.options).Some? && DistinctPaths(SavedFiles(t(code, args.options).value))
    ensures var (next, outcome) := TransformOp(w, code, args, t);
      outcome == Saved ==>
        forall m :: m in SavedFiles(t(code, args.options).value) ==>
          Lookup(next.root, args.output.value + m.path) == Some(File(m.code))
  {
    var output := args.output.value;
    var ms := SavedFiles(t(code, args.options).value);
    var w3 := Emit(w, EngineCall(code));
    var (next, ok) := SaveOp(w3, output, ms);
    if ok {
      SaveOpLeavesFiles(w3, output, ms);
      forall m | m in ms ensures Lookup(next.root, output + m.path) == Some(File(m.code)) {
        var j :| 0 <= j < |ms| && ms[j] == m;
      }
    }
  }

  /**
    Single mode with an output: the result is saved exactly when the unit was read, the
    conflict check let the run proceed and the engine returned. A save that succeeds leaves
    every file of the result below the output, the engine's code as `deobfuscated.js`
    among them (when the paths of the result's files are distinct).
  */
  lemma SingleModeSaves(w: World, args: Args, stdin: seq<string>, t: Transform)
    requires RunsSingle(w, args) && args.output.Some?
    ensures var outcome := RunOp(w, args, stdin, t).1;
      (outcome == Saved || outcome == Aborted(SaveFailed)) <==>
        SingleCode(w, args, stdin).Some? && OutputClear(w, args) &&
        t(SingleCode(w, args, stdin).value, args.options).Some?
    ensures var (next, outcome) := RunOp(w, args, stdin, t);
      outcome == Saved && DistinctSaves(t, args.options) ==>
        SingleCode(w, args, stdin).Some? && t(SingleCode(w, args, stdin).value, args.options).Some? &&
        var r := t(SingleCode(w, args, stdin).value, args.options).value;
        Lookup(next.root, args.output.value + ["deobfuscated.js"]) == Some(File(r.code)) &&
        forall m :: m in SavedFiles(r) ==> Lookup(next.root, args.output.value + m.path) == Some(File(m.code))
  {
    var w0 := if args.input.Some? then Emit(w, StatCall(args.input.value)) else w;
    Dispatch(w, args, stdin, t);
    if args.input.Some? {
      StatKeepsSource(w, args, stdin);
    }
    var (w1, code) := SourceOp(w0, args.input, stdin);
    if code.Some? {
      var (w2, proceed) := CheckOp(w1, args);
      ClearOpTable(w1, args.output.value, args.force);
      if proceed && t(code.value, args.options).Some? && DistinctSaves(t, args.options) {
        TransformOpSaves(w2, code.value, args, t);
        assert SavedFiles(t(code.value, args.options).value)[0] == Module(["deobfuscated.js"], t(code.value, args.options).value.code);
      }
    }
  }

  /**
    The batch, started after a preparation that read and wrote nothing, on files it can mirror.
    It reads exactly the listed files and reports exactly the failed ones. When the files are
    regular files outside the output, a file is written exactly when the engine returns for
    its content and `mkdir`, the write of its output and the bundle's save succeed, whatever
    became of the other files. When the engine returns no bundles, every written output ends
    at its mirrored path, holding the engine's code for that file's content.
  */
  lemma BatchAfterPreparation(w: World, input: Path, output: Path, files: seq<Path>, t: Transform, opts: Options)
    requires forall i :: 0 <= i < |w.log| ==> Preparing(w.log[i])
    requires Mirrorable(input, output, files)
    ensures var (next, statuses) := BatchOp(w, input, output, files, t, opts);
      ReadsOf(next.log) == files && ReportsOf(next.log) == FailedOf(files, statuses)
    ensures Sources(w.root, input, output, files) ==>
      var statuses := BatchOp(w, input, output, files, t, opts).1;
      forall i :: 0 <= i < |files| ==>
        var r := t(Lookup(w.root, files[i]).value.content, opts);
        (statuses[i].Written? <==>
           r.Some? && OutputSucceeds(Transformed(BatchOp(w, input, output, files[..i], t, opts).0, files[i],
                                                 Lookup(w.root, files[i]).value.content),
                                     OutFile(input, output, files[i]), r.value)) &&
        (statuses[i].Written? ==> statuses[i] == Written(output + files[i][|input|..], r.value.code))
    ensures NoBundles(t, opts) ==>
      var (next, statuses) := BatchOp(w, input, output, files, t, opts);
      forall i :: 0 <= i < |files| ==>
        (statuses[i].Written? ==> Lookup(next.root, output + files[i][|input|..]) == Some(File(statuses[i].code)))
  {
    PreparationIsQuiet(w.log);
    BatchTraced(w, input, output, files, t, opts);
    forall i | 0 <= i < |files| ensures OutFile(input, output, files[i]) == output + files[i][|input|..] {
      OutFileMirrors(input, output, files[i]);
    }
    if Sources(w.root, input, output, files) {
      BatchOutcomes(w, input, output, files, t, opts);
    }
    if NoBundles(t, opts) {
      BatchStoresOutputs(w, input, output, files, t, opts);
    }
  }

  /** Up to the listing, directory mode only stats, checks, removes and lists. */
  lemma PreparationBeforeBatch(w: World, input: Path, output: Path, force: bool)
    requires w.log == []
    ensures var w1 := ClearOp(Emit(w, StatCall(input)), output, force).0;
      forall i :: 0 <= i < |ListOp(w1, input).0.log| ==> Preparing(ListOp(w1, input).0.log[i])
  {
    var w0 := Emit(w, StatCall(input));
    var w1 := ClearOp(w0, output, force).0;
    var w2 := ListOp(w1, input).0;
    ClearOpTable(w0, output, force);
    ListOpOnlyLists(w1, input);
    assert w1.log == [StatCall(input), ExistsCall(output)] + (if Lookup(w0.root, output).Some? && force then [RemoveCall(output)] else []);
    forall i | 0 <= i < |w2.log| ensures Preparing(w2.log[i]) {
      if i < |w1.log| {
        assert w2.log[i] == w2.log[..|w1.log| + 1][i];
      }
    }
  }

  /** The world directory mode hands to the batch: after the `stat`, the conflict check and the listing. */
  function Prepared(w: World, input: Path, output: Path, force: bool): World {
    ListOp(ClearOp(Emit(w, StatCall(input)), output, force).0, input).0
  }

  /**
    What the listing hands to the batch: files it can mirror, each a regular file that lies
    outside the output (which the check left absent) and that was already there, with the
    same content, before the run.
  */
  lemma ListedSources(w: World, input: Path, output: Path, force: bool)
    requires WellFormed(w.root) && ValidPath(output)
    requires var w1 := ClearOp(Emit(w, StatCall(input)), output, force);
      w1.1 && ListOp(w1.0, input).1.Some?
    ensures var files := ListOp(ClearOp(Emit(w, StatCall(input)), output, force).0, input).1.value;
      var pre := Prepared(w, input, output, force);
      Sources(pre.root, input, output, files) &&
      forall i :: 0 <= i < |files| ==> Lookup(pre.root, files[i]) == Lookup(w.root, files[i])
  {
    var w0 := Emit(w, StatCall(input));
    var w1 := ClearOp(w0, output, force).0;
    var files := ListOp(w1, input).1.value;
    ClearOpTable(w0, output, force);
    RemoveWellFormed(w0.root, output);
    assert WellFormed(w1.root);
    ListOpOnlyLists(w1, input);
    ListJsFilesDistinct(w1, input);
    forall i | 0 <= i < |files|
      ensures IsPrefix(input, files[i]) && Lookup(w1.root, files[i]).Some? && Lookup(w1.root, files[i]).value.File?
      ensures !IsPrefix(output, files[i]) && Lookup(w1.root, files[i]) == Lookup(w.root, files[i])
    {
      var f := files[i];
      ListJsFilesExact(w1, input, f);
      if IsPrefix(output, f) {
        assert f == output + f[|output|..];
        LookupConcat(w1.root, output, f[|output|..]);
        assert false;
      }
      if w1.root != w0.root {
        RemoveAddsNoFiles(w0.root, output, f);
      }
    }
  }

  /**
    Each file of a directory run, in terms of its content `c` before the run: it is always
    read, it fails at the engine exactly when the engine throws on `c`, a written status holds
    the engine's code for `c` at the mirrored path, and once the engine returned the file is
    written exactly when `mkdir`, the write and the bundle's save succeed in the tree the
    files before it left. A failure of one file therefore never keeps another from being written.
  */
  lemma DirectoryFileOutcomes(w: World, args: Args, stdin: seq<string>, t: Transform)
    requires WellFormed(w.root) && RunsBatch(w, args) && args.output.Some? && ValidPath(args.output.value)
    ensures var outcome := RunOp(w, args, stdin, t).1;
      var input, output := args.input.value, args.output.value;
      outcome.BatchDone? ==>
        |outcome.statuses| == |outcome.files| &&
        forall i :: 0 <= i < |outcome.files| ==>
          var f := outcome.files[i];
          Lookup(w.root, f).Some? && Lookup(w.root, f).value.File? &&
          var c := Lookup(w.root, f).value.content;
          var s := outcome.statuses[i];
          s != Failed(Reading) &&
          (s == Failed(Transforming) <==> t(c, args.options).None?) &&
          (s.Written? ==> s == Written(OutFile(input, output, f), t(c, args.options).value.code)) &&
          (t(c, args.options).Some? ==>
             (s.Written? <==>
                OutputSucceeds(Transformed(BatchOp(Prepared(w, input, output, args.force), input, output,
                                                   outcome.files[..i], t, args.options).0, f, c),
                               OutFile(input, output, f), t(c, args.options).value)))
  {
    var input, output := args.input.value, args.output.value;
    var w0 := Emit(w, StatCall(input));
    Dispatch(w, args, stdin, t);
    var (w1, proceed) := ClearOp(w0, output, args.force);
    if proceed {
      var (w2, files) := ListOp(w1, input);
      if files.Some? {
        ListedSources(w, input, output, args.force);
        BatchOutcomes(w2, input, output, files.value, t, args.options);
        assert RunOp(w, args, stdin, t).1 == BatchDone(files.value, BatchOp(w2, input, output, files.value, t, args.options).1);
      }
    }
  }

  /**
    Directory mode, started on a fresh trace over a well-formed tree, with a valid output
    path and an engine that returns no bundles: the batch reads exactly the listed files in
    order, reports exactly the ones that failed, and every file written by the batch ends with
    the engine's code for its content before the run stored at the mirrored path below the
    output. A file is written exactly when the engine returns for it and `mkdir` and the write
    of its output succeed.
  */
  lemma DirectoryStoresOutputs(w: World, args: Args, stdin: seq<string>, t: Transform)
    requires w.log == [] && WellFormed(w.root) && RunsBatch(w, args)
    requires args.output.Some? && ValidPath(args.output.value) && NoBundles(t, args.options)
    ensures var (next, outcome) := RunOp(w, args, stdin, t);
      outcome.BatchDone? ==>
        |outcome.statuses| == |outcome.files| &&
        ReadsOf(next.log) == outcome.files &&
        ReportsOf(next.log) == FailedOf(outcome.files, outcome.statuses) &&
        forall i :: 0 <= i < |outcome.files| ==>
          |outcome.files[i]| > |args.input.value| && IsPrefix(args.input.value, outcome.files[i]) &&
          (outcome.statuses[i].Written? ==>
             Lookup(next.root, args.output.value + outcome.files[i][|args.input.value|..]) ==
             Some(File(outcome.statuses[i].code)))
    ensures var (next, outcome) := RunOp(w, args, stdin, t);
      var input, output := args.input.value, args.output.value;
      outcome.BatchDone? ==>
        |outcome.statuses| == |outcome.files| &&
        forall i :: 0 <= i < |outcome.files| ==>
          var f := outcome.files[i];
          Lookup(w.root, f).Some? && Lookup(w.root, f).value.File? &&
          var r := t(Lookup(w.root, f).value.content, args.options);
          (outcome.statuses[i].Written? <==>
             r.Some? && OutputSucceeds(Transformed(BatchOp(Prepared(w, input, output, args.force), input, output,
                                                           outcome.files[..i], t, args.options).0,
                                                   f, Lookup(w.root, f).value.content),
                                       OutFile(input, output, f), r.value)) &&
          (outcome.statuses[i].Written? ==> Lookup(next.root, output + f[|input|..]) == Some(File(r.value.code)))
  {
    var input, output := args.input.value, args.output.value;
    var w0 := Emit(w, StatCall(input));
    Dispatch(w, args, stdin, t);
    var (w1, proceed) := ClearOp(w0, output, args.force);
    if proceed {
      var (w2, files) := ListOp(w1, input);
      if files.Some? {
        var files := files.value;
        ListedSources(w, input, output, args.force);
        PreparationBeforeBatch(w, input, output, args.force);
        BatchAfterPreparation(w2, input, output, files, t, args.options);
        assert RunOp(w, args, stdin, t) == (BatchOp(w2, input, output, files, t, args.options).0,
          BatchDone(files, BatchOp(w2, input, output, files, t, args.options).1));
      }
    }
  }

  /**
    Isolation for a whole directory run, with an engine that returns no bundles and only
    directories on the way to the output: each listed file ends written, with the engine's
    code for its content before the run at its mirrored path, exactly when the engine returns
    on that content, and caught at the engine otherwise. A file the engine throws on keeps no
    other file from being written. On a fresh trace every such output is stored in the tree.
  */
  lemma DirectoryWritesAll(w: World, args: Args, stdin: seq<string>, t: Transform)
    requires WellFormed(w.root) && RunsBatch(w, args) && args.output.Some? && ValidPath(args.output.value)
    requires NoBundles(t, args.options) && DirsAlong(w.root, Dirname(args.output.value))
    ensures var outcome := RunOp(w, args, stdin, t).1;
      var input, output := args.input.value, args.output.value;
      outcome.BatchDone? ==>
        |outcome.statuses| == |outcome.files| &&
        forall i :: 0 <= i < |outcome.files| ==>
          var f := outcome.files[i];
          |f| > |input| && IsPrefix(input, f) && Lookup(w.root, f).Some? && Lookup(w.root, f).value.File? &&
          var r := t(Lookup(w.root, f).value.content, args.options);
          outcome.statuses[i] == if r.Some? then Written(output + f[|input|..], r.value.code) else Failed(Transforming)
    ensures var (next, outcome) := RunOp(w, args, stdin, t);
      var input, output := args.input.value, args.output.value;
      w.log == [] && outcome.BatchDone? ==>
        forall i :: 0 <= i < |outcome.files| ==>
          var f := outcome.files[i];
          |f| > |input| && IsPrefix(input, f) && Lookup(w.root, f).Some? && Lookup(w.root, f).value.File? &&
          var r := t(Lookup(w.root, f).value.content, args.options);
          (r.Some? ==> Lookup(next.root, output + f[|input|..]) == Some(File(r.value.code)))
  {
    var input, output := args.input.value, args.output.value;
    var w0 := Emit(w, StatCall(input));
    Dispatch(w, args, stdin, t);
    var (w1, proceed) := ClearOp(w0, output, args.force);
    ClearOpTable(w0, output, args.force);
    if proceed {
      var (w2, files) := ListOp(w1, input);
      if files.Some? {
        var files := files.value;
        ListedSources(w, input, output, args.force);
        ListOpOnlyLists(w1, input);
        assert RunOp(w, args, stdin, t) == (BatchOp(w2, input, output, files, t, args.options).0,
          BatchDone(files, BatchOp(w2, input, output, files, t, args.options).1));
        forall i | 0 <= i < |files| ensures OutFile(input, output, files[i]) == output + files[i][|input|..] {
          OutFileMirrors(input, output, files[i]);
        }
        if output != [] {
          assert DirsAlong(w1.root, Dirname(output)) by {
            if Lookup(w0.root, output).Some? && args.force {
              RemoveKeepsDirsAlong(w0.root, output, Dirname(output));
            }
          }
          BatchWritesAll(w2, input, output, files, t, args.options);
        } else {
          assert forall i :: 0 <= i < |files| ==> files[i][..0] == output;
        }
        if w.log == [] {
          DirectoryStoresOutputs(w, args, stdin, t);
        }
      }
    }
  }

  /**
    When the output lies neither inside the input nor around it, the conflict check cannot
    touch the input: the run reaches the batch exactly when the check proceeds, and it then
    processes exactly the `.js` files the input held before the run, with or without `force`.
  */
  lemma DirectoryListsInput(w: World, args: Args, stdin: seq<string>, t: Transform)
    requires RunsBatch(w, args) && args.output.Some?
    requires !IsPrefix(args.output.value, args.input.value) && !IsPrefix(args.input.value, args.output.value)
    ensures var outcome := RunOp(w, args, stdin, t).1;
      (outcome.BatchDone? <==> OutputClear(w, args)) &&
      (outcome.BatchDone? ==> outcome.files == JsFiles(args.input.value, Lookup(w.root, args.input.value).value.entries))
  {
    var input, output := args.input.value, args.output.value;
    var w0 := Emit(w, StatCall(input));
    Dispatch(w, args, stdin, t);
    var (w1, proceed) := ClearOp(w0, output, args.force);
    ClearOpTable(w0, output, args.force);
    if w1.root != w0.root {
      RemoveKeeps(w0.root, output, input);
    }
    assert Lookup(w1.root, input) == Lookup(w.root, input);
  }

  /**
    A directory run changes no regular file outside the output, whatever its outcome: the
    forced removal, the listing and the batch leave every such file with the content it had.
  */
  lemma DirectoryKeepsOutside(w: World, args: Args, stdin: seq<string>, t: Transform, q: Path)
    requires WellFormed(w.root) && RunsBatch(w, args) && args.output.Some? && ValidPath(args.output.value)
    requires !IsPrefix(args.output.value, q) && Lookup(w.root, q).Some? && Lookup(w.root, q).value.File?
    ensures Lookup(RunOp(w, args, stdin, t).0.root, q) == Lookup(w.root, q)
  {
    var input, output := args.input.value, args.output.value;
    var w0 := Emit(w, StatCall(input));
    Dispatch(w, args, stdin, t);
    var (w1, proceed) := ClearOp(w0, output, args.force);
    ClearOpTable(w0, output, args.force);
    if w1.root != w0.root {
      RemoveKeepsFiles(w0.root, output, q);
    }
    if proceed {
      var (w2, files) := ListOp(w1, input);
      ListOpOnlyLists(w1, input);
      if files.Some? {
        RemoveWellFormed(w0.root, output);
        ListJsFilesDistinct(w1, input);
        forall i | 0 <= i < |files.value| ensures IsPrefix(input, files.value[i]) {
          ListJsFilesExact(w1, input, files.value[i]);
        }
        BatchKeepsOutside(w2, input, output, files.value, t, args.options, q);
      }
    }
  }

  /**
    Directory mode with the input itself as the output and `force`: the conflict check
    removes the input before it is listed, so the listing throws and the input is gone.
  */
  lemma ForceOverInputRemovesIt(w: World, args: Args, stdin: seq<string>, t: Transform)
    requires WellFormed(w.root) && RunsBatch(w, args) && args.input.value != []
    requires args.output == args.input && args.force
    ensures RunOp(w, args, stdin, t).1 == Aborted(ListingFailed)
    ensures Lookup(RunOp(w, args, stdin, t).0.root, args.input.value).None?
  {
    var input := args.input.value;
    var w0 := Emit(w, StatCall(input));
    ClearOpTable(w0, input, true);
  }

  /**
    Single mode with an output that exists and no `force`: the unit has already been read
    (or standard input drained), then the run stops at the existence check; the engine is
    not called and nothing is removed or written.
  */
  lemma SingleRefusesExisting(w: World, args: Args, stdin: seq<string>, t: Transform)
    requires RunsSingle(w, args) && SingleCode(w, args, stdin).Some?
    requires args.output.Some? && Lookup(w.root, args.output.value).Some? && !args.force
    ensures RunOp(w, args, stdin, t) ==
      (World(w.root, w.log + (if args.input.Some? then [StatCall(args.input.value), ReadFileCall(args.input.value)] else [StdinRead])
                            + [ExistsCall(args.output.value)]),
       Aborted(OutputExists))
  {
    Dispatch(w, args, stdin, t);
    if args.input.Some? {
      StatKeepsSource(w, args, stdin);
      assert w.log + [StatCall(args.input.value)] + [ReadFileCall(args.input.value)] ==
        w.log + [StatCall(args.input.value), ReadFileCall(args.input.value)];
    }
  }

  // ----- an example of isolation -----

  /** The listing of `src`: `a.js`, `nested` holding `b.js`, and `c.txt`. */
  function ExampleSrc(): seq<Entry> {
    [Entry("a.js", File("a")), Entry("nested", Dir([Entry("b.js", File("b"))])), Entry("c.txt", File("c"))]
  }

  /** `src` at the top of the tree; nothing is at `out`. */
  function ExampleTree(): Node {
    Dir([Entry("src", Dir(ExampleSrc()))])
  }

  /** An engine that throws on the content of `a.js` and returns `B` for that of `b.js`. */
  function ExampleEngine(code: string, opts: Options): Option<Processed> {
    if code == "b" then Some(Processed("B", None)) else None
  }

  function ExampleArgs(): Args {
    Args(Some(["src"]), Some(["out"]), false, Options(false, false, false, false, false))
  }

  lemma ExampleTreeWellFormed()
    ensures WellFormed(ExampleTree())
  {
    var es := ExampleSrc();
    assert ValidName("a.js") && ValidName("nested") && ValidName("c.txt") && ValidName("b.js") && ValidName("src");
    assert es[0].name != es[1].name && es[0].name != es[2].name && es[1].name != es[2].name by {
      assert "a.js"[0] != "nested"[0] && "a.js"[0] != "c.txt"[0] && "nested"[0] != "c.txt"[0];
    }
    assert WellFormed(Dir([Entry("b.js", File("b"))]));
  }

  lemma ExampleTreeLookups()
    ensures Lookup(ExampleTree(), ["src"]) == Some(Dir(ExampleSrc()))
    ensures Lookup(ExampleTree(), ["out"]) == None
    ensures Lookup(ExampleTree(), ["src", "a.js"]) == Some(File("a"))
    ensures Lookup(ExampleTree(), ["src", "nested", "b.js"]) == Some(File("b"))
    ensures Lookup(ExampleTree(), ["src", "c.txt"]) == Some(File("c"))
  {
    var b: Path := ["src", "nested", "b.js"];
    assert b[1..] == ["nested", "b.js"] && b[1..][1..] == ["b.js"];
  }

  lemma ExampleLookupA()
    ensures Lookup(ExampleTree(), ["src", "a.js"]) == Some(File("a"))
  {
    ExampleTreeLookups();
  }

  lemma ExampleLookupB()
    ensures Lookup(ExampleTree(), ["src", "nested", "b.js"]) == Some(File("b"))
  {
    ExampleTreeLookups();
  }

  lemma ExampleListing()
    ensures JsFiles(["src"], ExampleSrc()) == [["src", "a.js"], ["src", "nested", "b.js"]]
  {
    var es, sub := ExampleSrc(), [Entry("b.js", File("b"))];
    var a, b := ["src", "a.js"], ["src", "nested", "b.js"];
    assert HasJsExtension("a.js") && HasJsExtension("b.js") && !HasJsExtension("c.txt");
    assert ["src"] + ["nested"] == ["src", "nested"] && ["src", "nested"] + ["b.js"] == b && ["src"] + ["a.js"] == a;
    assert JsFilesFrom(["src"], es, 2) == [] + JsFilesFrom(["src"], es, 3);
    assert EntryFiles(["src", "nested"], sub[0]) == [b];
    assert JsFilesFrom(["src", "nested"], sub, 0) == [b] + JsFilesFrom(["src", "nested"], sub, 1);
    assert EntryFiles(["src"], es[1]) == [b];
    assert EntryFiles(["src"], es[0]) == [a];
    assert JsFilesFrom(["src"], es, 0) == [a] + ([b] + []);
  }

  /** The facts about the example that the general lemmas ask for. */
  lemma ExampleSetting()
    ensures WellFormed(ExampleTree()) && RunsBatch(World(ExampleTree(), []), ExampleArgs())
    ensures ValidPath(["out"]) && DirsAlong(ExampleTree(), Dirname(["out"])) && NoBundles(ExampleEngine, ExampleArgs().options)
    ensures OutputClear(World(ExampleTree(), []), ExampleArgs())
  {
    ExampleTreeWellFormed();
    ExampleTreeLookups();
    var top: Path := [];
    assert Dirname(["out"]) == top && top[..0] == top;
    assert ValidName("out");
  }

  /** The run on the example reaches the batch and lists `src/a.js` and `src/nested/b.js`, in that order. */
  lemma ExampleFiles()
    ensures var outcome := RunOp(World(ExampleTree(), []), ExampleArgs(), [], ExampleEngine).1;
      outcome.BatchDone? && outcome.files == [["src", "a.js"], ["src", "nested", "b.js"]]
  {
    ExampleSetting();
    ExampleListing();
    DirectoryListsInput(World(ExampleTree(), []), ExampleArgs(), [], ExampleEngine);
  }

  /** On the example the engine fails on `a.js`, so its status is a transform failure. */
  lemma ExampleFirstStatus()
    ensures var outcome := RunOp(World(ExampleTree(), []), ExampleArgs(), [], ExampleEngine).1;
      outcome.BatchDone? && |outcome.statuses| == 2 && outcome.statuses[0] == Failed(Transforming)
  {
    ExampleSetting();
    ExampleLookupA();
    ExampleFiles();
    DirectoryWritesAll(World(ExampleTree(), []), ExampleArgs(), [], ExampleEngine);
  }

  /** On the example the engine accepts `b.js`, and its code is written to `out/nested/b.js`. */
  lemma ExampleSecondStatus()
    ensures var outcome := RunOp(World(ExampleTree(), []), ExampleArgs(), [], ExampleEngine).1;
      outcome.BatchDone? && |outcome.statuses| == 2 && outcome.statuses[1] == Written(["out", "nested", "b.js"], "B")
  {
    var b: Path := ["src", "nested", "b.js"];
    ExampleSetting();
    ExampleLookupB();
    ExampleFiles();
    DirectoryWritesAll(World(ExampleTree(), []), ExampleArgs(), [], ExampleEngine);
    assert ["out"] + b[|["src"]|..] == ["out", "nested", "b.js"];
  }

  /** On the example the engine fails on `a.js` and `b.js` is written to `out/nested/b.js`. */
  lemma ExampleOutcome()
    ensures RunOp(World(ExampleTree(), []), ExampleArgs(), [], ExampleEngine).1 ==
      BatchDone([["src", "a.js"], ["src", "nested", "b.js"]], [Failed(Transforming), Written(["out", "nested", "b.js"], "B")])
  {
    ExampleFiles();
    ExampleFirstStatus();
    ExampleSecondStatus();
    var outcome := RunOp(World(ExampleTree(), []), ExampleArgs(), [], ExampleEngine).1;
    assert outcome.statuses == [Failed(Transforming), Written(["out", "nested", "b.js"], "B")];
  }

  /**
    The run on the example lists `src/a.js` and `src/nested/b.js`, catches `a.js` at the
    engine, still writes `out/nested/b.js` with the engine's code, and leaves `c.txt` as it was.
  */
  lemma IsolationExample()
    ensures var (next, outcome) := RunOp(World(ExampleTree(), []), ExampleArgs(), [], ExampleEngine);
      outcome == BatchDone([["src", "a.js"], ["src", "nested", "b.js"]],
                           [Failed(Transforming), Written(["out", "nested", "b.js"], "B")]) &&
      Lookup(next.root, ["out", "nested", "b.js"]) == Some(File("B")) &&
      Lookup(next.root, ["src", "c.txt"]) == Some(File("c"))
  {
    var w, args, t := World(ExampleTree(), []), ExampleArgs(), ExampleEngine;
    var b: Path := ["src", "nested", "b.js"];
    ExampleSetting();
    ExampleTreeLookups();
    ExampleOutcome();
    DirectoryWritesAll(w, args, [], t);
    DirectoryKeepsOutside(w, args, [], t, ["src", "c.txt"]);
    assert ["out"] + b[|["src"]|..] == ["out", "nested", "b.js"];
    assert RunOp(w, args, [], t).1.files[1] == b;
  }
}
