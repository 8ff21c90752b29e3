# webcrack command line: a verified model of the action handler

webcrack's command-line tool feeds JavaScript through the webcrack engine. It writes the
result to standard output or to an output directory. The action handler in
`packages/webcrack/src/cli.ts` decides which path a run takes:

- **Single mode** handles one file or standard input. The code is read, the output
  directory is checked, the engine runs once, and the result is either saved below the output
  or its code is printed.
- **Directory mode** needs `--output`. The output is checked first: a present output is
  removed with `--force` and refused without it. The input directory is then walked
  recursively for regular `.js` files. Each file is read, transformed, and written to the
  mirrored path below the output. Every file sits inside its own try/catch, so one failure
  is reported and the loop moves on to the next file.

The model is a Dafny program in eight modules:

| file | module | contents |
|---|---|---|
| `wrappers.dfy` | `Wrappers` | `Option` |
| `file_tree.dfy` | `FileTree` | the filesystem as a tree with ordered listings; `mkdir -p`, `writeFile`, `rm -rf` and lookup as pure functions |
| `node_path.dfy` | `NodePath` | `path.join`, `path.relative` and `path.dirname` on segment paths; the output path mapping `outFile`/`outDir` |
| `engine.dfy` | `Engine` | the engine as a function value, `(code, options) -> Option<{code, bundle?}>` (`None` = it threw); what `result.save` writes |
| `io.dfy` | `Io` | `World` = tree + trace of every call the program makes; each filesystem call as a pure function; class `Host` performs them in place |
| `discovery.dfy` | `Discovery` | `listJsFiles` as a recursive method with a loop, proved equal to a walk function |
| `batch.dfy` | `Batch` | the per-file try block and the loop over the files |
| `cli.dfy` | `Cli` | `readStdin`, the conflict check, the mode dispatch, the two modes |

The filesystem calls are the methods of the class `Host`, which holds the tree and the trace
and updates them in place. The parts of the handler that work step by step (`ListJsFiles`,
`ProcessFile`, `ProcessBatch`, `ClearOutput`, `Action`, `DirectoryMode`, `SingleMode`) are
module-level methods that take a `Host`, and `ReadStdin` takes only the chunks of the stream.
Each method's `ensures` equates its result, and the host's new state, with a pure function
of the old state. The properties are lemmas about those functions. Because the `World` carries a trace of events (stat, exists check,
removal, readdir, read, engine call, mkdir, write, stdout, failure report), properties about
*what the run did* can be stated as well as what it left behind. Examples: "nothing was
read", "every listed file was read once, in order", "exactly the failed files were
reported".

Behaviour of the code that the lemmas make explicit:

- **Single mode reads before it checks.** The input file, or all of standard input, is read
  before the output is checked (`cli.ts:99-108`). A refused run has therefore already read
  its input, and `Cli.SingleRefusesExisting` states the exact trace. Only directory mode
  refuses before anything is read, which is `Cli.DirectoryRefusesExisting`.
- **Single mode removes before the engine runs.** The conflict check, and with `--force` the
  removal, happen before the engine is called (`cli.ts:100-110`). A forced run whose engine
  throws has already deleted the old output and writes nothing new
  (`Cli.EngineFailurePropagates`).
- **Input equal to output.** In directory mode with `--force`, giving the input directory as
  its own output removes the input. The listing then throws, and the input is gone
  (`Cli.ForceOverInputRemovesIt`).
- **Stdout mode never touches the tree.** Without an output, neither mode changes the tree
  (`Cli.StdoutModeKeepsTree`). A directory without an output is a usage error raised right
  after the `stat`.
- **One failure never spoils another file.** Each listed file is read from the content it had
  before the run, and it is written exactly when the engine returns for it and its own `mkdir`,
  write and save succeed (`Cli.DirectoryFileOutcomes`). Those calls do succeed when the output is
  absent after the check, only directories lie on the way to it and the engine returns no
  bundles: every file the engine returns for is then written with the engine's code
  (`Cli.DirectoryWritesAll`). For example, with `src/a.js`, `src/nested/b.js` and `src/c.txt`
  and an engine that throws on `a.js`, `out/nested/b.js` is still written and `c.txt` is left
  alone (`Cli.IsolationExample`).
- **`--force` only removes the output.** A directory run changes no regular file outside the
  output (`Cli.DirectoryKeepsOutside`). When input and output do not contain one another, the
  run reaches the batch iff the output check proceeds, and then lists exactly the `.js` files the
  input held before the run, forced or not (`Cli.DirectoryListsInput`).

## Model

| member | source | states |
|---|---|---|
| Cli.ReadStdin | packages/webcrack/src/cli.ts:27-32 | the loop over the stream returns the chunks concatenated in order |
| Cli.ConcatAppend | packages/webcrack/src/cli.ts:30 | reading two stretches of the stream gives the two texts joined |
| Discovery.ListJsFiles | packages/webcrack/src/cli.ts:34-46 | the recursive walk with its loop ends in exactly the state and result of the walk function `ListOp` (throws when the directory cannot be listed) |
| Discovery.JsFilesBelow | packages/webcrack/src/cli.ts:38 | every collected path is `join(dir, name…)`: strictly below `dir` |
| Discovery.JsFilesExact | packages/webcrack/src/cli.ts:37-44 | a path is collected iff it lies below `dir` and leads to a regular file whose extension is `.js`; directories and other entries never appear |
| Discovery.ListJsFilesExact | packages/webcrack/src/cli.ts:34-46 | over the whole tree: when the listing succeeds, `p` is listed iff it is strictly below `dir`, its last name has extension `.js` and it is a regular file |
| Discovery.ListJsFilesDistinct | packages/webcrack/src/cli.ts:34-46 | no path is listed twice, and each continues below `dir` with valid names only |
| Discovery.JsFilesConcat | packages/webcrack/src/cli.ts:37-44 | walking two listings one after the other gives the two results concatenated (order of entries is kept) |
| Discovery.JsFilesSplice | packages/webcrack/src/cli.ts:39-40 | a subdirectory's files are spliced in at the subdirectory's own position: pre-order |
| Discovery.ListOpOnlyLists | packages/webcrack/src/cli.ts:35-40 | the walk changes nothing and only calls `readdir`, first on `dir` itself |
| Discovery.ListingExample | packages/webcrack/src/cli.ts:41 | `a.js`, `nested/b.js` are found; `c.txt`, a symlink `link.js` and a file named `.js` are not |
| NodePath.JoinRelative | packages/webcrack/src/cli.ts:83-84 | `join(from, relative(from, to)) == to` for valid absolute paths |
| NodePath.RelativeBelow | packages/webcrack/src/cli.ts:83 | for a file below the input root, `relative` is the remaining sub-path |
| NodePath.OutFileMirrors | packages/webcrack/src/cli.ts:83-85 | `outFile` is the output root plus the file's sub-path below the input root; `outDir` is below the output root |
| NodePath.OutFileInjective | packages/webcrack/src/cli.ts:83-84 | distinct files below the input root never share an output path |
| Io.Host.Stat | packages/webcrack/src/cli.ts:62 | `stat` logs the call and reports the kind of entry, failing on a missing path |
| Io.Host.Exists | packages/webcrack/src/cli.ts:68 | `existsSync` logs the call and tells whether anything is at the path |
| Io.Host.Rm | packages/webcrack/src/cli.ts:70 | `rm -rf` removes the path, a missing path being no error |
| Io.Host.ReadDir | packages/webcrack/src/cli.ts:35 | `readdir` returns the listing in order, failing unless the path is a directory |
| Io.Host.ReadFile | packages/webcrack/src/cli.ts:81 | `readFile` returns the content, failing unless the path is a regular file |
| Io.Host.Invoke | packages/webcrack/src/cli.ts:82 | the engine call is logged and returns the engine's answer |
| Io.Host.Mkdir | packages/webcrack/src/cli.ts:86 | `mkdir -p` logs the call with its success and leaves the tree `MakeDirs` gives, or the old tree when it fails; when it succeeds is `FileTree.MakeDirsSucceeds` |
| Io.Host.WriteFile | packages/webcrack/src/cli.ts:87 | `writeFile` logs the call with its success and leaves the tree `WriteFile` gives, or the old tree when it fails; when it succeeds is `FileTree.WriteFileSucceeds` |
| Io.Host.Save | packages/webcrack/src/cli.ts:89 | `bundle.save(dir)` writes each module below `dir` after creating its parent, stopping at the first failure |
| Io.SaveOpStores | packages/webcrack/src/cli.ts:89 | a save that succeeds, of files with distinct paths, leaves each module's code as the last write to its path below `dir`, and writes nothing elsewhere |
| Io.SaveOpStaysBelow | packages/webcrack/src/cli.ts:89 | a save only creates directories and writes files, all below `dir` |
| Io.SaveOpLeavesFiles | packages/webcrack/src/cli.ts:112 | a save that succeeds, of files with distinct paths, leaves each file's code stored at its path below the directory |
| Io.SaveOpReflects | packages/webcrack/src/cli.ts:89 | a save keeps every successful write reflected in the tree |
| Io.SaveOpKeepsOutside | packages/webcrack/src/cli.ts:89 | a save leaves every regular file outside its directory as it was |
| FileTree.WriteFileStores | packages/webcrack/src/cli.ts:87 | after a successful `writeFile(p, c)`, `p` holds `c` |
| FileTree.WriteFileKeepsFiles | packages/webcrack/src/cli.ts:87 | `writeFile(p)` leaves every other regular file unchanged |
| FileTree.MakeDirsMakesDir | packages/webcrack/src/cli.ts:86 | after a successful `mkdir -p`, the path is a directory |
| FileTree.MakeDirsKeepsFiles | packages/webcrack/src/cli.ts:86 | `mkdir -p` never changes a regular file |
| FileTree.RemoveRemoves | packages/webcrack/src/cli.ts:70 | after `rm -rf p`, nothing is at `p` |
| FileTree.RemoveKeeps | packages/webcrack/src/cli.ts:70 | `rm -rf p` leaves the node at every path that is neither below nor above `p` as it was |
| FileTree.RemoveKeepsFiles | packages/webcrack/src/cli.ts:70 | `rm -rf p` leaves every regular file that is not below `p` as it was |
| FileTree.RemoveAddsNoFiles | packages/webcrack/src/cli.ts:70 | every regular file or other non-directory left after `rm -rf p` was there before, unchanged |
| FileTree.RemoveKeepsDirsAlong | packages/webcrack/src/cli.ts:70 | `rm -rf` never puts anything but a directory on the way to a path that had only directories on its way |
| FileTree.MakeDirsSucceeds | packages/webcrack/src/cli.ts:86 | `mkdir -p p` succeeds iff every node along `p` is a directory (names it creates being valid): it fails exactly on a file or other entry in the way |
| FileTree.WriteFileSucceeds | packages/webcrack/src/cli.ts:87 | `writeFile(p)` succeeds iff the parent of `p` is a directory and `p` is a regular file, or absent with a valid name |
| FileTree.MakeDirsAddsOnlyDirs | packages/webcrack/src/cli.ts:86 | `mkdir -p p` adds only directories, all on the way to `p`; every non-directory it leaves was there before |
| FileTree.WriteFileAddsOnlyAt | packages/webcrack/src/cli.ts:87 | `writeFile(p)` adds nothing but `p`; every other non-directory is unchanged |
| FileTree.MakeDirsKeepsWritable | packages/webcrack/src/cli.ts:86 | `mkdir -p d` keeps every path writable that does not lie on the way to `d` |
| FileTree.WriteFileKeepsWritable | packages/webcrack/src/cli.ts:87 | `writeFile(q)` keeps every path writable that `q` is neither on the way to nor equal to |
| FileTree.WritableSucceeds | packages/webcrack/src/cli.ts:86-87 | on a writable path, `mkdir -p` of its parent and then `writeFile` both succeed |
| NodePath.OutFileNests | packages/webcrack/src/cli.ts:83-84 | one file's output path lies on the way to another's iff the first file lies on the way to the second |
| Batch.ProcessFile | packages/webcrack/src/cli.ts:80-93 | one try/catch iteration ends in exactly the state and status of `StepOp`: read, transform, mkdir `outDir`, write `outFile`, save the bundle, any failure caught and reported |
| Batch.ProcessBatch | packages/webcrack/src/cli.ts:79-94 | the loop ends in exactly the state and statuses of `BatchOp`, one status per file |
| Batch.StepOutcome | packages/webcrack/src/cli.ts:80-93 | a step fails at the read iff the file cannot be read, at the engine iff the engine throws; once the engine returned, the file is written iff `mkdir`, the write and the bundle's save all succeed; a written output is the engine's code at the mapped path; a read or engine failure leaves the tree as it was |
| Batch.StepBundleAfterPrimary | packages/webcrack/src/cli.ts:85-90 | with a bundle, the trace is read, engine, mkdir `outDir`, write `outFile`, then only the bundle's mkdirs and writes below `outDir`, and at most a final failure report |
| Batch.StepTraced | packages/webcrack/src/cli.ts:80-93 | a step reads its file once and reports it exactly when it failed |
| Batch.WriteOutputTraced | packages/webcrack/src/cli.ts:87-92 | once `outDir` exists, the write and the bundle's save only create directories and write files, and report the file exactly when one of them failed |
| Batch.BatchTraced | packages/webcrack/src/cli.ts:79-94 | one failure never stops the loop: every listed file is read once, in order; exactly the failed files are reported, in order; only batch calls are made |
| Batch.BatchNeverRemoves | packages/webcrack/src/cli.ts:79-94 | the batch never removes, prints, lists or stats, so the removals of the trace stay as they were |
| Batch.BatchReflects | packages/webcrack/src/cli.ts:86-90 | last write wins: after the batch each written path holds its last write |
| Batch.BatchWrittenAt | packages/webcrack/src/cli.ts:83-87 | a written status names its file's mapped output path |
| Batch.BatchStatusAt | packages/webcrack/src/cli.ts:79-93 | the status of the `i`-th file is that of its own try block, run in the tree the files before it left |
| Batch.StepKeepsOutside | packages/webcrack/src/cli.ts:83-90 | a step creates and writes only below the output root, so every regular file outside it stays as it was |
| Batch.BatchKeepsOutside | packages/webcrack/src/cli.ts:79-94 | the whole batch leaves every regular file outside the output root as it was |
| Batch.BatchOutcomes | packages/webcrack/src/cli.ts:79-93 | for listed files outside the output: none fails at the read; one fails at the engine iff the engine throws on its content; a written one holds the engine's code for its content; once the engine returned, a file is written iff its `mkdir`, write and save succeed |
| Batch.BatchWrites | packages/webcrack/src/cli.ts:79-93 | the last write to each written output is its file's engine code; nothing is written at a failed file's output or anywhere else |
| Batch.BatchStoresOutputs | packages/webcrack/src/cli.ts:79-93 | every written file ends with its engine code stored at its output path; for listed files outside the output, a file is written iff the engine returns for its content and its `mkdir` and write succeed, and the stored code is the engine's result on that content |
| Batch.StepKeepsWritable | packages/webcrack/src/cli.ts:80-90 | without bundles, a step keeps writable every path not on the way to its output nor below it |
| Batch.BatchKeepsWritable | packages/webcrack/src/cli.ts:79-94 | without bundles, the batch keeps writable every path not on the way to any of its outputs nor below one |
| Batch.SourcesSeparate | packages/webcrack/src/cli.ts:83-84 | the outputs of two different listed files never lie on the way to one another |
| Batch.BatchWritesAt | packages/webcrack/src/cli.ts:80-90 | with the output root absent and only directories on the way to it, no bundles, and the engine returning for a listed file: that file's `mkdir`, write and save all succeed, whatever the files before it did |
| Batch.BatchWritesAll | packages/webcrack/src/cli.ts:79-93 | under the same conditions, each listed file's status is `Written` at its mapped output with the engine's code when the engine returns, and a transform failure when it throws |
| Batch.PreparationIsQuiet | packages/webcrack/src/cli.ts:62-78 | stat, exists check, removal and listing read nothing, report nothing and write nothing |
| Cli.ClearOutput | packages/webcrack/src/cli.ts:68-74 | the conflict check ends in exactly the state and decision of `ClearOp` |
| Cli.ClearOpTable | packages/webcrack/src/cli.ts:68-74 | the check proceeds iff the output is absent or `force` is given; it removes exactly when present and forced; after proceeding nothing is at the output |
| Cli.Action | packages/webcrack/src/cli.ts:59-121 | the handler ends in exactly the state and outcome of `RunOp` |
| Cli.DirectoryMode | packages/webcrack/src/cli.ts:63-96 | directory mode ends in exactly the state and outcome of `DirectoryOp` |
| Cli.SingleMode | packages/webcrack/src/cli.ts:99-120 | single mode ends in exactly the state and outcome of `SingleOp` |
| Cli.Dispatch | packages/webcrack/src/cli.ts:61-63 | a directory input takes directory mode after the `stat`; standard input or a non-directory takes single mode; a missing input stops at the `stat` |
| Cli.DirectoryNeedsOutput | packages/webcrack/src/cli.ts:64-66 | a directory without an output aborts right after the `stat`, nothing else done |
| Cli.DirectoryRefusesExisting | packages/webcrack/src/cli.ts:68-74 | a directory run with an existing output and no `force` aborts after the existence check: nothing removed, listed, read or written |
| Cli.SingleRefusesExisting | packages/webcrack/src/cli.ts:99-106 | a single run with an existing output and no `force` aborts after reading its input and checking the output: no engine call, removal or write |
| Cli.RemovesOnlyWithForce | packages/webcrack/src/cli.ts:68-74 | in both modes the output is removed exactly when the run reaches the check, it exists and `force` is given; no other `rm` call is made |
| Cli.DirectoryRemovals | packages/webcrack/src/cli.ts:68-94 | directory mode removes the output exactly when it is given, exists and `force` is set, and makes no other `rm` call |
| Cli.SingleRemovals | packages/webcrack/src/cli.ts:100-108 | single mode removes the output exactly when its input was read, the output exists and `force` is given |
| Cli.StdoutModeKeepsTree | packages/webcrack/src/cli.ts:113-119 | without an output the tree is unchanged; a printed result is the engine's code, printed last except for the modules note that follows iff there is a bundle |
| Cli.EngineFailurePropagates | packages/webcrack/src/cli.ts:110 | single mode ends with the engine's failure iff the unit was read, the check proceeded and the engine threw; the engine call is the last event, and only the forced removal changed the tree |
| Cli.DirectoryModeReturns | packages/webcrack/src/cli.ts:95 | directory mode ends in the batch or in its own errors, and makes only stat, check, removal, listing and batch calls |
| Cli.SingleModeNeverLists | packages/webcrack/src/cli.ts:99-120 | single mode never lists a directory or runs the batch, and fails only at the read, the check, the engine or the save |
| Cli.TransformOpSaves | packages/webcrack/src/cli.ts:110-112 | a successful save, of files with distinct paths, leaves every saved file at its path below the output |
| Cli.SingleModeSaves | packages/webcrack/src/cli.ts:111-112 | with an output, the save is attempted iff the unit was read, the check proceeded and the engine returned; a successful save leaves `deobfuscated.js` with the engine's code and every saved file below the output |
| Cli.BatchAfterPreparation | packages/webcrack/src/cli.ts:78-94 | after a quiet preparation, with or without bundles, the batch reads exactly the listed files and reports exactly the failed ones; for listed regular files outside the output, a file is written iff the engine returns for its content and its `mkdir`, its write and the bundle's save succeed, and a written status carries the engine's code for that content at the mirrored path; when the engine returns no bundles, every written output is stored at its mirrored path |
| Cli.PreparationBeforeBatch | packages/webcrack/src/cli.ts:62-78 | up to the listing, directory mode only stats, checks, removes and lists |
| Cli.ListedSources | packages/webcrack/src/cli.ts:68-78 | the listing hands the batch mirrorable regular files that lie outside the output and have the content they had before the run |
| Cli.DirectoryFileOutcomes | packages/webcrack/src/cli.ts:76-94 | in a directory run every listed file is read; it fails at the engine iff the engine throws on its original content; once the engine returned it is written iff its `mkdir`, write and save succeed, with the engine's code at the mirrored path |
| Cli.DirectoryStoresOutputs | packages/webcrack/src/cli.ts:76-94 | a whole directory run reads exactly the listed `.js` files in order, reports exactly the failed ones, and a file is written iff the engine returns for its original content and its `mkdir` and write succeed; the engine's code for that content ends at `output + (file relative to input)` |
| Cli.DirectoryListsInput | packages/webcrack/src/cli.ts:68-78 | when input and output do not contain one another, the run reaches the batch iff the check proceeds, and then lists exactly the `.js` files the input held before the run, with or without `force` |
| Cli.DirectoryKeepsOutside | packages/webcrack/src/cli.ts:68-94 | a directory run, forced or not and whatever its outcome, changes no regular file outside the output |
| Cli.DirectoryWritesAll | packages/webcrack/src/cli.ts:68-94 | with no bundles and only directories on the way to the output, a run that reaches the batch (the output absent, or forced) writes every listed file the engine returns for, with the engine's code at `output + (file relative to input)`, and its status is a transform failure otherwise; on a fresh trace the code is stored there |
| Cli.IsolationExample | packages/webcrack/src/cli.ts:68-94 | with `src/a.js`, `src/nested/b.js`, `src/c.txt`, output `out` absent and an engine that throws on `a.js`: `a.js` fails at the engine, `out/nested/b.js` holds the engine's code, `c.txt` is untouched |
| Cli.ExampleOutcome | packages/webcrack/src/cli.ts:79-94 | on that example the run lists `a.js` and `nested/b.js` and ends with a transform failure and a write to `out/nested/b.js` |
| Cli.ForceOverInputRemovesIt | packages/webcrack/src/cli.ts:68-78 | with the input as its own output and `force`, the input is removed, the listing throws and the input is gone |

## Left out

- Command-line parsing (`commander`), `--version` and `package.json` are not modelled. `Args` holds what `program.opts()` and the argument give, and input and output are already resolved against the working directory. So `path.resolve` and the process's working directory are outside the model, and an empty argument is the same as an absent one.
- The wording of diagnostics (`program.error`, `console.error`, the `debug` note) is not modelled. Each appears only as an event or as an `Aborted` reason. `program.error` ends the process, and so does an uncaught rejection (a missing input, a listing, read, engine or save failure in single mode). The model ends the run with an `Aborted` outcome in both cases.
- Asynchrony is not modelled. Every `await` completes before the next call, which is the order the code imposes. There is no concurrency.
- `process.stdin` is modelled as the sequence of chunks it delivers, already decoded as UTF-8 text. Encoding is not modelled.
- Symbolic links are not followed. An entry that is neither a file nor a directory is `Other`: the walk skips it, and `stat` on it takes single mode, where the read then fails. Following a link is outside the model.
- `result.save(output)` and `bundle.save(dir)` belong to the engine, whose source is not part of this model. Both are modelled as writing a list of files below a directory, each after `mkdir -p` of its parent, stopping at the first failure and refusing every module path that is empty or has a segment that is empty, `.`, `..` or contains `/` (so `./a.js` is refused even though it would stay below the directory). `Engine.SavedFiles` assumes the layout `deobfuscated.js` followed by the bundle's modules.
- Idempotence of a forced directory run repeated over the same output is not proved. Removing and recreating the output changes where it sits in its parent's listing, and in this tree model listings are ordered. Inputs below the output would also change between runs.
- Batch.BatchWrites: stated only for an engine that returns no bundles. A bundle module may overwrite the output of a sibling file. With bundles, only the last-write-wins property `Batch.BatchReflects` holds.
- Batch.BatchStoresOutputs: also stated only for an engine that returns no bundles, for the same reason.
- Cli.DirectoryStoresOutputs: also stated only without bundles, and for a run started on a fresh trace.
- Cli.BatchAfterPreparation: states that written outputs stay stored at their mirrored paths only for an engine that returns no bundles, because a bundle module may overwrite a sibling's output. Its trace and written-iff clauses hold with bundles.
- Filesystem failures that the tree's shape cannot express are not modelled: permission errors, a full disk and other operating-system errors. `rm` never fails in the model (`Io.RemoveOp`); `stat`, `readFile`, `readdir`, `mkdir` and `writeFile` fail only on a missing path or an entry of the wrong kind; for `mkdir -p` and `writeFile` the exact conditions are `FileTree.MakeDirsSucceeds` and `FileTree.WriteFileSucceeds`. In the source a failing `rm` at `cli.ts:70` or `cli.ts:103` is an uncaught rejection that ends the run; the model has no such outcome.
- Cli.SingleModeSaves: states the stored files only when the saved files have distinct paths. With duplicates the later write wins.
