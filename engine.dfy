/**
  The transformation engine as the orchestration sees it: an opaque call from source text
  and options to transformed code with an optional bundle of extracted modules.
*/
module Engine {
  import opened Wrappers
  import opened FileTree

  /** The flags forwarded verbatim to the engine (all options except `output` and `force`). */
  datatype Options = Options(mangle: bool, jsx: bool, unpack: bool, deobfuscate: bool, unminify: bool)

  /** A file a save operation writes, at a path relative to the directory it saves into. */
  datatype Module = Module(path: Path, code: string)

  /** The paths of a sequence of files, in order. */
  function PathsOf(ms: seq<Module>): (r: seq<Path>)
    ensures |r| == |ms| && forall i :: 0 <= i < |ms| ==> r[i] == ms[i].path
  {
    if ms == [] then [] else [ms[0].path] + PathsOf(ms[1..])
  }

  /** No two files of a save share a path. */
  predicate DistinctPaths(ms: seq<Module>) {
    Distinct(PathsOf(ms))
  }

  /** A bundle is known by the files its `save(dir)` writes beneath `dir`, in order. */
  datatype Bundle = Bundle(modules: seq<Module>)

  /** The engine's result: `{ code, bundle? }`. */
  datatype Processed = Processed(code: string, bundle: Option<Bundle>)

  /** `webcrack(code, options)`; `None` stands for a call that threw. */
  type Transform = (string, Options) -> Option<Processed>

  /** The files `result.save(dir)` writes beneath `dir`: the code as `deobfuscated.js`, then the bundle. */
  function SavedFiles(r: Processed): seq<Module> {
    [Module(["deobfuscated.js"], r.code)] + (if r.bundle.Some? then r.bundle.value.modules else [])
  }
}
