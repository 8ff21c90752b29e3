/**
  The parts of Node's `path` module that the directory batch uses (`join`, `relative`,
  `dirname`), on absolute paths given as segment sequences, and the output path mapping
  built from them.
*/
module NodePath {
  import opened FileTree

  /**
    Appends `segs` to the normalised absolute path `acc`, dropping empty and `.` segments
    and letting `..` go up one level (never above the root), as `path.normalize` does.
  */
  function Normalize(acc: Path, segs: Path): Path
    decreases |segs|
  {
    if segs == [] then acc
    else if segs[0] == ".." then Normalize(if acc == [] then [] else acc[..|acc| - 1], segs[1..])
    else if segs[0] == "." || segs[0] == "" then Normalize(acc, segs[1..])
    else Normalize(acc + [segs[0]], segs[1..])
  }

  /** `path.join(a, b)` for an absolute `a`. */
  function Join(a: Path, b: Path): Path {
    Normalize([], a + b)
  }

  /** The length of the longest common prefix of two paths. */
  function CommonPrefixLength(a: Path, b: Path): (k: nat)
    ensures k <= |a| && k <= |b| && a[..k] == b[..k]
    ensures k < |a| && k < |b| ==> a[k] != b[k]
  {
    if a == [] || b == [] || a[0] != b[0] then 0
    else
      var k := CommonPrefixLength(a[1..], b[1..]);
      assert a[..k + 1] == [a[0]] + a[1..][..k];
      assert b[..k + 1] == [b[0]] + b[1..][..k];
      k + 1
  }

  /** `n` segments `..`. */
  function Ups(n: nat): (r: Path)
    ensures |r| == n && forall i :: 0 <= i < n ==> r[i] == ".."
  {
    seq(n, _ => "..")
  }

  /** `path.relative(from, to)`: climb out of `from` to the common ancestor, then descend to `to`. */
  function Relative(from: Path, to: Path): Path {
    var k := CommonPrefixLength(from, to);
    Ups(|from| - k) + to[k..]
  }

  /** `path.dirname(p)`; the root is its own parent. */
  function Dirname(p: Path): (d: Path)
    ensures p != [] ==> |d| == |p| - 1 && IsPrefix(d, p)
    ensures p == [] ==> d == []
  {
    if p == [] then [] else p[..|p| - 1]
  }

  /** `outFile = join(absOutput, relative(absInput, file))`. */
  function OutFile(absInput: Path, absOutput: Path, file: Path): Path {
    Join(absOutput, Relative(absInput, file))
  }

  /** `outDir = dirname(outFile)`. */
  function OutDir(absInput: Path, absOutput: Path, file: Path): Path {
    Dirname(OutFile(absInput, absOutput, file))
  }

  // ----- lemmas -----

  /** Normalising a concatenation is normalising its parts one after the other. */
  lemma {:induction false} NormalizeConcat(acc: Path, a: Path, b: Path)
    ensures Normalize(acc, a + b) == Normalize(Normalize(acc, a), b)
    decreases |a|
  {
    if a == [] {
      assert a + b == b;
    } else {
      assert (a + b)[0] == a[0] && (a + b)[1..] == a[1..] + b;
      var acc' := if a[0] == ".." then (if acc == [] then [] else acc[..|acc| - 1])
                  else if a[0] == "." || a[0] == "" then acc
                  else acc + [a[0]];
      NormalizeConcat(acc', a[1..], b);
    }
  }

  /** Valid segments are appended unchanged. */
  lemma {:induction false} NormalizeValid(acc: Path, segs: Path)
    requires ValidPath(segs)
    ensures Normalize(acc, segs) == acc + segs
    decreases |segs|
  {
    if segs == [] {
      assert acc + segs == acc;
    } else {
      NormalizeValid(acc + [segs[0]], segs[1..]);
      assert acc + [segs[0]] + segs[1..] == acc + segs;
    }
  }

  /** Each `..` climbs one level. */
  lemma {:induction false} NormalizeUps(acc: Path, n: nat)
    requires n <= |acc|
    ensures Normalize(acc, Ups(n)) == acc[..|acc| - n]
    decreases n
  {
    if n > 0 {
      assert Ups(n)[1..] == Ups(n - 1);
      NormalizeUps(acc[..|acc| - 1], n - 1);
      assert acc[..|acc| - 1][..|acc| - 1 - (n - 1)] == acc[..|acc| - n];
    }
  }

  lemma JoinValid(a: Path, b: Path)
    requires ValidPath(a) && ValidPath(b)
    ensures Join(a, b) == a + b
  {
    NormalizeValid([], a + b);
  }

  /** Joining `m` `..` segments onto a valid path drops its last `m` segments. */
  lemma JoinUps(from: Path, m: nat)
    requires ValidPath(from) && m <= |from|
    ensures Normalize([], from + Ups(m)) == from[..|from| - m]
  {
    var top: Path := [];
    NormalizeConcat(top, from, Ups(m));
    NormalizeValid(top, from);
    assert top + from == from;
    NormalizeUps(from, m);
  }

  /** `path.join(from, path.relative(from, to)) == to`: `relative` is undone by `join`. */
  lemma JoinRelative(from: Path, to: Path)
    requires ValidPath(from) && ValidPath(to)
    ensures Join(from, Relative(from, to)) == to
  {
    var k := CommonPrefixLength(from, to);
    var m := |from| - k;
    var head, rest := from + Ups(m), to[k..];
    assert from + Relative(from, to) == head + rest;
    NormalizeConcat([], head, rest);
    JoinUps(from, m);
    assert from[..|from| - m] == to[..k];
    assert ValidPath(rest);
    NormalizeValid(to[..k], rest);
    assert to[..k] + rest == to;
  }

  /** For a path below `from`, `relative` is the remaining sub-path. */
  lemma RelativeBelow(from: Path, to: Path)
    requires IsPrefix(from, to)
    ensures Relative(from, to) == to[|from|..]
  {
  }

  /**
    The output path of a file below the input root is the output root followed by the
    file's path relative to the input root, unchanged; `relative(absOutput, outFile)` gives
    back that sub-path and `outDir` is below the output root.
  */
  lemma OutFileMirrors(absInput: Path, absOutput: Path, file: Path)
    requires IsPrefix(absInput, file) && ValidPath(absOutput) && ValidPath(file[|absInput|..])
    ensures OutFile(absInput, absOutput, file) == absOutput + file[|absInput|..]
    ensures IsPrefix(absOutput, OutFile(absInput, absOutput, file))
    ensures Relative(absOutput, OutFile(absInput, absOutput, file)) == Relative(absInput, file)
    ensures |file| > |absInput| ==>
      OutDir(absInput, absOutput, file) == absOutput + file[|absInput|..|file| - 1]
  {
    var rel := file[|absInput|..];
    RelativeBelow(absInput, file);
    JoinValid(absOutput, rel);
    var out := absOutput + rel;
    assert out[..|absOutput|] == absOutput;
    RelativeBelow(absOutput, out);
    assert out[|absOutput|..] == rel;
    if |file| > |absInput| {
      assert out[..|out| - 1] == absOutput + file[|absInput|..|file| - 1];
    }
  }

  /** Distinct files below the input root never share an output path. */
  lemma OutFileInjective(absInput: Path, absOutput: Path, f: Path, g: Path)
    requires IsPrefix(absInput, f) && ValidPath(f[|absInput|..])
    requires IsPrefix(absInput, g) && ValidPath(g[|absInput|..])
    requires ValidPath(absOutput)
    requires f != g
    ensures OutFile(absInput, absOutput, f) != OutFile(absInput, absOutput, g)
  {
    OutFileMirrors(absInput, absOutput, f);
    OutFileMirrors(absInput, absOutput, g);
  }

  /** Output paths nest exactly as the files below the input root do. */
  lemma OutFileNests(absInput: Path, absOutput: Path, f: Path, g: Path)
    requires IsPrefix(absInput, f) && ValidPath(f[|absInput|..])
    requires IsPrefix(absInput, g) && ValidPath(g[|absInput|..])
    requires ValidPath(absOutput)
    ensures IsPrefix(OutFile(absInput, absOutput, f), OutFile(absInput, absOutput, g)) <==> IsPrefix(f, g)
  {
    OutFileMirrors(absInput, absOutput, f);
    OutFileMirrors(absInput, absOutput, g);
    var rf, rg := f[|absInput|..], g[|absInput|..];
    assert f == absInput + rf && g == absInput + rg;
    PrefixAfter(absInput, rf, rg);
    PrefixAfter(absOutput, rf, rg);
  }

  /** A common head does not change whether one path begins another. */
  lemma PrefixAfter(a: Path, p: Path, q: Path)
    ensures IsPrefix(a + p, a + q) <==> IsPrefix(p, q)
  {
    if |p| <= |q| {
      assert (a + q)[..|a + p|] == a + q[..|p|];
      if (a + q)[..|a + p|] == a + p {
        assert q[..|p|] == (a + q[..|p|])[|a|..];
      }
    }
  }
}
