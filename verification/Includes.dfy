/** packages/config/src/includes.ts, resolveIncludes */
module Includes {
  import opened Prelude
  import opened ConfigMerge

  type Fields = map<string, Json>

  /** Reading a file may fail. */
  type Files = string -> Option<Fields>

  datatype Error = Circular(chain: seq<string>) | Unreadable(path: string)

  const MAX_INCLUDE_DEPTH := 10

  function IncludeOf(raw: Fields): Option<string> {
    if "$include" in raw && raw["$include"].Str? then Some(raw["$include"].s) else None
  }

  predicate IsSeparator(c: char) { c == '/' || c == '\\' }

  /** The base without its last separator and what follows it; unchanged if it has none. */
  function DirOf(base: string, i: nat): string
    requires i <= |base|
  {
    if i == 0 then base else if IsSeparator(base[i - 1]) then base[..i - 1] else DirOf(base, i - 1)
  }

  function ResolvePath(includePath: string, base: string): string {
    if includePath != "" && includePath[0] == '/' then includePath else DirOf(base, |base|) + "/" + includePath
  }

  lemma {:induction false} DirOfFile(dir: string, sep: char, file: string, i: nat)
    requires IsSeparator(sep) && (forall k :: 0 <= k < |file| ==> !IsSeparator(file[k]))
    requires |dir| < i <= |dir + [sep] + file|
    ensures DirOf(dir + [sep] + file, i) == dir
  {
    var base := dir + [sep] + file;
    if i - 1 == |dir| {
      assert base[..|dir|] == dir;
    } else {
      assert base[i - 1] == file[i - 2 - |dir|];
      DirOfFile(dir, sep, file, i - 1);
    }
  }

  /** An absolute path is taken as it is, any other is looked up beside the file that includes it. */
  lemma {:induction false} PathIsBesideIncluder(dir: string, sep: char, file: string, includePath: string)
    requires sep in "/\\" && forall k :: 0 <= k < |file| ==> file[k] !in "/\\"
    ensures ResolvePath(includePath, dir + [sep] + file) ==
            if "/" <= includePath then includePath else dir + "/" + includePath
  {
    DirOfFile(dir, sep, file, |dir + [sep] + file|);
    assert "/" <= includePath <==> includePath != "" && includePath[0] == '/';
  }

  lemma {:induction false} DirOfBare(base: string, i: nat)
    requires i <= |base| && forall k :: 0 <= k < i ==> !IsSeparator(base[k])
    ensures DirOf(base, i) == base
  {
    if i > 0 {
      DirOfBare(base, i - 1);
    }
  }

  /** A base without a separator, the bare name of a file, is taken for a directory. */
  lemma {:induction false} BareBaseIsDirectory(base: string, includePath: string)
    requires forall k :: 0 <= k < |base| ==> base[k] !in "/\\"
    ensures ResolvePath(includePath, base) == if "/" <= includePath then includePath else base + "/" + includePath
  {
    DirOfBare(base, |base|);
    assert "/" <= includePath <==> includePath != "" && includePath[0] == '/';
  }

  function Rest(raw: Fields): Fields { raw - {"$include"} }

  function ResolveIncludes(raw: Fields, files: Files, base: string, chain: seq<string>): Result<Fields, Error>
    decreases if |chain| > MAX_INCLUDE_DEPTH then 0 else 1 + MAX_INCLUDE_DEPTH - |chain|
  {
    if |chain| > MAX_INCLUDE_DEPTH then Err(Circular(chain))
    else
      var include_ := IncludeOf(raw);
      if include_.None? then Ok(raw)
      else
        var path := ResolvePath(include_.value, base);
        if path in chain then Err(Circular(chain + [path]))
        else
          var file := files(path);
          if file.None? then Err(Unreadable(path))
          else
            var included := ResolveIncludes(file.value, files, path, chain + [path]);
            if included.Err? then included else Ok(Merge(Obj(included.value), Obj(Rest(raw))).fields)
  }

  // ----- The include chain -----------------------------------------------------------------------------

  /** Each object includes the next, by these paths, and the last includes nothing. */
  ghost predicate Trace(files: Files, base: string, raws: seq<Fields>, paths: seq<string>)
    decreases |paths|
  {
    && |raws| == |paths| + 1
    && if paths == [] then IncludeOf(raws[0]).None?
       else
         && IncludeOf(raws[0]).Some? && paths[0] == ResolvePath(IncludeOf(raws[0]).value, base)
         && files(paths[0]) == Some(raws[1])
         && Trace(files, paths[0], raws[1..], paths[1..])
  }

  /** The innermost object, with each outer one merged over it. */
  function Fold(raws: seq<Fields>): Fields
    requires raws != []
  {
    if |raws| == 1 then raws[0] else Merge(Obj(Fold(raws[1..])), Obj(Rest(raws[0]))).fields
  }

  ghost predicate Distinct(s: seq<string>) { forall i, j :: 0 <= i < j < |s| ==> s[i] != s[j] }

  /** A chain of includes that is short enough and visits no file twice is folded. */
  lemma {:induction false} ChainIsFolded(files: Files, base: string, raws: seq<Fields>, paths: seq<string>, chain: seq<string>)
    requires Trace(files, base, raws, paths) && Distinct(chain + paths) && |chain| + |paths| <= MAX_INCLUDE_DEPTH
    ensures ResolveIncludes(raws[0], files, base, chain) == Ok(Fold(raws))
    decreases |paths|
  {
    if paths != [] {
      assert (chain + [paths[0]]) + paths[1..] == chain + paths;
      forall i | 0 <= i < |chain| ensures chain[i] != paths[0] {
        assert (chain + paths)[i] != (chain + paths)[|chain|];
      }
      ChainIsFolded(files, paths[0], raws[1..], paths[1..], chain + [paths[0]]);
    }
  }

  /** And nothing else resolves: a result is always the fold of such a chain. */
  lemma {:induction false} ResultIsFold(raw: Fields, files: Files, base: string, chain: seq<string>)
      returns (raws: seq<Fields>, paths: seq<string>)
    requires ResolveIncludes(raw, files, base, chain).Ok? && Distinct(chain)
    ensures Trace(files, base, raws, paths) && raws[0] == raw && ResolveIncludes(raw, files, base, chain) == Ok(Fold(raws))
    ensures Distinct(chain + paths) && |chain| + |paths| <= MAX_INCLUDE_DEPTH
    decreases if |chain| > MAX_INCLUDE_DEPTH then 0 else 1 + MAX_INCLUDE_DEPTH - |chain|
  {
    hide Merge, IncludeOf, ResolvePath;
    var include_ := IncludeOf(raw);
    if include_.None? {
      raws, paths := [raw], [];
      assert chain + paths == chain;
    } else {
      var path := ResolvePath(include_.value, base);
      var r, p := ResultIsFold(files(path).value, files, path, chain + [path]);
      raws, paths := [raw] + r, [path] + p;
      assert chain + paths == (chain + [path]) + p;
      TraceCons(files, base, raw, r, p);
    }
  }

  lemma TraceCons(files: Files, base: string, raw: Fields, r: seq<Fields>, p: seq<string>)
    requires IncludeOf(raw).Some? && r != []
    requires var path := ResolvePath(IncludeOf(raw).value, base);
             Trace(files, path, r, p) && files(path) == Some(r[0])
    ensures Trace(files, base, [raw] + r, [ResolvePath(IncludeOf(raw).value, base)] + p)
    ensures Fold([raw] + r) == Merge(Obj(Fold(r)), Obj(Rest(raw))).fields
  {
    var raws, paths := [raw] + r, [ResolvePath(IncludeOf(raw).value, base)] + p;
    assert raws[1..] == r && paths[1..] == p;
  }

  /** A report of a circular include names the files that were followed: one of them twice, or too many of them. */
  lemma {:induction false} CircularIsReal(raw: Fields, files: Files, base: string, chain: seq<string>)
    requires Distinct(chain) && |chain| <= MAX_INCLUDE_DEPTH + 1
    ensures var r := ResolveIncludes(raw, files, base, chain);
            r.Err? && r.error.Circular? ==>
              && chain <= r.error.chain
              && var c := r.error.chain;
              && (if Distinct(c) then |c| == MAX_INCLUDE_DEPTH + 1
                  else |c| <= MAX_INCLUDE_DEPTH + 1 && Distinct(c[..|c| - 1]) && c[|c| - 1] in c[..|c| - 1])
    decreases if |chain| > MAX_INCLUDE_DEPTH then 0 else 1 + MAX_INCLUDE_DEPTH - |chain|
  {
    if |chain| <= MAX_INCLUDE_DEPTH && IncludeOf(raw).Some? {
      var path := ResolvePath(IncludeOf(raw).value, base);
      if path in chain {
        var c := chain + [path];
        assert c[..|c| - 1] == chain;
        var i :| 0 <= i < |chain| && chain[i] == path;
        assert c[i] == c[|c| - 1];
      } else if files(path).Some? {
        CircularIsReal(files(path).value, files, path, chain + [path]);
      }
    }
  }

  // ----- Which file wins ---------------------------------------------------------------------------------

  lemma {:induction false} FoldKeepsNearest(raws: seq<Fields>, i: nat, path: seq<string>, x: Json)
    requires i < |raws| && path != [] && path[0] != "$include" && !x.Obj? && !x.Arr?
    requires forall k :: k in path ==> k !in {"__proto__", "constructor", "prototype"}
    requires Lookup(Obj(raws[i]), path) == Some(x) && forall j :: 0 <= j < i ==> Silent(Obj(raws[j]), path)
    ensures Lookup(Obj(Fold(raws)), path) == Some(x)
    decreases i
  {
    if |raws| > 1 {
      var inner, outer := Obj(Fold(raws[1..])), Obj(Rest(raws[0]));
      hide Fold;
      assert Obj(Fold(raws)) == Combine(inner, outer) by {
        FoldStep(raws);
      }
      if i == 0 {
        SourceWins(inner, outer, path, x);
      } else {
        forall j | 0 <= j < i - 1 ensures Silent(Obj(raws[1..][j]), path) {
          assert Silent(Obj(raws[j + 1]), path);
        }
        FoldKeepsNearest(raws[1..], i - 1, path, x);
        assert Silent(Obj(raws[0]), path);
        TargetFillsGaps(inner, outer, path, x);
      }
    }
  }

  lemma FoldStep(raws: seq<Fields>)
    requires |raws| > 1
    ensures Obj(Fold(raws)) == Combine(Obj(Fold(raws[1..])), Obj(Rest(raws[0])))
  {
  }

  /**
   * A plain value of a file is found in the result exactly where it stood, unless a file further out, on the way
   * to the one that was asked for, says something else there.
   */
  lemma {:induction false} NearestFileWins(files: Files, base: string, raws: seq<Fields>, paths: seq<string>, chain: seq<string>,
                                           i: nat, path: seq<string>, x: Json)
    requires Trace(files, base, raws, paths) && Distinct(chain + paths) && |chain| + |paths| <= MAX_INCLUDE_DEPTH
    requires i < |raws| && path != [] && path[0] != "$include" && !x.Obj? && !x.Arr?
    requires forall k :: k in path ==> k !in {"__proto__", "constructor", "prototype"}
    requires Lookup(Obj(raws[i]), path) == Some(x) && forall j :: 0 <= j < i ==> Silent(Obj(raws[j]), path)
    ensures var r := ResolveIncludes(raws[0], files, base, chain);
            r.Ok? && Lookup(Obj(r.value), path) == Some(x)
  {
    ChainIsFolded(files, base, raws, paths, chain);
    FoldKeepsNearest(raws, i, path, x);
  }
}
