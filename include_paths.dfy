/**
 * include_paths_52.php (lib/xrstf/Composer52/AutoloadGenerator.php:191-228):
 * the include paths of every package, resolved against the package's install
 * path, as a `return array(...)` file; no file at all when there are none.
 */
module IncludePaths {
  import opened Wrappers
  import opened PhpStrings
  import opened GeneratorInputs

  /**
   * Lines 197-199: for a package with a non-empty target dir, the install path
   * loses as many trailing characters as `/` plus the target dir has. A
   * negative-length `substr` that reaches past the start yields nothing.
   */
  function PackageBase(entry: PackageEntry): (base: string)
    ensures |base| <= |entry.installPath|
    ensures forall i :: 0 <= i < |base| ==> base[i] == entry.installPath[i]
    ensures entry.targetDir.Some? && |entry.targetDir.value| > 0 ==>
      |base| == if |entry.targetDir.value| + 1 <= |entry.installPath|
                then |entry.installPath| - |entry.targetDir.value| - 1 else 0
    ensures entry.targetDir.None? || entry.targetDir.value == "" ==> base == entry.installPath
  {
    match entry.targetDir
    case Some(targetDir) =>
      if |targetDir| > 0 then
        var cut := |targetDir| + 1;
        if cut <= |entry.installPath| then entry.installPath[..|entry.installPath| - cut] else ""
      else entry.installPath
    case None => entry.installPath
  }

  /** Lines 202-203: an include path, trimmed of `/`, below the base unless the base is PHP-empty. */
  function JoinIncludePath(base: string, includePath: string): (joined: string)
    ensures EndsWith(joined, Trim(includePath, {'/'}))
    ensures IsEmpty(base) ==> joined == Trim(includePath, {'/'})
    ensures !IsEmpty(base) ==> StartsWith(joined, base + "/") && |joined| == |base| + 1 + |Trim(includePath, {'/'})|
  {
    var trimmed := Trim(includePath, {'/'});
    if IsEmpty(base) then trimmed else base + "/" + trimmed
  }

  /** Include paths resolved against one base, in their own order. */
  function ResolvedPaths(base: string, includePaths: seq<string>): (paths: seq<string>)
    ensures |paths| == |includePaths|
    ensures forall i :: 0 <= i < |paths| ==> paths[i] == JoinIncludePath(base, includePaths[i])
  {
    seq(|includePaths|, i requires 0 <= i < |includePaths| => JoinIncludePath(base, includePaths[i]))
  }

  /** The resolved include paths of one package, in its own order. */
  function PackageIncludePaths(entry: PackageEntry): seq<string> {
    ResolvedPaths(PackageBase(entry), entry.includePaths)
  }

  /** `$includePaths` after lines 192-205: the packages' lists one after the other. */
  function IncludePaths(packageMap: seq<PackageEntry>): seq<string> {
    if packageMap == [] then []
    else IncludePaths(packageMap[..|packageMap| - 1]) + PackageIncludePaths(packageMap[|packageMap| - 1])
  }

  lemma PackageStep(packageMap: seq<PackageEntry>, i: nat)
    requires i < |packageMap|
    ensures IncludePaths(packageMap[..i + 1]) == IncludePaths(packageMap[..i]) + PackageIncludePaths(packageMap[i])
  {
    assert packageMap[..i + 1][..i] == packageMap[..i];
  }

  lemma AppendStep(prefix: seq<string>, paths: seq<string>, j: nat)
    requires j < |paths|
    ensures prefix + paths[..j + 1] == (prefix + paths[..j]) + [paths[j]]
  {
    assert paths[..j + 1] == paths[..j] + [paths[j]];
  }

  /** Lines 201-204: `$includePaths[] = ...` for each include path of one package. */
  method AppendIncludePaths(includePaths: seq<string>, installPath: string, paths: seq<string>)
    returns (appended: seq<string>)
    ensures appended == includePaths + ResolvedPaths(installPath, paths)
  {
    appended := includePaths;
    var j := 0;
    while j < |paths|
      invariant 0 <= j <= |paths|
      invariant appended == includePaths + ResolvedPaths(installPath, paths)[..j]
    {
      var includePath := Trim(paths[j], {'/'});
      var resolved := if IsEmpty(installPath) then includePath else installPath + "/" + includePath;
      AppendStep(includePaths, ResolvedPaths(installPath, paths), j);
      appended := appended + [resolved];
      j := j + 1;
    }
    assert ResolvedPaths(installPath, paths)[..j] == ResolvedPaths(installPath, paths);
  }

  /** Lines 192-205 as the generator runs them, package by package. */
  method CollectIncludePaths(packageMap: seq<PackageEntry>) returns (includePaths: seq<string>)
    ensures includePaths == IncludePaths(packageMap)
  {
    includePaths := [];
    var i := 0;
    while i < |packageMap|
      invariant 0 <= i <= |packageMap|
      invariant includePaths == IncludePaths(packageMap[..i])
    {
      var entry := packageMap[i];
      var installPath := entry.installPath;
      if entry.targetDir.Some? && |entry.targetDir.value| > 0 {
        var cut := |entry.targetDir.value| + 1;
        installPath := if cut <= |installPath| then installPath[..|installPath| - cut] else "";
      }
      assert installPath == PackageBase(entry);
      includePaths := AppendIncludePaths(includePaths, installPath, entry.includePaths);
      PackageStep(packageMap, i);
      i := i + 1;
    }
    assert packageMap[..i] == packageMap;
  }

  function IncludePathLines(env: Env, paths: seq<string>): (lines: seq<string>)
    ensures |lines| == |paths|
    ensures forall i :: 0 <= i < |paths| ==> lines[i] == "\t" + env.pathCode(paths[i]) + ",\n"
  {
    seq(|paths|, i requires 0 <= i < |paths| => "\t" + env.pathCode(paths[i]) + ",\n")
  }

  /** The text of include_paths_52.php for the given paths (lines 211-227). */
  function IncludePathsFile(env: Env, codes: PathCodes, paths: seq<string>): string {
    ArrayFileHeader("include_paths_52.php", codes) + Concat(IncludePathLines(env, paths)) + ");\n"
  }

  /** What `getIncludePathsFile` returns: `None` for the bare `return;` of line 208. */
  function IncludePathsOutput(env: Env, codes: PathCodes, packageMap: seq<PackageEntry>): Option<string> {
    var paths := IncludePaths(packageMap);
    if paths == [] then None else Some(IncludePathsFile(env, codes, paths))
  }

  /** `getIncludePathsFile` as the generator runs it. */
  method GetIncludePathsFile(env: Env, codes: PathCodes, packageMap: seq<PackageEntry>) returns (file: Option<string>)
    ensures file == IncludePathsOutput(env, codes, packageMap)
  {
    var includePaths := CollectIncludePaths(packageMap);
    if includePaths == [] {
      return None;
    }
    ghost var lines := IncludePathLines(env, includePaths);
    ghost var head := ArrayFileHeader("include_paths_52.php", codes);
    var includePathsFile := ArrayFileHeader("include_paths_52.php", codes);
    var i := 0;
    while i < |includePaths|
      invariant 0 <= i <= |includePaths|
      invariant includePathsFile == head + Concat(lines[..i])
    {
      var line := "\t" + env.pathCode(includePaths[i]) + ",\n";
      ConcatExtend(head, lines, i, includePathsFile, line);
      includePathsFile := includePathsFile + line;
      i := i + 1;
    }
    assert lines[..i] == lines;
    return Some(includePathsFile + ");\n");
  }

  lemma IncludePathsSnoc(packageMap: seq<PackageEntry>, entry: PackageEntry)
    ensures IncludePaths(packageMap + [entry]) == IncludePaths(packageMap) + PackageIncludePaths(entry)
  {
    assert (packageMap + [entry])[..|packageMap|] == packageMap;
  }

  lemma SplitLast(map1: seq<PackageEntry>, map2: seq<PackageEntry>)
    requires map2 != []
    ensures map1 + map2 == (map1 + map2[..|map2| - 1]) + [map2[|map2| - 1]]
  {
    assert map2 == map2[..|map2| - 1] + [map2[|map2| - 1]];
  }

  lemma AppendAssociates(a: seq<string>, b: seq<string>, c: seq<string>)
    ensures (a + b) + c == a + (b + c)
  {
  }

  /** The packages' lists are kept in package-map order: the collection distributes over splitting the map. */
  lemma {:induction false} IncludePathsAppend(map1: seq<PackageEntry>, map2: seq<PackageEntry>)
    ensures IncludePaths(map1 + map2) == IncludePaths(map1) + IncludePaths(map2)
    decreases |map2|
  {
    if map2 == [] {
      assert map1 + map2 == map1;
    } else {
      var init, last := map2[..|map2| - 1], map2[|map2| - 1];
      IncludePathsAppend(map1, init);
      assert IncludePaths(map1 + map2) == IncludePaths(map1 + init) + PackageIncludePaths(last) by {
        SplitLast(map1, map2);
        IncludePathsSnoc(map1 + init, last);
      }
      AppendAssociates(IncludePaths(map1), IncludePaths(init), PackageIncludePaths(last));
    }
  }

  /** A single package contributes exactly its own resolved include paths. */
  lemma IncludePathsSingle(entry: PackageEntry)
    ensures IncludePaths([entry]) == PackageIncludePaths(entry)
  {
    assert [entry][..0] == [];
  }

  /** There is nothing to write exactly when no package declares an include path. */
  lemma {:induction false} IncludePathsEmpty(packageMap: seq<PackageEntry>)
    ensures IncludePaths(packageMap) == [] <==> forall k :: 0 <= k < |packageMap| ==> packageMap[k].includePaths == []
  {
    if packageMap != [] {
      var init := packageMap[..|packageMap| - 1];
      IncludePathsEmpty(init);
      assert forall k :: 0 <= k < |init| ==> init[k] == packageMap[k];
    }
  }

  /** The install path of a package installed as `<base>/<target dir>` is cut back to `<base>`. */
  lemma PackageBaseStripsTargetDir(base: string, targetDir: string, includePaths: seq<string>)
    requires |targetDir| > 0
    ensures PackageBase(PackageEntry(Some(targetDir), includePaths, base + "/" + targetDir)) == base
  {
    var installPath := base + "/" + targetDir;
    assert installPath[..|installPath| - (|targetDir| + 1)] == base;
  }

  /**
   * The cut is by length only: the characters removed need not spell `/` and
   * the target dir, so `/x/abcdef` with target dir `lib` resolves against `/x/ab`.
   */
  lemma PackageBaseCutsByLength()
    ensures PackageBase(PackageEntry(Some("lib"), [], "/x/abcdef")) == "/x/ab"
  {
    assert "/x/abcdef"[..5] == "/x/ab";
  }

  /** Slashes around an include path do not matter: `/lib/` resolves like `lib`. */
  lemma JoinIgnoresSlashes(base: string, left: string, includePath: string, right: string)
    requires forall c :: c in left ==> c == '/'
    requires forall c :: c in right ==> c == '/'
    requires includePath != [] ==> includePath[0] != '/' && includePath[|includePath| - 1] != '/'
    ensures JoinIncludePath(base, left + includePath + right) == JoinIncludePath(base, includePath)
  {
    TrimSlashes(left, includePath, right);
    TrimClean(includePath);
    JoinDependsOnTrim(base, left + includePath + right, includePath);
  }

  lemma TrimClean(includePath: string)
    requires includePath != [] ==> includePath[0] != '/' && includePath[|includePath| - 1] != '/'
    ensures Trim(includePath, {'/'}) == includePath
  {
    TrimSlashes([], includePath, []);
    assert [] + includePath + [] == includePath;
  }

  lemma JoinDependsOnTrim(base: string, a: string, b: string)
    requires Trim(a, {'/'}) == Trim(b, {'/'})
    ensures JoinIncludePath(base, a) == JoinIncludePath(base, b)
  {
  }

  lemma TrimSlashes(left: string, includePath: string, right: string)
    requires forall c :: c in left ==> c == '/'
    requires forall c :: c in right ==> c == '/'
    requires includePath != [] ==> includePath[0] != '/' && includePath[|includePath| - 1] != '/'
    ensures Trim(left + includePath + right, {'/'}) == includePath
  {
    TrimRemovesPadding(left, includePath, right, {'/'});
  }

  /** Below a PHP-true base, the include path follows a single separating slash. */
  lemma JoinSingleSlash(base: string, includePath: string)
    requires Truthy(base)
    ensures var r := JoinIncludePath(base, includePath);
      && StartsWith(r, base + "/")
      && (|r| > |base| + 1 ==> r[|base| + 1] != '/')
  {
  }

  /** The file exists exactly when there are include paths, is PHP-true, and lists every path. */
  lemma IncludePathsFileLines(env: Env, codes: PathCodes, paths: seq<string>, i: nat)
    requires i < |paths|
    ensures Contains(IncludePathsFile(env, codes, paths), "\t" + env.pathCode(paths[i]) + ",\n")
    ensures EndsWith(IncludePathsFile(env, codes, paths), ");\n")
  {
    var lines := IncludePathLines(env, paths);
    var head := ArrayFileHeader("include_paths_52.php", codes);
    ConcatContains(lines, i);
    ContainsPrepend(head, Concat(lines), lines[i]);
    ContainsAppend(head + Concat(lines), ");\n", lines[i]);
  }

  /** A written include-paths file is never PHP-false, so the real file always sets the include path up when one exists. */
  lemma IncludePathsOutputTruthy(env: Env, codes: PathCodes, packageMap: seq<PackageEntry>)
    ensures IncludePathsOutput(env, codes, packageMap).Some? <==>
      exists k :: 0 <= k < |packageMap| && packageMap[k].includePaths != []
    ensures IncludePathsOutput(env, codes, packageMap).Some? ==> Truthy(IncludePathsOutput(env, codes, packageMap).value)
  {
    IncludePathsEmpty(packageMap);
    var paths := IncludePaths(packageMap);
    var file := IncludePathsFile(env, codes, paths);
    assert |file| >= |");\n"|;
  }
}
