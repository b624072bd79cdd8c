/**
 * `AutoloadGenerator::dump` (lib/xrstf/Composer52/AutoloadGenerator.php:31-189):
 * the five PHP-5.2 autoloading files, computed from the aggregated autoload
 * rules, the package map and the root package, and handed to the filesystem.
 */
module Dump {
  import opened Wrappers
  import opened PhpStrings
  import opened PhpArrays
  import opened GeneratorInputs
  import opened NamespaceMap
  import opened TargetDirLoader
  import opened ClassMap
  import opened FilesCode
  import opened IncludePaths
  import opened LoaderFiles

  /** Everything `dump` works from once the paths and the autoload rules are known. */
  datatype DumpInput = DumpInput(
    /** `$vendorPathCode` and `$appBaseDirCode`, already rewritten for PHP 5.2. */
    codes: PathCodes,
    /** `$vendorPathToTargetDirCode`, already rewritten for PHP 5.2. */
    vendorPathToTargetDirCode: string,
    /** `$baseDirFromTargetDirCode`, used only by the target-dir loader. */
    baseDirFromTargetDirCode: string,
    /** `$this->parseAutoloads($packageMap, $mainPackage)`. */
    autoloads: Autoloads,
    /** `$this->buildPackageMap(...)`. */
    packageMap: seq<PackageEntry>,
    /** `$mainPackage->getTargetDir()`. */
    rootTargetDir: Option<string>,
    /** The keys of the root package's own psr-0 rules. */
    rootPsr0Prefixes: seq<string>,
    scanPsr0Packages: bool,
    suffix: string,
    /** `md5(uniqid('', true))`, used when no suffix is given. */
    generatedSuffix: string)

  /** The files `dump` writes; `includePaths` is `None` when include_paths_52.php is not written. */
  datatype Generated = Generated(namespaces: string, classmap: string, includePaths: Option<string>,
                                 autoload: string, autoloadReal: string)

  /** Lines 177-179: a PHP-false suffix is replaced by a generated one. */
  function EffectiveSuffix(suffix: string, generatedSuffix: string): (effective: string)
    ensures Truthy(suffix) ==> effective == suffix
    ensures !Truthy(suffix) ==> effective == generatedSuffix
    ensures Truthy(suffix) || Truthy(generatedSuffix) ==> Truthy(effective)
  {
    if Truthy(suffix) then suffix else generatedSuffix
  }

  function RootTargetDirLoader(env: Env, input: DumpInput): string {
    TargetDirLoaderText(env, input.rootTargetDir, input.rootPsr0Prefixes, input.baseDirFromTargetDirCode)
  }

  /** Line 187: `(bool) $includePathFile`. */
  function UseIncludePath(includePaths: Option<string>): bool {
    includePaths.Some? && Truthy(includePaths.value)
  }

  /** The files of one run of `dump`. */
  function Dumped(env: Env, input: DumpInput): Generated {
    var psr0 := input.autoloads.psr0;
    var classMap := BuildClassMap(env, psr0, Flatten(input.autoloads.classmap), input.scanPsr0Packages);
    var suffix := EffectiveSuffix(input.suffix, input.generatedSuffix);
    Generated(
      NamespacesFile(env, input.codes, psr0),
      ClassMapFile(env, input.codes, classMap),
      IncludePathsOutput(env, input.codes, input.packageMap),
      AutoloadFile(input.vendorPathToTargetDirCode, suffix),
      RealFile(true, true, UseIncludePath(IncludePathsOutput(env, input.codes, input.packageMap)),
               RootTargetDirLoader(env, input), FilesCode.FilesCode(env, input.autoloads.files), input.codes, suffix))
  }

  /** Lines 96-129: the root package's `autoload` method, or nothing. */
  method BuildTargetDirLoader(env: Env, input: DumpInput) returns (targetDirLoader: string)
    ensures targetDirLoader == RootTargetDirLoader(env, input)
    ensures Truthy(targetDirLoader) <==> HasTargetDirLoader(input.rootTargetDir, input.rootPsr0Prefixes)
  {
    targetDirLoader := "";
    if input.rootTargetDir.Some? && Truthy(input.rootTargetDir.value) && input.rootPsr0Prefixes != [] {
      var levels := Levels(input.rootTargetDir.value);
      var prefixes := PrefixList(env, input.rootPsr0Prefixes);
      targetDirLoader := LoaderMethod(input.baseDirFromTargetDirCode, prefixes, levels);
    }
  }

  /** Lines 132-163: the optional psr-0 scan, then the explicit class-map sources over the flattened list. */
  method CollectClassMap(env: Env, rules: seq<Psr0Rule>, classmap: seq<Nested>, scanPsr0Packages: bool)
    returns (classMap: seq<Entry>)
    ensures classMap == BuildClassMap(env, rules, Flatten(classmap), scanPsr0Packages)
    ensures UniqueKeys(classMap)
  {
    classMap := [];
    if scanPsr0Packages {
      classMap := ScanNamespaceDirs(env, rules, classMap);
    }
    classMap := ScanClassmapSources(env, Flatten(classmap), classMap);
    BuildClassMapUnique(env, rules, Flatten(classmap), scanPsr0Packages);
  }

  /** `dump` as the generator runs it, in its own order, with the writes as the returned files. */
  method Dump(env: Env, input: DumpInput) returns (generated: Generated)
    ensures generated == Dumped(env, input)
  {
    var psr0 := input.autoloads.psr0;
    var namespacesFile := RenderNamespacesFile(env, input.codes, psr0);
    var targetDirLoader := BuildTargetDirLoader(env, input);
    var classMap := CollectClassMap(env, psr0, input.autoloads.classmap, input.scanPsr0Packages);
    var classmapFile := RenderClassMapFile(env, input.codes, classMap);
    var filesCode := BuildFilesCode(env, input.autoloads.files);

    var suffix := EffectiveSuffix(input.suffix, input.generatedSuffix);

    var includePathFile := GetIncludePathsFile(env, input.codes, input.packageMap);
    var autoloadFile := AutoloadFile(input.vendorPathToTargetDirCode, suffix);
    var realFile := GetAutoloadRealFile(true, true, UseIncludePath(includePathFile), targetDirLoader, filesCode, input.codes, suffix);
    generated := Generated(namespacesFile, classmapFile, includePathFile, autoloadFile, realFile);
  }

  /**
   * include_paths_52.php is written exactly when some package declares include
   * paths, and the real file's sections (line 187 passes `(bool) $includePathFile`)
   * load it exactly then, whatever the other blocks hold.
   */
  lemma DumpIncludePaths(env: Env, input: DumpInput, useHook: bool, b: Blocks)
    ensures var includePaths := IncludePathsOutput(env, input.codes, input.packageMap);
      && (includePaths.Some? <==>
          exists k :: 0 <= k < |input.packageMap| && input.packageMap[k].includePaths != [])
      && (IncludePathSetup in Kinds(Sections(true, true, UseIncludePath(includePaths), useHook, b)) <==> includePaths.Some?)
  {
    IncludePathsOutputTruthy(env, input.codes, input.packageMap);
    var includePaths := IncludePathsOutput(env, input.codes, input.packageMap);
    SectionsPresence(true, true, UseIncludePath(includePaths), useHook, b);
  }

  /**
   * The real file registers the namespace map and the class map on every run,
   * and hooks the target-dir `autoload` method in exactly when the root
   * package has a target dir and psr-0 rules.
   */
  lemma DumpRegistrations(env: Env, input: DumpInput, useIncludePath: bool, b: Blocks)
    ensures var kinds := Kinds(Sections(true, true, useIncludePath, Truthy(RootTargetDirLoader(env, input)), b));
      && Psr0Registration in kinds
      && ClassMapRegistration in kinds
      && (TargetDirHook in kinds <==> HasTargetDirLoader(input.rootTargetDir, input.rootPsr0Prefixes))
  {
    SectionsPresence(true, true, useIncludePath, Truthy(RootTargetDirLoader(env, input)), b);
  }

  /**
   * autoload_52.php requires the real file and calls `getLoader` on the very
   * class the real file defines: both use the same effective suffix, which is
   * the given one whenever that is PHP-true.
   */
  lemma DumpLoaderClassAgrees(input: DumpInput, useIncludePath: bool, targetDirLoader: string, filesCode: string)
    ensures var suffix := EffectiveSuffix(input.suffix, input.generatedSuffix);
      var realFile := RealFile(true, true, useIncludePath, targetDirLoader, filesCode, input.codes, suffix);
      && Contains(AutoloadFile(input.vendorPathToTargetDirCode, suffix), GetLoaderCall(suffix))
      && Contains(realFile, ClassLine(suffix))
      && StartsWith(realFile, PhpOpenTag)
      && EndsWith(realFile, ClassFooterText)
      && (Truthy(input.suffix) ==> suffix == input.suffix)
  {
  }

  /** Every class the scans find ends up in the class map file's map, under the pass precedence. */
  lemma DumpClassMap(env: Env, input: DumpInput, k: string)
    ensures var classMap := BuildClassMap(env, input.autoloads.psr0, Flatten(input.autoloads.classmap), input.scanPsr0Packages);
      && UniqueKeys(classMap)
      && (GetLast(ExplicitDiscovered(env, Flatten(input.autoloads.classmap)), k).Some? ==>
            Get(classMap, k) == GetLast(ExplicitDiscovered(env, Flatten(input.autoloads.classmap)), k))
  {
    var sources := Flatten(input.autoloads.classmap);
    BuildClassMapUnique(env, input.autoloads.psr0, sources, input.scanPsr0Packages);
    ClassMapPrecedence(env, input.autoloads.psr0, sources, input.scanPsr0Packages, k);
  }
}
