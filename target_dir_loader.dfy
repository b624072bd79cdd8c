/**
 * The fallback loader `dump` emits for a root package with a target dir
 * (lib/xrstf/Composer52/AutoloadGenerator.php:95-129): a static `autoload`
 * method that drops the first `levels` segments of a class path.
 */
module TargetDirLoader {
  import opened Wrappers
  import opened PhpStrings
  import opened GeneratorInputs

  /** Line 98: the root package has a (PHP-true) target dir and psr-0 rules. */
  predicate HasTargetDirLoader(rootTargetDir: Option<string>, rootPsr0Prefixes: seq<string>) {
    rootTargetDir.Some? && Truthy(rootTargetDir.value) && rootPsr0Prefixes != []
  }

  /** Line 99: the target dir with `\` as `/`, trimmed of `/`, split on `/`: its number of segments. */
  function Levels(targetDir: string): (levels: nat)
    ensures levels >= 1
  {
    |Explode('/', Trim(StrTr(targetDir, '\\', '/'), {'/'}))|
  }

  /** The level count is one more than the number of separators inside the trimmed target dir. */
  lemma LevelsCountsSeparators(targetDir: string)
    ensures Levels(targetDir) >= 1
    ensures Levels(targetDir) == Count('/', Trim(StrTr(targetDir, '\\', '/'), {'/'})) + 1
  {
    ExplodeCount('/', Trim(StrTr(targetDir, '\\', '/'), {'/'}));
  }

  /** The segments counted are those of the target dir: joined with `/` they give the trimmed, normalised dir. */
  lemma LevelsSegments(targetDir: string)
    ensures var dir := Trim(StrTr(targetDir, '\\', '/'), {'/'});
      var segments := Explode('/', dir);
      |segments| == Levels(targetDir) && Implode("/", segments) == dir
      && forall s :: s in segments ==> '/' !in s && '\\' !in s
  {
    var normal := StrTr(targetDir, '\\', '/');
    var dir := Trim(normal, {'/'});
    ImplodeExplode('/', dir);
    ExplodeParts('/', dir);
    assert '\\' !in dir by {
      var l := TrimLeft(normal, {'/'});
      assert forall c :: c in l ==> c in normal;
      assert forall c :: c in dir ==> c in l;
    }
    forall s | s in Explode('/', dir) ensures '\\' !in s {
      ExplodeSubstrings('/', dir, s);
    }
  }

  /** Every part of `explode` is made of characters of the exploded string. */
  lemma {:induction false} ExplodeSubstrings(sep: char, s: string, p: string)
    requires p in Explode(sep, s)
    ensures forall c :: c in p ==> c in s
  {
    if s != [] {
      var rest := Explode(sep, s[1..]);
      if s[0] == sep {
        if p in rest {
          ExplodeSubstrings(sep, s[1..], p);
        }
      } else if p == [s[0]] + rest[0] {
        ExplodeSubstrings(sep, s[1..], rest[0]);
      } else {
        assert p in rest;
        ExplodeSubstrings(sep, s[1..], p);
      }
    }
  }

  /**
   * The two example lemmas below work on a literal passed in as a parameter:
   * stating these steps on the literal itself makes the solver unfold it in
   * every fact at once, which is far more expensive.
   */
  lemma NormaliseClean(dir: string)
    requires dir == "a/b/c"
    ensures Trim(StrTr(dir, '\\', '/'), {'/'}) == dir
  {
    assert StrTr(dir, '\\', '/') == dir;
    TrimRemovesPadding("", dir, "", {'/'});
    assert "" + dir + "" == dir;
  }

  lemma CountClean(dir: string)
    requires dir == "a/b/c"
    ensures Count('/', dir) == 2
  {
    assert Count('/', dir[4..]) == 0;
    assert Count('/', dir[3..]) == 1 by { assert dir[3..][1..] == dir[4..]; }
    assert Count('/', dir[2..]) == 1 by { assert dir[2..][1..] == dir[3..]; }
    assert Count('/', dir[1..]) == 2 by { assert dir[1..][1..] == dir[2..]; }
  }

  /** Three segments: nothing to normalise or trim. */
  lemma LevelsExampleNested()
    ensures Levels("a/b/c") == 3
  {
    NormaliseClean("a/b/c");
    CountClean("a/b/c");
    LevelsCountsSeparators("a/b/c");
  }

  lemma NormalisePadded(dir: string)
    requires dir == "/a\\b/"
    ensures Trim(StrTr(dir, '\\', '/'), {'/'}) == "a/b"
  {
    var normal := StrTr(dir, '\\', '/');
    assert normal[0] == '/' && normal[1] == 'a' && normal[2] == '/' && normal[3] == 'b' && normal[4] == '/';
    assert normal == "/" + "a/b" + "/";
    TrimRemovesPadding("/", "a/b", "/", {'/'});
  }

  lemma CountPadded(trimmed: string)
    requires trimmed == "a/b"
    ensures Count('/', trimmed) == 1
  {
    assert Count('/', trimmed[2..]) == 0;
    assert Count('/', trimmed[1..]) == 1 by { assert trimmed[1..][1..] == trimmed[2..]; }
  }

  /** A backslash separates like a slash; leading and trailing slashes do not count. */
  lemma LevelsExampleBackslashAndSlashes()
    ensures Levels("/a\\b/") == 2
  {
    NormalisePadded("/a\\b/");
    CountPadded("a/b");
    LevelsCountsSeparators("/a\\b/");
  }

  /** Lines 100-102: the root package's psr-0 prefixes, each through `var_export`, joined by `, `. */
  function PrefixList(env: Env, prefixes: seq<string>): (list: string)
    ensures |prefixes| == 1 ==> list == env.varExport(prefixes[0])
    ensures forall i :: 0 <= i < |prefixes| ==>
      var at := ImplodeOffset(", ", ExportedPrefixes(env, prefixes), i);
      && at + |env.varExport(prefixes[i])| <= |list|
      && list[at..at + |env.varExport(prefixes[i])|] == env.varExport(prefixes[i])
  {
    ImplodeAllParts(", ", ExportedPrefixes(env, prefixes));
    Implode(", ", ExportedPrefixes(env, prefixes))
  }

  /** The root package's psr-0 prefixes, each through `var_export`. */
  function ExportedPrefixes(env: Env, prefixes: seq<string>): (exported: seq<string>)
    ensures |exported| == |prefixes|
    ensures forall i :: 0 <= i < |prefixes| ==> exported[i] == env.varExport(prefixes[i])
  {
    seq(|prefixes|, i requires 0 <= i < |prefixes| => env.varExport(prefixes[i]))
  }

  /** The fixed text of the `autoload` method (lines 105-128) around its three variable parts. */
  const LoaderOpening: string :=
    "\n"
    + "\tpublic static function autoload($class) {\n"
    + "\t\t$dir      = "

  const LoaderBeforePrefixes: string := ".'/';\n"

  const LoaderBeforeSlice: string :=
    "\n"
    + "\t\tforeach ($prefixes as $prefix) {\n"
    + "\t\t\tif (0 !== strpos($class, $prefix)) {\n"
    + "\t\t\t\tcontinue;\n"
    + "\t\t\t}\n"
    + "\n"
    + "\t\t\t$path = explode(DIRECTORY_SEPARATOR, self::getClassPath($class));\n"
    + "\t\t\t$path = $dir.implode('/', "

  const LoaderClosing: string :=
    ");\n"
    + "\n"
    + "\t\t\tif (!$path = self::resolveIncludePath($path)) {\n"
    + "\t\t\t\treturn false;\n"
    + "\t\t\t}\n"
    + "\n"
    + "\t\t\trequire $path;\n"
    + "\t\t\treturn true;\n"
    + "\t\t}\n"
    + "\t}\n"

  function PrefixesLine(prefixList: string): string {
    "\t\t$prefixes = array(" + prefixList + ");\n"
  }

  function SliceCall(levels: nat): string {
    "array_slice($path, " + NatToString(levels) + ")"
  }

  /** The text of the `autoload` method (lines 105-128). */
  function LoaderMethod(baseDirFromTargetDirCode: string, prefixList: string, levels: nat): string {
    LoaderOpening + baseDirFromTargetDirCode + LoaderBeforePrefixes
    + PrefixesLine(prefixList) + LoaderBeforeSlice + SliceCall(levels) + LoaderClosing
  }

  /** `$targetDirLoader` after lines 96-129, with `null` as "". */
  function TargetDirLoaderText(env: Env, rootTargetDir: Option<string>, rootPsr0Prefixes: seq<string>,
                               baseDirFromTargetDirCode: string): (loader: string)
    ensures Truthy(loader) <==> HasTargetDirLoader(rootTargetDir, rootPsr0Prefixes)
    ensures !HasTargetDirLoader(rootTargetDir, rootPsr0Prefixes) ==> loader == ""
  {
    if HasTargetDirLoader(rootTargetDir, rootPsr0Prefixes) then
      var text := LoaderMethod(baseDirFromTargetDirCode, PrefixList(env, rootPsr0Prefixes), Levels(rootTargetDir.value));
      assert text[0] == '\n';
      assert |text| > 1;
      text
    else ""
  }

  /**
   * The emitted method lists the prefixes and slices off as many segments as
   * the target dir has: the number it prints reads back as `Levels`.
   */
  lemma LoaderMethodContents(env: Env, targetDir: string, prefixes: seq<string>, baseDirFromTargetDirCode: string)
    requires Truthy(targetDir) && prefixes != []
    ensures var loader := TargetDirLoaderText(env, Some(targetDir), prefixes, baseDirFromTargetDirCode);
      && Contains(loader, PrefixesLine(PrefixList(env, prefixes)))
      && Contains(loader, SliceCall(Levels(targetDir)))
      && ParseDecimal(NatToString(Levels(targetDir))) == Levels(targetDir)
  {
    var opening := LoaderOpening + baseDirFromTargetDirCode + LoaderBeforePrefixes;
    var prefixesLine := PrefixesLine(PrefixList(env, prefixes));
    var slice := SliceCall(Levels(targetDir));
    ContainsMiddle(opening, prefixesLine, LoaderBeforeSlice);
    ContainsAppend(opening + prefixesLine + LoaderBeforeSlice, slice, prefixesLine);
    ContainsAppend(opening + prefixesLine + LoaderBeforeSlice + slice, LoaderClosing, prefixesLine);
    ContainsMiddle(opening + prefixesLine + LoaderBeforeSlice, slice, LoaderClosing);
    ParseNatToString(Levels(targetDir));
  }
}
