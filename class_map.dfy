/**
 * The classmap of `dump` (lib/xrstf/Composer52/AutoloadGenerator.php:131-169):
 * an optional scan of the psr-0 directories in which the first discovery of a
 * class wins, then the explicit classmap sources in which the last discovery
 * wins, then `ksort` and one `'Class' => code,` line per class.
 */
module ClassMap {
  import opened Wrappers
  import opened PhpStrings
  import opened PhpArrays
  import opened GeneratorInputs

  /** The value stored for a class found in `path`: `'$baseDir.'.var_export('/'.<path from cwd>, true).",\n"`. */
  function ClassCode(env: Env, path: string): (code: string)
    ensures StartsWith(code, "$baseDir.") && EndsWith(code, ",\n")
    ensures |code| >= 11 && code[9..|code| - 2] == env.varExport("/" + env.relativeToCwd(path))
  {
    "$baseDir." + env.varExport("/" + env.relativeToCwd(path)) + ",\n"
  }

  /** The fixed tail of the whitelist pattern: any rest of the path, but not a `...Test.php` file. */
  const WhitelistTail := ".+(?<!(?<!/)Test\\.php)$}"

  /** The namespace part of the whitelist: the namespace as a path, or nothing when it holds a `_`. */
  function WhitelistNamespace(env: Env, namespace: string): string {
    if '_' !in namespace then env.pregQuote(StrTr(namespace, '\\', '/')) else ""
  }

  /** The pattern handed to the scanner for a psr-0 directory (lines 137-141). */
  function Whitelist(env: Env, dir: string, namespace: string): (pattern: string)
    ensures StartsWith(pattern, "{" + env.pregQuote(TrimRight(dir, {'/'})) + "/")
    ensures EndsWith(pattern, WhitelistTail)
    ensures '_' in namespace ==> |pattern| == |"{" + env.pregQuote(TrimRight(dir, {'/'})) + "/"| + |WhitelistTail|
    ensures '_' !in namespace ==>
      var head := "{" + env.pregQuote(TrimRight(dir, {'/'})) + "/";
      var ns := env.pregQuote(StrTr(namespace, '\\', '/'));
      && |pattern| == |head| + |ns| + |WhitelistTail|
      && pattern[|head|..|head| + |ns|] == ns
  {
    "{" + env.pregQuote(TrimRight(dir, {'/'})) + "/" + WhitelistNamespace(env, namespace) + WhitelistTail
  }

  /** Trailing slashes on the directory do not change the pattern. */
  lemma WhitelistIgnoresTrailingSlash(env: Env, dir: string, namespace: string)
    ensures Whitelist(env, dir + "/", namespace) == Whitelist(env, dir, namespace)
  {
    var d := dir + "/";
    assert d[..|d| - 1] == dir;
  }

  /**
   * A namespace holding `_` restricts the pattern no more than the catch-all
   * namespace `''` does (given that `preg_quote('')` is `''`).
   */
  lemma WhitelistUnderscoreNamespace(env: Env, dir: string, namespace: string)
    requires '_' in namespace
    requires env.pregQuote("") == ""
    ensures Whitelist(env, dir, namespace) == Whitelist(env, dir, "")
  {
  }

  /** In the pattern, a namespace separator `\` and a `/` are the same thing. */
  lemma {:induction false} WhitelistSeparatorInsensitive(env: Env, dir: string, namespace: string)
    ensures Whitelist(env, dir, namespace) == Whitelist(env, dir, StrTr(namespace, '\\', '/'))
  {
    var t := StrTr(namespace, '\\', '/');
    assert ('_' in namespace) <==> ('_' in t) by {
      if '_' in namespace {
        var i :| 0 <= i < |namespace| && namespace[i] == '_';
        assert t[i] == '_';
      }
      if '_' in t {
        var i :| 0 <= i < |t| && t[i] == '_';
        assert namespace[i] == '_';
      }
    }
    assert StrTr(t, '\\', '/') == t;
  }

  /** Line 146: the scanned class belongs to the namespace of the rule being scanned. */
  predicate InNamespace(className: string, namespace: string) {
    namespace == "" || StartsWith(className, namespace)
  }

  /** The `class => code` pairs of one scan that pass the namespace test, in scan order. */
  function Qualifying(env: Env, namespace: string, found: seq<Entry>): seq<Entry> {
    if found == [] then []
    else
      (if InNamespace(found[0].key, namespace) then [Entry(found[0].key, ClassCode(env, found[0].value))] else [])
      + Qualifying(env, namespace, found[1..])
  }

  /** What one psr-0 directory contributes: nothing when it is not a directory. */
  function DirDiscovered(env: Env, namespace: string, dir: string): seq<Entry> {
    var d := env.path(dir);
    if !env.isDir(d) then [] else Qualifying(env, namespace, env.createMap(d, Some(Whitelist(env, d, namespace))))
  }

  function DirsDiscovered(env: Env, namespace: string, dirs: seq<string>): seq<Entry> {
    if dirs == [] then [] else DirDiscovered(env, namespace, dirs[0]) + DirsDiscovered(env, namespace, dirs[1..])
  }

  /** Every class the psr-0 scan discovers, in the order the scan meets them. */
  function NamespaceDiscovered(env: Env, rules: seq<Psr0Rule>): seq<Entry> {
    if rules == [] then []
    else DirsDiscovered(env, rules[0].namespace, rules[0].paths) + NamespaceDiscovered(env, rules[1..])
  }

  /** Every class the explicit classmap sources give, in order; no namespace test and no `is_dir` probe. */
  function ExplicitDiscovered(env: Env, sources: seq<string>): seq<Entry> {
    if sources == [] then []
    else Coded(env, env.createMap(sources[0], None)) + ExplicitDiscovered(env, sources[1..])
  }

  function Coded(env: Env, found: seq<Entry>): seq<Entry> {
    if found == [] then [] else [Entry(found[0].key, ClassCode(env, found[0].value))] + Coded(env, found[1..])
  }

  /** Line 148-149: `if (!isset($classMap[$class])) $classMap[$class] = $code;`. */
  function AddIfAbsent(a: seq<Entry>, e: Entry): seq<Entry> {
    if Get(a, e.key).Some? then a else Put(a, e.key, e.value)
  }

  /** The psr-0 pass over a list of discoveries. */
  function AddAllIfAbsent(a: seq<Entry>, es: seq<Entry>): seq<Entry>
    decreases es
  {
    if es == [] then a else AddAllIfAbsent(AddIfAbsent(a, es[0]), es[1..])
  }

  /** The explicit pass over a list of discoveries: `$classMap[$class] = $code;` each time. */
  function PutAll(a: seq<Entry>, es: seq<Entry>): seq<Entry>
    decreases es
  {
    if es == [] then a else PutAll(Put(a, es[0].key, es[0].value), es[1..])
  }

  /** The psr-0 pass never overwrites: a key already present keeps its value, otherwise the first discovery wins. */
  lemma {:induction false} AddAllIfAbsentGet(a: seq<Entry>, es: seq<Entry>, k: string)
    ensures Get(AddAllIfAbsent(a, es), k) == if Get(a, k).Some? then Get(a, k) else Get(es, k)
    decreases es
  {
    if es != [] {
      AddAllIfAbsentGet(AddIfAbsent(a, es[0]), es[1..], k);
    }
  }

  /** The explicit pass always overwrites: the last discovery of a key wins, other keys keep their values. */
  lemma {:induction false} PutAllGet(a: seq<Entry>, es: seq<Entry>, k: string)
    ensures Get(PutAll(a, es), k) == if GetLast(es, k).Some? then GetLast(es, k) else Get(a, k)
    decreases es
  {
    if es != [] {
      PutAllGet(Put(a, es[0].key, es[0].value), es[1..], k);
    }
  }

  lemma {:induction false} AddAllIfAbsentUnique(a: seq<Entry>, es: seq<Entry>)
    requires UniqueKeys(a)
    ensures UniqueKeys(AddAllIfAbsent(a, es))
    decreases es
  {
    if es != [] {
      if Get(a, es[0].key).None? {
        PutUnique(a, es[0].key, es[0].value);
      }
      AddAllIfAbsentUnique(AddIfAbsent(a, es[0]), es[1..]);
    }
  }

  lemma {:induction false} PutAllUnique(a: seq<Entry>, es: seq<Entry>)
    requires UniqueKeys(a)
    ensures UniqueKeys(PutAll(a, es))
    decreases es
  {
    if es != [] {
      PutUnique(a, es[0].key, es[0].value);
      PutAllUnique(Put(a, es[0].key, es[0].value), es[1..]);
    }
  }

  /** The classmap `dump` builds before sorting (lines 132-163). */
  function BuildClassMap(env: Env, rules: seq<Psr0Rule>, sources: seq<string>, scanPsr0Packages: bool): seq<Entry> {
    var scanned := if scanPsr0Packages then AddAllIfAbsent([], NamespaceDiscovered(env, rules)) else [];
    PutAll(scanned, ExplicitDiscovered(env, sources))
  }

  /**
   * The precedence of the two passes: an explicit source's last discovery wins
   * over everything; otherwise the psr-0 scan's first discovery, if it ran.
   */
  lemma ClassMapPrecedence(env: Env, rules: seq<Psr0Rule>, sources: seq<string>, scanPsr0Packages: bool, k: string)
    ensures Get(BuildClassMap(env, rules, sources, scanPsr0Packages), k) ==
      if GetLast(ExplicitDiscovered(env, sources), k).Some? then GetLast(ExplicitDiscovered(env, sources), k)
      else if scanPsr0Packages then Get(NamespaceDiscovered(env, rules), k)
      else None
  {
    var scanned := if scanPsr0Packages then AddAllIfAbsent([], NamespaceDiscovered(env, rules)) else [];
    PutAllGet(scanned, ExplicitDiscovered(env, sources), k);
    if scanPsr0Packages {
      AddAllIfAbsentGet([], NamespaceDiscovered(env, rules), k);
    }
  }

  /** The classmap has unique keys, as every PHP array does. */
  lemma BuildClassMapUnique(env: Env, rules: seq<Psr0Rule>, sources: seq<string>, scanPsr0Packages: bool)
    ensures UniqueKeys(BuildClassMap(env, rules, sources, scanPsr0Packages))
  {
    var scanned := if scanPsr0Packages then AddAllIfAbsent([], NamespaceDiscovered(env, rules)) else [];
    if scanPsr0Packages {
      AddAllIfAbsentUnique([], NamespaceDiscovered(env, rules));
    }
    PutAllUnique(scanned, ExplicitDiscovered(env, sources));
  }

  /** A class discovered by a scan passed the namespace test of line 146. */
  lemma {:induction false} QualifyingSound(env: Env, namespace: string, found: seq<Entry>, e: Entry)
    requires e in Qualifying(env, namespace, found)
    ensures InNamespace(e.key, namespace)
    ensures exists p :: Entry(e.key, p) in found && e.value == ClassCode(env, p)
  {
    if found != [] {
      var head := if InNamespace(found[0].key, namespace) then [Entry(found[0].key, ClassCode(env, found[0].value))] else [];
      if e in head {
        assert Entry(e.key, found[0].value) in found;
      } else {
        QualifyingSound(env, namespace, found[1..], e);
        var p :| Entry(e.key, p) in found[1..] && e.value == ClassCode(env, p);
        assert Entry(e.key, p) in found;
      }
    }
  }

  /**
   * `e` is what lines 142-150 make of a class the scanner reported for `dir`:
   * the path is a directory, the class passes the namespace test and `e`
   * carries the code of the file the scanner gave for it.
   */
  ghost predicate ScannedFrom(env: Env, namespace: string, dir: string, e: Entry) {
    var d := env.path(dir);
    && env.isDir(d)
    && InNamespace(e.key, namespace)
    && exists p :: Entry(e.key, p) in env.createMap(d, Some(Whitelist(env, d, namespace))) && e.value == ClassCode(env, p)
  }

  /** A class discovered in a list of psr-0 directories was reported by the scan of one of them. */
  lemma {:induction false} DirsDiscoveredSound(env: Env, namespace: string, dirs: seq<string>, e: Entry)
    requires e in DirsDiscovered(env, namespace, dirs)
    ensures exists j :: 0 <= j < |dirs| && ScannedFrom(env, namespace, dirs[j], e)
  {
    if dirs != [] {
      if e in DirDiscovered(env, namespace, dirs[0]) {
        var d := env.path(dirs[0]);
        QualifyingSound(env, namespace, env.createMap(d, Some(Whitelist(env, d, namespace))), e);
        assert ScannedFrom(env, namespace, dirs[0], e);
      } else {
        DirsDiscoveredSound(env, namespace, dirs[1..], e);
        var j :| 0 <= j < |dirs[1..]| && ScannedFrom(env, namespace, dirs[1..][j], e);
        assert dirs[1..][j] == dirs[j + 1];
      }
    }
  }

  /**
   * The psr-0 scan only lets in classes the scanner reported for a path of
   * some rule that is a directory, in that rule's namespace (or any class
   * for the namespace `''`), each with the code of its own file.
   */
  lemma {:induction false} NamespaceDiscoveredSound(env: Env, rules: seq<Psr0Rule>, e: Entry)
    requires e in NamespaceDiscovered(env, rules)
    ensures exists i, j ::
      && 0 <= i < |rules| && 0 <= j < |rules[i].paths|
      && ScannedFrom(env, rules[i].namespace, rules[i].paths[j], e)
  {
    if rules != [] {
      if e in DirsDiscovered(env, rules[0].namespace, rules[0].paths) {
        DirsDiscoveredSound(env, rules[0].namespace, rules[0].paths, e);
        var j :| 0 <= j < |rules[0].paths| && ScannedFrom(env, rules[0].namespace, rules[0].paths[j], e);
        assert 0 <= 0 < |rules| && ScannedFrom(env, rules[0].namespace, rules[0].paths[j], e);
      } else {
        NamespaceDiscoveredSound(env, rules[1..], e);
        var i, j :| 0 <= i < |rules[1..]| && 0 <= j < |rules[1..][i].paths|
          && ScannedFrom(env, rules[1..][i].namespace, rules[1..][i].paths[j], e);
        assert rules[1..][i] == rules[i + 1];
      }
    }
  }

  /** Lines 133-155 discover exactly the classes the scanner reports for a directory path of a rule, in its namespace. */
  lemma NamespaceDiscoveredExactly(env: Env, rules: seq<Psr0Rule>, e: Entry)
    ensures e in NamespaceDiscovered(env, rules) <==>
      exists i, j ::
        && 0 <= i < |rules| && 0 <= j < |rules[i].paths|
        && ScannedFrom(env, rules[i].namespace, rules[i].paths[j], e)
  {
    if e in NamespaceDiscovered(env, rules) {
      NamespaceDiscoveredSound(env, rules, e);
    } else if exists i, j ::
        && 0 <= i < |rules| && 0 <= j < |rules[i].paths|
        && ScannedFrom(env, rules[i].namespace, rules[i].paths[j], e) {
      var i, j :| 0 <= i < |rules| && 0 <= j < |rules[i].paths| &&
        ScannedFrom(env, rules[i].namespace, rules[i].paths[j], e);
      var d := env.path(rules[i].paths[j]);
      var p :| Entry(e.key, p) in env.createMap(d, Some(Whitelist(env, d, rules[i].namespace))) && e.value == ClassCode(env, p);
      NamespaceDiscoveredComplete(env, rules, i, j, Entry(e.key, p));
      assert false;
    }
  }

  /** Every class a scan reports that passes the namespace test is discovered. */
  lemma {:induction false} QualifyingComplete(env: Env, namespace: string, found: seq<Entry>, f: Entry)
    requires f in found && InNamespace(f.key, namespace)
    ensures Entry(f.key, ClassCode(env, f.value)) in Qualifying(env, namespace, found)
  {
    if found[0] != f {
      assert f in found[1..];
      QualifyingComplete(env, namespace, found[1..], f);
    }
  }

  /** Every class in the namespace of a rule, found in one of its paths that is a directory, is discovered. */
  lemma {:induction false} NamespaceDiscoveredComplete(env: Env, rules: seq<Psr0Rule>, i: nat, j: nat, f: Entry)
    requires i < |rules| && j < |rules[i].paths|
    requires env.isDir(env.path(rules[i].paths[j]))
    requires InNamespace(f.key, rules[i].namespace)
    requires f in env.createMap(env.path(rules[i].paths[j]),
      Some(Whitelist(env, env.path(rules[i].paths[j]), rules[i].namespace)))
    ensures Entry(f.key, ClassCode(env, f.value)) in NamespaceDiscovered(env, rules)
  {
    if i == 0 {
      DirsDiscoveredComplete(env, rules[0].namespace, rules[0].paths, j, f);
    } else {
      NamespaceDiscoveredComplete(env, rules[1..], i - 1, j, f);
    }
  }

  lemma {:induction false} DirsDiscoveredComplete(env: Env, namespace: string, dirs: seq<string>, j: nat, f: Entry)
    requires j < |dirs|
    requires env.isDir(env.path(dirs[j]))
    requires InNamespace(f.key, namespace)
    requires f in env.createMap(env.path(dirs[j]), Some(Whitelist(env, env.path(dirs[j]), namespace)))
    ensures Entry(f.key, ClassCode(env, f.value)) in DirsDiscovered(env, namespace, dirs)
  {
    if j == 0 {
      var d := env.path(dirs[0]);
      QualifyingComplete(env, namespace, env.createMap(d, Some(Whitelist(env, d, namespace))), f);
    } else {
      DirsDiscoveredComplete(env, namespace, dirs[1..], j - 1, f);
    }
  }

  /** With no path of any rule being a directory, the psr-0 scan adds nothing. */
  lemma {:induction false} NamespaceScanSkipsNonDirectories(env: Env, rules: seq<Psr0Rule>)
    requires forall i, j :: 0 <= i < |rules| && 0 <= j < |rules[i].paths| ==> !env.isDir(env.path(rules[i].paths[j]))
    ensures NamespaceDiscovered(env, rules) == []
  {
    var es := NamespaceDiscovered(env, rules);
    if es != [] {
      NamespaceDiscoveredSound(env, rules, es[0]);
    }
  }

  /** One step of the innermost scan loop: the next scanned class, then the rest of the work. */
  lemma ScanStep(env: Env, namespace: string, found: seq<Entry>, k: nat, rest: seq<Entry>, cm: seq<Entry>)
    requires k < |found|
    ensures AddAllIfAbsent(cm, Qualifying(env, namespace, found[k..]) + rest) ==
      AddAllIfAbsent(
        if InNamespace(found[k].key, namespace) then AddIfAbsent(cm, Entry(found[k].key, ClassCode(env, found[k].value))) else cm,
        Qualifying(env, namespace, found[k + 1..]) + rest)
  {
    assert found[k..][1..] == found[k + 1..];
    var tail := Qualifying(env, namespace, found[k + 1..]) + rest;
    if InNamespace(found[k].key, namespace) {
      var e := Entry(found[k].key, ClassCode(env, found[k].value));
      assert Qualifying(env, namespace, found[k..]) + rest == [e] + tail;
      assert ([e] + tail)[1..] == tail;
    } else {
      assert Qualifying(env, namespace, found[k..]) + rest == tail;
    }
  }

  /** The next psr-0 directory's discoveries come before those of the directories after it. */
  lemma DirStep(env: Env, namespace: string, paths: seq<string>, j: nat, later: seq<Entry>)
    requires j < |paths|
    ensures DirsDiscovered(env, namespace, paths[j..]) + later ==
      DirDiscovered(env, namespace, paths[j]) + (DirsDiscovered(env, namespace, paths[j + 1..]) + later)
  {
    assert paths[j..][1..] == paths[j + 1..];
  }

  /** The next rule's discoveries come before those of the rules after it. */
  lemma RuleStep(env: Env, rules: seq<Psr0Rule>, i: nat)
    requires i < |rules|
    ensures NamespaceDiscovered(env, rules[i..]) ==
      DirsDiscovered(env, rules[i].namespace, rules[i].paths[0..]) + NamespaceDiscovered(env, rules[i + 1..])
  {
    assert rules[i..][1..] == rules[i + 1..];
    assert rules[i].paths[0..] == rules[i].paths;
  }

  /** Lines 133-155, the psr-0 directory scan, as the generator runs it. */
  method ScanNamespaceDirs(env: Env, rules: seq<Psr0Rule>, classMap: seq<Entry>) returns (cm: seq<Entry>)
    ensures cm == AddAllIfAbsent(classMap, NamespaceDiscovered(env, rules))
  {
    ghost var target := AddAllIfAbsent(classMap, NamespaceDiscovered(env, rules));
    cm := classMap;
    var i := 0;
    assert rules[0..] == rules;
    while i < |rules|
      invariant 0 <= i <= |rules|
      invariant AddAllIfAbsent(cm, NamespaceDiscovered(env, rules[i..])) == target
    {
      var namespace := rules[i].namespace;
      var paths := rules[i].paths;
      ghost var later := NamespaceDiscovered(env, rules[i + 1..]);
      RuleStep(env, rules, i);
      var j := 0;
      while j < |paths|
        invariant 0 <= j <= |paths|
        invariant AddAllIfAbsent(cm, DirsDiscovered(env, namespace, paths[j..]) + later) == target
      {
        DirStep(env, namespace, paths, j, later);
        ghost var rest := DirsDiscovered(env, namespace, paths[j + 1..]) + later;
        var dir := env.path(paths[j]);
        var whitelist := Whitelist(env, dir, namespace);
        if !env.isDir(dir) {
          assert DirDiscovered(env, namespace, paths[j]) + rest == rest;
          j := j + 1;
          continue;
        }
        var found := env.createMap(dir, Some(whitelist));
        var k := 0;
        assert found[0..] == found;
        while k < |found|
          invariant 0 <= k <= |found|
          invariant AddAllIfAbsent(cm, Qualifying(env, namespace, found[k..]) + rest) == target
        {
          ScanStep(env, namespace, found, k, rest, cm);
          var className, path := found[k].key, found[k].value;
          if namespace == "" || StartsWith(className, namespace) {
            var code := ClassCode(env, path);
            if Get(cm, className).None? {
              cm := Put(cm, className, code);
            }
          }
          k := k + 1;
        }
        assert Qualifying(env, namespace, found[k..]) + rest == rest by {
          assert found[k..] == [];
        }
        j := j + 1;
      }
      assert DirsDiscovered(env, namespace, paths[j..]) + later == later by {
        assert paths[j..] == [];
      }
      i := i + 1;
    }
    assert rules[i..] == [];
  }

  /** One step of the explicit scan: the next class found, then the rest of the work. */
  lemma PutStep(env: Env, found: seq<Entry>, k: nat, later: seq<Entry>, cm: seq<Entry>)
    requires k < |found|
    ensures PutAll(cm, Coded(env, found[k..]) + later) ==
      PutAll(Put(cm, found[k].key, ClassCode(env, found[k].value)), Coded(env, found[k + 1..]) + later)
  {
    assert found[k..][1..] == found[k + 1..];
    var e := Entry(found[k].key, ClassCode(env, found[k].value));
    var tail := Coded(env, found[k + 1..]) + later;
    assert Coded(env, found[k..]) + later == [e] + tail;
    assert ([e] + tail)[1..] == tail;
  }

  /** Lines 157-163, the explicit classmap sources, as the generator runs them. */
  method ScanClassmapSources(env: Env, sources: seq<string>, classMap: seq<Entry>) returns (cm: seq<Entry>)
    ensures cm == PutAll(classMap, ExplicitDiscovered(env, sources))
  {
    ghost var target := PutAll(classMap, ExplicitDiscovered(env, sources));
    cm := classMap;
    var i := 0;
    assert sources[0..] == sources;
    while i < |sources|
      invariant 0 <= i <= |sources|
      invariant PutAll(cm, ExplicitDiscovered(env, sources[i..])) == target
    {
      assert sources[i..][1..] == sources[i + 1..];
      ghost var later := ExplicitDiscovered(env, sources[i + 1..]);
      var found := env.createMap(sources[i], None);
      var k := 0;
      assert found[0..] == found;
      while k < |found|
        invariant 0 <= k <= |found|
        invariant PutAll(cm, Coded(env, found[k..]) + later) == target
      {
        PutStep(env, found, k, later, cm);
        var className, path := found[k].key, found[k].value;
        var code := ClassCode(env, path);
        cm := Put(cm, className, code);
        k := k + 1;
      }
      assert Coded(env, found[k..]) + later == later by {
        assert found[k..] == [];
      }
      i := i + 1;
    }
    assert sources[i..] == [];
  }

  /** The `'Class' => code` line of one classmap entry (line 167). */
  function ClassMapLine(env: Env, e: Entry): string {
    "\t" + env.varExport(e.key) + " => " + e.value
  }

  function ClassMapLines(env: Env, entries: seq<Entry>): (lines: seq<string>)
    ensures |lines| == |entries|
    ensures forall i :: 0 <= i < |entries| ==> lines[i] == ClassMapLine(env, entries[i])
  {
    seq(|entries|, i requires 0 <= i < |entries| => ClassMapLine(env, entries[i]))
  }

  /** The text of autoload_classmap_52.php for a classmap. */
  function ClassMapFile(env: Env, codes: PathCodes, classMap: seq<Entry>): string {
    ArrayFileHeader("autoload_classmap_52.php", codes) + Concat(ClassMapLines(env, KSort(classMap))) + ");\n"
  }

  /** Lines 165-169: `ksort`, then one line per class. */
  method RenderClassMapFile(env: Env, codes: PathCodes, classMap: seq<Entry>) returns (file: string)
    ensures file == ClassMapFile(env, codes, classMap)
  {
    var sorted := KSort(classMap);
    ghost var lines := ClassMapLines(env, sorted);
    file := ArrayFileHeader("autoload_classmap_52.php", codes);
    var i := 0;
    while i < |sorted|
      invariant 0 <= i <= |sorted|
      invariant file == ArrayFileHeader("autoload_classmap_52.php", codes) + Concat(lines[..i])
    {
      ConcatStep(lines, i);
      file := file + ClassMapLine(env, sorted[i]);
      i := i + 1;
    }
    assert lines[..i] == lines;
    file := file + ");\n";
  }

  /**
   * The classmap file lists the classes in strictly ascending order, so each
   * exactly once, each with the code the classmap holds for it.
   */
  lemma ClassMapFileSorted(env: Env, codes: PathCodes, classMap: seq<Entry>)
    requires UniqueKeys(classMap)
    ensures exists sorted ::
      && SortedByKey(sorted) && multiset(sorted) == multiset(classMap)
      && (forall k :: Get(sorted, k) == Get(classMap, k))
      && ClassMapFile(env, codes, classMap) ==
         ArrayFileHeader("autoload_classmap_52.php", codes) + Concat(ClassMapLines(env, sorted)) + ");\n"
  {
    var sorted := KSort(classMap);
    KSortSorted(classMap);
    forall k ensures Get(sorted, k) == Get(classMap, k) {
      KSortGet(classMap, k);
    }
  }

  /** An empty classmap still gives a well-formed `return array(\n);\n` body. */
  lemma EmptyClassMapFile(env: Env, codes: PathCodes)
    ensures ClassMapFile(env, codes, []) == ArrayFileHeader("autoload_classmap_52.php", codes) + ");\n"
  {
  }
}
