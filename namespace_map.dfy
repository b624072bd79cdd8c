/**
 * autoload_namespaces_52.php (lib/xrstf/Composer52/AutoloadGenerator.php:49-82):
 * one `'Prefix' => paths,` line per psr-0 rule, where the paths are a bare
 * path expression for a single path and an `array(...)` of them otherwise.
 */
module NamespaceMap {
  import opened PhpStrings
  import opened GeneratorInputs

  /** Lines 65-69: the path code of each path of a rule, in order. */
  function ExportedPaths(env: Env, paths: seq<string>): (exported: seq<string>)
    ensures |exported| == |paths|
    ensures forall i :: 0 <= i < |paths| ==> exported[i] == env.pathCode(paths[i])
  {
    seq(|paths|, i requires 0 <= i < |paths| => env.pathCode(paths[i]))
  }

  /**
   * Lines 74-79. For no path at all, `$exportedPaths[0]` reads a missing index,
   * which is `null` and concatenates as the empty string.
   */
  function PathsExpression(exported: seq<string>): string {
    if |exported| > 1 then "array(" + Implode(", ", exported) + ")"
    else if |exported| == 1 then exported[0]
    else ""
  }

  /** The line of one rule (lines 71-79). */
  function NamespaceLine(env: Env, rule: Psr0Rule): string {
    "\t" + env.varExport(rule.namespace) + " => " + PathsExpression(ExportedPaths(env, rule.paths)) + ",\n"
  }

  function NamespaceLines(env: Env, rules: seq<Psr0Rule>): (lines: seq<string>)
    ensures |lines| == |rules|
    ensures forall i :: 0 <= i < |rules| ==> lines[i] == NamespaceLine(env, rules[i])
  {
    seq(|rules|, i requires 0 <= i < |rules| => NamespaceLine(env, rules[i]))
  }

  /** The text of autoload_namespaces_52.php. */
  function NamespacesFile(env: Env, codes: PathCodes, rules: seq<Psr0Rule>): string {
    ArrayFileHeader("autoload_namespaces_52.php", codes) + Concat(NamespaceLines(env, rules)) + ");\n"
  }

  /** The opening and the branch-dependent closing the generator appends make up the rule's line. */
  lemma LinePieces(env: Env, rule: Psr0Rule, exported: seq<string>, opening: string, closing: string)
    requires exported == ExportedPaths(env, rule.paths)
    requires opening == "\t" + env.varExport(rule.namespace) + " => "
    requires |exported| > 1 ==> closing == "array(" + Implode(", ", exported) + "),\n"
    requires |exported| == 1 ==> closing == exported[0] + ",\n"
    requires |exported| == 0 ==> closing == ",\n"
    ensures opening + closing == NamespaceLine(env, rule)
  {
    if |exported| > 1 {
      assert closing == ("array(" + Implode(", ", exported) + ")") + ",\n";
    }
  }

  /** Lines 64-82 as the generator runs them: the file grows by `.=`, rule by rule. */
  method RenderNamespacesFile(env: Env, codes: PathCodes, rules: seq<Psr0Rule>) returns (file: string)
    ensures file == NamespacesFile(env, codes, rules)
  {
    ghost var lines := NamespaceLines(env, rules);
    ghost var head := ArrayFileHeader("autoload_namespaces_52.php", codes);
    file := ArrayFileHeader("autoload_namespaces_52.php", codes);
    var i := 0;
    while i < |rules|
      invariant 0 <= i <= |rules|
      invariant file == head + Concat(lines[..i])
    {
      var namespace, paths := rules[i].namespace, rules[i].paths;
      var exportedPaths: seq<string> := [];
      var j := 0;
      while j < |paths|
        invariant 0 <= j <= |paths|
        invariant exportedPaths == ExportedPaths(env, paths[..j])
      {
        exportedPaths := exportedPaths + [env.pathCode(paths[j])];
        j := j + 1;
      }
      assert paths[..j] == paths;
      var exportedPrefix := env.varExport(namespace);
      var opening := "\t" + exportedPrefix + " => ";
      var closing;
      if |exportedPaths| > 1 {
        closing := "array(" + Implode(", ", exportedPaths) + "),\n";
      } else {
        // `$exportedPaths[0]` of an empty array is null, which renders as nothing
        closing := (if |exportedPaths| == 1 then exportedPaths[0] else "") + ",\n";
      }
      LinePieces(env, rules[i], exportedPaths, opening, closing);
      ConcatExtend(head, lines, i, file, opening + closing);
      file := file + (opening + closing);
      i := i + 1;
    }
    assert lines[..i] == lines;
    file := file + ");\n";
  }

  /**
   * A rule with several paths gives `'Prefix' => array(p1, p2, ...),` with the
   * path codes in the rule's order; a rule with one path gives `'Prefix' => p1,`.
   */
  lemma {:induction false} NamespaceLineForm(env: Env, rule: Psr0Rule, i: nat)
    requires i < |rule.paths|
    ensures |rule.paths| == 1 ==>
      NamespaceLine(env, rule) == "\t" + env.varExport(rule.namespace) + " => " + env.pathCode(rule.paths[0]) + ",\n"
    ensures |rule.paths| > 1 ==>
      var head := "\t" + env.varExport(rule.namespace) + " => array(";
      var line := NamespaceLine(env, rule);
      var at := |head| + ImplodeOffset(", ", ExportedPaths(env, rule.paths), i);
      && StartsWith(line, head) && EndsWith(line, "),\n")
      && at + |env.pathCode(rule.paths[i])| <= |line|
      && line[at..at + |env.pathCode(rule.paths[i])|] == env.pathCode(rule.paths[i])
  {
    if |rule.paths| > 1 {
      var exported := ExportedPaths(env, rule.paths);
      var head := "\t" + env.varExport(rule.namespace) + " => array(";
      var joined := Implode(", ", exported);
      ImplodePartAt(", ", exported, i);
      var line := NamespaceLine(env, rule);
      assert line == head + joined + "),\n";
      assert line[|head|..|head| + |joined|] == joined;
    }
  }

  /** Every rule has its line in the file, and the file closes the array. */
  lemma NamespacesFileHasLines(env: Env, codes: PathCodes, rules: seq<Psr0Rule>, i: nat)
    requires i < |rules|
    ensures Contains(NamespacesFile(env, codes, rules), NamespaceLine(env, rules[i]))
    ensures EndsWith(NamespacesFile(env, codes, rules), ");\n")
  {
    var lines := NamespaceLines(env, rules);
    var head := ArrayFileHeader("autoload_namespaces_52.php", codes);
    ConcatContains(lines, i);
    ContainsPrepend(head, Concat(lines), lines[i]);
    ContainsAppend(head + Concat(lines), ");\n", lines[i]);
  }
}
