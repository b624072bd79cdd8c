/**
 * `$filesCode` of `dump` (lib/xrstf/Composer52/AutoloadGenerator.php:171-175):
 * one `require <path code>;` line per file of the aggregated `files` rules.
 */
module FilesCode {
  import opened PhpStrings
  import opened GeneratorInputs

  function RequireLine(env: Env, file: string): string {
    "\t\trequire " + env.pathCode(file) + ";\n"
  }

  function RequireLines(env: Env, files: seq<string>): (lines: seq<string>)
    ensures |lines| == |files|
    ensures forall i :: 0 <= i < |files| ==> lines[i] == RequireLine(env, files[i])
  {
    seq(|files|, i requires 0 <= i < |files| => RequireLine(env, files[i]))
  }

  /** The code that requires every file of the (flattened) `files` rules, in order. */
  function FilesCode(env: Env, files: seq<Nested>): string {
    Concat(RequireLines(env, Flatten(files)))
  }

  /** Lines 171-175 as the generator runs them. */
  method BuildFilesCode(env: Env, files: seq<Nested>) returns (filesCode: string)
    ensures filesCode == FilesCode(env, files)
  {
    var leaves := Flatten(files);
    ghost var lines := RequireLines(env, leaves);
    filesCode := "";
    var i := 0;
    while i < |leaves|
      invariant 0 <= i <= |leaves|
      invariant filesCode == Concat(lines[..i])
    {
      var line := "\t\trequire " + env.pathCode(leaves[i]) + ";\n";
      ConcatStep(lines, i);
      filesCode := filesCode + line;
      i := i + 1;
    }
    assert lines[..i] == lines;
  }

  /** The code is empty exactly when there is no file; otherwise it is PHP-true and ends with `;` and a newline. */
  lemma {:induction false} FilesCodeEmpty(env: Env, files: seq<Nested>)
    ensures FilesCode(env, files) == "" <==> Flatten(files) == []
    ensures Flatten(files) != [] ==> Truthy(FilesCode(env, files)) && EndsWith(FilesCode(env, files), ";\n")
  {
    var lines := RequireLines(env, Flatten(files));
    if lines != [] {
      var last := lines[|lines| - 1];
      assert Concat(lines) == Concat(lines[..|lines| - 1]) + last;
      assert last[0] == '\t';
      var code := Concat(lines);
      assert code[|code| - |last|..] == last;
      assert code[|code| - 2..] == last[|last| - 2..];
      assert |code| >= |last| > 1;
    }
  }
}
