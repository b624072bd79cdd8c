/**
 * What the generator is given: the aggregated autoload rules, the package map,
 * the path-code strings it prepares up front, and the collaborators it calls
 * but does not define (the filesystem helpers, the class scanner, `var_export`
 * and `preg_quote`), each an uninterpreted total function.
 */
module GeneratorInputs {
  import opened Wrappers
  import opened PhpArrays

  /**
   * The collaborators of lib/xrstf/Composer52/AutoloadGenerator.php that are not
   * part of this model, with the arguments that stay fixed during one run
   * (the filesystem, `$relVendorPath`, `$vendorPath`, `getcwd()`) bound.
   */
  datatype Env = Env(
    /** `var_export($s, true)` for a string. */
    varExport: string -> string,
    /** `$this->getPathCode($filesystem, $relVendorPath, $vendorPath, $p)`. */
    pathCode: string -> string,
    /** `$this->getPath($filesystem, $relVendorPath, $vendorPath, $p)`. */
    path: string -> string,
    /** `$filesystem->findShortestPath(getcwd(), $p, true)`. */
    relativeToCwd: string -> string,
    /** `is_dir($p)`. */
    isDir: string -> bool,
    /** `ClassMapGenerator::createMap($dir, $whitelist)`: class name => file path, `None` for no whitelist. */
    createMap: (string, Option<string>) -> seq<Entry>,
    /** `preg_quote($s)`. */
    pregQuote: string -> string)

  /** The code expressions that every generated array file binds first. */
  datatype PathCodes = PathCodes(vendorPathCode: string, appBaseDirCode: string)

  /** One `namespace => paths` rule of the aggregated psr-0 autoloads. */
  datatype Psr0Rule = Psr0Rule(namespace: string, paths: seq<string>)

  /** A possibly nested PHP array of paths, as `$autoloads['classmap']` and `$autoloads['files']` are. */
  datatype Nested = Leaf(value: string) | Group(items: seq<Nested>)

  /** The aggregated autoload rules (`$this->parseAutoloads(...)`). */
  datatype Autoloads = Autoloads(psr0: seq<Psr0Rule>, classmap: seq<Nested>, files: seq<Nested>)

  /** One `array($package, $installPath)` item of the package map. */
  datatype PackageEntry = PackageEntry(targetDir: Option<string>, includePaths: seq<string>, installPath: string)

  /** The leaves of a nested array in order (`RecursiveIteratorIterator`, leaves only). */
  function Flatten(items: seq<Nested>): (leaves: seq<string>)
    ensures (forall i :: 0 <= i < |items| ==> items[i].Leaf?) ==> |leaves| == |items|
  {
    if items == [] then []
    else
      var first := match items[0]
        case Leaf(v) => [v]
        case Group(children) => Flatten(children);
      first + Flatten(items[1..])
  }

  /** The text every generated `return array(...)` file starts with. */
  function ArrayFileHeader(fileName: string, codes: PathCodes): string {
    "<?php\n\n// " + fileName + " generated by xrstf/composer-php52\n\n"
    + "$vendorDir = " + codes.vendorPathCode + ";\n"
    + "$baseDir = " + codes.appBaseDirCode + ";\n\n"
    + "return array(\n"
  }
}
