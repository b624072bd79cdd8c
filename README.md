# composer-php52 autoload generator, modelled in Dafny

This project models the core of `xrstf\Composer52\AutoloadGenerator`. It is the
Composer plugin that writes PHP-5.2-compatible autoloading files for a project.
On each run, `dump` produces five texts:

- **autoload_namespaces_52.php**: one `'Prefix' => paths,` line per psr-0 rule.
- **autoload_classmap_52.php**: every class found by the scans, sorted by class
  name. Classes come from the psr-0 directories, when asked, and from the
  explicit classmap sources.
- **include_paths_52.php**: the packages' include paths, resolved against their
  install paths. This file is written only when there is at least one.
- **autoload_52.php**: requires the real file and calls
  `ComposerAutoloaderInit<suffix>::getLoader()`.
- **autoload_real_52.php**: defines that class. It is assembled from blocks, and
  each optional block is present under its own condition: the include-path
  set-up, the namespace and classmap registrations, the root package's
  target-dir `autoload` fallback, and the `require` lines of the `files` rules.

The model keeps the generator's own structure:

- Each loop that grows a text with `.=` or an array with `$a[] =` is a Dafny
  `method` with a `while` loop. It is proved equal to a specification function.
- The properties are proved about those functions: precedence between the two
  classmap passes, key uniqueness, `ksort` order, presence of each block exactly
  under its flag, block order, the level count of a target dir, and the
  `implode`/`explode` round trips.
- The collaborators the generator calls but does not define are uninterpreted
  functions in `GeneratorInputs.Env`. These are `var_export`, `getPathCode`,
  `getPath`, `findShortestPath(getcwd(), …)`, `is_dir`,
  `ClassMapGenerator::createMap` and `preg_quote`.
- A PHP array with string keys is an ordered sequence of `key => value`
  entries. An assignment to an existing key updates it in place; an assignment
  to a new key appends it.

Modules, one file each:

- `PhpStrings`, `PhpArrays`: the PHP built-ins the generator uses.
- `GeneratorInputs`: the inputs and collaborators.
- `NamespaceMap`, `TargetDirLoader`, `ClassMap`, `FilesCode`: the parts of `dump`.
- `IncludePaths`: `getIncludePathsFile`.
- `LoaderFiles`: `getAutoloadFile` and `getAutoloadRealFile`.
- `Dump`: `dump` itself.

Three facts about the order and precedence of `dump` that the model keeps:

- **Explicit classmap sources.** When a class is found in two of them, the
  source scanned last wins, because line 161 assigns without an `isset` test.
- **Order of the two passes.** The psr-0 directory scan (lines 133-155) runs
  before the explicit sources (lines 157-163). Its `isset` test (line 148) only
  sees earlier psr-0 discoveries. Explicit entries win because the later pass
  overwrites them.
- **Registrations in the real file.** Line 187 always passes `true, true` for
  the namespace-map and classmap registrations. Both blocks are in the real
  file on every run, even when the maps are empty.

## Model

| member | source | states |
|---|---|---|
| PhpStrings.StrTr | lib/xrstf/Composer52/AutoloadGenerator.php:99 | `strtr` with single characters keeps the length, replaces exactly the occurrences of `from` by `to`, keeps every other character, and leaves no `from` behind |
| PhpStrings.TrimRemovesPadding | lib/xrstf/Composer52/AutoloadGenerator.php:202 | `trim` removes exactly the padding: a text whose ends are not trim characters comes back unchanged from any padding of trim characters around it |
| PhpStrings.ExplodeCount | lib/xrstf/Composer52/AutoloadGenerator.php:99 | `explode` on one character yields one more part than there are separators |
| PhpStrings.ExplodeParts | lib/xrstf/Composer52/AutoloadGenerator.php:99 | no part of `explode` contains the separator |
| PhpStrings.ImplodeExplode | lib/xrstf/Composer52/AutoloadGenerator.php:99 | `implode` with the same separator undoes `explode` |
| PhpStrings.ExplodeImplode | lib/xrstf/Composer52/AutoloadGenerator.php:99 | `explode` undoes `implode` of a non-empty list of separator-free parts |
| PhpStrings.ImplodePartAt | lib/xrstf/Composer52/AutoloadGenerator.php:75 | `implode(', ', …)` keeps each part whole and in order, at the offset after the earlier parts and their separators |
| PhpStrings.ParseNatToString | lib/xrstf/Composer52/AutoloadGenerator.php:117 | the decimal text of an interpolated level count reads back as that number |
| PhpArrays.GetDefined | lib/xrstf/Composer52/AutoloadGenerator.php:148 | `isset($a[$k])` holds exactly when `k` is one of the array's keys |
| PhpArrays.GetUnique | lib/xrstf/Composer52/AutoloadGenerator.php:148 | in an array with unique keys, `$a[$k]` is `v` exactly when `k => v` is an entry |
| PhpArrays.Put | lib/xrstf/Composer52/AutoloadGenerator.php:161 | after `$a[$k] = $v`, `k` reads `v` and every other key reads as before; an existing key keeps its place, a new key is appended last |
| PhpArrays.PutUnique | lib/xrstf/Composer52/AutoloadGenerator.php:161 | an assignment keeps the keys unique |
| PhpArrays.LessTotal | lib/xrstf/Composer52/AutoloadGenerator.php:165 | the key order `ksort` uses puts any two distinct class names one before the other |
| PhpArrays.LessTransitive | lib/xrstf/Composer52/AutoloadGenerator.php:165 | that order is transitive |
| PhpArrays.LessIrreflexive | lib/xrstf/Composer52/AutoloadGenerator.php:165 | that order is strict |
| PhpArrays.InsertPermutes | lib/xrstf/Composer52/AutoloadGenerator.php:165 | one insertion step of the sort adds exactly the inserted entry |
| PhpArrays.InsertSorted | lib/xrstf/Composer52/AutoloadGenerator.php:165 | inserting an entry with a new key into a key-sorted array keeps it strictly sorted |
| PhpArrays.KSortSorted | lib/xrstf/Composer52/AutoloadGenerator.php:165 | `ksort` of an array with unique keys gives strictly ascending keys and the same multiset of entries |
| PhpArrays.SortedUnique | lib/xrstf/Composer52/AutoloadGenerator.php:165 | strictly ascending keys are unique keys |
| PhpArrays.KSortGet | lib/xrstf/Composer52/AutoloadGenerator.php:165 | `ksort` changes no value: every key reads the same before and after |
| NamespaceMap.ExportedPaths | lib/xrstf/Composer52/AutoloadGenerator.php:65-69 | one path code per path of the rule, in the rule's order |
| NamespaceMap.LinePieces | lib/xrstf/Composer52/AutoloadGenerator.php:71-79 | the `"\t'Prefix' => "` opening plus the branch's closing form the rule's line: `array(…),` for several paths, the path code for one, `null` (empty) for none |
| NamespaceMap.RenderNamespacesFile | lib/xrstf/Composer52/AutoloadGenerator.php:64-82 | the `.=` loop produces the file header, then each rule's line in rule order, then `);` |
| NamespaceMap.NamespaceLineForm | lib/xrstf/Composer52/AutoloadGenerator.php:74-79 | a one-path rule's line is `'Prefix' => <code>,`; a several-path rule's line opens `array(`, closes `),`, and holds path code `i` at its `implode` offset |
| NamespaceMap.NamespacesFileHasLines | lib/xrstf/Composer52/AutoloadGenerator.php:64-82 | every rule's line occurs in the file, and the file ends by closing the array |
| TargetDirLoader.Levels | lib/xrstf/Composer52/AutoloadGenerator.php:99 | the level count is at least 1, so the generated `array_slice` always drops at least one segment |
| TargetDirLoader.LevelsCountsSeparators | lib/xrstf/Composer52/AutoloadGenerator.php:99 | the level count is at least 1 and is one more than the number of `/` inside the normalised, trimmed target dir |
| TargetDirLoader.LevelsSegments | lib/xrstf/Composer52/AutoloadGenerator.php:99 | the counted segments hold no separator, and joined with `/` they give back the normalised, trimmed target dir |
| TargetDirLoader.ExplodeSubstrings | lib/xrstf/Composer52/AutoloadGenerator.php:99 | each segment is made of characters of the exploded dir |
| TargetDirLoader.LevelsExampleNested | lib/xrstf/Composer52/AutoloadGenerator.php:99 | `a/b/c` is three levels deep |
| TargetDirLoader.LevelsExampleBackslashAndSlashes | lib/xrstf/Composer52/AutoloadGenerator.php:99 | `/a\b/` is two levels deep: a backslash separates like a slash, and outer slashes do not count |
| TargetDirLoader.ExportedPrefixes | lib/xrstf/Composer52/AutoloadGenerator.php:100-101 | one `var_export`ed prefix per root psr-0 prefix, in order |
| TargetDirLoader.PrefixList | lib/xrstf/Composer52/AutoloadGenerator.php:100-102 | every exported prefix sits whole in the list, at its `implode(', ', …)` offset; a single prefix is the list itself |
| TargetDirLoader.TargetDirLoaderText | lib/xrstf/Composer52/AutoloadGenerator.php:96-129 | the `autoload` method text is PHP-true exactly when the root package has a PHP-true target dir and psr-0 rules; otherwise it is empty (`null`) |
| TargetDirLoader.LoaderMethodContents | lib/xrstf/Composer52/AutoloadGenerator.php:100-117 | the method lists the `var_export`ed root prefixes and slices the class path at the level count, which reads back as that count |
| ClassMap.ClassCode | lib/xrstf/Composer52/AutoloadGenerator.php:147-149 | a class's value is `$baseDir.` followed by the exported `/`-prefixed path relative to the working directory, then `,` and a newline |
| ClassMap.Whitelist | lib/xrstf/Composer52/AutoloadGenerator.php:137-141 | the pattern opens with `{`, the quoted directory without trailing `/` and a `/`, and ends with the `Test.php`-excluding tail. Between them sits the namespace with `\` turned into `/` and passed through `preg_quote`, or nothing when the namespace has a `_` |
| ClassMap.WhitelistIgnoresTrailingSlash | lib/xrstf/Composer52/AutoloadGenerator.php:137-141 | trailing slashes on the scanned directory do not change the whitelist pattern |
| ClassMap.WhitelistUnderscoreNamespace | lib/xrstf/Composer52/AutoloadGenerator.php:140 | a namespace containing `_` contributes nothing to the pattern, as the empty namespace does (given that quoting the empty text gives the empty text) |
| ClassMap.WhitelistSeparatorInsensitive | lib/xrstf/Composer52/AutoloadGenerator.php:140 | in the pattern, a `\` in the namespace counts as a `/` |
| ClassMap.AddAllIfAbsentGet | lib/xrstf/Composer52/AutoloadGenerator.php:148-150 | the psr-0 pass never overwrites: a key already present keeps its value, otherwise the first discovery of the key wins |
| ClassMap.PutAllGet | lib/xrstf/Composer52/AutoloadGenerator.php:158-162 | the explicit pass always overwrites: the last discovery of a key wins, other keys keep their values |
| ClassMap.AddAllIfAbsentUnique | lib/xrstf/Composer52/AutoloadGenerator.php:148-150 | the psr-0 pass keeps the keys unique |
| ClassMap.PutAllUnique | lib/xrstf/Composer52/AutoloadGenerator.php:158-162 | the explicit pass keeps the keys unique |
| ClassMap.ClassMapPrecedence | lib/xrstf/Composer52/AutoloadGenerator.php:132-163 | a class found by an explicit source maps to its last explicit discovery; otherwise, when scanning is on, to its first psr-0 discovery; otherwise it is absent |
| ClassMap.BuildClassMapUnique | lib/xrstf/Composer52/AutoloadGenerator.php:132-163 | the built classmap has unique keys |
| ClassMap.QualifyingSound | lib/xrstf/Composer52/AutoloadGenerator.php:145-151 | a class kept from one scan is in the rule's namespace and comes from a scanned file, with that file's code |
| ClassMap.DirsDiscoveredSound | lib/xrstf/Composer52/AutoloadGenerator.php:135-153 | a class discovered for a rule's paths was reported by the scanner for one of them that is a directory; it is in the rule's namespace and carries the code of the file the scanner gave for it |
| ClassMap.NamespaceDiscoveredSound | lib/xrstf/Composer52/AutoloadGenerator.php:134-155 | a class the psr-0 scan discovers was reported by the scanner for a path of some rule that is a directory; it is in that rule's namespace and carries the code of its file |
| ClassMap.NamespaceDiscoveredExactly | lib/xrstf/Composer52/AutoloadGenerator.php:133-155 | the psr-0 scan discovers an entry if and only if the scanner reported its class, with the file the entry's code names, for a directory path of a rule whose namespace the class is in |
| ClassMap.QualifyingComplete | lib/xrstf/Composer52/AutoloadGenerator.php:145-151 | every scanned class that passes the namespace test is kept, with its code |
| ClassMap.DirsDiscoveredComplete | lib/xrstf/Composer52/AutoloadGenerator.php:135-153 | every class in the namespace that the scanner reports for a path that is a directory is discovered |
| ClassMap.NamespaceDiscoveredComplete | lib/xrstf/Composer52/AutoloadGenerator.php:134-155 | every class in a rule's namespace reported under any of its directory paths is discovered by the psr-0 scan |
| ClassMap.NamespaceScanSkipsNonDirectories | lib/xrstf/Composer52/AutoloadGenerator.php:142-144 | when no path of any rule is a directory, the psr-0 scan discovers nothing |
| ClassMap.ScanNamespaceDirs | lib/xrstf/Composer52/AutoloadGenerator.php:133-155 | the nested rule/dir/class loops leave the classmap with every psr-0 discovery added only where the key was absent |
| ClassMap.ScanClassmapSources | lib/xrstf/Composer52/AutoloadGenerator.php:157-163 | the loop over the flattened sources leaves the classmap with every explicit discovery written over it in order |
| ClassMap.RenderClassMapFile | lib/xrstf/Composer52/AutoloadGenerator.php:165-169 | the `ksort` followed by the `.=` loop yields the header, one `'Class' => code` line per entry of the key-sorted map, then `);` |
| ClassMap.ClassMapFileSorted | lib/xrstf/Composer52/AutoloadGenerator.php:165-169 | the file lists the entries of a strictly key-sorted permutation of the classmap that reads every key as the classmap does |
| ClassMap.EmptyClassMapFile | lib/xrstf/Composer52/AutoloadGenerator.php:83-93 | an empty classmap still gives the header and the closed `return array(…);` |
| FilesCode.RequireLines | lib/xrstf/Composer52/AutoloadGenerator.php:173-174 | one `require <path code>;` line per file, in order |
| FilesCode.BuildFilesCode | lib/xrstf/Composer52/AutoloadGenerator.php:171-175 | the `.=` loop over the flattened `files` rules yields their `require` lines, in order |
| FilesCode.FilesCodeEmpty | lib/xrstf/Composer52/AutoloadGenerator.php:171-175 | the files code is empty exactly when there is no file; otherwise it is PHP-true and ends with `;` and a newline |
| IncludePaths.PackageBase | lib/xrstf/Composer52/AutoloadGenerator.php:197-199 | the base of a package is a prefix of its install path. A non-empty target dir cuts exactly its length plus one characters, or everything when the path is shorter. Without a target dir the install path is kept |
| IncludePaths.PackageBaseCutsByLength | lib/xrstf/Composer52/AutoloadGenerator.php:198 | the cut goes by length, not by matching: `/x/abcdef` with target dir `lib` resolves against `/x/ab` |
| IncludePaths.PackageBaseStripsTargetDir | lib/xrstf/Composer52/AutoloadGenerator.php:197-199 | a package installed at `<base>/<target dir>` resolves its include paths against `<base>` |
| IncludePaths.JoinIgnoresSlashes | lib/xrstf/Composer52/AutoloadGenerator.php:202-203 | slashes around an include path do not change where it resolves |
| IncludePaths.JoinSingleSlash | lib/xrstf/Composer52/AutoloadGenerator.php:203 | below a PHP-true base, the path follows the base and exactly one slash |
| IncludePaths.JoinIncludePath | lib/xrstf/Composer52/AutoloadGenerator.php:202-203 | a resolved include path ends with the include path trimmed of `/`. Below a PHP-empty base it is that trimmed path alone; otherwise it is the base, one `/` and the trimmed path |
| IncludePaths.ResolvedPaths | lib/xrstf/Composer52/AutoloadGenerator.php:201-204 | one resolved path per include path of the package, in its order |
| IncludePaths.AppendIncludePaths | lib/xrstf/Composer52/AutoloadGenerator.php:201-204 | the inner `$includePaths[] =` loop appends the package's resolved paths in order, after what was there |
| IncludePaths.CollectIncludePaths | lib/xrstf/Composer52/AutoloadGenerator.php:192-205 | the loop over the package map yields each package's resolved paths, package after package |
| IncludePaths.IncludePathsAppend | lib/xrstf/Composer52/AutoloadGenerator.php:194-205 | the collected list of a package map split in two is the first part's list followed by the second's |
| IncludePaths.IncludePathsSingle | lib/xrstf/Composer52/AutoloadGenerator.php:194-205 | a single package contributes exactly its own resolved include paths |
| IncludePaths.IncludePathsEmpty | lib/xrstf/Composer52/AutoloadGenerator.php:194-209 | there is nothing to write exactly when no package declares an include path |
| IncludePaths.GetIncludePathsFile | lib/xrstf/Composer52/AutoloadGenerator.php:191-228 | the method returns nothing when there is no include path, otherwise the header, one `<path code>,` line per path and `);` |
| IncludePaths.IncludePathsFileLines | lib/xrstf/Composer52/AutoloadGenerator.php:223-227 | every collected path has its line in the file, and the file ends by closing the array |
| IncludePaths.IncludePathsOutputTruthy | lib/xrstf/Composer52/AutoloadGenerator.php:207-209 | a file is returned exactly when some package declares an include path, and a returned file is PHP-true |
| LoaderFiles.AutoloadFile | lib/xrstf/Composer52/AutoloadGenerator.php:230-241 | autoload_52.php opens with `<?php`, requires the real file by its path and calls `getLoader` on `ComposerAutoloaderInit<suffix>` |
| LoaderFiles.SectionsFrame | lib/xrstf/Composer52/AutoloadGenerator.php:255-342 | whatever the flags, the file starts with the header and ends with the method footer, the target-dir method and the class footer |
| LoaderFiles.SectionsKinds | lib/xrstf/Composer52/AutoloadGenerator.php:255-342 | the blocks are the header, then each optional block under its flag, then the three closing blocks |
| LoaderFiles.SectionsPresence | lib/xrstf/Composer52/AutoloadGenerator.php:288-327 | the include-path, psr-0, classmap and target-dir hook blocks are each present exactly when their flag is set |
| LoaderFiles.SectionsOrdered | lib/xrstf/Composer52/AutoloadGenerator.php:255-342 | whatever the flags, the blocks come in one fixed order, each at most once |
| LoaderFiles.RenderOptional | lib/xrstf/Composer52/AutoloadGenerator.php:288-327 | an optional block adds its text when its flag is set and nothing otherwise |
| LoaderFiles.AppendIf | lib/xrstf/Composer52/AutoloadGenerator.php:288-296 | `if ($flag) { $file .= $block; }` extends the file by the block only under the flag |
| LoaderFiles.AssembleRealFile | lib/xrstf/Composer52/AutoloadGenerator.php:255-342 | the `.=` sequence builds the rendering of the flag-selected blocks in order |
| LoaderFiles.GetAutoloadRealFile | lib/xrstf/Composer52/AutoloadGenerator.php:243-344 | the returned text is the real file for the given flags, target-dir method, files code, path codes and suffix |
| LoaderFiles.HeaderShape | lib/xrstf/Composer52/AutoloadGenerator.php:255-286 | the header opens with `<?php` and opens the `ComposerAutoloaderInit<suffix>` class |
| LoaderFiles.RenderedShape | lib/xrstf/Composer52/AutoloadGenerator.php:255-342 | the file starts with the header, ends with the class footer, and contains every block its flags select |
| LoaderFiles.RealFile | lib/xrstf/Composer52/AutoloadGenerator.php:243-344 | whatever it wires in, the real file opens with `<?php`, defines `ComposerAutoloaderInit<suffix>` and closes it |
| LoaderFiles.RealFileShape | lib/xrstf/Composer52/AutoloadGenerator.php:243-344 | the real file also holds the include-path, psr-0 and classmap set-up under their flags, the hook when the target-dir method is PHP-true, that method itself and the spliced files code |
| LoaderFiles.SplicedFilesCode | lib/xrstf/Composer52/AutoloadGenerator.php:251-253 | PHP-false files code is kept as it is. PHP-true files code gets two newlines in front and loses all whitespace at its end and nothing else: every other character stays in place, and the result does not end in whitespace |
| LoaderFiles.SplicedFilesCodeDropsFinalNewline | lib/xrstf/Composer52/AutoloadGenerator.php:251-253 | with files to require, the spliced code is two newlines followed by the `require` lines, which lose only their final newline |
| LoaderFiles.NoFilesNothingSpliced | lib/xrstf/Composer52/AutoloadGenerator.php:329-335 | without files, `register()` is followed directly by the blank line and the `return` |
| Dump.EffectiveSuffix | lib/xrstf/Composer52/AutoloadGenerator.php:177-179 | a PHP-true given suffix is kept, and a PHP-false one is replaced by the generated one. The result is PHP-true when either input is |
| Dump.BuildTargetDirLoader | lib/xrstf/Composer52/AutoloadGenerator.php:96-129 | the `autoload` method of the run is PHP-true exactly when the root package has a target dir and psr-0 rules |
| Dump.CollectClassMap | lib/xrstf/Composer52/AutoloadGenerator.php:132-163 | the optional psr-0 scan then the explicit pass build the classmap, with unique keys |
| Dump.Dump | lib/xrstf/Composer52/AutoloadGenerator.php:31-189 | the five texts of a run are the namespace file, the sorted classmap file, the optional include-path file, the autoload file and the real file, all for the same effective suffix |
| Dump.DumpIncludePaths | lib/xrstf/Composer52/AutoloadGenerator.php:183-187 | include_paths_52.php is written exactly when some package declares include paths, and the real file sets the include path up exactly then |
| Dump.DumpRegistrations | lib/xrstf/Composer52/AutoloadGenerator.php:187 | the real file always registers the namespace map and the classmap, and hooks the target-dir method in exactly when the root package has a target dir and psr-0 rules |
| Dump.DumpLoaderClassAgrees | lib/xrstf/Composer52/AutoloadGenerator.php:177-187 | autoload_52.php calls `getLoader` on the very class the real file defines and closes; the given suffix is used whenever it is PHP-true |
| Dump.DumpClassMap | lib/xrstf/Composer52/AutoloadGenerator.php:132-163 | the classmap of a run has unique keys, and an explicitly discovered class maps to its last explicit discovery |

## Left out

- Path computation is not modelled. Lines 32-48 and 103 compute path codes with `realpath`, `findShortestPath`, `findShortestPathCode` and the `__DIR__` rewrites. The model takes the resulting code strings as inputs (`PathCodes`, `vendorPathToTargetDirCode`, `baseDirFromTargetDirCode`), because they come from filesystem code that is not part of this model.
- The filesystem side effects are not modelled: creating directories (lines 33, 37), writing the five files (lines 181-187) and copying ClassLoader.php (line 188). `Dump.Dump` returns the texts instead.
- `buildPackageMap` (line 61) and `parseAutoloads` (line 62) belong to the base generator. Their results are inputs.
- `md5(uniqid('', true))` (line 178) is random. It is the `generatedSuffix` input.
- `var_export`, `preg_quote`, `getPathCode`, `getPath`, `findShortestPath(getcwd(), …)`, `is_dir` and `ClassMapGenerator::createMap` are uninterpreted functions. The regular-expression meaning of the whitelist is not modelled: the pattern text is built and passed to the scanner as it is.
- `RecursiveIteratorIterator` over the nested `classmap` and `files` arrays is modelled as a flatten that keeps the leaves in order.
- PhpArrays.KSort: it sorts keys by byte order. PHP would compare integer-like keys as numbers, but class names are never integer-like.
- `substr` with a cut longer than the install path (line 198) returns `false` in PHP 7 and `""` in PHP 8. Both are `empty`, and the model uses `""`.
- `$exportedPaths[0]` for a psr-0 rule without paths (line 78) reads a missing index. The value is `null`, which concatenates as `""`; the warning PHP raises is not modelled.
- The generated PHP is modelled as text only. What it does at run time is not modelled: the include path, the `ClassLoader52` registration and the target-dir `autoload` method.
- Unicode is not modelled: strings are sequences of characters.

## Findings

None.
