/**
 * The two PHP files that boot the loader: autoload_52.php
 * (lib/xrstf/Composer52/AutoloadGenerator.php:230-241) and autoload_real_52.php
 * (lines 243-344), which defines the `ComposerAutoloaderInit<suffix>` class.
 */
module LoaderFiles {
  import opened PhpStrings
  import opened GeneratorInputs
  import FilesCode

  /** The name of the generated bootstrap class. */
  function LoaderClass(suffix: string): string {
    "ComposerAutoloaderInit" + suffix
  }

  const AutoloadOpening: string := PhpOpenTag + "\n// autoload_52.php generated by xrstf/composer-php52\n\n"

  /** The path expression of the real file, relative to the target dir. */
  function RealFilePath(vendorPathToTargetDirCode: string): string {
    vendorPathToTargetDirCode + ".'/autoload_real_52.php'"
  }

  function GetLoaderCall(suffix: string): string {
    LoaderClass(suffix) + "::getLoader();"
  }

  lemma OpeningStartsWithTag()
    ensures StartsWith(AutoloadOpening, PhpOpenTag)
  {
    var banner := "\n// autoload_52.php generated by xrstf/composer-php52\n\n";
    assert (PhpOpenTag + banner)[..|PhpOpenTag|] == PhpOpenTag;
  }

  /**
   * `getAutoloadFile`: a PHP file that requires the real file and returns what
   * `getLoader` of the class with the same suffix builds.
   */
  function AutoloadFile(vendorPathToTargetDirCode: string, suffix: string): (file: string)
    ensures StartsWith(file, PhpOpenTag)
    ensures Contains(file, RealFilePath(vendorPathToTargetDirCode))
    ensures Contains(file, GetLoaderCall(suffix))
  {
    var path := RealFilePath(vendorPathToTargetDirCode);
    var call := GetLoaderCall(suffix);
    var rest := ";\n\nreturn " + call + "\n";
    var body := "require_once " + path + rest;
    ContainsMiddle("require_once ", path, rest);
    ContainsMiddle(";\n\nreturn ", call, "\n");
    ContainsPrepend("require_once " + path, rest, call);
    ContainsPrepend(AutoloadOpening, body, path);
    ContainsPrepend(AutoloadOpening, body, call);
    OpeningStartsWithTag();
    StartsWithAppend(AutoloadOpening, body, PhpOpenTag);
    AutoloadOpening + body
  }

  /** The kinds of block autoload_real_52.php is assembled from, in the order they can appear. */
  datatype SectionKind =
    | Header
    | IncludePathSetup
    | Psr0Registration
    | ClassMapRegistration
    | TargetDirHook
    | MethodFooter
    | TargetDirMethod
    | ClassFooter

  /** One block of the file: its kind and its text. */
  datatype Section = Section(kind: SectionKind, text: string)

  /** Position of a block kind in the file. */
  function Rank(kind: SectionKind): nat {
    match kind
    case Header => 0
    case IncludePathSetup => 1
    case Psr0Registration => 2
    case ClassMapRegistration => 3
    case TargetDirHook => 4
    case MethodFooter => 5
    case TargetDirMethod => 6
    case ClassFooter => 7
  }

  const PhpOpenTag: string := "<?php\n"

  const RealFileOpening: string := PhpOpenTag + "\n// autoload_real_52.php generated by xrstf/composer-php52\n\n"

  function ClassLine(suffix: string): string {
    "class " + LoaderClass(suffix) + " {\n"
  }

  /** `loadClassLoader`, and `getLoader` up to its set-up blocks. */
  function LoaderPrologue(suffix: string, codes: PathCodes): string {
    "\tprivate static $loader;\n\n"
    + "\tpublic static function loadClassLoader($class) {\n"
    + "\t\tif ('xrstf_Composer52_ClassLoader' === $class) {\n"
    + "\t\t\trequire dirname(__FILE__).'/ClassLoader52.php';\n"
    + "\t\t}\n"
    + "\t}\n\n"
    + "\t/**\n"
    + "\t * @return xrstf_Composer52_ClassLoader\n"
    + "\t */\n"
    + "\tpublic static function getLoader() {\n"
    + "\t\tif (null !== self::$loader) {\n"
    + "\t\t\treturn self::$loader;\n"
    + "\t\t}\n\n"
    + "\t\tspl_autoload_register(array('" + LoaderClass(suffix) + "', 'loadClassLoader'));\n"
    + "\t\tself::$loader = $loader = new xrstf_Composer52_ClassLoader();\n"
    + "\t\tspl_autoload_unregister(array('" + LoaderClass(suffix) + "', 'loadClassLoader'));\n\n"
    + "\t\t$vendorDir = " + codes.vendorPathCode + ";\n"
    + "\t\t$baseDir   = " + codes.appBaseDirCode + ";\n"
    + "\t\t$dir       = dirname(__FILE__);\n\n"
  }

  /** Lines 255-286: the opening of the file, up to the optional set-up blocks. */
  function HeaderText(suffix: string, codes: PathCodes): string {
    RealFileOpening + ClassLine(suffix) + LoaderPrologue(suffix, codes)
  }

  /** Lines 288-296. */
  const IncludePathSetupText: string :=
    "\t\t$includePaths = require $dir.'/include_paths_52.php';\n"
    + "\t\tarray_push($includePaths, get_include_path());\n"
    + "\t\tset_include_path(implode(PATH_SEPARATOR, $includePaths));\n\n"

  /** Lines 298-307. */
  const Psr0RegistrationText: string :=
    "\t\t$map = require $dir.'/autoload_namespaces_52.php';\n"
    + "\t\tforeach ($map as $namespace => $path) {\n"
    + "\t\t\t$loader->add($namespace, $path);\n"
    + "\t\t}\n\n"

  /** Lines 309-318. */
  const ClassMapRegistrationText: string :=
    "\t\t$classMap = require $dir.'/autoload_classmap_52.php';\n"
    + "\t\tif ($classMap) {\n"
    + "\t\t\t$loader->addClassMap($classMap);\n"
    + "\t\t}\n\n"

  /** Lines 320-327: the target-dir fallback is registered after the loader's own lookups are set up. */
  function TargetDirHookText(suffix: string): string {
    "\t\tspl_autoload_register(array('" + LoaderClass(suffix) + "', 'autoload'));\n\n"
  }

  /** Lines 329-335: register the loader (then require the `files`) and return it. */
  function MethodFooterText(filesCode: string): string {
    "\t\t$loader->register();" + filesCode + "\n\n\t\treturn $loader;\n\t}\n"
  }

  const ClassFooterText: string := "}\n"

  /** The texts of the blocks, whether or not a given file uses them. */
  datatype Blocks = Blocks(header: string, includePathSetup: string, psr0Registration: string,
                           classMapRegistration: string, targetDirHook: string, methodFooter: string,
                           targetDirMethod: string, classFooter: string)

  /** The blocks of the real file for one run of the generator. */
  function RealFileBlocks(targetDirLoader: string, filesCode: string, codes: PathCodes, suffix: string): Blocks {
    Blocks(HeaderText(suffix, codes), IncludePathSetupText, Psr0RegistrationText, ClassMapRegistrationText,
           TargetDirHookText(suffix), MethodFooterText(SplicedFilesCode(filesCode)), targetDirLoader, ClassFooterText)
  }

  function SectionTexts(sections: seq<Section>): (texts: seq<string>)
    ensures |texts| == |sections|
    ensures forall i :: 0 <= i < |sections| ==> texts[i] == sections[i].text
  {
    seq(|sections|, i requires 0 <= i < |sections| => sections[i].text)
  }

  function Kinds(sections: seq<Section>): (kinds: seq<SectionKind>)
    ensures |kinds| == |sections|
    ensures forall i :: 0 <= i < |sections| ==> kinds[i] == sections[i].kind
  {
    seq(|sections|, i requires 0 <= i < |sections| => sections[i].kind)
  }

  /** The file made of the given sections, one after the other. */
  function Render(sections: seq<Section>): string {
    Concat(SectionTexts(sections))
  }

  lemma RenderAppend(sections: seq<Section>, section: Section)
    ensures Render(sections + [section]) == Render(sections) + section.text
  {
    var texts := SectionTexts(sections + [section]);
    assert texts[..|sections|] == SectionTexts(sections);
    assert texts[|sections|] == section.text;
  }

  lemma RenderFirst(section: Section)
    ensures Render([section]) == section.text
  {
    RenderAppend([], section);
    assert [] + [section] == [section];
  }

  /**
   * Lines 251-253: a PHP-true files code is moved two lines down and loses its
   * trailing whitespace; a PHP-false one is kept as it is.
   */
  function SplicedFilesCode(filesCode: string): (spliced: string)
    ensures !Truthy(filesCode) ==> spliced == filesCode
    ensures Truthy(filesCode) ==>
      && 2 <= |spliced| <= |filesCode| + 2 && spliced[..2] == "\n\n"
      && (forall i :: 2 <= i < |spliced| ==> spliced[i] == filesCode[i - 2])
      && (forall i :: |spliced| - 2 <= i < |filesCode| ==> filesCode[i] in Whitespace)
    ensures Truthy(filesCode) && |spliced| > 2 ==> spliced[|spliced| - 1] !in Whitespace
  {
    if Truthy(filesCode) then "\n\n" + TrimRight(filesCode, Whitespace) else filesCode
  }

  /** An optional section: present when its flag is set. */
  function Optional(flag: bool, section: Section): seq<Section> {
    if flag then [section] else []
  }

  /**
   * The sections of the file: the header, the set-up blocks whose flags are
   * set, the hook when there is a target-dir loader, and the closing blocks.
   */
  function Sections(usePsr0: bool, useClassMap: bool, useIncludePath: bool, useHook: bool, b: Blocks): seq<Section> {
    [Section(Header, b.header)]
    + Optional(useIncludePath, Section(IncludePathSetup, b.includePathSetup))
    + Optional(usePsr0, Section(Psr0Registration, b.psr0Registration))
    + Optional(useClassMap, Section(ClassMapRegistration, b.classMapRegistration))
    + Optional(useHook, Section(TargetDirHook, b.targetDirHook))
    + [Section(MethodFooter, b.methodFooter)]
    + [Section(TargetDirMethod, b.targetDirMethod)]
    + [Section(ClassFooter, b.classFooter)]
  }

  /**
   * The text of autoload_real_52.php that `getAutoloadRealFile` returns: whatever
   * it wires in, a PHP file that defines `ComposerAutoloaderInit<suffix>` and
   * closes it.
   */
  function RealFile(usePsr0: bool, useClassMap: bool, useIncludePath: bool, targetDirLoader: string,
                    filesCode: string, codes: PathCodes, suffix: string): (file: string)
    ensures StartsWith(file, PhpOpenTag)
    ensures Contains(file, ClassLine(suffix))
    ensures EndsWith(file, ClassFooterText)
  {
    var b := RealFileBlocks(targetDirLoader, filesCode, codes, suffix);
    var sections := Sections(usePsr0, useClassMap, useIncludePath, Truthy(targetDirLoader), b);
    SectionsFrame(usePsr0, useClassMap, useIncludePath, Truthy(targetDirLoader), b);
    ConcatEnds(SectionTexts(sections));
    HeaderShape(suffix, codes);
    StartsWithHeader(Render(sections), b.header, PhpOpenTag, ClassLine(suffix));
    Render(sections)
  }

  /**
   * The file opens with the header and closes with the footer of `getLoader`,
   * the target-dir `autoload` method (possibly empty) and the class footer.
   */
  lemma SectionsFrame(usePsr0: bool, useClassMap: bool, useIncludePath: bool, useHook: bool, b: Blocks)
    ensures var sections := Sections(usePsr0, useClassMap, useIncludePath, useHook, b);
      && |sections| >= 4 && sections[0] == Section(Header, b.header)
      && sections[|sections| - 3] == Section(MethodFooter, b.methodFooter)
      && sections[|sections| - 2] == Section(TargetDirMethod, b.targetDirMethod)
      && sections[|sections| - 1] == Section(ClassFooter, b.classFooter)
  {
  }

  lemma KindsAppend(a: seq<Section>, b: seq<Section>)
    ensures Kinds(a + b) == Kinds(a) + Kinds(b)
  {
  }

  /** Each optional block is present exactly when its condition holds. */
  function OptionalKind(flag: bool, kind: SectionKind): seq<SectionKind> {
    if flag then [kind] else []
  }

  lemma KindsOptional(flag: bool, section: Section)
    ensures Kinds(Optional(flag, section)) == OptionalKind(flag, section.kind)
  {
  }

  lemma KindsSingle(section: Section)
    ensures Kinds([section]) == [section.kind]
  {
  }

  /** The kinds of the sections, spelled out block by block. */
  lemma SectionsKinds(usePsr0: bool, useClassMap: bool, useIncludePath: bool, useHook: bool, b: Blocks)
    ensures Kinds(Sections(usePsr0, useClassMap, useIncludePath, useHook, b))
         == [Header] + OptionalKind(useIncludePath, IncludePathSetup) + OptionalKind(usePsr0, Psr0Registration)
            + OptionalKind(useClassMap, ClassMapRegistration) + OptionalKind(useHook, TargetDirHook)
            + [MethodFooter] + [TargetDirMethod] + [ClassFooter]
  {
    var s0 := [Section(Header, b.header)];
    var o1 := Optional(useIncludePath, Section(IncludePathSetup, b.includePathSetup));
    var o2 := Optional(usePsr0, Section(Psr0Registration, b.psr0Registration));
    var o3 := Optional(useClassMap, Section(ClassMapRegistration, b.classMapRegistration));
    var o4 := Optional(useHook, Section(TargetDirHook, b.targetDirHook));
    var t1 := [Section(MethodFooter, b.methodFooter)];
    var t2 := [Section(TargetDirMethod, b.targetDirMethod)];
    var t3 := [Section(ClassFooter, b.classFooter)];
    KindsAppend(s0, o1);
    KindsAppend(s0 + o1, o2);
    KindsAppend(s0 + o1 + o2, o3);
    KindsAppend(s0 + o1 + o2 + o3, o4);
    KindsAppend(s0 + o1 + o2 + o3 + o4, t1);
    KindsAppend(s0 + o1 + o2 + o3 + o4 + t1, t2);
    KindsAppend(s0 + o1 + o2 + o3 + o4 + t1 + t2, t3);
    KindsSingle(s0[0]);
    KindsOptional(useIncludePath, Section(IncludePathSetup, b.includePathSetup));
    KindsOptional(usePsr0, Section(Psr0Registration, b.psr0Registration));
    KindsOptional(useClassMap, Section(ClassMapRegistration, b.classMapRegistration));
    KindsOptional(useHook, Section(TargetDirHook, b.targetDirHook));
    KindsSingle(t1[0]);
    KindsSingle(t2[0]);
    KindsSingle(t3[0]);
  }

  lemma SectionsPresence(usePsr0: bool, useClassMap: bool, useIncludePath: bool, useHook: bool, b: Blocks)
    ensures var kinds := Kinds(Sections(usePsr0, useClassMap, useIncludePath, useHook, b));
      && (IncludePathSetup in kinds <==> useIncludePath)
      && (Psr0Registration in kinds <==> usePsr0)
      && (ClassMapRegistration in kinds <==> useClassMap)
      && (TargetDirHook in kinds <==> useHook)
  {
    SectionsKinds(usePsr0, useClassMap, useIncludePath, useHook, b);
  }


  /** The sections are in the order of their kinds, each kind at most once. */
  ghost predicate Ordered(sections: seq<Section>) {
    forall i, j :: 0 <= i < j < |sections| ==> Rank(sections[i].kind) < Rank(sections[j].kind)
  }

  lemma OrderedJoin(a: seq<Section>, b: seq<Section>)
    requires Ordered(a) && Ordered(b)
    requires forall i, j :: 0 <= i < |a| && 0 <= j < |b| ==> Rank(a[i].kind) < Rank(b[j].kind)
    ensures Ordered(a + b)
  {
  }

  lemma OrderedOptional(a: seq<Section>, flag: bool, section: Section)
    requires Ordered(a)
    requires forall i :: 0 <= i < |a| ==> Rank(a[i].kind) < Rank(section.kind)
    ensures Ordered(a + Optional(flag, section))
    ensures forall i :: 0 <= i < |a + Optional(flag, section)| ==> Rank((a + Optional(flag, section))[i].kind) <= Rank(section.kind)
  {
    OrderedJoin(a, Optional(flag, section));
  }

  /** Whatever the flags, the blocks of the real file come in one fixed order. */
  lemma SectionsOrdered(usePsr0: bool, useClassMap: bool, useIncludePath: bool, useHook: bool, b: Blocks)
    ensures Ordered(Sections(usePsr0, useClassMap, useIncludePath, useHook, b))
  {
    var s0 := [Section(Header, b.header)];
    OrderedOptional(s0, useIncludePath, Section(IncludePathSetup, b.includePathSetup));
    var s1 := s0 + Optional(useIncludePath, Section(IncludePathSetup, b.includePathSetup));
    OrderedOptional(s1, usePsr0, Section(Psr0Registration, b.psr0Registration));
    var s2 := s1 + Optional(usePsr0, Section(Psr0Registration, b.psr0Registration));
    OrderedOptional(s2, useClassMap, Section(ClassMapRegistration, b.classMapRegistration));
    var s3 := s2 + Optional(useClassMap, Section(ClassMapRegistration, b.classMapRegistration));
    OrderedOptional(s3, useHook, Section(TargetDirHook, b.targetDirHook));
    var s4 := s3 + Optional(useHook, Section(TargetDirHook, b.targetDirHook));
    OrderedJoin(s4, [Section(MethodFooter, b.methodFooter)]);
    OrderedJoin(s4 + [Section(MethodFooter, b.methodFooter)], [Section(TargetDirMethod, b.targetDirMethod)]);
    OrderedJoin(s4 + [Section(MethodFooter, b.methodFooter)] + [Section(TargetDirMethod, b.targetDirMethod)],
                [Section(ClassFooter, b.classFooter)]);
  }

  lemma RenderOptional(sections: seq<Section>, flag: bool, section: Section)
    ensures Render(sections + Optional(flag, section)) == Render(sections) + (if flag then section.text else "")
  {
    if flag {
      RenderAppend(sections, section);
    } else {
      assert sections + Optional(flag, section) == sections;
    }
  }

  /** `if ($flag) { $file .= $block; }` */
  method AppendIf(file: string, flag: bool, block: string) returns (extended: string)
    ensures extended == file + (if flag then block else "")
  {
    extended := file;
    if flag {
      extended := extended + block;
    }
  }

  /** Lines 255-342: the file grows by `.=`, block by block, the set-up blocks under their flags. */
  method AssembleRealFile(usePsr0: bool, useClassMap: bool, useIncludePath: bool, useHook: bool, b: Blocks)
    returns (file: string)
    ensures file == Render(Sections(usePsr0, useClassMap, useIncludePath, useHook, b))
  {
    ghost var sections := [Section(Header, b.header)];
    RenderFirst(sections[0]);
    file := b.header;
    RenderOptional(sections, useIncludePath, Section(IncludePathSetup, b.includePathSetup));
    file := AppendIf(file, useIncludePath, b.includePathSetup);
    sections := sections + Optional(useIncludePath, Section(IncludePathSetup, b.includePathSetup));
    RenderOptional(sections, usePsr0, Section(Psr0Registration, b.psr0Registration));
    file := AppendIf(file, usePsr0, b.psr0Registration);
    sections := sections + Optional(usePsr0, Section(Psr0Registration, b.psr0Registration));
    RenderOptional(sections, useClassMap, Section(ClassMapRegistration, b.classMapRegistration));
    file := AppendIf(file, useClassMap, b.classMapRegistration);
    sections := sections + Optional(useClassMap, Section(ClassMapRegistration, b.classMapRegistration));
    RenderOptional(sections, useHook, Section(TargetDirHook, b.targetDirHook));
    file := AppendIf(file, useHook, b.targetDirHook);
    sections := sections + Optional(useHook, Section(TargetDirHook, b.targetDirHook));
    RenderAppend(sections, Section(MethodFooter, b.methodFooter));
    file := file + b.methodFooter;
    sections := sections + [Section(MethodFooter, b.methodFooter)];
    RenderAppend(sections, Section(TargetDirMethod, b.targetDirMethod));
    file := file + b.targetDirMethod;
    sections := sections + [Section(TargetDirMethod, b.targetDirMethod)];
    RenderAppend(sections, Section(ClassFooter, b.classFooter));
    file := file + b.classFooter;
    sections := sections + [Section(ClassFooter, b.classFooter)];
  }

  /** `getAutoloadRealFile`: the blocks (with the files code spliced in as lines 251-253 do) assembled in order. */
  method GetAutoloadRealFile(usePsr0: bool, useClassMap: bool, useIncludePath: bool, targetDirLoader: string,
                             filesCode: string, codes: PathCodes, suffix: string) returns (file: string)
    ensures file == RealFile(usePsr0, useClassMap, useIncludePath, targetDirLoader, filesCode, codes, suffix)
  {
    file := AssembleRealFile(usePsr0, useClassMap, useIncludePath, Truthy(targetDirLoader),
                             RealFileBlocks(targetDirLoader, filesCode, codes, suffix));
  }

  /** Every section's text is part of the rendered file. */
  lemma RenderContains(sections: seq<Section>, section: Section)
    requires section in sections
    ensures Contains(Render(sections), section.text)
  {
    var k :| 0 <= k < |sections| && sections[k] == section;
    ConcatContains(SectionTexts(sections), k);
  }

  /** A text that starts with a header starts with everything the header starts with and contains. */
  lemma StartsWithHeader(file: string, header: string, prefix: string, inner: string)
    requires StartsWith(file, header) && StartsWith(header, prefix) && Contains(header, inner)
    ensures StartsWith(file, prefix) && Contains(file, inner)
  {
    assert file == header + file[|header|..];
    ContainsAppend(header, file[|header|..], inner);
  }

  /** The header opens the PHP file and the bootstrap class. */
  lemma HeaderShape(suffix: string, codes: PathCodes)
    ensures StartsWith(HeaderText(suffix, codes), PhpOpenTag)
    ensures Contains(HeaderText(suffix, codes), ClassLine(suffix))
  {
    ContainsMiddle(RealFileOpening, ClassLine(suffix), LoaderPrologue(suffix, codes));
    RealFileOpensPhp();
    StartsWithAppend(RealFileOpening, ClassLine(suffix), PhpOpenTag);
    StartsWithAppend(RealFileOpening + ClassLine(suffix), LoaderPrologue(suffix, codes), PhpOpenTag);
  }

  lemma RealFileOpensPhp()
    ensures StartsWith(RealFileOpening, PhpOpenTag)
  {
    var rest := "\n// autoload_real_52.php generated by xrstf/composer-php52\n\n";
    assert PhpOpenTag[..|PhpOpenTag|] == PhpOpenTag;
    StartsWithAppend(PhpOpenTag, rest, PhpOpenTag);
  }

  /** The rendered file starts with the header's text, ends with the class footer's, and holds every block it has. */
  lemma RenderedShape(usePsr0: bool, useClassMap: bool, useIncludePath: bool, useHook: bool, b: Blocks)
    ensures var file := Render(Sections(usePsr0, useClassMap, useIncludePath, useHook, b));
      && StartsWith(file, b.header)
      && EndsWith(file, b.classFooter)
      && (useIncludePath ==> Contains(file, b.includePathSetup))
      && (usePsr0 ==> Contains(file, b.psr0Registration))
      && (useClassMap ==> Contains(file, b.classMapRegistration))
      && (useHook ==> Contains(file, b.targetDirHook))
      && Contains(file, b.methodFooter)
      && Contains(file, b.targetDirMethod)
  {
    var sections := Sections(usePsr0, useClassMap, useIncludePath, useHook, b);
    SectionsFrame(usePsr0, useClassMap, useIncludePath, useHook, b);
    ConcatEnds(SectionTexts(sections));
    if useIncludePath {
      RenderContains(sections, Section(IncludePathSetup, b.includePathSetup));
    }
    if usePsr0 {
      RenderContains(sections, Section(Psr0Registration, b.psr0Registration));
    }
    if useClassMap {
      RenderContains(sections, Section(ClassMapRegistration, b.classMapRegistration));
    }
    if useHook {
      RenderContains(sections, Section(TargetDirHook, b.targetDirHook));
    }
    RenderContains(sections, sections[|sections| - 3]);
    RenderContains(sections, sections[|sections| - 2]);
  }

  /**
   * The real file is a PHP file that defines the class autoload_52.php calls
   * and closes it, and wires in the include paths, the namespace map, the class
   * map and the target-dir fallback when asked to.
   */
  lemma RealFileShape(usePsr0: bool, useClassMap: bool, useIncludePath: bool, targetDirLoader: string,
                      filesCode: string, codes: PathCodes, suffix: string)
    ensures var file := RealFile(usePsr0, useClassMap, useIncludePath, targetDirLoader, filesCode, codes, suffix);
      && StartsWith(file, PhpOpenTag)
      && Contains(file, ClassLine(suffix))
      && EndsWith(file, ClassFooterText)
      && (useIncludePath ==> Contains(file, IncludePathSetupText))
      && (usePsr0 ==> Contains(file, Psr0RegistrationText))
      && (useClassMap ==> Contains(file, ClassMapRegistrationText))
      && (Truthy(targetDirLoader) ==> Contains(file, TargetDirHookText(suffix)))
      && Contains(file, targetDirLoader)
      && Contains(file, MethodFooterText(SplicedFilesCode(filesCode)))
  {
    var b := RealFileBlocks(targetDirLoader, filesCode, codes, suffix);
    RenderedShape(usePsr0, useClassMap, useIncludePath, Truthy(targetDirLoader), b);
  }

  /**
   * With `files` to require, the spliced code is the generated `require` lines
   * two lines down, minus only their final newline.
   */
  lemma SplicedFilesCodeDropsFinalNewline(env: Env, files: seq<Nested>)
    requires Flatten(files) != []
    ensures var code := FilesCode.FilesCode(env, files);
      |code| >= 1 && SplicedFilesCode(code) == "\n\n" + code[..|code| - 1]
  {
    var code := FilesCode.FilesCode(env, files);
    FilesCode.FilesCodeEmpty(env, files);
    EndsWithSemicolonNewline(code);
    TrimRightFinalNewline(code);
    assert SplicedFilesCode(code) == "\n\n" + TrimRight(code, Whitespace);
  }

  lemma EndsWithSemicolonNewline(code: string)
    requires EndsWith(code, ";\n")
    ensures |code| >= 2 && code[|code| - 1] == '\n' && code[|code| - 2] == ';'
  {
    assert code[|code| - 2..][1] == code[|code| - 1];
    assert code[|code| - 2..][0] == code[|code| - 2];
  }

  lemma TrimRightFinalNewline(code: string)
    requires |code| >= 2 && code[|code| - 1] == '\n' && code[|code| - 2] == ';'
    ensures TrimRight(code, Whitespace) == code[..|code| - 1]
  {
    var shorter := code[..|code| - 1];
    assert shorter[|shorter| - 1] == ';';
    assert ';' !in Whitespace && '\n' in Whitespace;
  }

  /** Without `files`, `register()` is followed directly by the blank line and the `return`. */
  lemma NoFilesNothingSpliced(env: Env, files: seq<Nested>)
    requires Flatten(files) == []
    ensures MethodFooterText(SplicedFilesCode(FilesCode.FilesCode(env, files)))
      == "\t\t$loader->register();\n\n\t\treturn $loader;\n\t}\n"
  {
    FilesCode.FilesCodeEmpty(env, files);
    assert SplicedFilesCode(FilesCode.FilesCode(env, files)) == "";
  }
}
