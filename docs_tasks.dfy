/**
 * The path computations of the `copyMarkdownDocs` Gradle task: where each
 * project's Markdown documentation is copied under `docs/markdown`, which
 * files are copied and under which relative path, where a project README is
 * copied, and the literal rewrite of local documentation links. The file
 * system itself (existence tests, deletion, copying, walking directories,
 * canonical paths) is not modelled: what the task reads from it arrives as
 * parameters.
 */
module DocsTasks {
  import opened Wrappers
  import opened KotlinText
  import opened JavaIo

  /** A Gradle project as the task sees it: its path (`:packages:plugin-facebook`),
      its name, and whether it is the root project. */
  datatype Project = Project(path: string, name: string, isRoot: bool)

  /** A file met while walking a project's `docs` directory top-down. */
  datatype WalkEntry = WalkEntry(path: string, isFile: bool, canonicalPath: string)

  /** One planned copy: the source file's path and where it is copied to. */
  datatype Copy = Copy(source: string, destination: FilePath)

  const PackagesDir := "packages"
  const DestDirPrefix := "_"
  const ReadmeCopyName := "_README_ORIGINAL.md"
  const MarkdownExtension := "md"
  const LocalDocsLink := "./docs/"
  const ParentLink := "../"

  /** `prefixFilename(prefix, file)`: the file named `prefix + name` in the
      same parent directory. */
  function PrefixFilename(prefix: string, file: FilePath): FilePath
  {
    ResolveString(ParentPath(file), prefix + Name(file))
  }

  /** The root of the generated Markdown tree: `<root>/docs/markdown`. */
  function MarkdownDocsOutputDirBase(rootDir: FilePath): FilePath
  {
    Resolve(Some(Resolve(Some(rootDir), "docs")), "markdown")
  }

  /** The non-empty components of a project path split on `:`. */
  function PathParts(path: string): seq<string>
  {
    DropEmpty(Split(path, ':'))
  }

  /** Where under the Markdown tree a project's documents go: the components
      after the component `packages` when the path mentions `packages` and has
      several components; otherwise the last component; the project name when
      the path has no component at all. */
  function DestPathTreeFragment(project: Project): string
  {
    var parts := PathParts(project.path);
    if |parts| > 0 then
      if Contains(project.path, PackagesDir) && |parts| != 1 then
        Join(Slice(parts, IndexOfElement(parts, PackagesDir) + 1, |parts| - 1), "/")
      else
        Last(parts)
    else
      project.name
  }

  /** The directory a project's documents are copied into: the base directory
      for the root project, `base/<fragment>` with `_` prepended to its last
      name for every other project. */
  function ProjectDocsDestDir(project: Project, base: FilePath): FilePath
  {
    if project.isRoot then base
    else PrefixFilename(DestDirPrefix, Resolve(Some(base), DestPathTreeFragment(project)))
  }

  /** `File.extension`: what follows the last `.` of the name, or `""`. */
  function Extension(f: FilePath): string
  {
    SubstringAfterLast(Name(f), '.', "")
  }

  /** The walk filter: a file, with extension `md` in any case, that does not
      lie (by canonical path prefix) in the documentation output directory. */
  predicate IsMarkdownSource(e: WalkEntry, docsOutputCanonicalPath: string)
  {
    e.isFile
    && EqualsIgnoreCase(Extension(FromString(e.path)), MarkdownExtension)
    && !StartsWith(e.canonicalPath, docsOutputCanonicalPath)
  }

  /** The walk's Markdown files, in walk order. */
  function SelectMarkdown(entries: seq<WalkEntry>, docsOutputCanonicalPath: string): (r: seq<WalkEntry>)
    ensures |r| <= |entries|
    ensures forall e :: e in r <==> e in entries && IsMarkdownSource(e, docsOutputCanonicalPath)
  {
    if |entries| == 0 then []
    else
      var rest := SelectMarkdown(entries[1..], docsOutputCanonicalPath);
      if IsMarkdownSource(entries[0], docsOutputCanonicalPath) then [entries[0]] + rest else rest
  }

  /** The walk filter keeps the walk order: filtering a concatenation of
      walks concatenates the filtered parts. */
  lemma {:induction false} SelectMarkdownAppend(a: seq<WalkEntry>, b: seq<WalkEntry>, docsOutputCanonicalPath: string)
    ensures SelectMarkdown(a + b, docsOutputCanonicalPath)
      == SelectMarkdown(a, docsOutputCanonicalPath) + SelectMarkdown(b, docsOutputCanonicalPath)
    decreases |a|
  {
    if |a| > 0 {
      assert (a + b)[1..] == a[1..] + b;
      SelectMarkdownAppend(a[1..], b, docsOutputCanonicalPath);
    } else {
      assert a + b == b;
    }
  }

  /** `"<project name>/docs/"`, the path component the copy strips. */
  function DocsMarker(projectName: string): string
  {
    projectName + "/docs/"
  }

  /** A Markdown file's path relative to the destination directory: the slice
      of its path that follows the first `<project name>/docs/`. */
  function RelativePathInProject(srcPath: string, projectName: string): string
  {
    var marker := DocsMarker(projectName);
    Slice(srcPath, IndexOf(srcPath, marker) + |marker|, |srcPath| - 1)
  }

  /** The copies of the given Markdown files into `destDir`, in order. */
  function MarkdownCopies(project: Project, destDir: FilePath, mdFiles: seq<WalkEntry>): seq<Copy>
  {
    seq(|mdFiles|, k requires 0 <= k < |mdFiles| =>
      Copy(mdFiles[k].path, Resolve(Some(destDir), RelativePathInProject(mdFiles[k].path, project.name))))
  }

  /** Every copy the task makes of a project's documentation walk. */
  function MarkdownCopyPlan(project: Project, destDir: FilePath, entries: seq<WalkEntry>,
                            docsOutputCanonicalPath: string): seq<Copy>
  {
    MarkdownCopies(project, destDir, SelectMarkdown(entries, docsOutputCanonicalPath))
  }

  /** Where a project's README is copied, if it is copied at all: only when it
      exists and the project is not the root. */
  function ReadmeCopyDestination(project: Project, destDir: FilePath, readmeExists: bool): Option<FilePath>
  {
    if readmeExists && !project.isRoot then Some(Resolve(Some(destDir), ReadmeCopyName)) else None
  }

  /** The literal rewrite of local documentation links in a copied README. */
  function RewriteLocalDocsLinks(text: string): string
  {
    Replace(text, LocalDocsLink, ParentLink)
  }

  // ---------------------------------------------------------------------
  // prefixFilename
  // ---------------------------------------------------------------------

  /** `prefixFilename` keeps the parent and renames the file to `prefix + name`. */
  lemma {:induction false} PrefixFilenameKeepsParent(prefix: string, file: FilePath)
    requires Valid(file) && |file.names| > 0 && '/' !in prefix
    ensures PrefixFilename(prefix, file)
      == FilePath(file.absolute, file.names[..|file.names| - 1] + [prefix + Name(file)])
    ensures Parent(PrefixFilename(prefix, file)) == Parent(file)
    ensures Name(PrefixFilename(prefix, file)) == prefix + Name(file)
  {
    var n := prefix + Name(file);
    assert ValidName(Name(file));
    assert ValidName(n);
    NamesOfSingleName(n);
    ResolveAgainstParentPath(file, n);
    var r := PrefixFilename(prefix, file);
    assert r.names[..|r.names| - 1] == file.names[..|file.names| - 1];
  }

  // ---------------------------------------------------------------------
  // The path fragment
  // ---------------------------------------------------------------------

  /** Joining empty pieces leaves only separators. */
  lemma {:induction false} JoinOfEmptyPieces(pieces: seq<string>, sep: char)
    requires forall i :: 0 <= i < |pieces| ==> pieces[i] == ""
    ensures forall i :: 0 <= i < |Join(pieces, [sep])| ==> Join(pieces, [sep])[i] == sep
  {
    if |pieces| > 1 {
      JoinOfEmptyPieces(pieces[1..], sep);
    }
  }

  /** A project path has no components exactly when it consists of `:` only
      (the root project's `:`, for one). */
  lemma {:induction false} PathPartsEmptyIff(path: string)
    ensures PathParts(path) == [] <==> forall i :: 0 <= i < |path| ==> path[i] == ':'
  {
    var pieces := Split(path, ':');
    if forall i :: 0 <= i < |path| ==> path[i] == ':' {
      forall x | x in pieces ensures x == "" {
        SplitPieceOccurs(path, ':', x);
        var k := IndexOf(path, x);
        assert x == path[k..k + |x|];
      }
      forall i | 0 <= i < |pieces| ensures pieces[i] == "" {
        assert pieces[i] in pieces;
      }
      DropEmptyOfEmpties(pieces);
    } else {
      if PathParts(path) == [] {
        forall i | 0 <= i < |pieces| ensures pieces[i] == "" {
          assert pieces[i] in pieces;
        }
        JoinOfEmptyPieces(pieces, ':');
        JoinSplit(path, ':');
      }
    }
  }

  /** A path of `:` only falls back to the project's name. */
  lemma {:induction false} FragmentOfRootPath(project: Project)
    requires forall i :: 0 <= i < |project.path| ==> project.path[i] == ':'
    ensures DestPathTreeFragment(project) == project.name
  {
    PathPartsEmptyIff(project.path);
  }

  /** With a component equal to `packages` among several components, the
      fragment is the components after its first occurrence, joined by `/`. */
  lemma {:induction false} FragmentAfterPackages(project: Project)
    requires |PathParts(project.path)| >= 2
    requires IndexOfElement(PathParts(project.path), PackagesDir) >= 0
    ensures var parts := PathParts(project.path);
      DestPathTreeFragment(project) == Join(parts[IndexOfElement(parts, PackagesDir) + 1..], "/")
  {
    var parts := PathParts(project.path);
    assert PackagesDir in Split(project.path, ':');
    SplitPieceOccurs(project.path, ':', PackagesDir);
    var i := IndexOfElement(parts, PackagesDir);
    assert Slice(parts, i + 1, |parts| - 1) == parts[i + 1..];
  }

  /** `packages` as the only occurrence and the last component: the fragment
      is empty. */
  lemma {:induction false} FragmentPackagesLast(project: Project)
    requires |PathParts(project.path)| >= 2
    requires IndexOfElement(PathParts(project.path), PackagesDir) == |PathParts(project.path)| - 1
    ensures DestPathTreeFragment(project) == ""
  {
    FragmentAfterPackages(project);
  }

  /** `packages` only inside a longer component (the substring test holds,
      the element lookup finds nothing): every component is kept. */
  lemma {:induction false} FragmentPackagesSubstringOnly(project: Project)
    requires |PathParts(project.path)| >= 2
    requires Contains(project.path, PackagesDir)
    requires PackagesDir !in PathParts(project.path)
    ensures DestPathTreeFragment(project) == Join(PathParts(project.path), "/")
  {
    var parts := PathParts(project.path);
    assert Slice(parts, 0, |parts| - 1) == parts;
  }

  /** A single component, or a path without `packages`: the last component. */
  lemma {:induction false} FragmentLastPart(project: Project)
    requires |PathParts(project.path)| >= 1
    requires |PathParts(project.path)| == 1 || !Contains(project.path, PackagesDir)
    ensures DestPathTreeFragment(project) == Last(PathParts(project.path))
  {
  }

  // ---------------------------------------------------------------------
  // The destination directory
  // ---------------------------------------------------------------------

  /** The root project's documents go straight into the base directory. */
  lemma {:induction false} RootDestination(project: Project, base: FilePath)
    requires project.isRoot
    ensures ProjectDocsDestDir(project, base) == base
  {
  }

  /** Any other project's documents go into `base/<fragment>`, its last name
      prefixed with `_`. */
  lemma {:induction false} NonRootDestination(project: Project, base: FilePath)
    requires !project.isRoot && Valid(base) && base != EmptyPath
    requires |NamesOf(DestPathTreeFragment(project))| > 0
    ensures var fn := NamesOf(DestPathTreeFragment(project));
      ProjectDocsDestDir(project, base)
      == FilePath(base.absolute, base.names + fn[..|fn| - 1] + [DestDirPrefix + Last(fn)])
  {
    var fn := NamesOf(DestPathTreeFragment(project));
    var d := Resolve(Some(base), DestPathTreeFragment(project));
    assert d == FilePath(base.absolute, base.names + fn);
    PrefixFilenameKeepsParent(DestDirPrefix, d);
    assert d.names[..|d.names| - 1] == base.names + fn[..|fn| - 1];
  }

  /** A fragment with no names (`packages` as the last component) makes the
      destination a sibling of the base directory: `_markdown` beside `markdown`. */
  lemma {:induction false} EmptyFragmentDestination(project: Project, base: FilePath)
    requires !project.isRoot && Valid(base) && |base.names| > 0
    requires NamesOf(DestPathTreeFragment(project)) == []
    ensures ProjectDocsDestDir(project, base)
      == FilePath(base.absolute, base.names[..|base.names| - 1] + [DestDirPrefix + Last(base.names)])
  {
    var d := Resolve(Some(base), DestPathTreeFragment(project));
    assert d == base;
    PrefixFilenameKeepsParent(DestDirPrefix, base);
  }

  /** The path of a package project: `:packages:<child>`. */
  function PackagePath(child: string): string
  {
    ":" + PackagesDir + ":" + child
  }

  /** `:packages:<child>` is the join of `""`, `packages` and `<child>` by `:`. */
  lemma {:induction false} PackagePathJoin(child: string)
    ensures Join(["", PackagesDir, child], [':']) == PackagePath(child)
  {
    var pieces := ["", PackagesDir, child];
    assert pieces[1..] == [PackagesDir, child];
    assert pieces[1..][1..] == [child];
    assert Join(pieces[1..], [':']) == PackagesDir + [':'] + child;
  }

  /** `:packages:<child>` has the two components `packages` and `<child>`. */
  lemma {:induction false} PackagePathParts(child: string)
    requires child != "" && ':' !in child
    ensures PathParts(PackagePath(child)) == [PackagesDir, child]
  {
    var pieces := ["", PackagesDir, child];
    PackagePathJoin(child);
    assert forall i :: 0 <= i < |PackagesDir| ==> PackagesDir[i] != ':';
    SplitJoin(pieces, ':');
    assert pieces[1..] == [PackagesDir, child];
    assert pieces[1..][1..] == [child];
    assert [child][1..] == [];
    assert DropEmpty([child]) == [child];
    assert DropEmpty(pieces[1..]) == [PackagesDir] + DropEmpty([child]);
    assert DropEmpty(pieces) == DropEmpty(pieces[1..]);
  }

  /** A package project `:packages:<child>` is documented under the fragment
      `<child>`; `:packages:plugin-facebook` under `plugin-facebook`. */
  lemma {:induction false} PackageFragment(child: string, name: string)
    requires child != "" && ':' !in child
    ensures DestPathTreeFragment(Project(PackagePath(child), name, false)) == child
  {
    var p := Project(PackagePath(child), name, false);
    PackagePathParts(child);
    assert IndexOfElement([PackagesDir, child], PackagesDir) == 0;
    FragmentAfterPackages(p);
    assert [PackagesDir, child][1..] == [child];
  }

  /** A package project `:packages:<child>` is documented in `base/_<child>`;
      `:packages:plugin-facebook` in `base/_plugin-facebook`. */
  lemma {:induction false} PackageDestination(child: string, name: string, base: FilePath)
    requires child != "" && ':' !in child && '/' !in child
    requires Valid(base) && base != EmptyPath
    ensures ProjectDocsDestDir(Project(PackagePath(child), name, false), base)
      == FilePath(base.absolute, base.names + [DestDirPrefix + child])
  {
    var p := Project(PackagePath(child), name, false);
    PackageFragment(child, name);
    NamesOfSingleName(child);
    NonRootDestination(p, base);
  }

  /** Two single names resolved one under the other extend the path by both. */
  lemma {:induction false} ResolveTwoNames(dir: FilePath, a: string, b: string)
    requires Valid(dir) && dir != EmptyPath && ValidName(a) && ValidName(b)
    ensures Resolve(Some(Resolve(Some(dir), a)), b) == FilePath(dir.absolute, dir.names + [a, b])
    ensures Valid(Resolve(Some(Resolve(Some(dir), a)), b))
  {
    ResolveName(dir, a);
    ResolveName(Resolve(Some(dir), a), b);
    assert dir.names + [a] + [b] == dir.names + [a, b];
  }

  /** `docs` and `markdown` are single names. */
  lemma {:induction false} OutputDirNamesValid()
    ensures ValidName("docs") && ValidName("markdown")
  {
    assert forall i :: 0 <= i < |"docs"| ==> "docs"[i] != '/';
    assert forall i :: 0 <= i < |"markdown"| ==> "markdown"[i] != '/';
  }

  /** `docs/markdown` under the root project's directory. */
  lemma {:induction false} MarkdownOutputDir(rootDir: FilePath)
    requires Valid(rootDir) && rootDir != EmptyPath
    ensures MarkdownDocsOutputDirBase(rootDir) == FilePath(rootDir.absolute, rootDir.names + ["docs", "markdown"])
    ensures Valid(MarkdownDocsOutputDirBase(rootDir))
  {
    OutputDirNamesValid();
    ResolveTwoNames(rootDir, "docs", "markdown");
  }

  /** A package project `:packages:<child>` is documented in
      `<root>/docs/markdown/_<child>`. */
  lemma {:induction false} PackageDocsDir(child: string, name: string, rootDir: FilePath)
    requires child != "" && ':' !in child && '/' !in child
    requires Valid(rootDir) && rootDir != EmptyPath
    ensures ProjectDocsDestDir(Project(PackagePath(child), name, false), MarkdownDocsOutputDirBase(rootDir))
      == FilePath(rootDir.absolute, rootDir.names + ["docs", "markdown", DestDirPrefix + child])
  {
    var base := MarkdownDocsOutputDirBase(rootDir);
    MarkdownOutputDir(rootDir);
    PackageDestination(child, name, base);
    AppendAfterTwo(rootDir.names, "docs", "markdown", DestDirPrefix + child);
  }

  /** Appending one name after two is appending the three. */
  lemma {:induction false} AppendAfterTwo(xs: seq<string>, a: string, b: string, c: string)
    ensures xs + [a, b] + [c] == xs + [a, b, c]
  {
  }

  // ---------------------------------------------------------------------
  // Which files are copied, and where
  // ---------------------------------------------------------------------

  /** `md` ignoring case is one of the four spellings. */
  lemma {:induction false} MdIgnoringCase(x: string)
    ensures EqualsIgnoreCase(x, MarkdownExtension) <==> x in {"md", "mD", "Md", "MD"}
  {
    if |x| == 2 {
      assert CharEqualsIgnoreCase(x[0], 'm') <==> x[0] == 'm' || x[0] == 'M';
      assert CharEqualsIgnoreCase(x[1], 'd') <==> x[1] == 'd' || x[1] == 'D';
      assert x == [x[0], x[1]];
    }
  }

  /** A file's extension is `md` ignoring case exactly when its name ends in
      `.md` ignoring case. */
  lemma {:induction false} MdExtensionIff(f: FilePath)
    ensures var n := Name(f);
      EqualsIgnoreCase(Extension(f), MarkdownExtension)
      <==> |n| >= 3 && n[|n| - 3] == '.' && EqualsIgnoreCase(n[|n| - 2..], MarkdownExtension)
  {
    var n := Name(f);
    var e := Extension(f);
    MdIgnoringCase(e);
    if |n| >= 3 && n[|n| - 3] == '.' && EqualsIgnoreCase(n[|n| - 2..], MarkdownExtension) {
      MdIgnoringCase(n[|n| - 2..]);
      var i := LastIndexOfChar(n, '.');
      assert '.' !in n[|n| - 2..];
      assert n[|n| - 3] in n;
    }
  }

  /** The walk filter, spelled out. */
  lemma {:induction false} MarkdownSourceCases(e: WalkEntry, docsOutputCanonicalPath: string)
    ensures IsMarkdownSource(e, docsOutputCanonicalPath)
      <==> e.isFile
           && Extension(FromString(e.path)) in {"md", "mD", "Md", "MD"}
           && !(docsOutputCanonicalPath <= e.canonicalPath)
  {
    MdIgnoringCase(Extension(FromString(e.path)));
  }

  /** The canonical-path test is a plain string prefix: a file under a
      sibling whose name starts with the output directory's name is left out
      as well. */
  lemma {:induction false} SiblingOfOutputDirExcluded(e: WalkEntry, docsOutputCanonicalPath: string, suffix: string)
    requires e.canonicalPath == docsOutputCanonicalPath + suffix
    ensures !IsMarkdownSource(e, docsOutputCanonicalPath)
  {
    assert docsOutputCanonicalPath <= e.canonicalPath;
  }

  /** With `<project name>/docs/` in the path, the relative path is what
      follows its first occurrence. */
  lemma {:induction false} RelativePathAfterMarker(srcPath: string, projectName: string)
    requires Contains(srcPath, DocsMarker(projectName))
    ensures var marker := DocsMarker(projectName);
      var i := IndexOf(srcPath, marker);
      srcPath == srcPath[..i] + marker + RelativePathInProject(srcPath, projectName)
      && forall k :: 0 <= k < i ==> !OccursAt(srcPath, marker, k)
  {
    var marker := DocsMarker(projectName);
    var i := IndexOf(srcPath, marker);
    var r := RelativePathInProject(srcPath, projectName);
    IndexOfFirst(srcPath, marker);
    assert r == srcPath[i + |marker|..];
    assert srcPath == srcPath[..i] + srcPath[i..i + |marker|] + srcPath[i + |marker|..];
  }

  /** Without `<project name>/docs/` in the path, `indexOf` gives -1 and the
      slice drops the first `|marker| - 1` characters (or everything). */
  lemma {:induction false} RelativePathWithoutMarker(srcPath: string, projectName: string)
    requires !Contains(srcPath, DocsMarker(projectName))
    ensures var m := |DocsMarker(projectName)|;
      RelativePathInProject(srcPath, projectName)
      == if |srcPath| >= m then srcPath[m - 1..] else ""
  {
  }

  /** The plan copies the selected Markdown files one by one, in walk order:
      copy `k` reads the `k`-th selected file and writes it at its path after
      `<project name>/docs/`, inside the destination directory. */
  lemma {:induction false} CopyPlanSound(project: Project, destDir: FilePath, entries: seq<WalkEntry>,
                                         docsOutputCanonicalPath: string)
    requires destDir != EmptyPath
    ensures |MarkdownCopyPlan(project, destDir, entries, docsOutputCanonicalPath)|
      == |SelectMarkdown(entries, docsOutputCanonicalPath)|
    ensures forall c :: c in MarkdownCopyPlan(project, destDir, entries, docsOutputCanonicalPath) ==>
      (exists e :: e in entries && IsMarkdownSource(e, docsOutputCanonicalPath) && e.path == c.source)
      && c.destination.absolute == destDir.absolute
      && destDir.names <= c.destination.names
    ensures var md := SelectMarkdown(entries, docsOutputCanonicalPath);
      var plan := MarkdownCopyPlan(project, destDir, entries, docsOutputCanonicalPath);
      forall k :: 0 <= k < |plan| ==>
        plan[k].source == md[k].path
        && plan[k].destination
           == FilePath(destDir.absolute, destDir.names + NamesOf(RelativePathInProject(md[k].path, project.name)))
  {
    var md := SelectMarkdown(entries, docsOutputCanonicalPath);
    var plan := MarkdownCopyPlan(project, destDir, entries, docsOutputCanonicalPath);
    forall c | c in plan
      ensures exists e :: e in entries && IsMarkdownSource(e, docsOutputCanonicalPath) && e.path == c.source
      ensures c.destination.absolute == destDir.absolute && destDir.names <= c.destination.names
    {
      var k :| 0 <= k < |plan| && plan[k] == c;
      assert md[k] in md;
      assert c.destination == Resolve(Some(destDir), RelativePathInProject(md[k].path, project.name));
    }
  }

  /** A README is copied exactly when it exists and the project is not the
      root, and then to `_README_ORIGINAL.md` directly inside the destination. */
  lemma {:induction false} ReadmeDestination(project: Project, destDir: FilePath, readmeExists: bool)
    requires Valid(destDir) && destDir != EmptyPath
    ensures var r := ReadmeCopyDestination(project, destDir, readmeExists);
      (r.Some? <==> readmeExists && !project.isRoot)
      && (r.Some? ==> Parent(r.value) == Some(destDir) && Name(r.value) == ReadmeCopyName)
  {
    ResolveName(destDir, ReadmeCopyName);
  }

  /** The literal link rewrite changes its input exactly when the input
      contains `./docs/`. */
  lemma {:induction false} RewriteChangesIffLocalLink(text: string)
    ensures RewriteLocalDocsLinks(text) == text <==> !Contains(text, LocalDocsLink)
  {
    ReplaceChangesIffOccurs(text, LocalDocsLink, ParentLink);
  }

  /** Each occurrence is rewritten in place: up to the first `./docs/` the
      text is kept, that occurrence becomes `../`, and the rest is rewritten. */
  lemma {:induction false} RewriteAtFirstLocalLink(text: string)
    requires Contains(text, LocalDocsLink)
    ensures var i := IndexOf(text, LocalDocsLink);
      RewriteLocalDocsLinks(text)
      == text[..i] + ParentLink + RewriteLocalDocsLinks(text[i + |LocalDocsLink|..])
  {
    ReplaceAtFirstOccurrence(text, LocalDocsLink, ParentLink);
  }
}
