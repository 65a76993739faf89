/**
 * The part of `java.io.File` that the documentation task uses, on a Unix
 * file system: a path is kept in normalised form (repeated and trailing `/`
 * removed), as the constructors do, and `name`, `parent` and the two-argument
 * constructor `File(parent, child)` are defined on that form.
 */
module JavaIo {
  import opened Wrappers
  import opened KotlinText

  /** A normalised path: whether it starts at `/`, then its names in order. */
  datatype FilePath = FilePath(absolute: bool, names: seq<string>)

  /** `File("")`, the empty relative path. */
  const EmptyPath := FilePath(false, [])

  /** A single name: non-empty and free of separators. */
  predicate ValidName(n: string)
  {
    n != "" && '/' !in n
  }

  /** Every name of the path is a single name, as normalisation guarantees. */
  predicate Valid(f: FilePath)
  {
    forall i :: 0 <= i < |f.names| ==> ValidName(f.names[i])
  }

  /** The names of a path string: split on `/`, empty pieces dropped. */
  function NamesOf(s: string): (r: seq<string>)
    ensures forall i :: 0 <= i < |r| ==> ValidName(r[i])
  {
    var r := DropEmpty(Split(s, '/'));
    assert forall i :: 0 <= i < |r| ==> r[i] in Split(s, '/');
    r
  }

  /** `File(path)`. */
  function FromString(s: string): (r: FilePath)
    ensures Valid(r)
  {
    FilePath(|s| > 0 && s[0] == '/', NamesOf(s))
  }

  /** `file.path`: the normalised path string. */
  function PathString(f: FilePath): string
  {
    (if f.absolute then "/" else "") + Join(f.names, "/")
  }

  /** `file.name`: the last name, or `""` for `/` and for the empty path. */
  function Name(f: FilePath): string
  {
    if |f.names| == 0 then "" else Last(f.names)
  }

  /** `file.parent`: null for `/`, for the empty path and for a relative path
      of one name; otherwise the path without its last name (`/` for `/a`). */
  function Parent(f: FilePath): Option<FilePath>
  {
    if |f.names| == 0 || (!f.absolute && |f.names| == 1) then None
    else Some(FilePath(f.absolute, f.names[..|f.names| - 1]))
  }

  /** `file.parent` as the String Java returns: null, or the parent's path. */
  function ParentPath(f: FilePath): Option<string>
  {
    match Parent(f)
    case None => None
    case Some(p) => Some(PathString(p))
  }

  /** `File(String parent, String child)`: the parent string is parsed as a
      path, then the child is resolved as for `File(File, String)`. */
  function ResolveString(parent: Option<string>, child: string): FilePath
  {
    match parent
    case None => Resolve(None, child)
    case Some(p) => Resolve(Some(FromString(p)), child)
  }

  /** `File(parent, child)`: a null parent makes it `File(child)`; the empty
      parent resolves the child against `/`; otherwise the child's names are
      appended to the parent's. */
  function Resolve(parent: Option<FilePath>, child: string): (r: FilePath)
    ensures parent.Some? && Valid(parent.value) ==> Valid(r)
    ensures parent.Some? && parent.value != EmptyPath ==>
      r.absolute == parent.value.absolute && parent.value.names <= r.names
  {
    match parent
    case None => FromString(child)
    case Some(p) =>
      if p == EmptyPath then FilePath(true, NamesOf(child))
      else FilePath(p.absolute, p.names + NamesOf(child))
  }

  /** A single name is its own list of names. */
  lemma {:induction false} NamesOfSingleName(n: string)
    requires ValidName(n)
    ensures NamesOf(n) == [n]
  {
    SplitWithoutSeparator(n, '/');
    DropEmptyOfNonEmpty([n]);
  }

  /** Printing a normalised path and parsing it back gives the same path. */
  lemma {:induction false} FromPathString(f: FilePath)
    requires Valid(f)
    ensures FromString(PathString(f)) == f
  {
    var s := PathString(f);
    if |f.names| == 0 {
      if f.absolute {
        assert s == "/";
        assert Split(s, '/') == ["", ""];
      } else {
        assert s == "";
      }
    } else {
      var j := Join(f.names, "/");
      assert f.names[0] <= j by {
        if |f.names| > 1 {
          assert j == f.names[0] + ("/" + Join(f.names[1..], "/"));
        }
      }
      var parts := if f.absolute then [""] + f.names else f.names;
      assert j == Join(f.names, ['/']);
      if f.absolute {
        assert ([""] + f.names)[1..] == f.names;
        assert Join(parts, ['/']) == "" + ['/'] + j;
        assert s == Join(parts, ['/']);
      } else {
        assert s == Join(parts, ['/']);
      }
      SplitJoin(parts, '/');
      DropEmptyOfNonEmpty(f.names);
      if f.absolute {
        assert DropEmpty(parts) == DropEmpty(f.names);
      } else {
        assert s[0] == f.names[0][0];
      }
    }
  }

  /** Passing `file.parent` as a String to `File(String, String)` resolves
      the child against the parent directory itself: nothing is lost by going
      through the String. */
  lemma {:induction false} ResolveAgainstParentPath(f: FilePath, child: string)
    requires Valid(f)
    ensures ResolveString(ParentPath(f), child) == Resolve(Parent(f), child)
  {
    if Parent(f).Some? {
      var p := Parent(f).value;
      assert forall i :: 0 <= i < |p.names| ==> p.names[i] == f.names[i];
      FromPathString(p);
    }
  }

  /** Resolving a single name under a directory gives the file of that name
      whose parent is the directory. */
  lemma {:induction false} ResolveName(dir: FilePath, n: string)
    requires Valid(dir) && dir != EmptyPath && ValidName(n)
    ensures Resolve(Some(dir), n) == FilePath(dir.absolute, dir.names + [n])
    ensures Parent(Resolve(Some(dir), n)) == Some(dir)
    ensures Name(Resolve(Some(dir), n)) == n
  {
    NamesOfSingleName(n);
    var r := Resolve(Some(dir), n);
    assert r.names[..|r.names| - 1] == dir.names;
  }
}
