/**
 * Paths as the tool sees them through `std::path`: an absolute path of the index is the
 * sequence of its normal components below the root; a reference read from a playlist is
 * a line of text whose components are found by splitting on `'/'`. No separator
 * translation happens: a backslash is an ordinary character of a component.
 */
module Paths {
  import opened Options
  import opened Text

  /** A normal component: non-empty, without `'/'`, and neither `.` nor `..`. */
  predicate IsFileName(c: string)
  {
    c != "" && '/' !in c && c != "." && c != ".."
  }

  /** An absolute path, by its components from the root down (`[]` is the root itself). */
  type Path = seq<string>

  predicate ValidPath(p: Path)
  {
    forall i :: 0 <= i < |p| ==> IsFileName(p[i])
  }

  /** `Path::to_str` of an absolute path: `'/'` before each component; the root alone is `"/"`. */
  function Render(p: Path): string
  {
    if p == [] then "/" else Join([""] + p, '/')
  }

  /** `Path::ends_with` for a one-component argument: the path's last component is `name`. */
  predicate EndsWith(p: Path, name: string)
  {
    |p| > 0 && p[|p| - 1] == name
  }

  /**
   * The last normal component among the parts of a path split on `'/'`. Empty parts (from
   * repeated or trailing slashes) and `.` are not components; a path ending in `..` has no
   * file name.
   */
  function LastNormal(parts: seq<string>): (r: Option<string>)
    requires forall i :: 0 <= i < |parts| ==> '/' !in parts[i]
    ensures r.Some? ==> IsFileName(r.value)
  {
    if parts == [] then None
    else
      var last := parts[|parts| - 1];
      if last == "" || last == "." then LastNormal(parts[..|parts| - 1])
      else if last == ".." then None
      else Some(last)
  }

  /** `Path::new(line).file_name()`: `None` for `""`, `"/"`, `"."`, `".."` or a path ending in `..`. */
  function FileNameOf(line: string): (r: Option<string>)
    ensures r.Some? ==> IsFileName(r.value)
  {
    SplitPartsLackSeparator(line, '/');
    LastNormal(Split(line, '/'))
  }

  /** A line that is a file name alone names itself. */
  lemma FileNameOfName(name: string)
    requires IsFileName(name)
    ensures FileNameOf(name) == Some(name)
  {
    IndexOfFirst(name, '/', |name|);
  }

  /** The file name of `dir/name` is `name`, whatever `dir` is. */
  lemma FileNameOfChild(dir: string, name: string)
    requires IsFileName(name)
    ensures FileNameOf(dir + "/" + name) == Some(name)
  {
    SplitAround(dir, name, '/');
    IndexOfFirst(name, '/', |name|);
    SplitPartsLackSeparator(dir + "/" + name, '/');
  }

  /** A trailing `'/'` does not change the file name. */
  lemma FileNameOfTrailingSlash(line: string)
    ensures FileNameOf(line + "/") == FileNameOf(line)
  {
    SplitAround(line, "", '/');
    assert line + "/" == line + ['/'] + "";
    assert Split("", '/') == [""];
    SplitPartsLackSeparator(line + "/", '/');
    SplitPartsLackSeparator(line, '/');
    var parts := Split(line + "/", '/');
    assert parts[..|parts| - 1] == Split(line, '/');
  }

  /** The rendering of a non-empty valid path names its last component. */
  lemma {:induction false} FileNameOfRender(p: Path)
    requires ValidPath(p) && p != []
    ensures FileNameOf(Render(p)) == Some(p[|p| - 1])
  {
    SplitJoin([""] + p, '/');
    SplitPartsLackSeparator(Render(p), '/');
  }

  /** A rendered path starts at the root. */
  lemma RenderStartsWithSlash(p: Path)
    ensures |Render(p)| > 0 && Render(p)[0] == '/'
  {
    if |p| > 0 {
      assert Join([""] + p, '/') == "" + ['/'] + Join(p, '/');
    }
  }

  /** A rendered path is newline-free when its components are. */
  lemma {:induction false} RenderLacksChar(p: Path, c: char)
    requires c != '/' && forall i :: 0 <= i < |p| ==> c !in p[i]
    ensures c !in Render(p)
  {
    if p != [] {
      JoinLacksChar([""] + p, '/', c);
    }
  }

  lemma {:induction false} JoinLacksChar(parts: seq<string>, sep: char, c: char)
    requires |parts| > 0 && c != sep && forall i :: 0 <= i < |parts| ==> c !in parts[i]
    ensures c !in Join(parts, sep)
  {
    if |parts| > 1 {
      JoinLacksChar(parts[1..], sep, c);
    }
  }

  /**
   * `Path::extension`: the text after the last `'.'` of the file name, when there is such a dot
   * and it is not the name's first character (`.bashrc` has none, `song.` has `""`).
   */
  function Extension(p: Path): Option<string>
  {
    if p == [] then None else NameExtension(p[|p| - 1])
  }

  function NameExtension(name: string): Option<string>
  {
    if name == ".." then None
    else
      var k := LastIndexOf(name, '.');
      if k <= 0 then None else Some(name[k + 1..])
  }

  /** A found extension splits the name into a non-empty stem, a dot and a dot-free extension. */
  lemma ExtensionFound(name: string, e: string)
    requires NameExtension(name) == Some(e)
    ensures '.' !in e && |e| + 1 < |name|
    ensures name == name[..|name| - |e| - 1] + "." + e
  {
    var k := LastIndexOf(name, '.');
    assert name == name[..k] + "." + name[k + 1..];
  }

  /** Conversely, a name made of a non-empty stem, a dot and a dot-free text has that extension. */
  lemma ExtensionOf(stem: string, e: string)
    requires stem != "" && '.' !in e && stem + "." + e != ".."
    ensures NameExtension(stem + "." + e) == Some(e)
  {
    var name := stem + "." + e;
    assert name[|stem| + 1..] == e;
    LastIndexOfLast(name, '.', |stem|);
  }

  /** A name without a dot, or whose only dot is its first character, has no extension. */
  lemma NoExtension(name: string)
    requires '.' !in name || (name[0] == '.' && '.' !in name[1..])
    ensures NameExtension(name) == None
  {
    if '.' in name && name != ".." {
      LastIndexOfLast(name, '.', 0);
    }
  }
}
