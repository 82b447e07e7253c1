// File-system paths as strings with '/' as separator: the parts of
// `std::path::Path` the build tool relies on.

module Paths {
  import opened Errors
  import opened Strings

  /** What `dir.join` puts between `dir` and a relative name: nothing when
      `dir` is empty or already ends in '/', otherwise one '/'. */
  function Separator(dir: string): string
  {
    if dir == [] || dir[|dir| - 1] == '/' then "" else "/"
  }

  /** `Path::join`: an absolute `name` replaces `dir`; a relative one is
      appended to it with a single separator. */
  function JoinPath(dir: string, name: string): (r: string)
    ensures name != [] && name[0] == '/' ==> r == name
    ensures (name == [] || name[0] != '/') ==> r == dir + Separator(dir) + name
    ensures (name == [] || name[0] != '/') ==> |dir| <= |r| && r[..|dir|] == dir
    ensures (name == [] || name[0] != '/') && dir != [] ==> |name| < |r| && r[|r| - |name| - 1] == '/'
  {
    if name != [] && name[0] == '/' then name
    else
      var r := dir + Separator(dir) + name;
      assert r[..|dir|] == dir;
      assert dir != [] ==> r[|r| - |name| - 1] == (dir + Separator(dir))[|dir + Separator(dir)| - 1];
      r
  }

  /** Joining a name that holds no '/' to a directory that is empty or does
      not end in '/' leaves the directory as the parent and the name as
      the last component. */
  lemma FileNameOfJoin(dir: string, name: string)
    requires '/' !in name
    ensures FileName(JoinPath(dir, name)) == name
  {
    var d := dir + Separator(dir);
    assert name == [] || name[0] != '/';
    assert JoinPath(dir, name) == d + name;
    if d != [] {
      assert d == d[..|d| - 1] + ['/'];
      LastIndexOfAt(d[..|d| - 1], '/', name);
      assert d + name == d[..|d| - 1] + ['/'] + name;
    }
  }

  /** `Path::parent` of a non-empty path: everything before its last '/',
      or "" for a single component. */
  function Parent(path: string): (r: string)
    ensures |r| <= |path| && r == path[..|r|]
    ensures '/' !in path ==> r == ""
    ensures '/' in path ==> |r| < |path| && path[|r|] == '/' && '/' !in path[|r| + 1..]
  {
    match LastIndexOf(path, '/')
    case None => ""
    case Some(i) => path[..i]
  }

  /** The parent of a joined path is the directory it was joined to, when
      that directory does not end in '/'. */
  lemma ParentOfJoin(dir: string, name: string)
    requires '/' !in name
    requires dir == [] || dir[|dir| - 1] != '/'
    ensures Parent(JoinPath(dir, name)) == dir
  {
    var p := JoinPath(dir, name);
    if dir == [] {
      assert p == name;
    } else {
      assert p == dir + "/" + name;
      assert p[|dir|] == '/' && p[|dir| + 1..] == name;
      assert LastIndexOf(p, '/') == Some(|dir|);
    }
  }

  /** The last component of a path: everything after its last '/'. */
  function FileName(path: string): (r: string)
    ensures '/' !in r
    ensures exists k :: 0 <= k <= |path| && r == path[k..]
  {
    match LastIndexOf(path, '/')
    case None => assert path == path[0..]; path
    case Some(i) => path[i + 1..]
  }

  /** The extension of a single file name: the text after its last '.',
      absent when the name has no '.', when its only '.' is the leading one
      (a hidden file such as ".gitignore") and for "..". */
  function NameExtension(name: string): (r: Option<string>)
    ensures r.Some? ==> '.' !in r.value
    ensures r.Some? ==> exists i :: 0 < i < |name| && name[i] == '.' && r.value == name[i + 1..]
    ensures r.None? <==> name == ".." || forall i :: 0 < i < |name| ==> name[i] != '.'
  {
    if name == ".." then None
    else match LastIndexOf(name, '.')
      case None => None
      case Some(i) =>
        if i == 0 then
          assert forall j :: 0 < j < |name| ==> name[j] == name[1..][j - 1];
          None
        else
          assert name[i] == '.';
          Some(name[i + 1..])
  }

  /** `Path::extension`: the extension of the path's file name. */
  function Extension(path: string): (r: Option<string>)
    ensures r.Some? ==> '.' !in r.value && '/' !in r.value
    ensures r.Some? ==> exists i :: 0 < i < |FileName(path)| && FileName(path)[i] == '.' &&
                                    r.value == FileName(path)[i + 1..]
    ensures r.None? <==> FileName(path) == ".." || forall i :: 0 < i < |FileName(path)| ==> FileName(path)[i] != '.'
  {
    var name := FileName(path);
    var r := NameExtension(name);
    assert r.Some? ==> r.value == name[|name| - |r.value|..];
    r
  }

  /** `path.extension().and_then(|e| e.to_str()).unwrap_or("")`. */
  function ExtensionOrEmpty(path: string): string
  {
    match Extension(path)
    case None => ""
    case Some(e) => e
  }

  /** The facts about a name made of a stem, one '.' and a suffix, neither
      holding '.' or '/'. */
  lemma DottedName(stem: string, e: string)
    requires '.' !in stem && '/' !in stem && '.' !in e && '/' !in e
    ensures '/' !in stem + "." + e
    ensures LastIndexOf(stem + "." + e, '.') == Some(|stem|)
    ensures (stem + "." + e)[|stem| + 1..] == e
  {
    assert stem + "." + e == stem + ['.'] + e;
    LastIndexOfAt(stem, '.', e);
  }

  /** A file whose name is a dot-free stem, one '.' and a dot-free suffix
      has that suffix as its extension, in whatever directory it lies. */
  lemma ExtensionAfterDot(dir: string, stem: string, e: string)
    requires stem != [] && '.' !in stem && '/' !in stem && '.' !in e && '/' !in e
    ensures ExtensionOrEmpty(JoinPath(dir, stem + "." + e)) == e
  {
    var name := stem + "." + e;
    DottedName(stem, e);
    FileNameOfJoin(dir, name);
    assert name[0] == stem[0];
    ExtensionOfName(JoinPath(dir, name), |stem|);
  }

  /** Where the last '.' of a file name is not its first character, the
      extension is what follows that '.'. */
  lemma ExtensionOfName(path: string, i: nat)
    requires FileName(path) != ".." && LastIndexOf(FileName(path), '.') == Some(i) && i > 0
    ensures Extension(path) == Some(FileName(path)[i + 1..])
  {
  }
}
