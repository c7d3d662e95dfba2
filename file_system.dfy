/**
 * The file system as the writers and the extraction run see it: a map from
 * path to text content, the directories that exist, and the paths where
 * reading or writing raises (permissions, encoding errors, a directory in
 * the way). Also the pieces of `os.path` the core uses on paths.
 */
module FileSystem {
  import opened Wrappers
  import opened Text

  /** What reading a whole file gives: its content, or None when it is missing or reading raises. */
  function ReadResult(files: map<string, string>, unreadable: set<string>, path: string): (r: Option<string>)
    ensures r.Some? <==> path in files && path !in unreadable
    ensures r.Some? ==> r.value == files[path]
  {
    if path in files && path !in unreadable then Some(files[path]) else None
  }

  class Disk {
    /** Path -> content of every existing file. */
    var files: map<string, string>
    /** Existing directories. */
    var dirs: set<string>
    /** Paths whose `open(…, 'r').read()` raises. */
    var unreadable: set<string>
    /** Paths where creating the directory, opening for writing or writing raises. */
    var unwritable: set<string>

    constructor(files: map<string, string>, dirs: set<string>, unreadable: set<string>, unwritable: set<string>)
      ensures this.files == files && this.dirs == dirs
      ensures this.unreadable == unreadable && this.unwritable == unwritable
    {
      this.files := files;
      this.dirs := dirs;
      this.unreadable := unreadable;
      this.unwritable := unwritable;
    }

    /** `open(path).read()`: the content, or None when the file is missing or reading raises. */
    method Read(path: string) returns (r: Option<string>)
      ensures r == ReadResult(files, unreadable, path)
    {
      if path in files && path !in unreadable {
        return Some(files[path]);
      }
      return None;
    }

    /** `open(path, 'a' if exists else 'w').write(text)`: the file ends with `text`; False when writing raises. */
    method Append(path: string, text: string) returns (ok: bool)
      modifies this
      ensures ok <==> path !in unwritable
      ensures unwritable == old(unwritable) && unreadable == old(unreadable) && dirs == old(dirs)
      ensures files == if ok then old(files)[path := (if path in old(files) then old(files)[path] else []) + text]
                       else old(files)
    {
      if path in unwritable {
        return false;
      }
      var before := if path in files then files[path] else [];
      files := files[path := before + text];
      return true;
    }

    /** `open(path, 'w').write(text)`: the file holds exactly `text`; False when writing raises. */
    method Overwrite(path: string, text: string) returns (ok: bool)
      modifies this
      ensures ok <==> path !in unwritable
      ensures unwritable == old(unwritable) && unreadable == old(unreadable) && dirs == old(dirs)
      ensures files == if ok then old(files)[path := text] else old(files)
    {
      if path in unwritable {
        return false;
      }
      files := files[path := text];
      return true;
    }

    /** `os.makedirs(path, exist_ok=True)`: the directory exists afterwards. */
    method MakeDirs(path: string)
      modifies this
      ensures dirs == old(dirs) + {path}
      ensures files == old(files) && unwritable == old(unwritable) && unreadable == old(unreadable)
    {
      dirs := dirs + {path};
    }
  }

  // ---------------------------------------------------------------------
  // Paths

  /** `os.path.join(a, b)` on POSIX paths: an absolute `b` wins; otherwise one `/` between the two. */
  function Join(a: string, b: string): (r: string)
    ensures |b| <= |r| && r[|r| - |b|..] == b
    ensures b != [] && b[0] == '/' ==> r == b
    ensures (b == [] || b[0] != '/') ==> |a| <= |r| && r[..|a|] == a
  {
    if |b| > 0 && b[0] == '/' then b
    else if a == [] || a[|a| - 1] == '/' then a + b
    else a + "/" + b
  }

  /** Python's `s.rfind(c)`: the last index holding `c`, or None. */
  function LastIndexOf(s: string, c: char): (r: Option<nat>)
    ensures r.Some? ==> r.value < |s| && s[r.value] == c && forall k :: r.value < k < |s| ==> s[k] != c
    ensures r.None? ==> forall k :: 0 <= k < |s| ==> s[k] != c
  {
    if s == [] then None
    else if s[|s| - 1] == c then Some(|s| - 1)
    else LastIndexOf(s[..|s| - 1], c)
  }

  /**
   * The root that `os.path.splitext` returns: the path without its
   * extension, which is the part from the last `.` of the last component,
   * provided that component has something other than dots before it.
   */
  function SplitExtRoot(p: string): (root: string)
    ensures |root| <= |p| && root == p[..|root|]
  {
    match LastIndexOf(p, '.')
    case None => p
    case Some(dot) =>
      var start := match LastIndexOf(p, '/') case Some(sep) => sep + 1 case None => 0;
      if start <= dot && exists k :: start <= k < dot && p[k] != '.' then p[..dot] else p
  }

  /** The extension dropped by `splitext` is empty or a `.` followed by no further `.` or `/`. */
  lemma SplitExtDropsExtension(p: string)
    ensures var ext := p[|SplitExtRoot(p)|..];
      ext == [] || (ext[0] == '.' && forall k :: 0 <= k < |ext| ==> ext[k] != '/' && (k > 0 ==> ext[k] != '.'))
  {
    match LastIndexOf(p, '.')
    case None =>
    case Some(dot) =>
      var start := match LastIndexOf(p, '/') case Some(sep) => sep + 1 case None => 0;
      if start <= dot && exists k :: start <= k < dot && p[k] != '.' {
        var ext := p[dot..];
        forall k | 0 <= k < |ext| ensures ext[k] != '/' && (k > 0 ==> ext[k] != '.') {
          assert ext[k] == p[dot + k];
        }
      }
  }

  /**
   * `os.path.relpath(path, start)` for a path under `start`: the part
   * after `start/`. Other paths are returned as they are (the extraction
   * run only asks for paths found under `start`).
   */
  function RelPath(path: string, start: string): (r: string)
    ensures StartsWith(path, start + "/") ==> start + "/" + r == path
  {
    if StartsWith(path, start + "/") then
      StartsAtIff(path, 0, start + "/");
      path[|start| + 1..]
    else path
  }
}
