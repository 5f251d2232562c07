/** The part of the local file system the asset store touches: `os.path.join`,
    `os.makedirs(..., exist_ok=True)`, `os.path.exists` and writing a file
    with `open(path, 'wb')`. */
module Files {
  import opened Wrappers

  type Byte = bv8

  /** `os.path.join(dir, name)` on POSIX: an absolute `name` discards `dir`;
      a separator is inserted only when `dir` is non-empty and does not
      already end in one. */
  function Join(dir: string, name: string): (p: string)
    ensures |p| >= |name| && p[|p| - |name|..] == name
    ensures |name| > 0 && name[0] == '/' ==> p == name
    ensures (|name| == 0 || name[0] != '/') ==> |p| >= |dir| && p[..|dir|] == dir
    ensures |p| <= |dir| + 1 + |name|
    ensures (|name| == 0 || name[0] != '/') && dir != [] && dir[|dir| - 1] != '/'
      ==> |p| == |dir| + 1 + |name| && p[|dir|] == '/'
    ensures (|name| == 0 || name[0] != '/') && (dir == [] || dir[|dir| - 1] == '/')
      ==> |p| == |dir| + |name|
  {
    if |name| > 0 && name[0] == '/' then name
    else if dir == [] || dir[|dir| - 1] == '/' then dir + name
    else dir + "/" + name
  }

  /** A snapshot of the file system: the directories and the regular files
      with their contents. */
  datatype Disk = Disk(dirs: set<string>, files: map<string, seq<Byte>>)

  /** `os.path.exists`: true for a directory as well as for a file. */
  predicate PathExists(d: Disk, path: string) {
    path in d.dirs || path in d.files
  }

  /** `os.makedirs(path, exist_ok=True)` as a transition on a snapshot: it
      fails on an empty path and on a path that is a regular file, and
      otherwise leaves `path` a directory. */
  function MakeDirsOn(d: Disk, path: string): (r: Option<Disk>)
    ensures r.Some? <==> path != "" && path !in d.files
    ensures r.Some? ==> r.value.dirs == d.dirs + {path} && r.value.files == d.files
    ensures r.Some? && path in d.dirs ==> r.value == d
  {
    if path == "" || path in d.files then None
    else Some(d.(dirs := d.dirs + {path}))
  }

  /** The mutable file system the downloader works on. */
  class FileSystem {
    var dirs: set<string>
    var files: map<string, seq<Byte>>

    function State(): Disk
      reads this
    {
      Disk(dirs, files)
    }

    constructor (d: Disk)
      ensures State() == d
    {
      dirs := d.dirs;
      files := d.files;
    }

    /** `os.makedirs(path, exist_ok=True)`; `ok` is false where Python raises. */
    method MakeDirs(path: string) returns (ok: bool)
      modifies this
      ensures ok <==> MakeDirsOn(old(State()), path).Some?
      ensures ok ==> State() == MakeDirsOn(old(State()), path).value
      ensures !ok ==> State() == old(State())
    {
      ok := path != "" && path !in files;
      if ok {
        dirs := dirs + {path};
      }
    }

    /** `os.path.exists(path)` */
    method Exists(path: string) returns (b: bool)
      ensures b <==> path in dirs || path in files
    {
      b := path in dirs || path in files;
    }

    /** Writes `data` to `path` in one go, creating or truncating the file;
        `open(path, 'wb')` raises on a directory, so `path` is not one. */
    method WriteFile(path: string, data: seq<Byte>)
      requires path !in dirs
      modifies this
      ensures files == old(files)[path := data]
      ensures dirs == old(dirs)
    {
      files := files[path := data];
    }
  }
}
