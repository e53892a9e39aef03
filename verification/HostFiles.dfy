/**
 The files of the host below the current directory, and the operations on them that the
 program uses. An operation that would raise an exception answers `false` and changes nothing.
 */
module HostFiles {
  import opened Paths
  import opened Bytes

  datatype HostEntry = HostFile(content: Data) | HostDirectory

  type Files = map<Path, HostEntry>

  predicate Exists(fs: Files, p: Path) {
    !Named(p) || p in fs
  }

  predicate IsDirectory(fs: Files, p: Path) {
    !Named(p) || (p in fs && fs[p].HostDirectory?)
  }

  predicate IsFile(fs: Files, p: Path) {
    Named(p) && p in fs && fs[p].HostFile?
  }

  /** `path.mkdir(parents=True, exist_ok=True)` succeeds unless a file is in the way. */
  predicate CanMakeDirs(fs: Files, p: Path) {
    forall a :: a in WithAncestors(p) ==> !IsFile(fs, a)
  }

  function WithDirs(fs: Files, p: Path): Files {
    fs + map a | a in WithAncestors(p) && a !in fs :: HostDirectory
  }

  class Host {
    var fs: Files

    constructor (fs: Files)
      ensures this.fs == fs
    {
      this.fs := fs;
    }

    method MakeDirs(p: Path) returns (ok: bool)
      modifies this
      ensures ok == CanMakeDirs(old(fs), p)
      ensures fs == if ok then WithDirs(old(fs), p) else old(fs)
    {
      ok := CanMakeDirs(fs, p);
      if ok {
        fs := WithDirs(fs, p);
      }
    }

    method Write(p: Path, content: Data) returns (ok: bool)
      modifies this
      ensures ok == !IsDirectory(old(fs), p)
      ensures fs == if ok then old(fs)[p := HostFile(content)] else old(fs)
    {
      ok := !IsDirectory(fs, p);
      if ok {
        fs := fs[p := HostFile(content)];
      }
    }

    method Unlink(p: Path) returns (ok: bool)
      modifies this
      ensures ok == IsFile(old(fs), p)
      ensures fs == if ok then old(fs) - {p} else old(fs)
    {
      ok := IsFile(fs, p);
      if ok {
        fs := fs - {p};
      }
    }

    /** Renames a file to a name that is free. */
    method Rename(p: Path, q: Path)
      requires IsFile(fs, p) && q !in fs
      modifies this
      ensures fs == old(fs)[q := old(fs)[p]] - {p}
    {
      fs := fs[q := fs[p]] - {p};
    }
  }
}
