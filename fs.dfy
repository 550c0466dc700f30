/** The filesystem the harness works on (a mounted share or a local
    directory), as a stand-in for the operating system: a map from file path
    to content and a set of directories, shaped as a tree. Each method is one
    system call or `pathlib`/`shutil` primitive, with the errors Python
    raises for it. */
module Fs {
  import opened Common

  function Parent(p: Path): Path
  {
    if |p| == 0 then p else p[..|p| - 1]
  }

  /** `p` is `base` or lies below it. */
  predicate Under(base: Path, p: Path)
  {
    |base| <= |p| && p[..|base|] == base
  }

  /** The subtree at `base` removed from `files`. */
  function Outside(files: map<Path, seq<byte>>, base: Path): map<Path, seq<byte>>
  {
    map q | q in files && !Under(base, q) :: files[q]
  }

  /** `str(p)`: "/" for the root, otherwise "/" before every component. */
  function PathStr(p: Path): (s: string)
    ensures |s| >= 1 && s[0] == '/'
  {
    if |p| == 0 then "/" else Components(p)
  }

  function Components(p: Path): (s: string)
    ensures |p| > 0 ==> |s| >= 1 && s[0] == '/'
  {
    if |p| == 0 then "" else Components(p[..|p| - 1]) + "/" + p[|p| - 1]
  }

  class FileSystem {
    var files: map<Path, seq<byte>>
    var dirs: set<Path>
    /** What `stat` reports as the size of a directory. */
    const dirSize: nat

    /** The root is a directory, nothing is both a file and a directory, and
        everything but the root sits in a directory. */
    ghost predicate Valid()
      reads this
    {
      && [] in dirs
      && files.Keys !! dirs
      && (forall p :: p in dirs && p != [] ==> Parent(p) in dirs)
      && (forall p :: p in files ==> p != [] && Parent(p) in dirs)
    }

    constructor (dirSize: nat)
      ensures Valid() && files == map[] && dirs == {[]} && this.dirSize == dirSize
    {
      files := map[];
      dirs := {[]};
      this.dirSize := dirSize;
    }

    function Paths(): set<Path>
      reads this
    {
      files.Keys + dirs
    }

    /** `p.exists()` */
    predicate Exists(p: Path)
      reads this
    {
      p in files || p in dirs
    }

    /** The error a lookup of a missing `p` raises: ENOTDIR when a proper
        ancestor is a regular file, ENOENT otherwise. */
    function Missing(p: Path): Error
      reads this
    {
      if exists k :: 0 < k < |p| && p[..k] in files then NotADirectory(p) else FileNotFound(p)
    }

    /** `p.stat().st_size` */
    function Stat(p: Path): (r: Result<nat>)
      reads this
      ensures r.Ok? <==> Exists(p)
      ensures p in files ==> r == Ok(|files[p]|)
    {
      if p in files then Ok(|files[p]|)
      else if p in dirs then Ok(dirSize)
      else Err(Missing(p))
    }

    /** `p.read_bytes()` */
    function ReadBytes(p: Path): (r: Result<seq<byte>>)
      reads this
      ensures r.Ok? <==> p in files
      ensures r.Ok? ==> r.value == files[p]
    {
      if p in files then Ok(files[p])
      else if p in dirs then Err(IsADirectory(p))
      else Err(Missing(p))
    }

    /** `p.mkdir(parents=parents, exist_ok=existOk)` */
    method Mkdir(p: Path, parents: bool, existOk: bool) returns (o: Outcome)
      requires Valid()
      modifies this
      decreases |p|
      ensures Valid() && files == old(files) && old(dirs) <= dirs
      ensures forall q :: q in dirs && q !in old(dirs) ==> Under(q, p)
      ensures o.Pass? ==> p in dirs
      ensures o.Fail? && !parents ==> dirs == old(dirs)
      ensures p in old(dirs) ==> dirs == old(dirs) && o == (if existOk then Pass else Fail(FileExists(p)))
      ensures p in old(files) ==> dirs == old(dirs) && o == Fail(FileExists(p))
      ensures p !in old(Paths()) && Parent(p) in old(dirs) ==> o == Pass && dirs == old(dirs) + {p}
      ensures p !in old(Paths()) && Parent(p) !in old(dirs) && !parents ==> o == Fail(old(Missing(p)))
      ensures parents && (existOk || p !in old(dirs)) && NoFileOn(old(files), p) ==>
        o == Pass && dirs == old(dirs) + Ancestry(p)
    {
      if p in dirs {
        AncestryOfDir(this, p);
        return if existOk then Pass else Fail(FileExists(p));
      }
      if p in files {
        assert p[..|p|] == p;
        return Fail(FileExists(p));
      }
      var parent := Parent(p);
      AncestryStep(p);
      if parent in dirs {
        AncestryOfDir(this, parent);
        dirs := dirs + {p};
        return Pass;
      }
      var err := Missing(p);
      if err.NotADirectory? || !parents {
        return Fail(err);
      }
      // FileNotFoundError caught: create the parents, then `p` itself.
      NoFileOnParent(files, p);
      o := Mkdir(parent, true, true);
      if o.Fail? {
        return;
      }
      dirs := dirs + {p};
      o := Pass;
    }

    /** `p.write_bytes(data)`: create or truncate, then write. */
    method WriteBytes(p: Path, data: seq<byte>) returns (o: Outcome)
      requires Valid()
      modifies this
      ensures Valid() && dirs == old(dirs)
      ensures o.Pass? <==> p !in old(dirs) && Parent(p) in old(dirs)
      ensures o.Pass? ==> files == old(files)[p := data]
      ensures o.Fail? ==> files == old(files)
    {
      if p in dirs {
        return Fail(IsADirectory(p));
      }
      if Parent(p) !in dirs {
        return Fail(Missing(p));
      }
      files := files[p := data];
      o := Pass;
    }

    /** `p.touch()`: an existing path only has its times updated. */
    method Touch(p: Path) returns (o: Outcome)
      requires Valid()
      modifies this
      ensures Valid() && dirs == old(dirs)
      ensures old(Exists(p)) ==> o == Pass && files == old(files)
      ensures !old(Exists(p)) ==> (o.Pass? <==> Parent(p) in old(dirs))
      ensures !old(Exists(p)) && o.Pass? ==> files == old(files)[p := []]
      ensures !old(Exists(p)) && Parent(p) !in old(dirs) ==> o == Fail(old(Missing(p)))
      ensures o.Fail? ==> files == old(files)
    {
      if p in files || p in dirs {
        return Pass;
      }
      if Parent(p) !in dirs {
        return Fail(Missing(p));
      }
      files := files[p := []];
      o := Pass;
    }

    /** `p.unlink()` / `os.unlink(p)` */
    method Unlink(p: Path) returns (o: Outcome)
      requires Valid()
      modifies this
      ensures Valid() && dirs == old(dirs)
      ensures o.Pass? <==> p in old(files)
      ensures files == old(files) - {p}
    {
      if p in files {
        files := files - {p};
        return Pass;
      }
      if p in dirs {
        return Fail(IsADirectory(p));
      }
      o := Fail(Missing(p));
    }

    /** Whether something exists strictly below `p`. */
    predicate HasEntries(p: Path)
      reads this
    {
      exists q :: q in Paths() && q != p && Under(p, q)
    }

    /** `p.rmdir()` / `os.rmdir(p)`: only an empty directory goes. */
    method Rmdir(p: Path) returns (o: Outcome)
      requires Valid()
      modifies this
      ensures Valid() && files == old(files)
      ensures o.Pass? <==> p in old(dirs) && p != [] && !old(HasEntries(p))
      ensures dirs == if o.Pass? then old(dirs) - {p} else old(dirs)
    {
      if p in files {
        return Fail(NotADirectory(p));
      }
      if p !in dirs {
        return Fail(Missing(p));
      }
      if p == [] {
        return Fail(Busy(p));
      }
      if HasEntries(p) {
        return Fail(DirectoryNotEmpty(p));
      }
      dirs := dirs - {p};
      o := Pass;
      forall q | q in dirs && q != [] ensures Parent(q) in dirs {
        if Parent(q) == p {
          assert q != p && Under(p, q);
        }
      }
      forall q | q in files ensures Parent(q) in dirs {
        if Parent(q) == p {
          assert q != p && Under(p, q);
        }
      }
    }

    /** `shutil.rmtree(p, ignore_errors=True)`: removes the directory `p`
        and everything below it; never raises. On a regular file both the
        directory scan and the final `rmdir` fail, the errors are ignored,
        and the file stays. */
    method RmTree(p: Path)
      requires Valid()
      modifies this
      ensures Valid()
      ensures old(p in files) ==> files == old(files) && dirs == old(dirs)
      ensures old(p !in files) ==> files == Outside(old(files), p)
      ensures old(p !in files) ==> dirs == set q | q in old(dirs) && (q == [] || !Under(p, q))
    {
      if p in files {
        return;
      }
      files := map q | q in files && !Under(p, q) :: files[q];
      dirs := set q | q in dirs && (q == [] || !Under(p, q));
      forall q | q in dirs && q != [] ensures Parent(q) in dirs {
        ParentNotUnder(p, q);
      }
      forall q | q in files ensures Parent(q) in dirs {
        ParentNotUnder(p, q);
      }
    }
  }

  /** No prefix of `p`, `p` itself included, is a regular file: the
      condition under which `mkdir(parents=True)` can build `p`. */
  predicate NoFileOn(files: map<Path, seq<byte>>, p: Path)
  {
    forall k :: 0 <= k <= |p| ==> p[..k] !in files
  }

  /** `p` and every ancestor of it, the root included. */
  function Ancestry(p: Path): set<Path>
  {
    set k | 0 <= k <= |p| :: p[..k]
  }

  lemma AncestryStep(p: Path)
    requires p != []
    ensures Ancestry(p) == Ancestry(Parent(p)) + {p}
  {
    forall q | q in Ancestry(p) ensures q in Ancestry(Parent(p)) + {p} {
      var k :| 0 <= k <= |p| && q == p[..k];
      if k < |p| {
        assert Parent(p)[..k] == q;
      } else {
        assert q == p;
      }
    }
    forall q | q in Ancestry(Parent(p)) ensures q in Ancestry(p) {
      var k :| 0 <= k <= |Parent(p)| && q == Parent(p)[..k];
      assert p[..k] == q;
    }
    assert p[..|p|] == p;
  }

  lemma NoFileOnParent(files: map<Path, seq<byte>>, p: Path)
    requires p != [] && NoFileOn(files, p)
    ensures NoFileOn(files, Parent(p))
  {
    forall k | 0 <= k <= |Parent(p)| ensures Parent(p)[..k] !in files {
      assert Parent(p)[..k] == p[..k];
    }
  }

  /** A path that is a prefix of `p` is one of its ancestors. */
  lemma InAncestry(q: Path, p: Path)
    requires Under(q, p)
    ensures q in Ancestry(p)
  {
    assert q == p[..|q|];
  }

  /** Every ancestor of a directory is a directory. */
  lemma {:induction false} DirAncestors(fs: FileSystem, d: Path, k: nat)
    requires fs.Valid() && d in fs.dirs && k <= |d|
    ensures d[..k] in fs.dirs
    decreases |d|
  {
    if k < |d| {
      assert Parent(d) in fs.dirs && Parent(d)[..k] == d[..k];
      DirAncestors(fs, Parent(d), k);
    } else {
      assert d[..k] == d;
    }
  }

  lemma AncestryOfDir(fs: FileSystem, d: Path)
    requires fs.Valid() && d in fs.dirs
    ensures Ancestry(d) <= fs.dirs
  {
    forall q | q in Ancestry(d) ensures q in fs.dirs {
      var k :| 0 <= k <= |d| && q == d[..k];
      DirAncestors(fs, d, k);
    }
  }

  /** Looking up a missing path whose parent is a directory raises
      FileNotFoundError. */
  lemma MissingUnderDir(fs: FileSystem, p: Path)
    requires fs.Valid() && p != [] && Parent(p) in fs.dirs
    ensures fs.Missing(p) == FileNotFound(p)
  {
    forall k | 0 < k < |p| ensures p[..k] !in fs.files {
      DirAncestors(fs, Parent(p), k);
      assert Parent(p)[..k] == p[..k];
    }
  }

  /** Nothing exists at or below a path that does not exist. */
  lemma NothingUnderMissing(fs: FileSystem, base: Path)
    requires fs.Valid() && !fs.Exists(base)
    ensures forall q :: q in fs.Paths() ==> !Under(base, q)
  {
    forall q | q in fs.Paths() && Under(base, q) ensures false {
      assert q != base && q != [];
      assert Parent(q)[..|base|] == base;
      DirAncestors(fs, Parent(q), |base|);
    }
  }

  /** What lies under a path lies under its parent. */
  lemma UnderParent(p: Path, q: Path)
    requires p != [] && Under(p, q)
    ensures Under(Parent(p), q)
  {
    assert q[..|Parent(p)|] == q[..|p|][..|p| - 1];
  }

  /** A path outside a subtree has its parent outside it too. */
  lemma ParentNotUnder(base: Path, q: Path)
    requires q != [] && !Under(base, q)
    ensures Parent(q) == [] || !Under(base, Parent(q))
  {
  }

  /** When nothing but `dir` itself lies under `dir`, removing the subtree of
      one of its children removes nothing. */
  lemma ChildSubtreeEmpty(files: map<Path, seq<byte>>, dirs: set<Path>, dir: Path, name: string)
    requires forall q :: q in files && Under(dir, q) ==> q == dir
    requires forall q :: q in dirs && Under(dir, q) ==> q == dir
    ensures Outside(files, dir + [name]) == files
    ensures (set q | q in dirs && !Under(dir + [name], q)) == dirs
  {
    forall q | Under(dir + [name], q) ensures Under(dir, q) {
      UnderParent(dir + [name], q);
    }
  }
}
