/** testhelper/fshelper.py: allocation of a fresh temporary root, mount
    point, file or directory by probing numbered candidates until one is
    free. */
module FsHelper {
  import opened Common
  import opened Fs

  /** No two distinct indices name the same candidate. */
  ghost predicate Injective(f: nat -> Path)
  {
    forall a: nat, b: nat :: a < b ==> f(a) != f(b)
  }

  /** `i` is the least index whose candidate is not among `paths`. */
  ghost predicate LeastFree(paths: set<Path>, f: nat -> Path, i: nat)
  {
    f(i) !in paths && forall j: nat :: j < i ==> f(j) in paths
  }

  /** A path whose parent is not a directory does not exist. */
  lemma OrphanAbsent(fs: FileSystem, p: Path)
    requires fs.Valid()
    ensures p != [] && Parent(p) !in fs.dirs ==> p !in fs.Paths()
  {
  }

  /** The probing loop shared by the allocators: `while candidate.exists():
      i = i + 1`. It stops because distinct indices name distinct paths and
      only finitely many paths exist. */
  method FirstFree(fs: FileSystem, f: nat -> Path) returns (i: nat)
    requires Injective(f)
    ensures LeastFree(fs.Paths(), f, i)
  {
    i := 0;
    while fs.Exists(f(i))
      invariant forall j: nat :: j < i ==> f(j) in fs.Paths()
      invariant i <= |fs.Paths()|
      decreases |fs.Paths()| - i
    {
      assert Image(f, i + 1) <= fs.Paths();
      ImageSize(f, i + 1);
      SubsetSize(Image(f, i + 1), fs.Paths());
      i := i + 1;
    }
  }

  /** The candidates of `get_tmp_root`: tmp_dir/pid, then that path with
      "0", "1", … appended one after the other (tmp_dir/pid/0/1/…). */
  function RootCandidate(tmpDir: Path, pid: nat, k: nat): (p: Path)
    ensures |p| == |tmpDir| + 1 + k
  {
    tmpDir + [NatToString(pid)] + seq(k, j requires 0 <= j < k => NatToString(j))
  }

  /** Each candidate of `get_tmp_root` is the previous one with one more component. */
  lemma RootCandidateStep(tmpDir: Path, pid: nat, k: nat)
    ensures RootCandidate(tmpDir, pid, k + 1) == RootCandidate(tmpDir, pid, k) + [NatToString(k)]
    ensures Parent(RootCandidate(tmpDir, pid, k + 1)) == RootCandidate(tmpDir, pid, k)
  {
    assert seq(k + 1, j requires 0 <= j < k + 1 => NatToString(j))
        == seq(k, j requires 0 <= j < k => NatToString(j)) + [NatToString(k)];
  }

  /** `base / (prefix + str(i))` */
  function Numbered(base: Path, prefix: string, i: nat): (p: Path)
    ensures Parent(p) == base
  {
    base + [prefix + NatToString(i)]
  }

  /** Distinct indices give distinct numbered names. */
  lemma {:induction false} NumberedInjective(base: Path, prefix: string, a: nat, b: nat)
    requires Numbered(base, prefix, a) == Numbered(base, prefix, b)
    ensures a == b
  {
    var na, nb := prefix + NatToString(a), prefix + NatToString(b);
    assert na == Numbered(base, prefix, a)[|base|];
    assert nb == Numbered(base, prefix, b)[|base|];
    assert na[|prefix|..] == NatToString(a) && nb[|prefix|..] == NatToString(b);
    NatToStringInjective(a, b);
  }

  lemma NumberedIsInjective(base: Path, prefix: string)
    ensures Injective((i: nat) => Numbered(base, prefix, i))
  {
    forall a: nat, b: nat | a < b
      ensures Numbered(base, prefix, a) != Numbered(base, prefix, b)
    {
      if Numbered(base, prefix, a) == Numbered(base, prefix, b) {
        NumberedInjective(base, prefix, a, b);
      }
    }
  }

  /** `get_tmp_root(tmp_dir)` with `os.getpid()` as `pid`: the first candidate
      that does not exist is created with a plain `mkdir`, which needs its
      parent (tmp_dir, or the previous candidate) to be a directory. */
  method GetTmpRoot(fs: FileSystem, tmpDir: Path, pid: nat) returns (r: Result<Path>)
    requires fs.Valid()
    modifies fs
    ensures fs.Valid() && fs.files == old(fs.files)
    ensures exists k: nat ::
      && LeastFree(old(fs.Paths()), (j: nat) => RootCandidate(tmpDir, pid, j), k)
      && var p := RootCandidate(tmpDir, pid, k);
      && (r.Ok? <==> Parent(p) in old(fs.dirs))
      && (r.Ok? ==> r.value == p && fs.dirs == old(fs.dirs) + {p})
      && (r.Err? ==> r.error == old(fs.Missing(p)) && fs.dirs == old(fs.dirs))
    ensures r.Ok? ==> r.value !in old(fs.Paths()) && fs.dirs == old(fs.dirs) + {r.value}
    ensures r.Ok? ==> forall q :: q in old(fs.Paths()) ==> !Under(r.value, q)
  {
    var f := (j: nat) => RootCandidate(tmpDir, pid, j);
    assert Injective(f);
    var i := FirstFree(fs, f);
    var tmpRoot := f(i);
    assert i > 0 ==> Parent(tmpRoot) == f(i - 1) by {
      if i > 0 {
        RootCandidateStep(tmpDir, pid, i - 1);
      }
    }
    NothingUnderMissing(fs, tmpRoot);
    var o := fs.Mkdir(tmpRoot, false, false);
    r := if o.Pass? then Ok(tmpRoot) else Err(o.error);
  }

  /** `get_tmp_mount_point(tmp_root)`: tmp_root/"mnt_i" for the least i
      whose path is free, created as a directory; the `mkdir` fails only when
      tmp_root is not a directory, and then nothing changes. */
  method GetTmpMountPoint(fs: FileSystem, tmpRoot: Path) returns (r: Result<Path>)
    requires fs.Valid()
    modifies fs
    ensures fs.Valid() && fs.files == old(fs.files)
    ensures r.Ok? <==> tmpRoot in old(fs.dirs)
    ensures r.Ok? ==> exists i: nat ::
      && LeastFree(old(fs.Paths()), (j: nat) => Numbered(tmpRoot, "mnt_", j), i)
      && r.value == Numbered(tmpRoot, "mnt_", i) && fs.dirs == old(fs.dirs) + {r.value}
    ensures r.Err? ==> r.error == old(fs.Missing(Numbered(tmpRoot, "mnt_", 0))) && fs.dirs == old(fs.dirs)
    ensures r.Ok? ==> Parent(r.value) == tmpRoot && r.value !in old(fs.Paths()) && fs.dirs == old(fs.dirs) + {r.value}
  {
    var f := (j: nat) => Numbered(tmpRoot, "mnt_", j);
    NumberedIsInjective(tmpRoot, "mnt_");
    var i := FirstFree(fs, f);
    var mntPoint := f(i);
    OrphanAbsent(fs, f(0));
    var o := fs.Mkdir(mntPoint, false, false);
    r := if o.Pass? then Ok(mntPoint) else Err(o.error);
  }

  /** `get_tmp_file(tmp_root)`: tmp_root/"tmp_file_i" for the least free i,
      created as an empty file. */
  method GetTmpFile(fs: FileSystem, tmpRoot: Path) returns (r: Result<Path>)
    requires fs.Valid()
    modifies fs
    ensures fs.Valid() && fs.dirs == old(fs.dirs)
    ensures r.Ok? <==> tmpRoot in old(fs.dirs)
    ensures r.Ok? ==> exists i: nat ::
      && LeastFree(old(fs.Paths()), (j: nat) => Numbered(tmpRoot, "tmp_file_", j), i)
      && r.value == Numbered(tmpRoot, "tmp_file_", i) && fs.files == old(fs.files)[r.value := []]
    ensures r.Err? ==> r.error == old(fs.Missing(Numbered(tmpRoot, "tmp_file_", 0))) && fs.files == old(fs.files)
    ensures r.Ok? ==> Parent(r.value) == tmpRoot && r.value !in old(fs.Paths()) && fs.files == old(fs.files)[r.value := []]
  {
    var f := (j: nat) => Numbered(tmpRoot, "tmp_file_", j);
    NumberedIsInjective(tmpRoot, "tmp_file_");
    var i := FirstFree(fs, f);
    var tmpFile := f(i);
    OrphanAbsent(fs, f(0));
    var o := fs.Touch(tmpFile);
    r := if o.Pass? then Ok(tmpFile) else Err(o.error);
  }

  /** `get_tmp_dir(tmp_root)` as written, for the case where tmp_root/"tmp_dir_0"
      does not exist: the loop body, which holds the `mkdir`, never runs, so
      the path returned names nothing. */
  method GetTmpDir(fs: FileSystem, tmpRoot: Path) returns (r: Path)
    requires fs.Valid()
    requires !fs.Exists(Numbered(tmpRoot, "tmp_dir_", 0))
    ensures r == Numbered(tmpRoot, "tmp_dir_", 0)
    ensures !fs.Exists(r)
  {
    var i := 0;
    // `while tmp_dir.exists()` is false on entry.
    r := Numbered(tmpRoot, "tmp_dir_", i);
  }

  /** What `get_tmp_dir` evidently means to do, in line with its siblings:
      tmp_root/"tmp_dir_i" for the least free i, created as a directory. */
  method GetFreshTmpDir(fs: FileSystem, tmpRoot: Path) returns (r: Result<Path>)
    requires fs.Valid()
    modifies fs
    ensures fs.Valid() && fs.files == old(fs.files)
    ensures r.Ok? <==> tmpRoot in old(fs.dirs)
    ensures r.Ok? ==> exists i: nat ::
      && LeastFree(old(fs.Paths()), (j: nat) => Numbered(tmpRoot, "tmp_dir_", j), i)
      && r.value == Numbered(tmpRoot, "tmp_dir_", i) && fs.dirs == old(fs.dirs) + {r.value}
    ensures r.Err? ==> fs.dirs == old(fs.dirs)
  {
    var f := (j: nat) => Numbered(tmpRoot, "tmp_dir_", j);
    NumberedIsInjective(tmpRoot, "tmp_dir_");
    var i := FirstFree(fs, f);
    var tmpDir := f(i);
    OrphanAbsent(fs, f(0));
    var o := fs.Mkdir(tmpDir, false, false);
    r := if o.Pass? then Ok(tmpDir) else Err(o.error);
  }
}
