/** testcases/cifs_ko/test_cifs_ko.py: a stand-alone run over the kernel
    CIFS client. Four random 1 MiB files are written below a base directory,
    read back and compared; a mismatch only prints "data not eq" (counted
    here as `notEq`). The final loop calls a method the record class does
    not have, so the run as written always ends in AttributeError. */
module CifsKo {
  import opened Common
  import opened Fs
  import opened Rand
  import IoCheck

  /** A path name and the random buffer meant for it. */
  class PathData {
    const path: Path
    const size: nat
    var data: seq<byte>

    ghost predicate Valid()
      reads this
    {
      |data| == size
    }

    constructor (rng: Random, path: Path, size: nat)
      modifies rng
      ensures this.path == path && this.size == size && Valid()
      ensures data == DrawBytes(rng.draws, old(rng.pos), size) && rng.pos == old(rng.pos) + size
    {
      this.path := path;
      this.size := size;
      var d := rng.RandBytes(size);
      data := d;
    }

    /** `renew_data` */
    method RenewData(rng: Random)
      modifies this, rng
      ensures Valid()
      ensures data == DrawBytes(rng.draws, old(rng.pos), size) && rng.pos == old(rng.pos) + size
    {
      data := rng.RandBytes(size);
    }

    /** `write` */
    method Write(fs: FileSystem) returns (o: Outcome)
      requires fs.Valid()
      modifies fs
      ensures fs.Valid() && fs.dirs == old(fs.dirs)
      ensures o.Pass? <==> path !in old(fs.dirs) && Parent(path) in old(fs.dirs)
      ensures fs.files == if o.Pass? then old(fs.files)[path := data] else old(fs.files)
    {
      o := fs.WriteBytes(path, data);
    }

    /** `mkdirs`: the parent and its missing ancestors, existing allowed. */
    method Mkdirs(fs: FileSystem) returns (o: Outcome)
      requires fs.Valid()
      modifies fs
      ensures fs.Valid() && fs.files == old(fs.files) && old(fs.dirs) <= fs.dirs
      ensures Parent(path) in old(fs.dirs) ==> o == Pass && fs.dirs == old(fs.dirs)
      ensures o.Pass? ==> Parent(path) in fs.dirs
      ensures NoFileOn(old(fs.files), Parent(path)) ==> o == Pass && fs.dirs == old(fs.dirs) + Ancestry(Parent(path))
      ensures forall q :: q in fs.dirs && q !in old(fs.dirs) ==> Under(q, Parent(path))
    {
      o := fs.Mkdir(Parent(path), true, true);
    }

    /** `unlink` */
    method Unlink(fs: FileSystem) returns (o: Outcome)
      requires fs.Valid()
      modifies fs
      ensures fs.Valid() && fs.dirs == old(fs.dirs)
      ensures o.Pass? <==> path in old(fs.files)
      ensures fs.files == old(fs.files) - {path}
    {
      o := fs.Unlink(path);
    }

    /** `verify_size`: whether stat reports `size`; a failing stat raises. */
    function VerifySize(fs: FileSystem): (r: Result<bool>)
      reads fs
      ensures r.Ok? <==> fs.Exists(path)
      ensures r == Ok(true) <==> fs.Stat(path) == Ok(size)
      ensures path in fs.files ==> r == Ok(|fs.files[path]| == size)
    {
      match fs.Stat(path)
      case Err(e) => Err(e)
      case Ok(st) => Ok(size == st)
    }

    /** `verify_data`: whether the file holds the buffer at full length; a
        failing read raises. */
    function VerifyData(fs: FileSystem): (r: Result<bool>)
      reads this, fs
      ensures r.Ok? <==> path in fs.files
      ensures r == Ok(true) <==> path in fs.files && fs.files[path] == data && |data| == size
      ensures path !in fs.files ==> r == Err(fs.ReadBytes(path).error)
    {
      match fs.ReadBytes(path)
      case Err(e) => Err(e)
      case Ok(d) => Ok(|d| == size && d == data)
    }
  }

  function PathsOf(dsets: seq<PathData>): set<Path>
  {
    set d | d in dsets :: d.path
  }

  /** base/"0" … base/"count-1". */
  function Pathnames(base: Path, count: nat): set<Path>
  {
    set k: nat | k < count :: IoCheck.MakePathname(base, k)
  }

  ghost predicate DistinctPaths(dsets: seq<PathData>)
  {
    forall i, j :: 0 <= i < j < |dsets| ==> dsets[i].path != dsets[j].path
  }

  /** Every file holds its buffer at the declared size. */
  ghost predicate Stored(dsets: seq<PathData>, files: map<Path, seq<byte>>)
    reads set d | d in dsets
  {
    forall d :: d in dsets ==> d.path in files && files[d.path] == d.data && d.Valid()
  }

  /** `_make_datasets(base, size, count)`: buffers drawn one after another. */
  method MakeDatasets(rng: Random, base: Path, size: nat, count: nat) returns (dsets: seq<PathData>)
    modifies rng
    ensures |dsets| == count && rng.pos == old(rng.pos) + count * size
    ensures forall k :: 0 <= k < count ==>
      && fresh(dsets[k]) && dsets[k].Valid()
      && dsets[k].path == IoCheck.MakePathname(base, k) && dsets[k].size == size
      && dsets[k].data == DrawBytes(rng.draws, old(rng.pos) + k * size, size)
    ensures DistinctPaths(dsets) && PathsOf(dsets) == Pathnames(base, count)
  {
    dsets := [];
    var idx := 0;
    while idx < count
      invariant idx <= count && |dsets| == idx && rng.pos == old(rng.pos) + idx * size
      invariant forall k :: 0 <= k < idx ==>
        && fresh(dsets[k]) && dsets[k].Valid()
        && dsets[k].path == IoCheck.MakePathname(base, k) && dsets[k].size == size
        && dsets[k].data == DrawBytes(rng.draws, old(rng.pos) + k * size, size)
    {
      var d := new PathData(rng, IoCheck.MakePathname(base, idx), size);
      assert (idx + 1) * size == idx * size + size;
      dsets := dsets + [d];
      idx := idx + 1;
    }
    forall i, j | 0 <= i < j < |dsets| ensures dsets[i].path != dsets[j].path {
      if dsets[i].path == dsets[j].path {
        IoCheck.MakePathnameInjective(base, i, j);
      }
    }
    forall q | q in Pathnames(base, count) ensures q in PathsOf(dsets) {
      var k: nat :| k < count && q == IoCheck.MakePathname(base, k);
      assert dsets[k] in dsets;
    }
  }

  // -----------------------------------------------------------------------
  // The loops of `_run_test`
  // -----------------------------------------------------------------------

  method MkdirsPhase(dsets: seq<PathData>, fs: FileSystem) returns (o: Outcome)
    requires fs.Valid()
    modifies fs
    ensures fs.Valid() && fs.files == old(fs.files) && old(fs.dirs) <= fs.dirs
    ensures (forall d :: d in dsets ==> Parent(d.path) in old(fs.dirs)) ==> o == Pass && fs.dirs == old(fs.dirs)
    ensures o.Pass? ==> forall d :: d in dsets ==> Parent(d.path) in fs.dirs
    ensures (forall d :: d in dsets ==> NoFileOn(old(fs.files), Parent(d.path))) ==> o == Pass
    ensures forall q :: q in fs.dirs && q !in old(fs.dirs) ==> exists d :: d in dsets && Under(q, Parent(d.path))
  {
    var i := 0;
    while i < |dsets|
      invariant i <= |dsets|
      invariant fs.Valid() && fs.files == old(fs.files) && old(fs.dirs) <= fs.dirs
      invariant (forall d :: d in dsets ==> Parent(d.path) in old(fs.dirs)) ==> fs.dirs == old(fs.dirs)
      invariant forall k :: 0 <= k < i ==> Parent(dsets[k].path) in fs.dirs
      invariant forall q :: q in fs.dirs && q !in old(fs.dirs) ==> exists d :: d in dsets && Under(q, Parent(d.path))
    {
      assert dsets[i] in dsets;
      o := dsets[i].Mkdirs(fs);
      if o.Fail? {
        return;
      }
      i := i + 1;
    }
    o := Pass;
    forall d | d in dsets ensures Parent(d.path) in fs.dirs {
      var k :| 0 <= k < |dsets| && dsets[k] == d;
    }
  }

  method WritePhase(dsets: seq<PathData>, fs: FileSystem) returns (o: Outcome)
    requires fs.Valid()
    requires forall d :: d in dsets ==> d.Valid()
    modifies fs
    ensures fs.Valid() && fs.dirs == old(fs.dirs)
    ensures IoCheck.SameOutside(old(fs.files), fs.files, PathsOf(dsets))
    ensures o.Pass? <==> forall d :: d in dsets ==> Parent(d.path) in old(fs.dirs) && d.path !in old(fs.dirs)
    ensures o.Pass? && DistinctPaths(dsets) ==> Stored(dsets, fs.files)
  {
    var i := 0;
    while i < |dsets|
      invariant i <= |dsets|
      invariant fs.Valid() && fs.dirs == old(fs.dirs)
      invariant IoCheck.SameOutside(old(fs.files), fs.files, PathsOf(dsets))
      invariant forall k :: 0 <= k < i ==> Parent(dsets[k].path) in fs.dirs && dsets[k].path !in fs.dirs
      invariant DistinctPaths(dsets) ==> forall k :: 0 <= k < i ==> dsets[k].path in fs.files && fs.files[dsets[k].path] == dsets[k].data
    {
      assert dsets[i] in dsets;
      o := dsets[i].Write(fs);
      if o.Fail? {
        return;
      }
      i := i + 1;
    }
    o := Pass;
  }

  /** The bare `read` loop: its results are dropped, only a failing read
      matters. */
  method ReadPhase(dsets: seq<PathData>, fs: FileSystem) returns (o: Outcome)
    ensures o.Pass? <==> forall d :: d in dsets ==> d.path in fs.files
    ensures o.Fail? ==> exists k ::
      && 0 <= k < |dsets| && dsets[k].path !in fs.files
      && o == Fail(fs.ReadBytes(dsets[k].path).error)
  {
    var i := 0;
    while i < |dsets|
      invariant i <= |dsets|
      invariant forall k :: 0 <= k < i ==> dsets[k].path in fs.files
    {
      var r := fs.ReadBytes(dsets[i].path);
      if r.Err? {
        return Fail(r.error);
      }
      i := i + 1;
    }
    o := Pass;
  }

  /** How many datasets `verify_data` reports as different. */
  function Mismatches(dsets: seq<PathData>, fs: FileSystem): (n: nat)
    reads fs, set d | d in dsets
    ensures n <= |dsets|
  {
    if |dsets| == 0 then 0
    else
      var last := dsets[|dsets| - 1];
      Mismatches(dsets[..|dsets| - 1], fs) + (if last.VerifyData(fs) == Ok(false) then 1 else 0)
  }

  /** Nothing is reported when every file holds its buffer. */
  lemma {:induction false} NoMismatchWhenStored(dsets: seq<PathData>, fs: FileSystem)
    requires Stored(dsets, fs.files)
    ensures Mismatches(dsets, fs) == 0
  {
    if |dsets| > 0 {
      var front := dsets[..|dsets| - 1];
      assert forall d :: d in front ==> d in dsets;
      NoMismatchWhenStored(front, fs);
      assert dsets[|dsets| - 1] in dsets;
    }
  }

  /** The `verify_data` loop: prints on a mismatch, raises only when a read
      does. */
  method VerifyPhase(dsets: seq<PathData>, fs: FileSystem) returns (o: Outcome, notEq: nat)
    ensures o.Pass? <==> forall d :: d in dsets ==> d.path in fs.files
    ensures o.Pass? ==> notEq == Mismatches(dsets, fs)
  {
    notEq := 0;
    var i := 0;
    while i < |dsets|
      invariant i <= |dsets|
      invariant forall k :: 0 <= k < i ==> dsets[k].path in fs.files
      invariant notEq == Mismatches(dsets[..i], fs)
    {
      assert dsets[..i + 1][..i] == dsets[..i];
      var r := dsets[i].VerifyData(fs);
      if r.Err? {
        return Fail(r.error), notEq;
      }
      if !r.value {
        notEq := notEq + 1;
      }
      i := i + 1;
    }
    assert dsets[..i] == dsets;
    o := Pass;
  }

  /** The last loop as written: `do_unlink` is not a method of the class, so
      the first iteration raises. */
  function DoUnlinkPhase(dsets: seq<PathData>): (o: Outcome)
    ensures o.Pass? <==> dsets == []
    ensures dsets != [] ==> o == Fail(AttributeError("do_unlink"))
  {
    if |dsets| == 0 then Pass else Fail(AttributeError("do_unlink"))
  }

  /** The last loop as evidently intended: `unlink` each file. */
  method UnlinkPhase(dsets: seq<PathData>, fs: FileSystem) returns (o: Outcome)
    requires fs.Valid()
    modifies fs
    ensures fs.Valid() && fs.dirs == old(fs.dirs)
    ensures IoCheck.SameOutside(old(fs.files), fs.files, PathsOf(dsets))
    ensures o.Pass? <==> DistinctPaths(dsets) && PathsOf(dsets) <= old(fs.files).Keys
    ensures o.Pass? ==> fs.files == old(fs.files) - PathsOf(dsets)
  {
    var i := 0;
    while i < |dsets|
      invariant i <= |dsets|
      invariant fs.Valid() && fs.dirs == old(fs.dirs)
      invariant fs.files == old(fs.files) - PathsOf(dsets[..i])
      invariant DistinctPaths(dsets[..i]) && PathsOf(dsets[..i]) <= old(fs.files).Keys
    {
      assert dsets[..i + 1] == dsets[..i] + [dsets[i]];
      assert PathsOf(dsets[..i + 1]) == PathsOf(dsets[..i]) + {dsets[i].path};
      o := dsets[i].Unlink(fs);
      if o.Fail? {
        if dsets[i].path in old(fs.files) {
          var d :| d in dsets[..i] && d.path == dsets[i].path;
          var k :| 0 <= k < i && dsets[..i][k] == d;
          assert dsets[k].path == dsets[i].path;
        } else {
          assert dsets[i] in dsets;
        }
        return;
      }
      i := i + 1;
    }
    assert dsets[..i] == dsets;
    o := Pass;
  }

  // -----------------------------------------------------------------------
  // `_run_test`
  // -----------------------------------------------------------------------

  const FileSize: nat := 1024 * 1024
  const FileCount: nat := 4

  /** The run is well placed: no prefix of `base` is a regular file, so the
      mkdirs loop can create whatever of it is missing, and none of the four
      file names is a directory. */
  ghost predicate Clean(fs: FileSystem, base: Path)
    reads fs
  {
    NoFileOn(fs.files, base) && forall k: nat :: k < FileCount ==> IoCheck.MakePathname(base, k) !in fs.dirs
  }

  /** After a passing mkdirs loop over datasets that all live in `base`,
      the directories added are exactly the missing ancestors of `base`, and
      none of them is a dataset path. */
  lemma MkdirsMadeBase(dsets: seq<PathData>, base: Path, dirs0: set<Path>, fs: FileSystem)
    requires fs.Valid() && dirs0 <= fs.dirs && |dsets| > 0
    requires forall k :: 0 <= k < |dsets| ==> dsets[k].path == IoCheck.MakePathname(base, k)
    requires forall d :: d in dsets ==> Parent(d.path) in fs.dirs
    requires forall q :: q in fs.dirs && q !in dirs0 ==> exists d :: d in dsets && Under(q, Parent(d.path))
    ensures fs.dirs == dirs0 + Ancestry(base)
    ensures forall d :: d in dsets ==> Parent(d.path) == base
    ensures forall q :: q in fs.dirs && q !in dirs0 ==> |q| <= |base|
  {
    forall d | d in dsets ensures Parent(d.path) == base {
      var k :| 0 <= k < |dsets| && dsets[k] == d;
    }
    assert dsets[0] in dsets;
    AncestryOfDir(fs, base);
    forall q | q in fs.dirs && q !in dirs0 ensures q in Ancestry(base) && |q| <= |base| {
      var d :| d in dsets && Under(q, Parent(d.path));
      InAncestry(q, base);
    }
  }

  /** Everything of `_run_test` up to the last loop. */
  method WriteAndCompare(fs: FileSystem, rng: Random, base: Path) returns (o: Outcome, notEq: nat, dsets: seq<PathData>)
    requires fs.Valid()
    modifies fs, rng
    ensures fs.Valid() && old(fs.dirs) <= fs.dirs
    ensures |dsets| == FileCount && DistinctPaths(dsets) && PathsOf(dsets) == Pathnames(base, FileCount)
    ensures forall k :: 0 <= k < FileCount ==>
      && fresh(dsets[k]) && dsets[k].path == IoCheck.MakePathname(base, k)
      && dsets[k].data == DrawBytes(rng.draws, old(rng.pos) + k * FileSize, FileSize)
    ensures IoCheck.SameOutside(old(fs.files), fs.files, Pathnames(base, FileCount))
    ensures old(Clean(fs, base)) ==>
      o == Pass && notEq == 0 && fs.dirs == old(fs.dirs) + Ancestry(base) && Stored(dsets, fs.files)
  {
    dsets := MakeDatasets(rng, base, FileSize, FileCount);
    notEq := 0;
    o := MkdirsPhase(dsets, fs);
    if o.Fail? {
      return;
    }
    MkdirsMadeBase(dsets, base, old(fs.dirs), fs);
    o := WritePhase(dsets, fs);
    if o.Fail? {
      return;
    }
    assert DistinctPaths(dsets);
    o := ReadPhase(dsets, fs);
    if o.Fail? {
      return;
    }
    o, notEq := VerifyPhase(dsets, fs);
    if o.Pass? {
      NoMismatchWhenStored(dsets, fs);
    }
  }

  /** `_run_test(base)` as written: it never passes, and on a clean base it
      leaves the four files behind and ends in AttributeError. */
  method RunTest(fs: FileSystem, rng: Random, base: Path) returns (o: Outcome, notEq: nat)
    requires fs.Valid()
    modifies fs, rng
    ensures fs.Valid()
    ensures o.Fail?
    ensures IoCheck.SameOutside(old(fs.files), fs.files, Pathnames(base, FileCount))
    ensures old(Clean(fs, base)) ==>
      && o == Fail(AttributeError("do_unlink")) && notEq == 0 && fs.dirs == old(fs.dirs) + Ancestry(base)
      && forall k :: 0 <= k < FileCount ==>
        IoCheck.MakePathname(base, k) in fs.files &&
        fs.files[IoCheck.MakePathname(base, k)] == DrawBytes(rng.draws, old(rng.pos) + k * FileSize, FileSize)
  {
    var dsets;
    o, notEq, dsets := WriteAndCompare(fs, rng, base);
    if o.Pass? {
      o := DoUnlinkPhase(dsets);
      forall k | 0 <= k < FileCount
        ensures Stored(dsets, fs.files) ==> IoCheck.MakePathname(base, k) in fs.files
      {
        assert dsets[k] in dsets;
      }
    }
  }

  /** `_run_test(base)` with the last loop calling `unlink`: on a clean base
      it passes and removes exactly the four files. */
  method RunTestUnlinking(fs: FileSystem, rng: Random, base: Path) returns (o: Outcome, notEq: nat)
    requires fs.Valid()
    modifies fs, rng
    ensures fs.Valid()
    ensures IoCheck.SameOutside(old(fs.files), fs.files, Pathnames(base, FileCount))
    ensures old(Clean(fs, base)) ==>
      o == Pass && notEq == 0 && fs.dirs == old(fs.dirs) + Ancestry(base)
      && fs.files == old(fs.files) - Pathnames(base, FileCount)
  {
    var dsets;
    ghost var files0 := fs.files;
    o, notEq, dsets := WriteAndCompare(fs, rng, base);
    if o.Pass? {
      ghost var files1 := fs.files;
      o := UnlinkPhase(dsets, fs);
      assert Stored(dsets, files1) ==> PathsOf(dsets) <= files1.Keys;
      if old(Clean(fs, base)) {
        assert fs.files == files1 - Pathnames(base, FileCount);
        assert fs.files == files0 - Pathnames(base, FileCount);
      }
    }
  }
}
