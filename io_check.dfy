/** The write/verify/overwrite/delete checker of testcases/misc/test_io.py.
    testcases/mount/mount_io.py carries the same `DataPath`, dataset builder,
    phase driver and battery line for line, and
    testcases/mount/test_mount_io.py the same `DataPath` with
    `random.randbytes` as its buffer source; all three use this module. */
module IoCheck {
  import opened Common
  import opened Fs
  import opened Rand
  import opened TestHelper

  /** Where a `DataPath` draws its buffers from. */
  datatype Generator =
    | HelperBytes   // testhelper.generate_random_bytes (test_io.py, mount_io.py)
    | RandBytes     // random.randbytes (test_mount_io.py)

  /** The buffer a draw of `size` bytes yields when the generator's draws
      start at `pos`, and the position after it. */
  function DrawSpec(draws: nat -> nat, pos: nat, size: nat, gen: Generator): (r: (seq<byte>, nat))
    ensures |r.0| == size && r.1 >= pos
  {
    match gen
    case HelperBytes => RandomBytes(draws, pos, size)
    case RandBytes => (DrawBytes(draws, pos, size), pos + size)
  }

  method Draw(rng: Random, size: nat, gen: Generator) returns (d: seq<byte>)
    modifies rng
    ensures (d, rng.pos) == DrawSpec(rng.draws, old(rng.pos), size, gen)
  {
    if gen == HelperBytes {
      d := GenerateRandomBytes(rng, size);
    } else {
      d := rng.RandBytes(size);
    }
  }

  /** A random buffer and the path of the regular file that should hold it. */
  class DataPath {
    const path: Path
    const size: nat
    const gen: Generator
    var data: seq<byte>

    /** The buffer always has the declared size. */
    ghost predicate Valid()
      reads this
    {
      |data| == size
    }

    constructor (rng: Random, path: Path, size: nat, gen: Generator)
      modifies rng
      ensures this.path == path && this.size == size && this.gen == gen
      ensures Valid() && (data, rng.pos) == DrawSpec(rng.draws, old(rng.pos), size, gen)
    {
      this.path := path;
      this.size := size;
      this.gen := gen;
      var d := Draw(rng, size, gen);
      data := d;
    }

    /** `renew`: a fresh buffer of the same size. */
    method Renew(rng: Random)
      modifies this, rng
      ensures Valid() && (data, rng.pos) == DrawSpec(rng.draws, old(rng.pos), size, gen)
    {
      data := Draw(rng, size, gen);
    }

    /** `write`: the file at `path` gets the buffer. */
    method Write(fs: FileSystem) returns (o: Outcome)
      requires fs.Valid()
      modifies fs
      ensures fs.Valid() && fs.dirs == old(fs.dirs)
      ensures o.Pass? <==> path !in old(fs.dirs) && Parent(path) in old(fs.dirs)
      ensures fs.files == if o.Pass? then old(fs.files)[path := data] else old(fs.files)
    {
      o := fs.WriteBytes(path, data);
    }

    /** `overwrite`: renew, then write; afterwards the file holds the new buffer. */
    method Overwrite(rng: Random, fs: FileSystem) returns (o: Outcome)
      requires fs.Valid()
      modifies this, rng, fs
      ensures Valid() && (data, rng.pos) == DrawSpec(rng.draws, old(rng.pos), size, gen)
      ensures fs.Valid() && fs.dirs == old(fs.dirs)
      ensures o.Pass? <==> path !in old(fs.dirs) && Parent(path) in old(fs.dirs)
      ensures fs.files == if o.Pass? then old(fs.files)[path := data] else old(fs.files)
    {
      Renew(rng);
      o := Write(fs);
    }

    /** `mkdirs`: the parent directory and its missing ancestors. */
    method Mkdirs(fs: FileSystem) returns (o: Outcome)
      requires fs.Valid()
      modifies fs
      ensures fs.Valid() && fs.files == old(fs.files) && old(fs.dirs) <= fs.dirs
      ensures Parent(path) in old(fs.dirs) ==> o == Pass && fs.dirs == old(fs.dirs)
      ensures o.Pass? ==> Parent(path) in fs.dirs
      ensures NoFileOn(old(fs.files), Parent(path)) ==> o == Pass && fs.dirs == old(fs.dirs) + Ancestry(Parent(path))
      ensures forall q :: q in fs.dirs && q !in old(fs.dirs) ==> Under(q, Parent(path))
    {
      o := fs.Mkdir(Parent(path), true, true);
    }

    /** `unlink` */
    method Unlink(fs: FileSystem) returns (o: Outcome)
      requires fs.Valid()
      modifies fs
      ensures fs.Valid() && fs.dirs == old(fs.dirs)
      ensures o.Pass? <==> path in old(fs.files)
      ensures fs.files == old(fs.files) - {path}
    {
      o := fs.Unlink(path);
    }

    /** `verify_size`: stat must report `size`. */
    function VerifySize(fs: FileSystem): (o: Outcome)
      reads fs
      ensures o.Pass? <==> fs.Stat(path) == Ok(size)
      ensures path in fs.files && |fs.files[path]| != size ==>
        o == Fail(SizeMismatch(path, |fs.files[path]|, size))
      ensures !fs.Exists(path) ==> o == Fail(fs.Missing(path))
    {
      match fs.Stat(path)
      case Err(e) => Fail(e)
      case Ok(stSize) => if stSize != size then Fail(SizeMismatch(path, stSize, size)) else Pass
    }

    /** `verify_data`: the stored bytes, length first, then content. */
    function VerifyData(fs: FileSystem): (o: Outcome)
      reads this, fs
      ensures o.Pass? <==> path in fs.files && |fs.files[path]| == size && fs.files[path] == data
      ensures path in fs.files && |fs.files[path]| != size ==>
        o == Fail(LengthMismatch(|fs.files[path]|, size))
      ensures path in fs.files && |fs.files[path]| == size && fs.files[path] != data ==>
        o == Fail(DataMismatch(path))
      ensures path !in fs.files ==> o == Fail(fs.ReadBytes(path).error)
    {
      match fs.ReadBytes(path)
      case Err(e) => Fail(e)
      case Ok(d) =>
        if |d| != size then Fail(LengthMismatch(|d|, size))
        else if d != data then Fail(DataMismatch(path))
        else Pass
    }

    /** `verify`: the size check, then the data check. */
    function Verify(fs: FileSystem): (o: Outcome)
      reads this, fs
      ensures VerifySize(fs).Fail? ==> o == VerifySize(fs)
      ensures VerifySize(fs).Pass? ==> o == VerifyData(fs)
      ensures o.Pass? <==> path in fs.files && fs.files[path] == data && |data| == size
    {
      match VerifySize(fs)
      case Fail(e) => Fail(e)
      case Pass => VerifyData(fs)
    }

    /** `verify_noent`: passes only when stat raises FileNotFoundError; any
        other error of stat propagates. */
    function VerifyNoent(fs: FileSystem): (o: Outcome)
      reads fs
      ensures o.Pass? <==> !fs.Exists(path) && fs.Missing(path).FileNotFound?
      ensures fs.Exists(path) ==> o == Fail(StillExists(path))
    {
      match fs.Stat(path)
      case Ok(_) => Fail(StillExists(path))
      case Err(e) => if e.FileNotFound? then Pass else Fail(e)
    }
  }

  // -----------------------------------------------------------------------
  // Datasets
  // -----------------------------------------------------------------------

  /** `_make_pathname(base, idx)` */
  function MakePathname(base: Path, idx: nat): (p: Path)
    ensures Parent(p) == base && |p| == |base| + 1 && Under(base, p)
  {
    base + [NatToString(idx)]
  }

  /** Distinct indices give distinct path names. */
  lemma MakePathnameInjective(base: Path, a: nat, b: nat)
    requires MakePathname(base, a) == MakePathname(base, b)
    ensures a == b
  {
    assert NatToString(a) == MakePathname(base, a)[|base|];
    NatToStringInjective(a, b);
  }

  function PathsOf(dsets: seq<DataPath>): set<Path>
  {
    set d | d in dsets :: d.path
  }

  lemma PathsOfStep(dsets: seq<DataPath>, i: nat)
    requires i < |dsets|
    ensures PathsOf(dsets[..i + 1]) == PathsOf(dsets[..i]) + {dsets[i].path}
  {
    assert dsets[..i + 1] == dsets[..i] + [dsets[i]];
  }

  ghost predicate DistinctPaths(dsets: seq<DataPath>)
  {
    forall i, j :: 0 <= i < j < |dsets| ==> dsets[i].path != dsets[j].path
  }

  ghost predicate AllValid(dsets: seq<DataPath>)
    reads set d | d in dsets
  {
    forall d :: d in dsets ==> d.Valid()
  }

  /** Every dataset file can be created: its parent is a directory and it is
      not one itself. */
  ghost predicate Placed(dsets: seq<DataPath>, dirs: set<Path>)
  {
    forall d :: d in dsets ==> Parent(d.path) in dirs && d.path !in dirs
  }

  /** Every dataset file holds its buffer. */
  ghost predicate Stored(dsets: seq<DataPath>, files: map<Path, seq<byte>>)
    reads set d | d in dsets
  {
    forall d :: d in dsets ==> d.path in files && files[d.path] == d.data
  }

  /** `a` and `b` agree on every path outside `s`. */
  ghost predicate SameOutside(a: map<Path, seq<byte>>, b: map<Path, seq<byte>>, s: set<Path>)
  {
    forall q :: q !in s ==> (q in a <==> q in b) && (q in a ==> a[q] == b[q])
  }

  /** `_make_datasets(base, size, count)`: `count` new objects at base/"0" …
      base/"count-1", in index order, each with its own buffer. */
  method MakeDatasets(rng: Random, base: Path, size: nat, count: nat, gen: Generator) returns (dsets: seq<DataPath>)
    modifies rng
    ensures |dsets| == count
    ensures forall k :: 0 <= k < count ==>
      && fresh(dsets[k])
      && dsets[k].path == MakePathname(base, k) && dsets[k].size == size && dsets[k].gen == gen
    ensures AllValid(dsets) && DistinctPaths(dsets)
  {
    dsets := [];
    var idx := 0;
    while idx < count
      invariant idx <= count && |dsets| == idx
      invariant forall k :: 0 <= k < idx ==>
        && fresh(dsets[k])
        && dsets[k].path == MakePathname(base, k) && dsets[k].size == size && dsets[k].gen == gen
      invariant forall k :: 0 <= k < idx ==> dsets[k].Valid()
    {
      var d := new DataPath(rng, MakePathname(base, idx), size, gen);
      dsets := dsets + [d];
      idx := idx + 1;
    }
    assert AllValid(dsets);
    NumberedPathsDistinct(dsets, base);
  }

  /** Objects numbered 0, 1, … under one base have distinct paths. */
  lemma NumberedPathsDistinct(dsets: seq<DataPath>, base: Path)
    requires forall k :: 0 <= k < |dsets| ==> dsets[k].path == MakePathname(base, k)
    ensures DistinctPaths(dsets)
  {
    forall i, j | 0 <= i < j < |dsets| ensures dsets[i].path != dsets[j].path {
      if dsets[i].path == dsets[j].path {
        MakePathnameInjective(base, i, j);
      }
    }
  }

  // -----------------------------------------------------------------------
  // The phases of `_run_checks`, each over the whole list
  // -----------------------------------------------------------------------

  method MkdirsPhase(dsets: seq<DataPath>, fs: FileSystem) returns (o: Outcome)
    requires fs.Valid()
    modifies fs
    ensures fs.Valid() && fs.files == old(fs.files) && old(fs.dirs) <= fs.dirs
    ensures (forall d :: d in dsets ==> Parent(d.path) in old(fs.dirs)) ==> o == Pass && fs.dirs == old(fs.dirs)
    ensures o.Pass? ==> forall d :: d in dsets ==> Parent(d.path) in fs.dirs
    ensures (forall d :: d in dsets ==> NoFileOn(old(fs.files), Parent(d.path))) ==> o == Pass
    ensures forall q :: q in fs.dirs && q !in old(fs.dirs) ==> exists d :: d in dsets && Under(q, Parent(d.path))
  {
    var i := 0;
    while i < |dsets|
      invariant i <= |dsets|
      invariant fs.Valid() && fs.files == old(fs.files) && old(fs.dirs) <= fs.dirs
      invariant (forall d :: d in dsets ==> Parent(d.path) in old(fs.dirs)) ==> fs.dirs == old(fs.dirs)
      invariant forall k :: 0 <= k < i ==> Parent(dsets[k].path) in fs.dirs
      invariant forall q :: q in fs.dirs && q !in old(fs.dirs) ==> exists d :: d in dsets && Under(q, Parent(d.path))
    {
      assert dsets[i] in dsets;
      o := dsets[i].Mkdirs(fs);
      if o.Fail? {
        return;
      }
      i := i + 1;
    }
    o := Pass;
    forall d | d in dsets ensures Parent(d.path) in fs.dirs {
      var k :| 0 <= k < |dsets| && dsets[k] == d;
    }
  }

  method WritePhase(dsets: seq<DataPath>, fs: FileSystem) returns (o: Outcome)
    requires fs.Valid()
    modifies fs
    ensures fs.Valid() && fs.dirs == old(fs.dirs)
    ensures SameOutside(old(fs.files), fs.files, PathsOf(dsets))
    ensures o.Pass? <==> Placed(dsets, old(fs.dirs))
    ensures o.Pass? && DistinctPaths(dsets) ==> Stored(dsets, fs.files)
  {
    var i := 0;
    while i < |dsets|
      invariant i <= |dsets|
      invariant fs.Valid() && fs.dirs == old(fs.dirs)
      invariant SameOutside(old(fs.files), fs.files, PathsOf(dsets))
      invariant forall k :: 0 <= k < i ==> Parent(dsets[k].path) in fs.dirs && dsets[k].path !in fs.dirs
      invariant DistinctPaths(dsets) ==> forall k :: 0 <= k < i ==> dsets[k].path in fs.files && fs.files[dsets[k].path] == dsets[k].data
    {
      assert dsets[i] in dsets;
      o := dsets[i].Write(fs);
      if o.Fail? {
        return;
      }
      i := i + 1;
    }
    o := Pass;
  }

  /** The first `i` objects hold valid buffers in placed files, and (paths
      being distinct) their files hold those buffers. */
  ghost predicate OverwrittenPrefix(dsets: seq<DataPath>, i: nat, files: map<Path, seq<byte>>, dirs: set<Path>)
    requires i <= |dsets|
    reads set d | d in dsets
  {
    && (forall k :: 0 <= k < i ==> Parent(dsets[k].path) in dirs && dsets[k].path !in dirs && dsets[k].Valid())
    && (DistinctPaths(dsets) ==> forall k :: 0 <= k < i ==> dsets[k].path in files && files[dsets[k].path] == dsets[k].data)
  }

  /** One step of the overwrite phase: `dsets[i].overwrite()`. */
  method OverwriteAt(dsets: seq<DataPath>, i: nat, fs: FileSystem, rng: Random) returns (o: Outcome)
    requires fs.Valid() && i < |dsets| && OverwrittenPrefix(dsets, i, fs.files, fs.dirs)
    modifies fs, rng, dsets[i]
    ensures fs.Valid() && fs.dirs == old(fs.dirs)
    ensures fs.files == if o.Pass? then old(fs.files)[dsets[i].path := dsets[i].data] else old(fs.files)
    ensures o.Pass? <==> dsets[i].path !in old(fs.dirs) && Parent(dsets[i].path) in old(fs.dirs)
    ensures o.Pass? ==> OverwrittenPrefix(dsets, i + 1, fs.files, fs.dirs)
  {
    label before:
    o := dsets[i].Overwrite(rng, fs);
    if o.Fail? {
      return;
    }
    forall k | 0 <= k < i && dsets[k] != dsets[i]
      ensures dsets[k].data == old@before(dsets[k].data)
    {
    }
  }

  method OverwritePhase(dsets: seq<DataPath>, fs: FileSystem, rng: Random) returns (o: Outcome)
    requires fs.Valid()
    modifies fs, rng, set d | d in dsets
    ensures fs.Valid() && fs.dirs == old(fs.dirs)
    ensures SameOutside(old(fs.files), fs.files, PathsOf(dsets))
    ensures o.Pass? ==> AllValid(dsets)
    ensures o.Pass? <==> Placed(dsets, old(fs.dirs))
    ensures o.Pass? && DistinctPaths(dsets) ==> Stored(dsets, fs.files)
  {
    var i := 0;
    while i < |dsets|
      invariant i <= |dsets|
      invariant fs.Valid() && fs.dirs == old(fs.dirs)
      invariant SameOutside(old(fs.files), fs.files, PathsOf(dsets))
      invariant OverwrittenPrefix(dsets, i, fs.files, fs.dirs)
    {
      assert dsets[i] in dsets;
      o := OverwriteAt(dsets, i, fs, rng);
      if o.Fail? {
        return;
      }
      i := i + 1;
    }
    o := Pass;
  }

  method UnlinkPhase(dsets: seq<DataPath>, fs: FileSystem) returns (o: Outcome)
    requires fs.Valid()
    modifies fs
    ensures fs.Valid() && fs.dirs == old(fs.dirs)
    ensures SameOutside(old(fs.files), fs.files, PathsOf(dsets))
    ensures o.Pass? <==> DistinctPaths(dsets) && PathsOf(dsets) <= old(fs.files).Keys
    ensures o.Pass? ==> fs.files == old(fs.files) - PathsOf(dsets)
  {
    var i := 0;
    while i < |dsets|
      invariant i <= |dsets|
      invariant fs.Valid() && fs.dirs == old(fs.dirs)
      invariant fs.files == old(fs.files) - PathsOf(dsets[..i])
      invariant DistinctPaths(dsets[..i]) && PathsOf(dsets[..i]) <= old(fs.files).Keys
    {
      PathsOfStep(dsets, i);
      o := dsets[i].Unlink(fs);
      if o.Fail? {
        if dsets[i].path in old(fs.files) {
          var d :| d in dsets[..i] && d.path == dsets[i].path;
          var k :| 0 <= k < i && dsets[..i][k] == d;
          assert dsets[k].path == dsets[i].path;
        } else {
          assert dsets[i] in dsets;
        }
        return;
      }
      assert dsets[..i + 1] == dsets[..i] + [dsets[i]];
      i := i + 1;
    }
    assert dsets[..i] == dsets;
    o := Pass;
  }

  /** The two read-only checks of the phased run. */
  datatype Check = VerifyCheck | NoentCheck

  function Checked(d: DataPath, c: Check, fs: FileSystem): Outcome
    reads d, fs
  {
    match c
    case VerifyCheck => d.Verify(fs)
    case NoentCheck => d.VerifyNoent(fs)
  }

  /** A check run over the list: the first failure, or Pass. */
  function CheckAll(dsets: seq<DataPath>, c: Check, fs: FileSystem): Outcome
    reads fs, set d | d in dsets
  {
    if |dsets| == 0 then Pass
    else match Checked(dsets[0], c, fs)
      case Fail(e) => Fail(e)
      case Pass => CheckAll(dsets[1..], c, fs)
  }

  /** The check passes over the list iff it passes for every element. */
  lemma {:induction false} CheckAllPass(dsets: seq<DataPath>, c: Check, fs: FileSystem)
    ensures CheckAll(dsets, c, fs).Pass? <==> forall k :: 0 <= k < |dsets| ==> Checked(dsets[k], c, fs).Pass?
  {
    if |dsets| > 0 {
      CheckAllPass(dsets[1..], c, fs);
      assert forall k :: 1 <= k < |dsets| ==> dsets[1..][k - 1] == dsets[k];
    }
  }

  /** A failing check reports the error of the first element that fails. */
  lemma {:induction false} CheckAllFirstFailure(dsets: seq<DataPath>, c: Check, fs: FileSystem)
    requires CheckAll(dsets, c, fs).Fail?
    ensures exists k ::
      && 0 <= k < |dsets| && CheckAll(dsets, c, fs) == Checked(dsets[k], c, fs)
      && forall j :: 0 <= j < k ==> Checked(dsets[j], c, fs).Pass?
  {
    if Checked(dsets[0], c, fs).Pass? {
      CheckAllFirstFailure(dsets[1..], c, fs);
      var k :| 0 <= k < |dsets[1..]| && CheckAll(dsets[1..], c, fs) == Checked(dsets[1..][k], c, fs)
        && forall j :: 0 <= j < k ==> Checked(dsets[1..][j], c, fs).Pass?;
      assert forall j :: 0 <= j < k ==> dsets[1..][j] == dsets[j + 1];
      assert CheckAll(dsets, c, fs) == Checked(dsets[k + 1], c, fs);
    } else {
      assert CheckAll(dsets, c, fs) == Checked(dsets[0], c, fs);
    }
  }

  /** `for dset in dsets: dset.verify()` (or `verify_noent()`). */
  method CheckPhase(dsets: seq<DataPath>, c: Check, fs: FileSystem) returns (o: Outcome)
    ensures o == CheckAll(dsets, c, fs)
  {
    var i := 0;
    while i < |dsets|
      invariant i <= |dsets|
      invariant CheckAll(dsets, c, fs) == CheckAll(dsets[i..], c, fs)
    {
      assert dsets[i..][1..] == dsets[i + 1..];
      o := Checked(dsets[i], c, fs);
      if o.Fail? {
        return;
      }
      i := i + 1;
    }
    o := Pass;
  }

  /** Stored buffers of the declared size pass `verify`. */
  lemma VerifyStored(dsets: seq<DataPath>, fs: FileSystem)
    requires AllValid(dsets) && Stored(dsets, fs.files)
    ensures CheckAll(dsets, VerifyCheck, fs) == Pass
  {
    CheckAllPass(dsets, VerifyCheck, fs);
    forall k | 0 <= k < |dsets| ensures Checked(dsets[k], VerifyCheck, fs).Pass? {
      assert dsets[k] in dsets;
    }
  }

  /** Files removed from directories that remain pass `verify_noent`. */
  lemma NoentRemoved(dsets: seq<DataPath>, fs: FileSystem)
    requires fs.Valid() && Placed(dsets, fs.dirs) && PathsOf(dsets) !! fs.files.Keys
    ensures CheckAll(dsets, NoentCheck, fs) == Pass
  {
    CheckAllPass(dsets, NoentCheck, fs);
    forall k | 0 <= k < |dsets| ensures Checked(dsets[k], NoentCheck, fs).Pass? {
      var d := dsets[k];
      assert d in dsets && d.path in PathsOf(dsets);
      MissingUnderDir(fs, d.path);
    }
  }

  /** The precondition of a clean run: well-formed objects at distinct file
      paths inside existing directories. */
  ghost predicate Faithful(dsets: seq<DataPath>, dirs: set<Path>)
    reads set d | d in dsets
  {
    AllValid(dsets) && DistinctPaths(dsets) && Placed(dsets, dirs)
  }

  /** The first half of `_run_checks`: mkdirs, write, verify, overwrite,
      verify. On a clean run nothing is raised and every file holds its
      object's current data. */
  method StorePhases(dsets: seq<DataPath>, fs: FileSystem, rng: Random) returns (o: Outcome)
    requires fs.Valid()
    modifies fs, rng, set d | d in dsets
    ensures fs.Valid() && old(fs.dirs) <= fs.dirs
    ensures SameOutside(old(fs.files), fs.files, PathsOf(dsets))
    ensures (forall d :: d in dsets ==> Parent(d.path) in old(fs.dirs)) ==> fs.dirs == old(fs.dirs)
    ensures old(Faithful(dsets, fs.dirs)) ==>
      o == Pass && AllValid(dsets) && Stored(dsets, fs.files) && PathsOf(dsets) <= fs.files.Keys
  {
    ghost var good := Faithful(dsets, fs.dirs);
    o := MkdirsPhase(dsets, fs);
    if o.Fail? {
      return;
    }
    o := WritePhase(dsets, fs);
    if o.Fail? {
      return;
    }
    if good {
      VerifyStored(dsets, fs);
    }
    o := CheckPhase(dsets, VerifyCheck, fs);
    if o.Fail? {
      return;
    }
    o := OverwritePhase(dsets, fs, rng);
    if o.Fail? {
      return;
    }
    if good {
      VerifyStored(dsets, fs);
    }
    o := CheckPhase(dsets, VerifyCheck, fs);
  }

  /** The second half of `_run_checks`: unlink, verify_noent. When the files
      are present at distinct paths in existing directories, both pass and
      exactly those files are gone. */
  method RemovePhases(dsets: seq<DataPath>, fs: FileSystem) returns (o: Outcome)
    requires fs.Valid()
    modifies fs
    ensures fs.Valid() && fs.dirs == old(fs.dirs)
    ensures SameOutside(old(fs.files), fs.files, PathsOf(dsets))
    ensures DistinctPaths(dsets) && PathsOf(dsets) <= old(fs.files).Keys && Placed(dsets, fs.dirs) ==>
      o == Pass && fs.files == old(fs.files) - PathsOf(dsets)
  {
    o := UnlinkPhase(dsets, fs);
    if o.Fail? {
      return;
    }
    if Placed(dsets, fs.dirs) {
      NoentRemoved(dsets, fs);
    }
    o := CheckPhase(dsets, NoentCheck, fs);
  }

  /** `_run_checks(dsets)`: mkdirs, write, verify, overwrite, verify, unlink,
      verify_noent, each over the whole list before the next. On a clean run
      nothing is raised, every dataset file is gone and nothing else changed;
      in any case no file outside the dataset changes. */
  method RunChecks(dsets: seq<DataPath>, fs: FileSystem, rng: Random) returns (o: Outcome)
    requires fs.Valid()
    modifies fs, rng, set d | d in dsets
    ensures fs.Valid() && old(fs.dirs) <= fs.dirs
    ensures SameOutside(old(fs.files), fs.files, PathsOf(dsets))
    ensures (forall d :: d in dsets ==> Parent(d.path) in old(fs.dirs)) ==> fs.dirs == old(fs.dirs)
    ensures old(Faithful(dsets, fs.dirs)) ==>
      o == Pass && fs.files == old(fs.files) - PathsOf(dsets) && AllValid(dsets)
  {
    ghost var good := Faithful(dsets, fs.dirs);
    o := StorePhases(dsets, fs, rng);
    if o.Fail? {
      return;
    }
    ghost var written := fs.files;
    o := RemovePhases(dsets, fs);
    if good {
      SameOutsideMinus(old(fs.files), written, PathsOf(dsets));
    }
  }

  /** Maps that agree outside `s` agree once `s` is removed. */
  lemma SameOutsideMinus(a: map<Path, seq<byte>>, b: map<Path, seq<byte>>, s: set<Path>)
    requires SameOutside(a, b, s)
    ensures a - s == b - s
  {
  }

  // -----------------------------------------------------------------------
  // The battery
  // -----------------------------------------------------------------------

  /** Nothing below `base` but `base` itself. */
  ghost predicate Clear(base: Path, files: map<Path, seq<byte>>, dirs: set<Path>)
  {
    && base in dirs
    && (forall q :: q in files ==> !Under(base, q))
    && (forall q :: q in dirs && Under(base, q) ==> q == base)
  }

  /** `a` and `b` agree on every path outside the subtree at `base`. */
  ghost predicate SameOutsideTree(a: map<Path, seq<byte>>, b: map<Path, seq<byte>>, base: Path)
  {
    forall q :: !Under(base, q) ==> (q in a <==> q in b) && (q in a ==> a[q] == b[q])
  }

  /** `_run_checks(_make_datasets(base, size, count))` on an existing `base`. */
  method RunCase(fs: FileSystem, rng: Random, base: Path, size: nat, count: nat, gen: Generator) returns (o: Outcome)
    requires fs.Valid() && base in fs.dirs
    modifies fs, rng
    ensures fs.Valid() && fs.dirs == old(fs.dirs)
    ensures SameOutsideTree(old(fs.files), fs.files, base)
    ensures Clear(base, old(fs.files), old(fs.dirs)) ==> o == Pass && fs.files == old(fs.files)
  {
    var dsets := MakeDatasets(rng, base, size, count, gen);
    forall d | d in dsets ensures Parent(d.path) == base {
    }
    ghost var clear := Clear(base, fs.files, fs.dirs);
    if clear {
      forall d | d in dsets ensures d.path !in fs.dirs {
        assert Under(base, d.path) && d.path != base;
      }
    }
    o := RunChecks(dsets, fs, rng);
    if clear {
      forall q ensures q in fs.files <==> q in old(fs.files) {
        if q in PathsOf(dsets) {
          var d :| d in dsets && d.path == q;
          assert Under(base, d.path);
        }
      }
    }
  }

  /** Removing the subtree at `base` forgets any difference inside it. */
  lemma OutsideOfSame(a: map<Path, seq<byte>>, b: map<Path, seq<byte>>, base: Path)
    requires SameOutsideTree(a, b, base)
    ensures Outside(a, base) == Outside(b, base)
  {
  }

  /** The four cases of `_check_io_consistency`, in order, stopping at the
      first that raises. */
  method RunCases(fs: FileSystem, rng: Random, base: Path) returns (o: Outcome)
    requires fs.Valid() && base in fs.dirs
    modifies fs, rng
    ensures fs.Valid() && fs.dirs == old(fs.dirs)
    ensures SameOutsideTree(old(fs.files), fs.files, base)
    ensures Clear(base, old(fs.files), old(fs.dirs)) ==> o == Pass && fs.files == old(fs.files)
  {
    o := RunCase(fs, rng, base, 4096, 1, HelperBytes);
    if o.Fail? {
      return;
    }
    o := RunCase(fs, rng, base, 16777216, 1, HelperBytes);
    if o.Fail? {
      return;
    }
    o := RunCase(fs, rng, base, 1048576, 10, HelperBytes);
    if o.Fail? {
      return;
    }
    o := RunCase(fs, rng, base, 1024, 100, HelperBytes);
  }

  /** `_check_io_consistency(test_dir)`: makes test_dir/"test_io_consistency"
      (parents, but not an existing one), runs the cases, and removes the
      base directory in `finally`, even when the `mkdir` itself failed. A
      regular file already at base makes the `mkdir` raise FileExistsError
      and survives the `rmtree`. */
  method CheckIoConsistency(fs: FileSystem, rng: Random, testDir: Path) returns (o: Outcome)
    requires fs.Valid()
    modifies fs, rng
    ensures fs.Valid()
    ensures testDir + ["test_io_consistency"] in old(fs.files) ==>
      o == Fail(FileExists(testDir + ["test_io_consistency"])) && fs.files == old(fs.files) && fs.dirs == old(fs.dirs)
    ensures testDir + ["test_io_consistency"] !in old(fs.files) ==>
      fs.files == Outside(old(fs.files), testDir + ["test_io_consistency"])
    ensures testDir in old(fs.dirs) && testDir + ["test_io_consistency"] !in old(fs.files) ==>
      fs.dirs == set q | q in old(fs.dirs) && !Under(testDir + ["test_io_consistency"], q)
    ensures testDir in old(fs.dirs) && !old(fs.Exists(testDir + ["test_io_consistency"])) ==> o == Pass
  {
    var base := testDir + ["test_io_consistency"];
    ghost var clean := testDir in fs.dirs && !fs.Exists(base);
    if clean {
      NothingUnderMissing(fs, base);
    }
    o := fs.Mkdir(base, true, false);
    ghost var made := fs.files;
    if o.Pass? {
      o := RunCases(fs, rng, base);
    }
    OutsideOfSame(made, fs.files, base);
    fs.RmTree(base);
  }
}
