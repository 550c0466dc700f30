/** testcases/mount/test_mount_io.py: the phased checker with buffers from
    `random.randbytes` and no absence check after the unlink phase. */
module MountIoTest {
  import opened Common
  import opened Fs
  import opened Rand
  import opened IoCheck

  /** `_run_test(dsets)`: mkdirs, write, verify, overwrite, verify, unlink,
      each over the whole list. On a clean run nothing is raised and every
      dataset file is gone; no file outside the dataset ever changes. */
  method RunTest(dsets: seq<DataPath>, fs: FileSystem, rng: Random) returns (o: Outcome)
    requires fs.Valid()
    modifies fs, rng, set d | d in dsets
    ensures fs.Valid() && old(fs.dirs) <= fs.dirs
    ensures SameOutside(old(fs.files), fs.files, PathsOf(dsets))
    ensures (forall d :: d in dsets ==> Parent(d.path) in old(fs.dirs)) ==> fs.dirs == old(fs.dirs)
    ensures old(Faithful(dsets, fs.dirs)) ==>
      o == Pass && fs.files == old(fs.files) - PathsOf(dsets) && AllValid(dsets)
  {
    ghost var good := Faithful(dsets, fs.dirs);
    o := MkdirsPhase(dsets, fs);
    if o.Fail? {
      return;
    }
    o := WritePhase(dsets, fs);
    if o.Fail? {
      return;
    }
    if good {
      VerifyStored(dsets, fs);
    }
    o := CheckPhase(dsets, VerifyCheck, fs);
    if o.Fail? {
      return;
    }
    o := OverwritePhase(dsets, fs, rng);
    if o.Fail? {
      return;
    }
    if good {
      VerifyStored(dsets, fs);
      assert PathsOf(dsets) <= fs.files.Keys;
    }
    ghost var written := fs.files;
    o := UnlinkPhase(dsets, fs);
    if good {
      SameOutsideMinus(old(fs.files), written, PathsOf(dsets));
    }
  }

  /** `_run_test(_make_datasets(base, size, count))` on an existing `base`;
      the datasets draw their buffers with `random.randbytes`. */
  method RunCase(fs: FileSystem, rng: Random, base: Path, size: nat, count: nat) returns (o: Outcome)
    requires fs.Valid() && base in fs.dirs
    modifies fs, rng
    ensures fs.Valid() && fs.dirs == old(fs.dirs)
    ensures SameOutsideTree(old(fs.files), fs.files, base)
    ensures Clear(base, old(fs.files), old(fs.dirs)) ==> o == Pass && fs.files == old(fs.files)
  {
    var dsets := IoCheck.MakeDatasets(rng, base, size, count, RandBytes);
    forall d | d in dsets ensures Parent(d.path) == base {
    }
    ghost var clear := Clear(base, fs.files, fs.dirs);
    if clear {
      forall d | d in dsets ensures d.path !in fs.dirs {
        assert Under(base, d.path) && d.path != base;
      }
    }
    o := RunTest(dsets, fs, rng);
    if clear {
      forall q ensures q in fs.files <==> q in old(fs.files) {
        if q in PathsOf(dsets) {
          var d :| d in dsets && d.path == q;
          assert Under(base, d.path);
        }
      }
    }
  }

  /** The three cases, in order: (1024, 10000), (2^20, 10), (2^24, 1). */
  method RunCases(fs: FileSystem, rng: Random, base: Path) returns (o: Outcome)
    requires fs.Valid() && base in fs.dirs
    modifies fs, rng
    ensures fs.Valid() && fs.dirs == old(fs.dirs)
    ensures SameOutsideTree(old(fs.files), fs.files, base)
    ensures Clear(base, old(fs.files), old(fs.dirs)) ==> o == Pass && fs.files == old(fs.files)
  {
    o := RunCase(fs, rng, base, 1024, 10000);
    if o.Fail? {
      return;
    }
    o := RunCase(fs, rng, base, 1048576, 10);
    if o.Fail? {
      return;
    }
    o := RunCase(fs, rng, base, 16777216, 1);
  }

  /** `_test_io_consistency(rootdir)`: base is rootdir/"test_io_consistency",
      made with its parents but not when it exists, and removed in `finally`
      once it has been named; a regular file already at base makes the
      `mkdir` raise FileExistsError and survives the `rmtree`. */
  method TestIoConsistency(fs: FileSystem, rng: Random, rootdir: Path) returns (o: Outcome)
    requires fs.Valid()
    modifies fs, rng
    ensures fs.Valid()
    ensures rootdir + ["test_io_consistency"] in old(fs.files) ==>
      o == Fail(FileExists(rootdir + ["test_io_consistency"])) && fs.files == old(fs.files) && fs.dirs == old(fs.dirs)
    ensures rootdir + ["test_io_consistency"] !in old(fs.files) ==>
      fs.files == Outside(old(fs.files), rootdir + ["test_io_consistency"])
    ensures rootdir in old(fs.dirs) && rootdir + ["test_io_consistency"] !in old(fs.files) ==>
      fs.dirs == set q | q in old(fs.dirs) && !Under(rootdir + ["test_io_consistency"], q)
    ensures rootdir in old(fs.dirs) && !old(fs.Exists(rootdir + ["test_io_consistency"])) ==> o == Pass
  {
    var base := rootdir + ["test_io_consistency"];
    ghost var clean := rootdir in fs.dirs && !fs.Exists(base);
    if clean {
      NothingUnderMissing(fs, base);
    }
    o := fs.Mkdir(base, true, false);
    ghost var made := fs.files;
    if o.Pass? {
      o := RunCases(fs, rng, base);
    }
    OutsideOfSame(made, fs.files, base);
    fs.RmTree(base);
  }
}
