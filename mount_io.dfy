/** testcases/mount/mount_io.py: the same checker as testcases/misc/test_io.py
    (module IoCheck), reached through `check_io_consistency(rootdir)`. */
module MountIo {
  import opened Common
  import opened Fs
  import opened Rand
  import IoCheck

  /** `check_io_consistency(rootdir)`: the battery under
      rootdir/"test_io_consistency"; reseeding the generator is not modelled. */
  method CheckIoConsistency(fs: FileSystem, rng: Random, rootdir: Path) returns (o: Outcome)
    requires fs.Valid()
    modifies fs, rng
    ensures fs.Valid()
    ensures rootdir + ["test_io_consistency"] in old(fs.files) ==>
      o == Fail(FileExists(rootdir + ["test_io_consistency"])) && fs.files == old(fs.files) && fs.dirs == old(fs.dirs)
    ensures rootdir + ["test_io_consistency"] !in old(fs.files) ==>
      fs.files == Outside(old(fs.files), rootdir + ["test_io_consistency"])
    ensures rootdir in old(fs.dirs) && rootdir + ["test_io_consistency"] !in old(fs.files) ==>
      fs.dirs == set q | q in old(fs.dirs) && !Under(rootdir + ["test_io_consistency"], q)
    ensures rootdir in old(fs.dirs) && !old(fs.Exists(rootdir + ["test_io_consistency"])) ==> o == Pass
  {
    o := IoCheck.CheckIoConsistency(fs, rng, rootdir);
  }
}
