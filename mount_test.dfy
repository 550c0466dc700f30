/** testcases/mount/test_mount.py: the (interface, share) parameter list
    and `mount_check`, which mounts a share on a fresh mount point, runs the
    I/O and dbm checkers in a directory on it, and cleans up in `finally`
    according to `flag_mounted`. As written, the directory name is built by
    adding a string to a `pathlib.Path`, which raises; `MountCheck` models
    that code and `MountCheckJoined` the evident `mount_point / "mount_test"`. */
module MountTest {
  import opened Common
  import opened Fs
  import opened Rand
  import opened Host
  import opened TestHelper
  import opened CmdHelper
  import opened FsHelper
  import MountIo
  import MountDbm

  /** `generate_mount_check(test_info)`: [] for an empty document; else
      every interface paired with every exported share, interface-major.
      The share list is looked up once per interface, so a document without
      it fails only when some interface is listed. */
  method GenerateMountCheck(info: TestInfo) returns (r: Result<seq<(string, string)>>)
    ensures info == EmptyInfo ==> r == Ok([])
    ensures info != EmptyInfo && info.publicInterfaces.None? ==> r == Err(KeyError("public_interfaces"))
    ensures info != EmptyInfo && info.publicInterfaces.Some? ==>
      if info.publicInterfaces.value == [] then r == Ok([])
      else if info.exportedSharenames.None? then r == Err(KeyError("exported_sharenames"))
      else r == Ok(Cross(info.publicInterfaces.value, info.exportedSharenames.value))
    ensures r.Ok? && info.exportedSharenames.Some? && info.publicInterfaces.Some? ==>
      |r.value| == |info.publicInterfaces.value| * |info.exportedSharenames.value|
  {
    if info == EmptyInfo {
      return Ok([]);
    }
    var interfaces :- Get(info.publicInterfaces, "public_interfaces");
    var arr: seq<(string, string)> := [];
    var i := 0;
    while i < |interfaces|
      invariant i <= |interfaces|
      invariant i > 0 ==> info.exportedSharenames.Some? && arr == Cross(interfaces[..i], info.exportedSharenames.value)
      invariant i == 0 ==> arr == []
    {
      var shares :- Get(info.exportedSharenames, "exported_sharenames");
      var j := 0;
      while j < |shares|
        invariant j <= |shares| && arr == Cross(interfaces[..i], shares) + Row(interfaces[i], shares[..j])
      {
        assert Row(interfaces[i], shares[..j + 1]) == Row(interfaces[i], shares[..j]) + [(interfaces[i], shares[j])];
        arr := arr + [(interfaces[i], shares[j])];
        j := j + 1;
      }
      assert shares[..j] == shares;
      CrossStep(interfaces, shares, i);
      i := i + 1;
    }
    assert interfaces[..i] == interfaces;
    if info.exportedSharenames.Some? {
      CrossLength(interfaces, info.exportedSharenames.value);
    }
    r := Ok(arr);
  }

  /** Lines 24-37 of `mount_check` as written, on a fresh mount point under
      a fresh tmp root. After a successful mount the flag is set and
      `mount_point + "/mount_test"` raises before `test_dir` is bound; the
      `finally` then reads the unbound `test_dir`, which raises in turn, so
      neither the unmount nor the two rmdirs run. After a failed mount the
      flag is clear and the two directories are removed. */
  method AsWrittenSession(fs: FileSystem, sh: Shell, mp: MountParams, tmpRoot: Path, mountPoint: Path)
    returns (o: Outcome)
    requires fs.Valid()
    requires tmpRoot != [] && tmpRoot in fs.dirs && mountPoint in fs.dirs && Parent(mountPoint) == tmpRoot
    requires forall q :: q in fs.Paths() && Under(tmpRoot, q) ==> q == tmpRoot || q == mountPoint
    modifies fs, sh
    ensures fs.Valid()
    ensures var n := |old(sh.log)|;
      |sh.log| > n && sh.codes(n) == 0 ==>
        && o == Fail(UnboundLocalError("test_dir"))
        && sh.log == old(sh.log) + [sh.log[n]] && sh.log[n].Mount? && sh.log[n].target == PathStr(mountPoint)
        && PathStr(mountPoint) in sh.mounted
        && fs.files == old(fs.files) && fs.dirs == old(fs.dirs)
    ensures var n := |old(sh.log)|;
      !(|sh.log| > n && sh.codes(n) == 0) ==>
        && o.Fail? && sh.mounted == old(sh.mounted)
        && fs.files == old(fs.files) && fs.dirs == old(fs.dirs) - {tmpRoot, mountPoint}
  {
    var flagMounted := false;
    var m := CifsMount(sh, mp, PathStr(mountPoint), "");
    if m.Err? {
      o := Fail(m.error);
    } else {
      flagMounted := true;
      // `mount_point + "/mount_test"`: a Path and a string do not add.
      o := Fail(TypeError);
    }
    // finally
    if flagMounted {
      // `shutil.rmtree(test_dir, ...)` reads the never-bound `test_dir`.
      return Fail(UnboundLocalError("test_dir"));
    }
    var rm := RemoveMountDirs(fs, tmpRoot, mountPoint);
  }

  /** `mount_check(ipaddr, share_name)` as written, with `os.getpid()` as
      `pid`: the default combination with only the host replaced, a fresh
      mount point under a fresh tmp root, then the session. Whenever the
      mount succeeds the check raises, the share stays mounted with no
      unmount issued, and the tmp root and mount point stay behind. */
  method MountCheck(fs: FileSystem, sh: Shell, info: TestInfo, ipaddr: string, shareName: string, pid: nat)
    returns (o: Outcome)
    requires fs.Valid()
    modifies fs, sh
    ensures fs.Valid()
    ensures GetMountParameters(info, shareName, 0).Err? ==>
      o == Fail(GetMountParameters(info, shareName, 0).error) && sh.log == old(sh.log)
    ensures var n := |old(sh.log)|;
      |sh.log| > n && sh.codes(n) == 0 ==>
        && o == Fail(UnboundLocalError("test_dir"))
        && sh.log == old(sh.log) + [sh.log[n]] && sh.log[n].Mount?
        && sh.log[n].target in sh.mounted
        && old(fs.dirs) < fs.dirs
    ensures var n := |old(sh.log)|;
      |sh.log| > n && sh.codes(n) != 0 ==>
        o.Fail? && sh.mounted == old(sh.mounted) && fs.files == old(fs.files) && fs.dirs == old(fs.dirs)
  {
    var params := GetMountParameters(info, shareName, 0);
    if params.Err? {
      return Fail(params.error);
    }
    var mp := OverrideHost(params.value, ipaddr);
    var root := GetTmpRoot(fs, ["tmp"], pid);
    if root.Err? {
      return Fail(root.error);
    }
    var tmpRoot := root.value;
    // `get_tmp_mount_point` cannot raise here: tmp_root was just made.
    var point := GetTmpMountPoint(fs, tmpRoot);
    o := AsWrittenSession(fs, sh, mp, tmpRoot, point.value);
  }

  /** Lines 28-31 of `mount_check` with the directory joined as a path:
      `os.mkdir(test_dir)`, then the I/O checker and the dbm checker in it.
      In a new directory whose parent exists both checkers pass and clean up
      after themselves, so only the new directory remains. */
  method RunChecks(fs: FileSystem, rng: Random, hash: string -> string, testDir: Path) returns (o: Outcome)
    requires fs.Valid()
    modifies fs, rng
    ensures fs.Valid()
    ensures testDir != [] && Parent(testDir) in old(fs.dirs) && (forall q :: q in old(fs.Paths()) ==> !Under(testDir, q)) ==>
      o == Pass && fs.files == old(fs.files) && fs.dirs == old(fs.dirs) + {testDir}
  {
    ghost var clean := testDir != [] && Parent(testDir) in fs.dirs && (forall q :: q in fs.Paths() ==> !Under(testDir, q));
    o := fs.Mkdir(testDir, false, false);
    if o.Fail? {
      return;
    }
    if clean {
      ChildSubtreeEmpty(fs.files, fs.dirs, testDir, "test_io_consistency");
    }
    o := MountIo.CheckIoConsistency(fs, rng, testDir);
    if o.Fail? {
      return;
    }
    if clean {
      ChildSubtreeEmpty(fs.files, fs.dirs, testDir, "dbm-consistency");
    }
    o := MountDbm.CheckDbmConsistencyAt(fs, rng, hash, testDir);
  }

  /** Lines 27-35 of `mount_check` with the directory joined as a path, once
      the share is mounted on a fresh, empty mount point: the flag is set, the
      checks run in `mount_point / "mount_test"`, and the first two steps of
      the `finally` remove that directory and unmount. `body` is how the
      checks completed (they pass), `unmount` how the unmount did. */
  method CheckAndUnmount(fs: FileSystem, sh: Shell, rng: Random, hash: string -> string, mountPoint: Path)
    returns (body: Outcome, unmount: Outcome)
    requires fs.Valid()
    requires mountPoint != [] && mountPoint in fs.dirs
    requires forall q :: q in fs.Paths() && Under(mountPoint, q) ==> q == mountPoint
    modifies fs, sh, rng
    ensures fs.Valid() && fs.files == old(fs.files) && fs.dirs == old(fs.dirs)
    ensures var t := PathStr(mountPoint);
      sh.log == old(sh.log) + [Umount(UmountCommand(t), t)]
    ensures sh.mounted == Effect(old(sh.mounted), sh.log[|old(sh.log)|], sh.codes(|old(sh.log)|))
    ensures body == Pass
    ensures unmount.Pass? <==> sh.codes(|old(sh.log)|) == 0
  {
    var testDir := mountPoint + ["mount_test"];
    assert forall q :: q in fs.Paths() ==> !Under(testDir, q) by {
      forall q | q in fs.Paths() ensures !Under(testDir, q) {
        if Under(testDir, q) {
          UnderParent(testDir, q);
        }
      }
    }
    body := RunChecks(fs, rng, hash, testDir);
    // finally
    fs.RmTree(testDir);
    var u := CifsUmount(sh, PathStr(mountPoint));
    unmount := if u.Err? then Fail(u.error) else Pass;
  }

  /** Lines 36-37 of `mount_check`: `os.rmdir` of the mount point, then of
      the tmp root. Both are empty by then, so both removals succeed. */
  method RemoveMountDirs(fs: FileSystem, tmpRoot: Path, mountPoint: Path) returns (o: Outcome)
    requires fs.Valid()
    requires tmpRoot != [] && tmpRoot in fs.dirs && mountPoint in fs.dirs && Parent(mountPoint) == tmpRoot
    requires forall q :: q in fs.Paths() && Under(tmpRoot, q) ==> q == tmpRoot || q == mountPoint
    modifies fs
    ensures fs.Valid() && o == Pass
    ensures fs.files == old(fs.files) && fs.dirs == old(fs.dirs) - {tmpRoot, mountPoint}
  {
    assert !fs.HasEntries(mountPoint) by {
      forall q | q in fs.Paths() && q != mountPoint ensures !Under(mountPoint, q) {
        if Under(mountPoint, q) {
          UnderParent(mountPoint, q);
        }
      }
    }
    o := fs.Rmdir(mountPoint);
    assert !fs.HasEntries(tmpRoot);
    o := fs.Rmdir(tmpRoot);
  }

  /** Lines 24-37 of `mount_check` with the directory joined as a path, on a
      fresh mount point under a fresh tmp root: mount, then (flag set) the
      checks and the unmount; the `finally` goes on to remove the mount point
      and the tmp root unless the unmount raised, and an exception of the
      `finally` replaces the checks' outcome. */
  method JoinedSession(fs: FileSystem, sh: Shell, rng: Random, hash: string -> string, mp: MountParams,
                       tmpRoot: Path, mountPoint: Path)
    returns (o: Outcome)
    requires fs.Valid()
    requires tmpRoot != [] && tmpRoot in fs.dirs && mountPoint in fs.dirs && Parent(mountPoint) == tmpRoot
    requires forall q :: q in fs.Paths() && Under(tmpRoot, q) ==> q == tmpRoot || q == mountPoint
    modifies fs, sh, rng
    ensures fs.Valid()
    ensures var n := |old(sh.log)|;
      |sh.log| > n && sh.codes(n) == 0 ==>
        var t := PathStr(mountPoint);
        sh.log == old(sh.log) + [sh.log[n], Umount(UmountCommand(t), t)]
    ensures var n := |old(sh.log)|;
      |sh.log| > n && sh.codes(n) == 0 && sh.codes(n + 1) == 0 ==>
        && o == Pass && sh.mounted == old(sh.mounted) - {PathStr(mountPoint)}
        && fs.files == old(fs.files) && fs.dirs == old(fs.dirs) - {tmpRoot, mountPoint}
    ensures var n := |old(sh.log)|;
      !(|sh.log| > n && sh.codes(n) == 0) ==>
        o.Fail? && sh.mounted == old(sh.mounted) && fs.files == old(fs.files)
  {
    var target := PathStr(mountPoint);
    var m := CifsMount(sh, mp, target, "");
    if m.Err? {
      o := Fail(m.error);
      // finally, with the flag clear: only the two rmdirs
      var rm := RemoveMountDirs(fs, tmpRoot, mountPoint);
      return;
    }
    assert forall q :: q in fs.Paths() && Under(mountPoint, q) ==> q == mountPoint by {
      forall q | q in fs.Paths() && Under(mountPoint, q) ensures q == mountPoint {
        UnderParent(mountPoint, q);
      }
    }
    var body, unmount := CheckAndUnmount(fs, sh, rng, hash, mountPoint);
    if unmount.Fail? {
      // the unmount raised: the rest of the `finally` is skipped
      return unmount;
    }
    var rm := RemoveMountDirs(fs, tmpRoot, mountPoint);
    o := Finally(body, rm);
  }

  /** `mount_check(ipaddr, share_name)` with the directory joined as a path
      and `os.getpid()` as `pid`: the default combination with only the host
      replaced, a fresh mount point under a fresh tmp root, then the
      session. When the mount and the unmount both succeed the check
      passes, nothing new stays mounted, and the filesystem is as before. */
  method MountCheckJoined(fs: FileSystem, sh: Shell, rng: Random, hash: string -> string, info: TestInfo,
                          ipaddr: string, shareName: string, pid: nat)
    returns (o: Outcome)
    requires fs.Valid()
    modifies fs, sh, rng
    ensures fs.Valid()
    ensures GetMountParameters(info, shareName, 0).Err? ==>
      o == Fail(GetMountParameters(info, shareName, 0).error) && sh.log == old(sh.log)
    ensures var n := |old(sh.log)|;
      |sh.log| > n && sh.codes(n) == 0 && sh.codes(n + 1) == 0 ==>
        && o == Pass && sh.mounted <= old(sh.mounted)
        && fs.files == old(fs.files) && fs.dirs == old(fs.dirs)
  {
    var params := GetMountParameters(info, shareName, 0);
    if params.Err? {
      return Fail(params.error);
    }
    var mp := OverrideHost(params.value, ipaddr);
    var root := GetTmpRoot(fs, ["tmp"], pid);
    if root.Err? {
      return Fail(root.error);
    }
    var tmpRoot := root.value;
    // `get_tmp_mount_point` cannot raise here: tmp_root was just made.
    var point := GetTmpMountPoint(fs, tmpRoot);
    o := JoinedSession(fs, sh, rng, hash, mp, tmpRoot, point.value);
  }
}
