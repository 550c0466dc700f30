/** testcases/misc/conftest.py: the `setup_mount` fixture, which mounts a
    share on a fresh mount point and hands the test a new directory on it,
    its teardown, and the parameter list of (interface, share) pairs. The
    generator function's frame across its `yield` is the class
    `MountFixture`. */
module Conftest {
  import opened Common
  import opened Fs
  import opened Host
  import opened TestHelper
  import opened CmdHelper
  import opened FsHelper

  /** `pytest.param((ipaddr, share_name), id=...)` */
  datatype MountParam = MountParam(ipaddr: string, shareName: string, id: string)

  /** `f"{ipaddr}-{share_name}"` */
  function ParamId(ipaddr: string, shareName: string): string
  {
    ipaddr + "-" + shareName
  }

  /** For one interface, different shares get different ids. */
  lemma ParamIdInjective(ipaddr: string, a: string, b: string)
    requires ParamId(ipaddr, a) == ParamId(ipaddr, b)
    ensures a == b
  {
    assert a == ParamId(ipaddr, a)[|ipaddr| + 1..];
    assert b == ParamId(ipaddr, b)[|ipaddr| + 1..];
  }

  /** `generate_mount_check()`: the first interface only, and one parameter
      per exported share in order; a document without exported shares gives
      none. */
  method GenerateMountCheck(info: TestInfo) returns (r: Result<seq<MountParam>>)
    ensures info.publicInterfaces.None? ==> r == Err(KeyError("public_interfaces"))
    ensures info.publicInterfaces.Some? && info.publicInterfaces.value == [] ==> r == Err(IndexError)
    ensures info.publicInterfaces.Some? && info.publicInterfaces.value != [] ==>
      var ipaddr := info.publicInterfaces.value[0];
      var shares := if info.exportedSharenames.Some? then info.exportedSharenames.value else [];
      && r.Ok? && |r.value| == |shares|
      && forall k :: 0 <= k < |shares| ==> r.value[k] == MountParam(ipaddr, shares[k], ParamId(ipaddr, shares[k]))
  {
    var interfaces :- Get(info.publicInterfaces, "public_interfaces");
    var ipaddr :- PyIndex(interfaces, 0);
    var exportedSharenames := if info.exportedSharenames.Some? then info.exportedSharenames.value else [];
    var arr: seq<MountParam> := [];
    var i := 0;
    while i < |exportedSharenames|
      invariant i <= |exportedSharenames| && |arr| == i
      invariant forall k :: 0 <= k < i ==>
        arr[k] == MountParam(ipaddr, exportedSharenames[k], ParamId(ipaddr, exportedSharenames[k]))
    {
      var shareName := exportedSharenames[i];
      arr := arr + [MountParam(ipaddr, shareName, ParamId(ipaddr, shareName))];
      i := i + 1;
    }
    r := Ok(arr);
  }

  /** Distinct exported shares give distinct parameter ids. */
  lemma GeneratedIdsDistinct(info: TestInfo, params: seq<MountParam>)
    requires info.publicInterfaces.Some? && info.publicInterfaces.value != []
    requires info.exportedSharenames.Some?
    requires var shares := info.exportedSharenames.value;
      forall i, j :: 0 <= i < j < |shares| ==> shares[i] != shares[j]
    requires var shares := info.exportedSharenames.value;
      && |params| == |shares|
      && forall k :: 0 <= k < |shares| ==>
           params[k] == MountParam(info.publicInterfaces.value[0], shares[k], ParamId(info.publicInterfaces.value[0], shares[k]))
    ensures forall i, j :: 0 <= i < j < |params| ==> params[i].id != params[j].id
  {
    var ipaddr := info.publicInterfaces.value[0];
    var shares := info.exportedSharenames.value;
    forall i, j | 0 <= i < j < |params| ensures params[i].id != params[j].id {
      if params[i].id == params[j].id {
        ParamIdInjective(ipaddr, shares[i], shares[j]);
      }
    }
  }

  /** What `RmTree` leaves of `dirs` when it removes `base`. */
  function DirsOutside(dirs: set<Path>, base: Path): set<Path>
  {
    set q | q in dirs && (q == [] || !Under(base, q))
  }

  /** Once the test directory's tree is gone, only the mount point and the
      tmp root remain under the tmp root, and removing them too leaves what
      was outside the tmp root. */
  lemma FixtureEmptied(files: map<Path, seq<byte>>, dirs: set<Path>, tmpRoot: Path, mountPoint: Path, testDir: Path)
    requires tmpRoot != [] && Parent(mountPoint) == tmpRoot && mountPoint != [] && testDir == mountPoint + ["mount_test"]
    requires files.Keys !! dirs && tmpRoot in dirs && mountPoint in dirs
    requires forall q :: (q in files || q in dirs) && Under(tmpRoot, q) ==> q == tmpRoot || q == mountPoint || Under(testDir, q)
    ensures Outside(files, testDir) == Outside(files, tmpRoot)
    ensures DirsOutside(dirs, testDir) - {mountPoint, tmpRoot} == set q | q in dirs && !Under(tmpRoot, q)
    ensures forall q :: (q in Outside(files, testDir) || q in DirsOutside(dirs, testDir)) && Under(tmpRoot, q) ==>
      q == tmpRoot || q == mountPoint
  {
    forall q | q in files && Under(tmpRoot, q) ensures Under(testDir, q) {
    }
    assert Outside(files, testDir).Keys == Outside(files, tmpRoot).Keys;
  }

  /** Lines 20-21 of `setup_mount`: `get_tmp_root()`, then
      `get_tmp_mount_point(tmp_root)`, which cannot raise once the root is
      made. On success both are new, the mount point is the root's only
      entry, and nothing else changed. */
  method MakeTmpMountPoint(fs: FileSystem, pid: nat) returns (r: Result<(Path, Path)>)
    requires fs.Valid()
    modifies fs
    ensures fs.Valid() && fs.files == old(fs.files)
    ensures r.Err? ==> fs.dirs == old(fs.dirs) && (r.error.FileNotFound? || r.error.NotADirectory?)
    ensures r.Ok? ==>
      var (tmpRoot, mountPoint) := r.value;
      && tmpRoot != [] && Parent(mountPoint) == tmpRoot
      && fs.dirs == old(fs.dirs) + {tmpRoot, mountPoint}
      && (forall q :: q in old(fs.Paths()) ==> !Under(tmpRoot, q))
      && (forall q :: q in fs.Paths() && Under(tmpRoot, q) ==> q == tmpRoot || q == mountPoint)
  {
    var root := GetTmpRoot(fs, ["tmp"], pid);
    if root.Err? {
      return Err(root.error);
    }
    // `get_tmp_mount_point` cannot raise here: tmp_root was just made.
    var point := GetTmpMountPoint(fs, root.value);
    r := Ok((root.value, point.value));
  }

  /** The frame of the `setup_mount` generator between setup and teardown. */
  class MountFixture {
    var tmpRoot: Path
    var mountPoint: Path
    var testDir: Path
    var flagMounted: bool

    constructor ()
      ensures !flagMounted
    {
      tmpRoot, mountPoint, testDir := [], [], [];
      flagMounted := false;
    }

    /** The fixture's three directories exist, and everything under the tmp
        root is the root, the mount point, or lies in the test directory. */
    ghost predicate Holds(fs: FileSystem)
      reads this, fs
    {
      && tmpRoot != [] && tmpRoot in fs.dirs
      && mountPoint in fs.dirs && Parent(mountPoint) == tmpRoot
      && testDir == mountPoint + ["mount_test"]
      && forall q :: q in fs.Paths() && Under(tmpRoot, q) ==> q == tmpRoot || q == mountPoint || Under(testDir, q)
    }

    /** The setup half of `setup_mount((ipaddr, share_name))` with
        `os.getpid()` as `pid`: the tmp root and mount point are made first,
        outside the `try`, so their exceptions pass unchanged; then the
        `try` part. On success the flag is set, the share mounted, and
        exactly the three new directories exist. */
    method Setup(fs: FileSystem, sh: Shell, info: TestInfo, ipaddr: string, shareName: string, pid: nat)
      returns (r: Result<Path>)
      requires fs.Valid()
      modifies this, fs, sh
      ensures fs.Valid() && fs.files == old(fs.files)
      ensures flagMounted ==> sh.mounted == old(sh.mounted) + {PathStr(mountPoint)}
      ensures !flagMounted ==> sh.mounted == old(sh.mounted)
      ensures r.Ok? ==>
        && flagMounted && Holds(fs) && r.value == testDir
        && fs.dirs == old(fs.dirs) + {tmpRoot, mountPoint, testDir}
        && (forall q :: q in old(fs.Paths()) ==> !Under(tmpRoot, q))
      ensures GetMountParameters(info, shareName, 0).Err? ==>
        r.Err? && !flagMounted && sh.log == old(sh.log) &&
        (r.error.SetupFailed? ==> r.error.cause == GetMountParameters(info, shareName, 0).error)
      ensures |sh.log| > |old(sh.log)| ==>
        && GetMountParameters(info, shareName, 0).Ok?
        && var t := PathStr(mountPoint);
           var mp := OverrideHost(GetMountParameters(info, shareName, 0).value, ipaddr);
           sh.log == old(sh.log) + [Mount(MountCommand(mp, t, "").value, t)]
    {
      flagMounted := false;
      var dirs := MakeTmpMountPoint(fs, pid);
      if dirs.Err? {
        return Err(dirs.error);
      }
      tmpRoot, mountPoint := dirs.value.0, dirs.value.1;
      testDir := mountPoint + ["mount_test"];
      r := SetupTry(fs, sh, info, ipaddr, shareName);
    }

    /** The `try` part of the setup: the default combination with only the
        host replaced, the mount, the flag, and a new directory "mount_test"
        on the share; any exception is re-raised as "Setup failed". */
    method SetupTry(fs: FileSystem, sh: Shell, info: TestInfo, ipaddr: string, shareName: string)
      returns (r: Result<Path>)
      requires fs.Valid()
      requires tmpRoot != [] && tmpRoot in fs.dirs && mountPoint in fs.dirs && Parent(mountPoint) == tmpRoot
      requires testDir == mountPoint + ["mount_test"] && !flagMounted
      requires forall q :: q in fs.Paths() && Under(tmpRoot, q) ==> q == tmpRoot || q == mountPoint
      modifies `flagMounted, fs, sh
      ensures fs.Valid() && fs.files == old(fs.files)
      ensures flagMounted ==> sh.mounted == old(sh.mounted) + {PathStr(mountPoint)}
      ensures !flagMounted ==> sh.mounted == old(sh.mounted)
      ensures r.Err? ==> r.error.SetupFailed? && fs.dirs == old(fs.dirs)
      ensures r.Ok? ==> flagMounted && Holds(fs) && r.value == testDir && fs.dirs == old(fs.dirs) + {testDir}
      ensures GetMountParameters(info, shareName, 0).Err? ==>
        r == Err(SetupFailed(GetMountParameters(info, shareName, 0).error)) && !flagMounted && sh.log == old(sh.log)
      ensures |sh.log| > |old(sh.log)| ==>
        && GetMountParameters(info, shareName, 0).Ok?
        && var t := PathStr(mountPoint);
           var mp := OverrideHost(GetMountParameters(info, shareName, 0).value, ipaddr);
           sh.log == old(sh.log) + [Mount(MountCommand(mp, t, "").value, t)]
    {
      var params := GetMountParameters(info, shareName, 0);
      if params.Err? {
        return Err(SetupFailed(params.error));
      }
      var mp := OverrideHost(params.value, ipaddr);
      var m := CifsMount(sh, mp, PathStr(mountPoint), "");
      if m.Err? {
        return Err(SetupFailed(m.error));
      }
      flagMounted := true;
      assert !fs.Exists(testDir) by {
        assert Under(tmpRoot, testDir);
      }
      NothingUnderMissing(fs, testDir);
      var o := fs.Mkdir(testDir, false, false);
      r := match o
        case Pass => Ok(testDir)
        case Fail(e) => Err(SetupFailed(e));
    }

    /** The teardown half of `setup_mount`: when the flag is set (a Path is
        never false), remove the test directory ignoring errors and unmount;
        then remove the mount point and the tmp root; any exception is
        re-raised as "Teardown failed". When the fixture holds and the
        unmount succeeds, the teardown passes, the share is unmounted, and
        everything under the tmp root is gone, unless the test left a
        regular file at the test directory: the `rmtree` leaves it, so the
        mount point's `rmdir` fails and nothing is removed. */
    method Teardown(fs: FileSystem, sh: Shell) returns (o: Outcome)
      requires fs.Valid()
      modifies fs, sh
      ensures fs.Valid()
      ensures var t := PathStr(mountPoint);
        flagMounted ==> sh.log == old(sh.log) + [Umount(UmountCommand(t), t)]
      ensures !flagMounted ==> sh.log == old(sh.log) && sh.mounted == old(sh.mounted)
      ensures o.Fail? ==> o.error.TeardownFailed?
      ensures var t := PathStr(mountPoint);
        old(Holds(fs)) && testDir !in old(fs.files) && flagMounted && sh.codes(|old(sh.log)|) == 0 ==>
          && o == Pass && sh.mounted == old(sh.mounted) - {t}
          && fs.files == Outside(old(fs.files), tmpRoot)
          && fs.dirs == set q | q in old(fs.dirs) && !Under(tmpRoot, q)
      ensures var t := PathStr(mountPoint);
        old(Holds(fs)) && testDir in old(fs.files) && flagMounted && sh.codes(|old(sh.log)|) == 0 ==>
          && o.Fail? && sh.mounted == old(sh.mounted) - {t}
          && fs.files == old(fs.files) && fs.dirs == old(fs.dirs)
    {
      ghost var holds := Holds(fs) && testDir !in fs.files;
      ghost var files0, dirs0 := fs.files, fs.dirs;
      if flagMounted {
        fs.RmTree(testDir);
        var u := CifsUmount(sh, PathStr(mountPoint));
        if u.Err? {
          return Fail(TeardownFailed(u.error));
        }
      }
      if holds && flagMounted {
        FixtureEmptied(files0, dirs0, tmpRoot, mountPoint, testDir);
        assert !fs.HasEntries(mountPoint) by {
          forall q | q in fs.Paths() && q != mountPoint ensures !Under(mountPoint, q) {
            if Under(mountPoint, q) {
              UnderParent(mountPoint, q);
            }
          }
        }
      }
      o := fs.Rmdir(mountPoint);
      if o.Fail? {
        return Fail(TeardownFailed(o.error));
      }
      o := fs.Rmdir(tmpRoot);
      if o.Fail? {
        return Fail(TeardownFailed(o.error));
      }
    }
  }
}
