/** testcases/containers/test_containers.py: the container tests read from
    YAML into the global `container_tests` dictionary, the (interface, share,
    test) parameter list, and one containerised test run on a freshly
    mounted share with its cleanup. The container runner is the host's
    `Container` invocation. */
module Containers {
  import opened Common
  import opened Fs
  import opened Host
  import opened TestHelper
  import opened CmdHelper
  import opened FsHelper

  /** One parsed YAML entry of the container-test list. */
  type Entry = map<string, string>

  /** Every entry has both keys. */
  predicate WellFormed(entries: seq<Entry>)
  {
    forall k :: 0 <= k < |entries| ==> "name" in entries[k] && "url" in entries[k]
  }

  /** `container_tests[t["name"]] = t["url"]` for each entry in order. */
  function Assign(urls: map<string, string>, entries: seq<Entry>): map<string, string>
    requires WellFormed(entries)
  {
    if |entries| == 0 then urls
    else
      var e := entries[|entries| - 1];
      Assign(urls, entries[..|entries| - 1])[e["name"] := e["url"]]
  }

  /** The dictionary's key order after the same assignments: a new name goes
      to the end, an existing one keeps its place. */
  function AddNames(names: seq<string>, entries: seq<Entry>): seq<string>
    requires WellFormed(entries)
  {
    if |entries| == 0 then names
    else
      var front := AddNames(names, entries[..|entries| - 1]);
      var name := entries[|entries| - 1]["name"];
      if name in front then front else front + [name]
  }

  function NamesOf(entries: seq<Entry>): set<string>
    requires WellFormed(entries)
  {
    set k | 0 <= k < |entries| :: entries[k]["name"]
  }

  /** The names after loading are the old ones and the listed ones, and
      each listed name holds the url of its last entry. */
  lemma {:induction false} AssignKeys(urls: map<string, string>, entries: seq<Entry>)
    requires WellFormed(entries)
    ensures Assign(urls, entries).Keys == urls.Keys + NamesOf(entries)
  {
    if |entries| > 0 {
      var front := entries[..|entries| - 1];
      AssignKeys(urls, front);
      assert NamesOf(entries) == NamesOf(front) + {entries[|entries| - 1]["name"]} by {
        forall n | n in NamesOf(entries) ensures n in NamesOf(front) + {entries[|entries| - 1]["name"]} {
          var k :| 0 <= k < |entries| && entries[k]["name"] == n;
          if k < |entries| - 1 {
            assert front[k] == entries[k];
          }
        }
        forall n | n in NamesOf(front) ensures n in NamesOf(entries) {
          var k :| 0 <= k < |front| && front[k]["name"] == n;
          assert entries[k] == front[k];
        }
      }
    }
  }

  /** A later entry with the same name overwrites an earlier one. */
  lemma {:induction false} AssignLastWins(urls: map<string, string>, entries: seq<Entry>, i: nat)
    requires WellFormed(entries)
    requires i < |entries|
    requires forall j :: i < j < |entries| ==> entries[j]["name"] != entries[i]["name"]
    ensures entries[i]["name"] in Assign(urls, entries)
    ensures Assign(urls, entries)[entries[i]["name"]] == entries[i]["url"]
  {
    if i < |entries| - 1 {
      AssignLastWins(urls, entries[..|entries| - 1], i);
    }
  }

  /** One more entry: one more assignment and possibly one more name. */
  lemma LoadStep(urls: map<string, string>, names: seq<string>, entries: seq<Entry>, i: nat)
    requires i < |entries| && WellFormed(entries[..i]) && "name" in entries[i] && "url" in entries[i]
    ensures WellFormed(entries[..i + 1])
    ensures Assign(urls, entries[..i + 1]) == Assign(urls, entries[..i])[entries[i]["name"] := entries[i]["url"]]
    ensures var front := AddNames(names, entries[..i]);
      AddNames(names, entries[..i + 1]) == if entries[i]["name"] in front then front else front + [entries[i]["name"]]
  {
    assert entries[..i + 1][..i] == entries[..i];
    assert entries[..i + 1][i] == entries[i];
  }

  /** The global `container_tests`, an insertion-ordered dictionary. */
  class ContainerTests {
    var names: seq<string>
    var urls: map<string, string>

    ghost predicate Valid()
      reads this
    {
      (forall i, j :: 0 <= i < j < |names| ==> names[i] != names[j]) &&
      (forall n :: n in urls <==> n in names)
    }

    /** `container_tests = {}` */
    constructor ()
      ensures Valid() && names == [] && urls == map[]
    {
      names := [];
      urls := map[];
    }

    /** `load_container_tests()` on the parsed list `ct`: 0 and nothing
        changed for None; otherwise each entry is assigned in order (the
        url is looked up before the name) and the size of the dictionary
        is returned. */
    method Load(ct: Option<seq<Entry>>) returns (r: Result<nat>)
      requires Valid()
      modifies this
      ensures Valid()
      ensures ct.None? ==> r == Ok(0) && names == old(names) && urls == old(urls)
      ensures ct.Some? ==> (r.Ok? <==> WellFormed(ct.value))
      ensures ct.Some? && r.Ok? ==>
        && urls == Assign(old(urls), ct.value)
        && names == AddNames(old(names), ct.value)
        && r.value == |old(urls).Keys + NamesOf(ct.value)|
      ensures r.Err? ==> r.error == KeyError("url") || r.error == KeyError("name")
    {
      if ct.None? {
        return Ok(0);
      }
      var entries := ct.value;
      var i := 0;
      while i < |entries|
        invariant i <= |entries| && Valid()
        invariant WellFormed(entries[..i])
        invariant urls == Assign(old(urls), entries[..i])
        invariant names == AddNames(old(names), entries[..i])
      {
        var t := entries[i];
        if "url" !in t {
          return Err(KeyError("url"));
        }
        if "name" !in t {
          return Err(KeyError("name"));
        }
        LoadStep(old(urls), old(names), entries, i);
        if t["name"] !in urls {
          names := names + [t["name"]];
        }
        urls := urls[t["name"] := t["url"]];
        i := i + 1;
      }
      assert entries[..i] == entries;
      AssignKeys(old(urls), entries);
      r := Ok(|urls.Keys|);
    }
  }

  /** (ip, share, test) for each (share, test) of a pair list. */
  function WithHost(ip: string, pairs: seq<(string, string)>): (r: seq<(string, string, string)>)
    ensures |r| == |pairs|
    ensures forall k :: 0 <= k < |pairs| ==> r[k] == (ip, pairs[k].0, pairs[k].1)
  {
    seq(|pairs|, k requires 0 <= k < |pairs| => (ip, pairs[k].0, pairs[k].1))
  }

  /** `generate_containers_test()`: the first interface in every entry,
      exported shares in order, and for each the loaded test names in
      dictionary order. */
  method GenerateContainersTest(info: TestInfo, tests: ContainerTests) returns (r: Result<seq<(string, string, string)>>)
    ensures info.publicInterfaces.None? ==> r == Err(KeyError("public_interfaces"))
    ensures info.publicInterfaces.Some? && info.publicInterfaces.value == [] ==> r == Err(IndexError)
    ensures info.publicInterfaces.Some? && info.publicInterfaces.value != [] ==>
      if info.exportedSharenames.None? then r == Err(KeyError("exported_sharenames"))
      else r == Ok(WithHost(info.publicInterfaces.value[0], Cross(info.exportedSharenames.value, tests.names)))
  {
    var interfaces :- Get(info.publicInterfaces, "public_interfaces");
    var ipaddr :- PyIndex(interfaces, 0);
    var shares :- Get(info.exportedSharenames, "exported_sharenames");
    var names := tests.names;
    var arr: seq<(string, string, string)> := [];
    var i := 0;
    while i < |shares|
      invariant i <= |shares| && arr == WithHost(ipaddr, Cross(shares[..i], names))
    {
      var j := 0;
      while j < |names|
        invariant j <= |names| && arr == WithHost(ipaddr, Cross(shares[..i], names) + Row(shares[i], names[..j]))
      {
        assert Row(shares[i], names[..j + 1]) == Row(shares[i], names[..j]) + [(shares[i], names[j])];
        arr := arr + [(ipaddr, shares[i], names[j])];
        j := j + 1;
      }
      assert names[..j] == names;
      CrossStep(shares, names, i);
      i := i + 1;
    }
    assert shares[..i] == shares;
    r := Ok(arr);
  }

  /** `containers_check_mounted(mount_point, test)`: make mount_point/test
      (a failing mkdir raises before the `try`), run the container on it,
      assert a zero exit, and remove the directory in `finally`. */
  method ContainersCheckMounted(fs: FileSystem, sh: Shell, tests: ContainerTests, mountPoint: Path, test: string)
    returns (o: Outcome)
    requires fs.Valid()
    modifies fs, sh
    ensures fs.Valid() && sh.mounted == old(sh.mounted)
    ensures var testDir := mountPoint + [test];
      var ran := !old(fs.Exists(testDir)) && mountPoint in old(fs.dirs) && test in tests.urls;
      && (ran ==> sh.log == old(sh.log) + [Container(tests.urls[test], PathStr(testDir))])
      && (!ran ==> sh.log == old(sh.log))
      && (o.Pass? <==> ran && sh.codes(|old(sh.log)|) == 0)
      && (ran && sh.codes(|old(sh.log)|) != 0 ==> o == Fail(AssertionFailed("Error running test")))
      && (!old(fs.Exists(testDir)) && mountPoint in old(fs.dirs) && test !in tests.urls ==> o == Fail(KeyError(test)))
    ensures !old(fs.Exists(mountPoint + [test])) && mountPoint in old(fs.dirs) ==>
      fs.files == old(fs.files) && fs.dirs == old(fs.dirs)
  {
    var testDir := mountPoint + [test];
    ghost var clean := !fs.Exists(testDir) && mountPoint in fs.dirs;
    if clean {
      NothingUnderMissing(fs, testDir);
    }
    o := fs.Mkdir(testDir, false, false);
    if o.Fail? {
      return;
    }
    if test !in tests.urls {
      o := Fail(KeyError(test));
    } else {
      var ret := sh.Exec(Container(tests.urls[test], PathStr(testDir)));
      o := if ret != 0 then Fail(AssertionFailed("Error running test")) else Pass;
    }
    fs.RmTree(testDir);
  }

  /** The `finally` of `containers_check`: unmount, then remove the mount
      point and the tmp root, each raising on failure. When the unmount
      succeeds and the two directories hold nothing else, both go and the
      rest of the filesystem is untouched. */
  method UnmountAndRemove(fs: FileSystem, sh: Shell, tmpRoot: Path, mountPoint: Path) returns (o: Outcome)
    requires fs.Valid()
    requires tmpRoot != [] && tmpRoot in fs.dirs && mountPoint in fs.dirs && Parent(mountPoint) == tmpRoot
    requires forall q :: q in fs.Paths() && Under(tmpRoot, q) ==> q == tmpRoot || q == mountPoint
    modifies fs, sh
    ensures fs.Valid()
    ensures sh.log == old(sh.log) + [Umount(UmountCommand(PathStr(mountPoint)), PathStr(mountPoint))]
    ensures sh.mounted == Effect(old(sh.mounted), sh.log[|old(sh.log)|], sh.codes(|old(sh.log)|))
    ensures sh.codes(|old(sh.log)|) == 0 ==>
      o == Pass && fs.files == old(fs.files) && fs.dirs == old(fs.dirs) - {tmpRoot, mountPoint}
    ensures sh.codes(|old(sh.log)|) != 0 ==>
      o.Fail? && fs.files == old(fs.files) && fs.dirs == old(fs.dirs)
  {
    var target := PathStr(mountPoint);
    var u := CifsUmount(sh, target);
    if u.Err? {
      return Fail(u.error);
    }
    assert !fs.HasEntries(mountPoint) by {
      forall q | q in fs.Paths() && q != mountPoint ensures !Under(mountPoint, q) {
        if Under(mountPoint, q) {
          UnderParent(mountPoint, q);
        }
      }
    }
    o := fs.Rmdir(mountPoint);
    if o.Fail? {
      return;
    }
    assert !fs.HasEntries(tmpRoot);
    o := fs.Rmdir(tmpRoot);
  }

  /** Lines 59-65 of `containers_check`: mount the share on the fresh mount
      point (a failure raises before the `try`), run the check, and in
      `finally` unmount and remove both directories. */
  method MountAndCheck(fs: FileSystem, sh: Shell, tests: ContainerTests, mp: MountParams,
                       tmpRoot: Path, mountPoint: Path, test: string)
    returns (o: Outcome)
    requires fs.Valid()
    requires tmpRoot != [] && tmpRoot in fs.dirs && mountPoint in fs.dirs && Parent(mountPoint) == tmpRoot
    requires forall q :: q in fs.Paths() && Under(tmpRoot, q) ==> q == tmpRoot || q == mountPoint
    modifies fs, sh
    ensures fs.Valid()
    ensures sh.UmountsSucceeded(|old(sh.log)|) ==> sh.mounted <= old(sh.mounted)
    ensures var n := |old(sh.log)|;
      |sh.log| > n && sh.log[n].Mount? && sh.codes(n) == 0 ==>
        sh.log[|sh.log| - 1] == Umount(UmountCommand(sh.log[n].target), sh.log[n].target)
    ensures var n := |old(sh.log)|;
      |sh.log| > n && sh.log[n].Mount? && sh.codes(n) == 0 && sh.UmountsSucceeded(n) ==>
        fs.files == old(fs.files) && fs.dirs == old(fs.dirs) - {tmpRoot, mountPoint}
    ensures var n := |old(sh.log)|;
      |sh.log| > n && sh.log[n].Mount? && sh.codes(n) == 0 && sh.UmountsSucceeded(n) ==>
        && (o.Pass? <==> test in tests.urls && sh.codes(n + 1) == 0)
        && (test in tests.urls && sh.codes(n + 1) != 0 ==> o == Fail(AssertionFailed("Error running test")))
        && (test !in tests.urls ==> o == Fail(KeyError(test)))
    ensures !(|sh.log| > |old(sh.log)| && sh.log[|old(sh.log)|].Mount? && sh.codes(|old(sh.log)|) == 0) ==>
      o.Fail? && fs.files == old(fs.files) && fs.dirs == old(fs.dirs) && sh.mounted == old(sh.mounted)
  {
    var target := PathStr(mountPoint);
    var m := CifsMount(sh, mp, target, "");
    if m.Err? {
      return Fail(m.error);
    }
    ghost var n := |old(sh.log)|;
    assert sh.log[n] == Mount(MountCommand(mp, target, "").value, target);
    assert !fs.Exists(mountPoint + [test]) by {
      assert Under(tmpRoot, mountPoint + [test]);
    }
    var body := ContainersCheckMounted(fs, sh, tests, mountPoint, test);
    assert sh.log[n].Mount? && sh.codes(n) == 0;
    var cleanup := UnmountAndRemove(fs, sh, tmpRoot, mountPoint);
    o := Finally(body, cleanup);
  }

  /** `containers_check(ipaddr, share_name, test)` with `os.getpid()` as
      `pid` and "/tmp" as the tmp location: the default combination with the
      host replaced, a fresh mount point under a fresh tmp root, then the
      mount, the check and its cleanup; an exception of the `finally`
      replaces the check's. A successful mount is always followed by its
      unmount as the last command; when that unmount succeeds nothing new
      stays mounted and the filesystem is as before. */
  method ContainersCheck(fs: FileSystem, sh: Shell, info: TestInfo, tests: ContainerTests,
                         ipaddr: string, shareName: string, test: string, pid: nat)
    returns (o: Outcome)
    requires fs.Valid()
    modifies fs, sh
    ensures fs.Valid()
    ensures GetMountParameters(info, shareName, 0).Err? ==>
      o == Fail(GetMountParameters(info, shareName, 0).error) && sh.log == old(sh.log) && fs.dirs == old(fs.dirs)
    ensures sh.UmountsSucceeded(|old(sh.log)|) ==> sh.mounted <= old(sh.mounted)
    ensures var n := |old(sh.log)|;
      |sh.log| > n && sh.log[n].Mount? && sh.codes(n) == 0 ==>
        sh.log[|sh.log| - 1] == Umount(UmountCommand(sh.log[n].target), sh.log[n].target)
    ensures var n := |old(sh.log)|;
      |sh.log| > n && sh.log[n].Mount? && sh.codes(n) == 0 && sh.UmountsSucceeded(n) ==>
        fs.files == old(fs.files) && fs.dirs == old(fs.dirs)
    ensures var n := |old(sh.log)|;
      |sh.log| > n && sh.log[n].Mount? && sh.codes(n) == 0 && sh.UmountsSucceeded(n) ==>
        && (o.Pass? <==> test in tests.urls && sh.codes(n + 1) == 0)
        && (test in tests.urls && sh.codes(n + 1) != 0 ==> o == Fail(AssertionFailed("Error running test")))
        && (test !in tests.urls ==> o == Fail(KeyError(test)))
  {
    var params := GetMountParameters(info, shareName, 0);
    if params.Err? {
      return Fail(params.error);
    }
    var mp := OverrideHost(params.value, ipaddr);
    var root := GetTmpRoot(fs, ["tmp"], pid);
    if root.Err? {
      return Fail(root.error);
    }
    var tmpRoot := root.value;
    // `get_tmp_mount_point` cannot raise here: tmp_root was just made.
    var point := GetTmpMountPoint(fs, tmpRoot);
    o := MountAndCheck(fs, sh, tests, mp, tmpRoot, point.value, test);
  }
}
