/** testcases/smbtorture/test_smbtorture.py: the three command lines of one
    smbtorture run (torture | filter-subunit > output; format-subunit <
    output), the knownfail and flapping lists, the success decision and the
    (share, test) parameter list. `root` is the directory of the test
    script; `os.path.exists` for the backend's flapping file (true for a
    file or a directory alike) is the parameter `pathExists`. */
module Smbtorture {
  import opened Common
  import opened Host
  import opened TestHelper
  import opened CmdHelper

  const TortureExec := "/bin/smbtorture"

  /** The fixed flags between the executable and the user argument. */
  const TortureFlags: seq<string> := [
    "--fullname",
    "--option=torture:progress=no",
    "--option=torture:sharedelay=100000",
    "--option=torture:writetimeupdatedelay=500000",
    "--format=subunit",
    "--target=samba3"
  ]

  /** `smbtorture_cmd`: the user and password are looked up first, then host
      and share; the test name comes last. */
  function TortureCmd(mp: MountParams, test: string): (r: Result<seq<string>>)
    ensures r.Ok? <==> MountKeys <= mp.Keys
    ensures "username" !in mp ==> r == Err(KeyError("username"))
    ensures r.Ok? ==>
      && |r.value| == 10
      && r.value[0] == TortureExec && r.value[1..7] == TortureFlags
      && r.value[7] == UserArg(mp["username"], mp["password"])
      && Ok(r.value[8]) == ShareSpec(mp)
      && r.value[9] == test
  {
    var user :- Lookup(mp, "username");
    var password :- Lookup(mp, "password");
    var host :- Lookup(mp, "host");
    var share :- Lookup(mp, "share");
    Ok([TortureExec] + TortureFlags + [UserArg(user, password), "//" + host + "/" + share, test])
  }

  /** For the default combination of a share the torture command carries the
      first user's credentials and the first interface as host. */
  lemma TortureCmdOfShare(info: TestInfo, share: string, test: string)
    requires GetMountParameters(info, share, 0).Ok?
    ensures var r := TortureCmd(GetMountParameters(info, share, 0).value, test);
      var u := info.testUsers.value[0];
      && r.Ok?
      && r.value[7] == "--user=" + u.username + "%" + u.password
      && r.value[8] == "//" + info.publicInterfaces.value[0] + "/" + share
      && r.value[9] == test
  {
  }

  /** `flapping_list`: flapping and flapping.d, then "flapping." + backend
      when a backend is named and its file exists under root/selftest. */
  function FlappingList(root: string, backend: Option<string>, pathExists: string -> bool): (r: seq<string>)
    ensures |r| >= 2 && r[..2] == ["flapping", "flapping.d"]
    ensures |r| == 3 <==> backend.Some? && pathExists(root + "/selftest/" + "flapping." + backend.value)
    ensures |r| == 3 ==> r[2] == "flapping." + backend.value
    ensures |r| <= 3
  {
    var base := ["flapping", "flapping.d"];
    if backend.Some? && pathExists(root + "/selftest/" + "flapping." + backend.value) then
      base + ["flapping." + backend.value]
    else base
  }

  /** `filter_subunit_cmd`: the fixed head, one `--expected-failures` per
      knownfail list and one `--flapping` per flapping list, in order. */
  method FilterSubunitCmd(root: string, flapping: seq<string>) returns (cmd: seq<string>)
    ensures |cmd| == 6 + |flapping|
    ensures cmd[..4] == ["/usr/bin/python3", root + "/selftest/filter-subunit", "--fail-on-empty", "--prefix=samba3."]
    ensures cmd[4] == "--expected-failures=" + root + "/selftest/" + "knownfail"
    ensures cmd[5] == "--expected-failures=" + root + "/selftest/" + "knownfail.d"
    ensures forall k :: 0 <= k < |flapping| ==> cmd[6 + k] == "--flapping=" + root + "/selftest/" + flapping[k]
  {
    cmd := ["/usr/bin/python3", root + "/selftest/filter-subunit", "--fail-on-empty", "--prefix=samba3."];
    var knownfail := ["knownfail", "knownfail.d"];
    var i := 0;
    while i < |knownfail|
      invariant i <= |knownfail| && |cmd| == 4 + i
      invariant cmd[..4] == ["/usr/bin/python3", root + "/selftest/filter-subunit", "--fail-on-empty", "--prefix=samba3."]
      invariant forall k :: 0 <= k < i ==> cmd[4 + k] == "--expected-failures=" + root + "/selftest/" + knownfail[k]
    {
      cmd := cmd + ["--expected-failures=" + root + "/selftest/" + knownfail[i]];
      i := i + 1;
    }
    assert knownfail[0] == "knownfail" && knownfail[1] == "knownfail.d";
    var j := 0;
    while j < |flapping|
      invariant j <= |flapping| && |cmd| == 6 + j
      invariant cmd[..4] == ["/usr/bin/python3", root + "/selftest/filter-subunit", "--fail-on-empty", "--prefix=samba3."]
      invariant cmd[4] == "--expected-failures=" + root + "/selftest/" + "knownfail"
      invariant cmd[5] == "--expected-failures=" + root + "/selftest/" + "knownfail.d"
      invariant forall k :: 0 <= k < j ==> cmd[6 + k] == "--flapping=" + root + "/selftest/" + flapping[k]
    {
      cmd := cmd + ["--flapping=" + root + "/selftest/" + flapping[j]];
      j := j + 1;
    }
  }

  /** `format_subunit_cmd` */
  function FormatSubunitCmd(root: string): seq<string>
  {
    ["/usr/bin/python3", root + "/selftest/format-subunit"]
  }

  /** `smbtorture(share_name, test, tmp_output)`: the three programs run in
      order and the run succeeds iff the formatter returns 0; the return
      codes of the other two are not looked at. Looking up the mount
      parameters can raise before anything runs. */
  method RunSmbtorture(sh: Shell, info: TestInfo, root: string, pathExists: string -> bool, shareName: string, test: string)
    returns (r: Result<bool>)
    modifies sh
    ensures GetMountParameters(info, shareName, 0).Err? ==>
      r == Err(GetMountParameters(info, shareName, 0).error) && sh.log == old(sh.log)
    ensures GetMountParameters(info, shareName, 0).Ok? ==>
      && |sh.log| == |old(sh.log)| + 3 && sh.log[..|old(sh.log)|] == old(sh.log)
      && sh.log[|old(sh.log)|] == Run(TortureCmd(GetMountParameters(info, shareName, 0).value, test).value)
      && sh.log[|old(sh.log)| + 2] == Run(FormatSubunitCmd(root))
      && r == Ok(sh.codes(|old(sh.log)| + 2) == 0)
    ensures sh.mounted == old(sh.mounted)
  {
    var mp :- GetMountParameters(info, shareName, 0);
    TortureCmdOfShare(info, shareName, test);
    var torture := TortureCmd(mp, test).value;
    var filter := FilterSubunitCmd(root, FlappingList(root, info.testBackend, pathExists));
    var format := FormatSubunitCmd(root);
    var _ := sh.Exec(Run(torture));
    var _ := sh.Exec(Run(filter));
    var code := sh.Exec(Run(format));
    r := Ok(code == 0);
  }

  /** `generate_smbtorture_tests()`: for every exported share in index
      order, every listed test. */
  method GenerateSmbtortureTests(info: TestInfo, tests: seq<string>) returns (r: Result<seq<(string, string)>>)
    ensures info.exportedSharenames.None? ==> r == Err(KeyError("exported_sharenames"))
    ensures info.exportedSharenames.Some? ==> r == Ok(Cross(info.exportedSharenames.value, tests))
  {
    var n :- GetNumShares(info);
    var shares := info.exportedSharenames.value;
    var arr: seq<(string, string)> := [];
    var sharenum := 0;
    while sharenum < n
      invariant sharenum <= n && arr == Cross(shares[..sharenum], tests)
    {
      // `get_share` cannot raise here: the index is below the count.
      var shareName := GetShare(info, sharenum).value;
      var j := 0;
      while j < |tests|
        invariant j <= |tests| && arr == Cross(shares[..sharenum], tests) + Row(shareName, tests[..j])
      {
        assert Row(shareName, tests[..j + 1]) == Row(shareName, tests[..j]) + [(shareName, tests[j])];
        arr := arr + [(shareName, tests[j])];
        j := j + 1;
      }
      assert tests[..j] == tests;
      CrossStep(shares, tests, sharenum);
      sharenum := sharenum + 1;
    }
    assert shares[..sharenum] == shares;
    r := Ok(arr);
  }
}
