/** testcases/consistency_check/test_consistency_check.py: a file written
    through one mount of a share must read back the same through a second
    mount. The `flag_share_mounted` local records whether the share is
    mounted, and the `finally` unmounts exactly when it is set. The share's
    files are seen through the one filesystem model; `test_info` is the
    module global set by the parameter generator. */
module ConsistencyCheck {
  import opened Common
  import opened Fs
  import opened Host
  import opened TestHelper
  import opened CmdHelper
  import opened FsHelper

  /** `test_string`: the 26 capital letters, then the 26 small ones. */
  const TestString: string :=
    seq(26, k requires 0 <= k < 26 => ('A' as int + k) as char) +
    seq(26, k requires 0 <= k < 26 => ('a' as int + k) as char)

  predicate IsAscii(s: string)
  {
    forall k :: 0 <= k < |s| ==> s[k] as int < 128
  }

  /** A text-mode write of an ASCII string: one byte per character. */
  function Encode(s: string): (b: seq<byte>)
    requires IsAscii(s)
    ensures |b| == |s| && forall k :: 0 <= k < |s| ==> b[k] == s[k] as int
  {
    seq(|s|, k requires 0 <= k < |s| => s[k] as int)
  }

  /** What the write cycle puts in the file. */
  const TestBytes: seq<byte> := Encode(TestString)

  /** A text-mode read: ASCII decoding, which rejects any byte above 127. */
  function Decode(b: seq<byte>): (r: Result<string>)
    ensures r.Ok? <==> forall k :: 0 <= k < |b| ==> b[k] < 128
    ensures r.Err? ==> r.error == UnicodeDecodeError
    ensures r.Ok? ==> |r.value| == |b| && forall k :: 0 <= k < |b| ==> r.value[k] as int == b[k]
  {
    if forall k :: 0 <= k < |b| ==> b[k] < 128 then Ok(seq(|b|, k requires 0 <= k < |b| => b[k] as char))
    else Err(UnicodeDecodeError)
  }

  /** Reading back what was written gives the string again. */
  lemma DecodeEncode(s: string)
    requires IsAscii(s)
    ensures Decode(Encode(s)) == Ok(s)
  {
    assert Decode(Encode(s)).value == s;
  }

  /** A decodable content is the encoding of what it decodes to. */
  lemma EncodeDecode(b: seq<byte>)
    requires Decode(b).Ok?
    ensures IsAscii(Decode(b).value) && Encode(Decode(b).value) == b
  {
  }

  /** `file_content_check(f, comp_str)`: the file's text, which can fail to
      decode, equals `comp_str`. */
  function FileContentCheck(content: seq<byte>, compStr: string): (r: Result<bool>)
    ensures r.Ok? <==> Decode(content).Ok?
  {
    var readData :- Decode(content);
    Ok(readData == compStr)
  }

  /** For an ASCII string the check holds exactly for the file holding its
      encoding. */
  lemma FileContentCheckIff(content: seq<byte>, compStr: string)
    requires IsAscii(compStr)
    ensures FileContentCheck(content, compStr) == Ok(true) <==> content == Encode(compStr)
  {
    if content == Encode(compStr) {
      DecodeEncode(compStr);
    }
    if FileContentCheck(content, compStr) == Ok(true) {
      EncodeDecode(content);
    }
  }

  /** The module global `test_info`. */
  class Globals {
    var testInfo: TestInfo

    /** `test_info = {}` */
    constructor ()
      ensures testInfo == EmptyInfo
    {
      testInfo := EmptyInfo;
    }
  }

  /** `share_names(test_info)`: the exported shares in index order. */
  method ShareNames(info: TestInfo) returns (r: Result<seq<string>>)
    ensures info.exportedSharenames.None? ==> r == Err(KeyError("exported_sharenames"))
    ensures info.exportedSharenames.Some? ==> r == Ok(info.exportedSharenames.value)
  {
    var n :- GetNumShares(info);
    var names: seq<string> := [];
    var sharenum := 0;
    while sharenum < n
      invariant sharenum <= n && names == info.exportedSharenames.value[..sharenum]
    {
      // `get_share` cannot raise here: the index is below the count.
      var name := GetShare(info, sharenum).value;
      names := names + [name];
      sharenum := sharenum + 1;
    }
    assert info.exportedSharenames.value[..sharenum] == info.exportedSharenames.value;
    r := Ok(names);
  }

  /** `generate_consistency_check(test_info_file)` with the file already
      parsed: None gives [] and leaves the global alone; otherwise the
      global becomes the parsed document and its share names are listed. */
  method GenerateConsistencyCheck(g: Globals, parsed: Option<TestInfo>) returns (r: Result<seq<string>>)
    modifies g
    ensures parsed.None? ==> r == Ok([]) && g.testInfo == old(g.testInfo)
    ensures parsed.Some? ==> g.testInfo == parsed.value
    ensures parsed.Some? && parsed.value.exportedSharenames.None? ==> r == Err(KeyError("exported_sharenames"))
    ensures parsed.Some? && parsed.value.exportedSharenames.Some? ==> r == Ok(parsed.value.exportedSharenames.value)
  {
    if parsed.None? {
      return Ok([]);
    }
    g.testInfo := parsed.value;
    var names :- ShareNames(g.testInfo);
    var arr: seq<string> := [];
    var i := 0;
    while i < |names|
      invariant i <= |names| && arr == names[..i]
    {
      arr := arr + [names[i]];
      i := i + 1;
    }
    assert names[..i] == names;
    r := Ok(arr);
  }

  /** The share is mounted at `t` exactly when the flag is set, and
      nothing else changed in the mount table. */
  ghost predicate FlagTracks(sh: Shell, before: set<string>, t: string, flag: int)
    reads sh
  {
    t !in before ==> (flag == 1 <==> t in sh.mounted) && sh.mounted - {t} == before
  }

  /** `get_tmp_file(mount_point)`, then the test string written to it in
      text mode: a new file holding the encoded string, made iff the mount
      point is a directory. */
  method WriteTestFile(fs: FileSystem, mountPoint: Path) returns (o: Outcome, testFile: Path)
    requires fs.Valid()
    modifies fs
    ensures fs.Valid() && fs.dirs == old(fs.dirs)
    ensures o.Pass? <==> mountPoint in old(fs.dirs)
    ensures o.Pass? ==> testFile !in old(fs.Paths()) && fs.files == old(fs.files)[testFile := TestBytes]
    ensures o.Fail? ==> fs.files == old(fs.files)
  {
    testFile := [];
    var tf := GetTmpFile(fs, mountPoint);
    if tf.Err? {
      return Fail(tf.error), testFile;
    }
    testFile := tf.value;
    o := fs.WriteBytes(testFile, TestBytes);
  }

  /** The write cycle of `consistency_check`: mount, create a tmp file on
      the share, write the test string, unmount. A pass leaves the share
      unmounted and the new file holding the encoded test string. */
  method WriteCycle(fs: FileSystem, sh: Shell, mp: MountParams, mountPoint: Path)
    returns (o: Outcome, testFile: Path, flag: int)
    requires fs.Valid()
    modifies fs, sh
    ensures fs.Valid() && fs.dirs == old(fs.dirs)
    ensures |sh.log| >= |old(sh.log)| && sh.log[..|old(sh.log)|] == old(sh.log)
    ensures FlagTracks(sh, old(sh.mounted), PathStr(mountPoint), flag)
    ensures flag == 1 ==> o.Fail?
    ensures o.Pass? ==>
      && flag == 0 && testFile !in old(fs.Paths())
      && fs.files == old(fs.files)[testFile := TestBytes]
    ensures var t := PathStr(mountPoint);
      var n := |old(sh.log)|;
      MountCommand(mp, t, "").Ok? && mountPoint in old(fs.dirs) && sh.codes(n) == 0 && sh.codes(n + 1) == 0 ==>
        o == Pass && sh.log == old(sh.log) + [Mount(MountCommand(mp, t, "").value, t), Umount(UmountCommand(t), t)]
  {
    var target := PathStr(mountPoint);
    flag := 0;
    testFile := [];
    var m := CifsMount(sh, mp, target, "");
    if m.Err? {
      return Fail(m.error), testFile, flag;
    }
    flag := 1;
    o, testFile := WriteTestFile(fs, mountPoint);
    if o.Fail? {
      return;
    }
    var u := CifsUmount(sh, target);
    if u.Err? {
      return Fail(u.error), testFile, flag;
    }
    flag := 0;
  }

  /** The read cycle of `consistency_check`: mount, read the file back and
      assert it holds the test string, unlink it, unmount. It passes only
      when the file held exactly the encoded test string, and then the file
      is gone and the share unmounted. */
  method ReadCycle(fs: FileSystem, sh: Shell, mp: MountParams, mountPoint: Path, testFile: Path)
    returns (o: Outcome, flag: int)
    requires fs.Valid()
    modifies fs, sh
    ensures fs.Valid() && fs.dirs == old(fs.dirs)
    ensures |sh.log| >= |old(sh.log)| && sh.log[..|old(sh.log)|] == old(sh.log)
    ensures FlagTracks(sh, old(sh.mounted), PathStr(mountPoint), flag)
    ensures flag == 1 ==> o.Fail?
    ensures o.Pass? ==>
      && flag == 0 && testFile in old(fs.files) && old(fs.files)[testFile] == TestBytes
      && fs.files == old(fs.files) - {testFile}
    ensures var t := PathStr(mountPoint);
      var n := |old(sh.log)|;
      && MountCommand(mp, t, "").Ok? && sh.codes(n) == 0 && sh.codes(n + 1) == 0
      && testFile in old(fs.files) && old(fs.files)[testFile] == TestBytes ==>
        o == Pass && sh.log == old(sh.log) + [Mount(MountCommand(mp, t, "").value, t), Umount(UmountCommand(t), t)]
  {
    var target := PathStr(mountPoint);
    flag := 0;
    var m := CifsMount(sh, mp, target, "");
    if m.Err? {
      return Fail(m.error), flag;
    }
    flag := 1;
    var content := fs.ReadBytes(testFile);
    if content.Err? {
      return Fail(content.error), flag;
    }
    FileContentCheckIff(content.value, TestString);
    var same := FileContentCheck(content.value, TestString);
    if same.Err? {
      return Fail(same.error), flag;
    }
    if !same.value {
      return Fail(AssertionFailed("File content does not match")), flag;
    }
    o := fs.Unlink(testFile);
    if o.Fail? {
      return o, flag;
    }
    var u := CifsUmount(sh, target);
    if u.Err? {
      return Fail(u.error), flag;
    }
    flag := 0;
  }

  /** The `try` body of `consistency_check` for the mount parameters `mp`:
      the write cycle, then the read cycle. A pass leaves the share
      unmounted and the filesystem as before; when the four mount and
      unmount commands succeed it passes with exactly those commands. */
  method TryBody(fs: FileSystem, sh: Shell, mp: MountParams, mountPoint: Path)
    returns (o: Outcome, flag: int)
    requires fs.Valid()
    modifies fs, sh
    ensures fs.Valid()
    ensures |sh.log| >= |old(sh.log)| && sh.log[..|old(sh.log)|] == old(sh.log)
    ensures FlagTracks(sh, old(sh.mounted), PathStr(mountPoint), flag)
    ensures flag == 1 ==> o.Fail?
    ensures o.Pass? ==> fs.files == old(fs.files) && fs.dirs == old(fs.dirs)
    ensures var t := PathStr(mountPoint);
      var n := |old(sh.log)|;
      MountCommand(mp, t, "").Ok? && mountPoint in old(fs.dirs) && (forall k :: n <= k < n + 4 ==> sh.codes(k) == 0) ==>
        var mount := Mount(MountCommand(mp, t, "").value, t);
        var umount := Umount(UmountCommand(t), t);
        o == Pass && sh.log == old(sh.log) + [mount, umount, mount, umount]
  {
    ghost var mounted0, log0 := sh.mounted, sh.log;
    var testFile;
    o, testFile, flag := WriteCycle(fs, sh, mp, mountPoint);
    if o.Pass? {
      assert PathStr(mountPoint) !in mounted0 ==> sh.mounted == mounted0;
      ghost var log1 := sh.log;
      o, flag := ReadCycle(fs, sh, mp, mountPoint, testFile);
      assert sh.log[..|log0|] == log0 by {
        assert sh.log[..|log1|][..|log0|] == log0;
      }
    }
  }

  /** The `finally` of `consistency_check`: unmount iff the flag is set; a
      failed unmount replaces the outcome of the body. */
  method UnmountIfFlagged(sh: Shell, t: string, body: Outcome, flag: int) returns (o: Outcome)
    modifies sh
    ensures flag != 1 ==> o == body && sh.log == old(sh.log) && sh.mounted == old(sh.mounted)
    ensures flag == 1 ==>
      var code := sh.codes(|old(sh.log)|);
      && sh.log == old(sh.log) + [Umount(UmountCommand(t), t)]
      && sh.mounted == (if code == 0 then old(sh.mounted) - {t} else old(sh.mounted))
      && o == (if code == 0 then body else Fail(AssertionFailed(ErrorMounting(code, UmountCommand(t)))))
  {
    o := body;
    if flag == 1 {
      var u := CifsUmount(sh, t);
      o := Finally(o, if u.Err? then Fail(u.error) else Pass);
    }
  }

  /** The `try`/`finally` of `consistency_check`: the body, then an unmount
      iff the flag is set; an exception of that unmount replaces the one in
      flight.
      - A share that was not mounted before is not mounted after unless the
        last command was an unmount of it that failed.
      - When the four mount and unmount commands succeed the check passes
        with exactly those commands, and the filesystem is as before.
      - A pass always leaves the filesystem as before. */
  method CheckCycles(fs: FileSystem, sh: Shell, mp: MountParams, mountPoint: Path)
    returns (o: Outcome)
    requires fs.Valid()
    modifies fs, sh
    ensures fs.Valid()
    ensures var t := PathStr(mountPoint);
      t !in old(sh.mounted) ==>
        && sh.mounted - {t} == old(sh.mounted)
        && (t in sh.mounted ==>
              && |sh.log| > |old(sh.log)|
              && sh.log[|sh.log| - 1] == Umount(UmountCommand(t), t)
              && sh.codes(|sh.log| - 1) != 0)
    ensures o.Pass? ==> fs.files == old(fs.files) && fs.dirs == old(fs.dirs)
    ensures var t := PathStr(mountPoint);
      var n := |old(sh.log)|;
      MountCommand(mp, t, "").Ok? && mountPoint in old(fs.dirs) && (forall k :: n <= k < n + 4 ==> sh.codes(k) == 0) ==>
        var mount := Mount(MountCommand(mp, t, "").value, t);
        var umount := Umount(UmountCommand(t), t);
        o == Pass && sh.log == old(sh.log) + [mount, umount, mount, umount]
  {
    var flagShareMounted;
    o, flagShareMounted := TryBody(fs, sh, mp, mountPoint);
    o := UnmountIfFlagged(sh, PathStr(mountPoint), o, flagShareMounted);
  }

  /** `consistency_check(mount_point, share_name)`: the mount parameters of
      the default combination, whose lookup raises before the `try`, then
      the two cycles. */
  method ConsistencyCheck(fs: FileSystem, sh: Shell, g: Globals, mountPoint: Path, shareName: string)
    returns (o: Outcome)
    requires fs.Valid()
    modifies fs, sh
    ensures fs.Valid()
    ensures GetMountParameters(g.testInfo, shareName, 0).Err? ==>
      o == Fail(GetMountParameters(g.testInfo, shareName, 0).error) && sh.log == old(sh.log)
    ensures var t := PathStr(mountPoint);
      t !in old(sh.mounted) && t in sh.mounted ==>
        |sh.log| > 0 && sh.log[|sh.log| - 1] == Umount(UmountCommand(t), t) && sh.codes(|sh.log| - 1) != 0
    ensures o.Pass? ==> fs.files == old(fs.files) && fs.dirs == old(fs.dirs)
    ensures var t := PathStr(mountPoint);
      var params := GetMountParameters(g.testInfo, shareName, 0);
      var n := |old(sh.log)|;
      params.Ok? && mountPoint in old(fs.dirs) && (forall k :: n <= k < n + 4 ==> sh.codes(k) == 0) ==>
        var mount := Mount(MountCommand(params.value, t, "").value, t);
        var umount := Umount(UmountCommand(t), t);
        o == Pass && sh.log == old(sh.log) + [mount, umount, mount, umount]
  {
    var params := GetMountParameters(g.testInfo, shareName, 0);
    if params.Err? {
      return Fail(params.error);
    }
    o := CheckCycles(fs, sh, params.value, mountPoint);
  }

  /** `test_consistency(share_name)` with `os.getpid()` as `pid`: a fresh
      mount point under a fresh tmp root, the check, then both rmdirs, which
      a failed check skips. A pass leaves the filesystem as before. */
  method TestConsistency(fs: FileSystem, sh: Shell, g: Globals, shareName: string, pid: nat)
    returns (o: Outcome)
    requires fs.Valid()
    modifies fs, sh
    ensures fs.Valid()
    ensures o.Pass? ==> fs.files == old(fs.files) && fs.dirs == old(fs.dirs)
  {
    var root := GetTmpRoot(fs, ["tmp"], pid);
    if root.Err? {
      return Fail(root.error);
    }
    var tmpRoot := root.value;
    // `get_tmp_mount_point` cannot raise here: tmp_root was just made.
    var point := GetTmpMountPoint(fs, tmpRoot);
    var mountPoint := point.value;
    o := ConsistencyCheck(fs, sh, g, mountPoint, shareName);
    if o.Fail? {
      return;
    }
    assert !fs.HasEntries(mountPoint) by {
      forall q | q in fs.Paths() && q != mountPoint ensures !Under(mountPoint, q) {
        if Under(mountPoint, q) {
          UnderParent(mountPoint, q);
        }
      }
    }
    o := fs.Rmdir(mountPoint);
    if o.Fail? {
      return;
    }
    assert !fs.HasEntries(tmpRoot);
    o := fs.Rmdir(tmpRoot);
  }
}
