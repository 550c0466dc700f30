/** testhelper/cmdhelper.py: the command lines and argument vectors the
    harness hands to `mount`, `umount` and `smbclient`, and the assertion
    on their return codes. */
module CmdHelper {
  import opened Common
  import opened Host
  import opened TestHelper

  /** `mount_params[key]` */
  function Lookup(mp: MountParams, key: string): (r: Result<string>)
    ensures r.Ok? <==> key in mp
    ensures key in mp ==> r.value == mp[key]
    ensures key !in mp ==> r == Err(KeyError(key))
  {
    if key in mp then Ok(mp[key]) else Err(KeyError(key))
  }

  /** The credential part of the `-o` option list. */
  function Credentials(user: string, password: string): string
  {
    "username=" + user + ",password=" + password
  }

  /** The `-o` option list of `cifs_mount`: the credentials alone when `opts`
      is empty, otherwise `opts`, a comma, then the credentials. */
  function MountOptions(mp: MountParams, opts: string): (r: Result<string>)
    ensures r.Ok? <==> "username" in mp && "password" in mp
    ensures "username" !in mp ==> r == Err(KeyError("username"))
    ensures r.Ok? && opts == [] ==> r.value == Credentials(mp["username"], mp["password"])
    ensures r.Ok? && opts != [] ==>
      |r.value| > |opts| && r.value[..|opts|] == opts && r.value[|opts|..] == "," + Credentials(mp["username"], mp["password"])
  {
    var user :- Lookup(mp, "username");
    var password :- Lookup(mp, "password");
    if opts == [] then Ok(Credentials(user, password))
    else Ok(opts + "," + Credentials(user, password))
  }

  /** `"//" + host + "/" + share` */
  function ShareSpec(mp: MountParams): (r: Result<string>)
    ensures r.Ok? <==> "host" in mp && "share" in mp
    ensures r.Ok? ==> r.value == "//" + mp["host"] + "/" + mp["share"]
  {
    var host :- Lookup(mp, "host");
    var share :- Lookup(mp, "share");
    Ok("//" + host + "/" + share)
  }

  const MountPrefix := "mount -t cifs -o "

  /** The `cmd` string `cifs_mount` runs. */
  function MountCommand(mp: MountParams, mountPoint: string, opts: string): (r: Result<string>)
    ensures r.Ok? <==> MountOptions(mp, opts).Ok? && ShareSpec(mp).Ok?
    ensures r.Ok? ==>
      r.value == MountPrefix + MountOptions(mp, opts).value + " " + ShareSpec(mp).value + " " + mountPoint
  {
    var options :- MountOptions(mp, opts);
    var share :- ShareSpec(mp);
    Ok(MountPrefix + options + " " + share + " " + mountPoint)
  }

  /** The `cmd` string `cifs_umount` runs. */
  function UmountCommand(mountPoint: string): (r: string)
    ensures |r| == 11 + |mountPoint| && r[..11] == "umount -fl " && r[11..] == mountPoint
  {
    "umount -fl " + mountPoint
  }

  /** `str(n)` for any integer. */
  function IntToString(n: int): string
  {
    if n >= 0 then NatToString(n) else "-" + NatToString(-n)
  }

  /** The `cmd` string of `cifs_mount` when the mount point is a
      `pathlib.Path`, as every caller passes it: the option and share
      lookups run first, then `" " + mount_point` raises, since a string and
      a Path do not add. */
  function MountCommandWithPath(mp: MountParams, mountPoint: Path, opts: string): (r: Result<string>)
    ensures r.Err?
    ensures MountOptions(mp, opts).Err? ==> r == Err(MountOptions(mp, opts).error)
    ensures MountOptions(mp, opts).Ok? && ShareSpec(mp).Ok? ==> r == Err(TypeError)
  {
    var options :- MountOptions(mp, opts);
    var share :- ShareSpec(mp);
    Err(TypeError)
  }

  /** The assertion message of both `cifs_mount` and `cifs_umount`. */
  function ErrorMounting(ret: int, cmd: string): string
  {
    "Error mounting: ret " + IntToString(ret) + " cmd: " + cmd + "\n"
  }

  /** `cifs_mount(mount_params, mount_point, opts)`: runs the mount command
      unless building it raised, fails the assertion on a non-zero return,
      otherwise returns 0. */
  method CifsMount(sh: Shell, mp: MountParams, mountPoint: string, opts: string) returns (r: Result<int>)
    modifies sh
    ensures MountCommand(mp, mountPoint, opts).Err? ==>
      r == Err(MountCommand(mp, mountPoint, opts).error) && sh.log == old(sh.log) && sh.mounted == old(sh.mounted)
    ensures MountCommand(mp, mountPoint, opts).Ok? ==>
      var cmd := MountCommand(mp, mountPoint, opts).value;
      var code := sh.codes(|old(sh.log)|);
      && sh.log == old(sh.log) + [Mount(cmd, mountPoint)]
      && sh.mounted == Effect(old(sh.mounted), Mount(cmd, mountPoint), code)
      && r == (if code == 0 then Ok(0) else Err(AssertionFailed(ErrorMounting(code, cmd))))
    ensures r.Ok? ==> r.value == 0 && sh.mounted == old(sh.mounted) + {mountPoint}
  {
    var cmd :- MountCommand(mp, mountPoint, opts);
    var ret := sh.Exec(Mount(cmd, mountPoint));
    if ret != 0 {
      return Err(AssertionFailed(ErrorMounting(ret, cmd)));
    }
    r := Ok(ret);
  }

  /** `cifs_umount(mount_point)` */
  method CifsUmount(sh: Shell, mountPoint: string) returns (r: Result<int>)
    modifies sh
    ensures sh.log == old(sh.log) + [Umount(UmountCommand(mountPoint), mountPoint)]
    ensures var code := sh.codes(|old(sh.log)|);
      && r == (if code == 0 then Ok(0) else Err(AssertionFailed(ErrorMounting(code, UmountCommand(mountPoint)))))
      && sh.mounted == (if code == 0 then old(sh.mounted) - {mountPoint} else old(sh.mounted))
  {
    var cmd := UmountCommand(mountPoint);
    var ret := sh.Exec(Umount(cmd, mountPoint));
    if ret != 0 {
      return Err(AssertionFailed(ErrorMounting(ret, cmd)));
    }
    r := Ok(ret);
  }

  /** The `--user=U%P` argument shared by smbclient and smbtorture. */
  function UserArg(user: string, password: string): string
  {
    "--user=" + user + "%" + password
  }

  /** The argument vector `smbclient` builds. */
  function SmbclientArgv(mp: MountParams, cmds: string): (r: Result<seq<string>>)
    ensures r.Ok? <==> MountKeys <= mp.Keys
    ensures r.Ok? ==>
      && |r.value| == 5
      && r.value[0] == "smbclient"
      && r.value[1] == UserArg(mp["username"], mp["password"])
      && Ok(r.value[2]) == ShareSpec(mp)
      && r.value[3] == "-c" && r.value[4] == cmds
  {
    var user :- Lookup(mp, "username");
    var password :- Lookup(mp, "password");
    var host :- Lookup(mp, "host");
    var share :- Lookup(mp, "share");
    Ok(["smbclient", UserArg(user, password), "//" + host + "/" + share, "-c", cmds])
  }

  /** `smbclient(mount_params, cmds)`: the return code of the run; the
      captured output is not modelled. */
  method Smbclient(sh: Shell, mp: MountParams, cmds: string) returns (r: Result<int>)
    modifies sh
    ensures SmbclientArgv(mp, cmds).Err? ==> r == Err(SmbclientArgv(mp, cmds).error) && sh.log == old(sh.log)
    ensures SmbclientArgv(mp, cmds).Ok? ==>
      && sh.log == old(sh.log) + [Run(SmbclientArgv(mp, cmds).value)]
      && r == Ok(sh.codes(|old(sh.log)|))
    ensures sh.mounted == old(sh.mounted)
  {
    var argv :- SmbclientArgv(mp, cmds);
    var code := sh.Exec(Run(argv));
    r := Ok(code);
  }

  /** Options with extra `opts` are the plain options with `opts` and a
      comma put in front. */
  lemma MountOptionsExtend(mp: MountParams, opts: string)
    requires opts != []
    ensures MountOptions(mp, opts).Ok? <==> MountOptions(mp, []).Ok?
    ensures MountOptions(mp, opts).Ok? ==>
      MountOptions(mp, opts).value == opts + "," + MountOptions(mp, []).value
  {
  }

  /** The credentials can be read back from the option list: they are the
      text after "username=" up to ",password=" and the text after it,
      provided the user name has no ",password=" inside. */
  lemma {:induction false} CredentialsSplit(user: string, password: string)
    ensures var c := Credentials(user, password);
      && c[..9] == "username="
      && c[9..9 + |user|] == user
      && c[9 + |user|..19 + |user|] == ",password="
      && c[19 + |user|..] == password
  {
  }

  /** For the parameters `gen_mount_params` builds, every command targets the
      share //host/share with the given user's credentials. */
  lemma MountCommandOfParams(host: string, share: string, user: string, password: string, mountPoint: string, cmds: string)
    ensures var mp := GenMountParams(host, share, user, password);
      && MountCommand(mp, mountPoint, []) == Ok(MountPrefix + Credentials(user, password) + " //" + host + "/" + share + " " + mountPoint)
      && SmbclientArgv(mp, cmds) == Ok(["smbclient", UserArg(user, password), "//" + host + "/" + share, "-c", cmds])
  {
    var mp := GenMountParams(host, share, user, password);
    assert MountPrefix + Credentials(user, password) + " " + ("//" + host + "/" + share) + " " + mountPoint
        == MountPrefix + Credentials(user, password) + " //" + host + "/" + share + " " + mountPoint;
  }
}
