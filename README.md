# SMB/CIFS test harness — a Dafny model

This project models the logic of the sit-test-cases harness. The harness is a set of Python/pytest
test cases that mount SMB shares through the kernel CIFS client and check that the share
behaves like a filesystem.

The harness logic covered is:

- **Mount parameters.** Choosing them from the parsed test-info document: the default
  combination, the total number of combinations, and the combination number split into an
  (interface, user) pair.
- **Random buffers.** The builder that grows a buffer 8 bytes at a time, then doubles it.
- **Fresh names.** The allocators that probe `mnt_0`, `mnt_1`, … until a name is free.
- **Command lines.** Those of `mount`, `umount`, `smbclient`, `smbtorture` and the subunit
  filters.
- **Phased I/O checkers.** mkdirs, write, verify, overwrite, verify, unlink, verify_noent, each
  run over every dataset.
- **The record database checker.** Store, query, shuffle, query again.
- **Parameter generators.** The cross products the tests are parametrised with.
- **Mounted-flag cleanup.** The rule that decides whether the cleanup unmounts.

The outside world is replaced by small stand-ins:

- `Fs.FileSystem`: a map from path to bytes and a set of directories. Each method is one
  `pathlib`/`os`/`shutil` call, with the exception Python raises for it.
- `Host.Shell`: a log of the commands run. Each command's return code comes from an oracle
  fixed in advance, and a mount or unmount that returns 0 updates the mount table.
- `Rand.Random`: an oracle sequence of raw draws.
- The hash: an uninterpreted function.

Errors are values. `Outcome` is `Pass` or `Fail(error)`, and `Result<T>` is `Ok(value)` or
`Err(error)`. `Common.Finally` gives the `try`/`finally` rule: an exception raised in the
`finally` block replaces the outcome of the body.

There is one module per source file. `IoCheck` serves `testcases/misc/test_io.py` and
`testcases/mount/mount_io.py`, whose checkers are the same line for line. Its data-path class
also serves `testcases/mount/test_mount_io.py`, whose class draws its buffers with
`random.randbytes` and has no `verify_noent`. `MountIoTest` models that file's own driver, which
has no absence phase, and its own cases.

## Model

| member | source | states |
|---|---|---|
| Common.Finally | testcases/containers/test_containers.py:60-65 | an exception raised in the `finally` block replaces the body's outcome; a passing cleanup keeps the body's outcome |
| Common.PyIndex | testhelper/testhelper.py:118 | Python list indexing: succeeds exactly for -len ≤ i < len, negative indices count from the end, anything else is IndexError |
| Common.NatToStringInjective | testcases/misc/test_io.py:75-76 | distinct indices render as distinct `str(idx)` names |
| Common.ParseNatToString | testcases/mount/mount_dbm.py:19-20 | `int(str(n)) == n` for every natural n |
| Common.CrossLength | testcases/mount/test_mount.py:45-49 | the nested-loop pair list has |xs|·|ys| entries |
| Common.CrossAt | testcases/mount/test_mount.py:45-49 | entry i·|ys|+j is (xs[i], ys[j]), so the list is x-major |
| Common.CrossMember | testcases/mount/test_mount.py:45-49 | a pair occurs in the list iff each part occurs in its own list |
| TestHelper.GenMountParams | testhelper/testhelper.py:34-40 | exactly the keys host, share, username and password, each bound to the argument of that name |
| TestHelper.OverrideHost | testcases/mount/test_mount.py:20-21 | `mount_params["host"] = ipaddr` sets host and leaves every other key and value as it was |
| TestHelper.GetDefaultMountParams | testhelper/testhelper.py:43-58 | succeeds iff all three lists are present and non-empty; then the result uses the first interface, the first exported share, and the first user's name and password |
| TestHelper.GetTotalMountParameterCombinations | testhelper/testhelper.py:61-71 | |public_interfaces| × |test_users|; fails iff either key is missing |
| TestHelper.ComboSplitInRange | testhelper/testhelper.py:86-87 | for combonum below the total, the user count is positive, both indices are in range, and interface·|users| + user == combonum |
| TestHelper.ComboSplitOnto | testhelper/testhelper.py:86-87 | every in-range pair (i, j) comes from the combination number i·|users|+j, which is below the total; together with ComboSplitInRange, a bijection |
| TestHelper.GetMountParameters | testhelper/testhelper.py:74-93 | KeyError for a missing key; fails the assertion iff combonum ≥ total; otherwise interface combonum div |users|, username and password from user combonum mod |users|, and the caller's share unchanged |
| TestHelper.GetMountParametersCovers | testhelper/testhelper.py:74-93 | every (interface, user) pair is returned for combination number i·|users|+j, with the share asked for |
| TestHelper.GetNumShares | testhelper/testhelper.py:96-105 | the number of exported share names; KeyError iff the key is missing |
| TestHelper.GetShare | testhelper/testhelper.py:108-118 | Python indexing into the exported names; the i-th name for an in-range i; KeyError when the key is missing |
| TestHelper.FromToBytesBig | testhelper/testhelper.py:133-134 | `to_bytes(8, "big")` loses nothing: reading the bytes back gives the drawn value |
| TestHelper.GrowShape | testhelper/testhelper.py:135-138 | every pass lengthens the buffer; below 4096 bytes it appends the 8 new bytes; past that it has length 2·len+16 with the new bytes at 0 and len+8 and the old buffer at 8 and len+16 |
| TestHelper.Fill | testhelper/testhelper.py:132-138 | the loop stops with at least `size` bytes, never moves the draw position back, and does nothing when the buffer is already long enough |
| TestHelper.RandomBytes | testhelper/testhelper.py:121-139 | exactly `size` bytes, and the empty sequence with no draw for size 0 |
| TestHelper.FillWithinPage | testhelper/testhelper.py:132-136 | up to 4096 bytes nothing is reused: the buffer is the next k draws back to back, and exactly k draws are used |
| TestHelper.RandomBytesWithinPage | testhelper/testhelper.py:121-139 | for 0 < size ≤ 4096, the result is the first `size` bytes of ⌈size/8⌉ draws, and exactly those draws are used |
| TestHelper.RandomWord | testhelper/testhelper.py:133-134 | one `randint` draw as its 8 big-endian bytes, consuming exactly one draw |
| TestHelper.GenerateRandomBytes | testhelper/testhelper.py:121-139 | the loop returns exactly the buffer RandomBytes specifies and leaves the generator at the position it specifies |
| FsHelper.FirstFree | testhelper/fshelper.py:34-38 | the probing loop stops at the least index whose candidate does not exist; it terminates because distinct indices name distinct paths |
| FsHelper.RootCandidateStep | testhelper/fshelper.py:15-19 | each `get_tmp_root` candidate is the previous one with the next "i" appended, so its parent is the previous candidate |
| FsHelper.NumberedInjective | testhelper/fshelper.py:35-38 | distinct indices give distinct `prefix + str(i)` names |
| FsHelper.GetTmpRoot | testhelper/fshelper.py:5-21 | the first candidate that does not exist, created with a plain mkdir; succeeds iff its parent is a directory; then exactly that directory is added, nothing existed under it, and files are unchanged |
| FsHelper.GetTmpMountPoint | testhelper/fshelper.py:24-40 | tmp_root/"mnt_i" for the least free i, created as a directory; succeeds iff tmp_root is a directory; only that directory is added |
| FsHelper.GetTmpFile | testhelper/fshelper.py:43-59 | tmp_root/"tmp_file_i" for the least free i, created as an empty file; succeeds iff tmp_root is a directory; only that file is added |
| FsHelper.GetTmpDir | testhelper/fshelper.py:62-78 | as written, when tmp_dir_0 is absent: returns tmp_root/"tmp_dir_0", which still does not exist |
| FsHelper.GetFreshTmpDir | testhelper/fshelper.py:62-78 | corrected: tmp_root/"tmp_dir_i" for the least free i, created as a directory; succeeds iff tmp_root is a directory |
| CmdHelper.MountOptions | testhelper/cmdhelper.py:20-34 | "username=U,password=P" for empty opts; otherwise opts is a proper prefix, followed by "," and the credentials; succeeds iff both credentials are present, with KeyError("username") when the user name is missing |
| CmdHelper.ShareSpec | testhelper/cmdhelper.py:35 | "//" + host + "/" + share; fails iff host or share is missing |
| CmdHelper.MountCommand | testhelper/cmdhelper.py:36 | "mount -t cifs -o " + options + " " + share + " " + mount point, whenever options and share can be built |
| CmdHelper.UmountCommand | testhelper/cmdhelper.py:51 | "umount -fl " followed by exactly the mount point |
| CmdHelper.MountCommandWithPath | testhelper/cmdhelper.py:36 | as written, with a `pathlib.Path` mount point: the command is never built; the lookup error or TypeError is raised |
| CmdHelper.CifsMount | testhelper/cmdhelper.py:6-39 | runs exactly the mount command; a non-zero return fails the assertion with the command in the message; success returns 0 and leaves the share mounted |
| CmdHelper.CifsUmount | testhelper/cmdhelper.py:42-54 | runs exactly "umount -fl <mount point>"; a non-zero return fails the assertion; success returns 0 and unmounts |
| CmdHelper.SmbclientArgv | testhelper/cmdhelper.py:70-76 | exactly ["smbclient", "--user=U%P", "//host/share", "-c", cmds]; fails iff a key is missing |
| CmdHelper.Smbclient | testhelper/cmdhelper.py:57-83 | runs that argument vector once and returns its return code; nothing is mounted or unmounted |
| CmdHelper.MountOptionsExtend | testhelper/cmdhelper.py:20-34 | the options with extra opts are opts + "," + the plain options |
| CmdHelper.CredentialsSplit | testhelper/cmdhelper.py:21-26 | the user name and password can be read back from the option text at fixed offsets |
| CmdHelper.MountCommandOfParams | testhelper/cmdhelper.py:20-36 | for `gen_mount_params` output, the mount command and the smbclient argv for any command string target //host/share with that user's credentials |
| Smbtorture.TortureCmd | testcases/smbtorture/test_smbtorture.py:28-39 | ten arguments: the executable, the six fixed flags in order, "--user=U%P", "//host/share", and the test name last |
| Smbtorture.TortureCmdOfShare | testcases/smbtorture/test_smbtorture.py:27-39 | with the default combination, the command carries the first user's credentials and the first interface as host |
| Smbtorture.FlappingList | testcases/smbtorture/test_smbtorture.py:52-60 | starts with flapping, flapping.d; has the third entry "flapping."+backend iff a backend is named and that path exists (file or directory) |
| Smbtorture.FilterSubunitCmd | testcases/smbtorture/test_smbtorture.py:42-64 | the fixed four-argument head, then --expected-failures for knownfail and knownfail.d, then one --flapping per list entry in order |
| Smbtorture.RunSmbtorture | testcases/smbtorture/test_smbtorture.py:25-110 | a lookup failure raises before anything runs; otherwise three programs run, torture first and the formatter last; success iff the formatter returns 0 |
| Smbtorture.GenerateSmbtortureTests | testcases/smbtorture/test_smbtorture.py:119-126 | (share, test) for every share in index order and every listed test, share-major |
| IoCheck.DataPath.constructor | testcases/misc/test_io.py:18-21 | holds the path and a fresh buffer of exactly `size` bytes |
| IoCheck.DataPath.Renew | testcases/misc/test_io.py:23-24 | a new buffer of the same size from the next draws |
| IoCheck.DataPath.Write | testcases/misc/test_io.py:26-27 | the file gets exactly the buffer; fails iff the path is a directory or its parent is not one; nothing else changes |
| IoCheck.DataPath.Overwrite | testcases/misc/test_io.py:29-31 | renew then write: afterwards the file holds the new buffer |
| IoCheck.DataPath.Mkdirs | testcases/misc/test_io.py:36-37 | on Pass the parent is a directory; nothing changes when it already was one; when no prefix of it is a file it passes and adds exactly its missing ancestors; files are never touched |
| IoCheck.DataPath.Unlink | testcases/misc/test_io.py:39-40 | removes exactly this file; fails iff it was not a file |
| IoCheck.DataPath.VerifySize | testcases/misc/test_io.py:49-54 | passes iff stat reports `size`; a size mismatch reports both sizes; a missing path raises the lookup error |
| IoCheck.DataPath.VerifyData | testcases/misc/test_io.py:56-62 | passes iff the stored bytes have length `size` and equal the buffer; a length mismatch is reported before a content mismatch |
| IoCheck.DataPath.Verify | testcases/misc/test_io.py:45-47 | a size failure comes first, then the data check; passes iff the file holds the buffer at the declared size |
| IoCheck.DataPath.VerifyNoent | testcases/misc/test_io.py:64-72 | passes iff stat raises FileNotFoundError; an existing path fails with "still exists" |
| IoCheck.MakePathname | testcases/misc/test_io.py:75-76 | base/str(idx), one level below base |
| IoCheck.MakePathnameInjective | testcases/misc/test_io.py:75-76 | distinct indices give distinct dataset paths |
| IoCheck.MakeDatasets | testcases/misc/test_io.py:79-84 | `count` new objects at base/"0" … base/"count-1" in index order, with the requested size, valid buffers and distinct paths |
| IoCheck.NumberedPathsDistinct | testcases/misc/test_io.py:83-84 | objects numbered 0, 1, … under one base never share a path |
| IoCheck.MkdirsPhase | testcases/misc/test_io.py:88-89 | on Pass every dataset's parent is a directory; it passes when no prefix of any parent is a file; every added directory is an ancestor of some parent, and none is added when every parent exists; files are never touched |
| IoCheck.WritePhase | testcases/misc/test_io.py:90-91 | passes iff every file can be placed; then each file holds its buffer; no file outside the dataset changes |
| IoCheck.OverwriteAt | testcases/misc/test_io.py:94-95 | one overwrite step extends the prefix of files holding their current buffers |
| IoCheck.OverwritePhase | testcases/misc/test_io.py:94-95 | passes iff every file can be placed; then each file holds its object's new buffer at the declared size; no other file changes |
| IoCheck.UnlinkPhase | testcases/misc/test_io.py:98-99 | passes iff the paths are distinct and all exist as files; then exactly those files are gone |
| IoCheck.CheckAllPass | testcases/misc/test_io.py:92-93 | a check loop passes iff the check passes for every element |
| IoCheck.CheckAllFirstFailure | testcases/misc/test_io.py:92-93 | a failing check loop reports the first element that fails, and every earlier one passed |
| IoCheck.CheckPhase | testcases/misc/test_io.py:92-93 | the verify (or verify_noent) loop yields the first failure in list order, or passes |
| IoCheck.VerifyStored | testcases/misc/test_io.py:92-97 | files holding their buffers at the declared size pass the verify loop |
| IoCheck.NoentRemoved | testcases/misc/test_io.py:100-101 | removed files whose directories remain pass the verify_noent loop |
| IoCheck.StorePhases | testcases/misc/test_io.py:88-97 | for well-formed objects at distinct placeable paths, mkdirs, write, verify, overwrite, verify all pass and every file holds its current buffer |
| IoCheck.RemovePhases | testcases/misc/test_io.py:98-101 | for files present at distinct paths, unlink and verify_noent pass and exactly those files are gone |
| IoCheck.RunChecks | testcases/misc/test_io.py:87-101 | on a clean run nothing is raised and the filesystem ends as before minus the dataset files; no file outside the dataset ever changes |
| IoCheck.RunCase | testcases/misc/test_io.py:111 | on an existing base, nothing changes outside it; if nothing was under base, the case passes and leaves the files as they were |
| IoCheck.RunCases | testcases/misc/test_io.py:110-117 | the four (size, count) cases run in turn under one base: nothing outside base changes, and on a clear base all pass and the files end as they were |
| IoCheck.CheckIoConsistency | testcases/misc/test_io.py:104-123 | base = test_dir/"test_io_consistency" is removed at the end, with everything below it; a regular file already at base fails the mkdir with FileExistsError and stays, nothing changed; passes when test_dir exists and base did not |
| MountIo.CheckIoConsistency | testcases/mount/mount_io.py:130-132 | the same battery under rootdir/"test_io_consistency": base is removed at the end unless it was a regular file, which stays and fails the mkdir with FileExistsError |
| MountIoTest.RunTest | testcases/mount/test_mount_io.py:76-88 | mkdirs, write, verify, overwrite, verify, unlink with no absence check; a clean run passes and removes exactly the dataset files |
| MountIoTest.RunCase | testcases/mount/test_mount_io.py:104 | the datasets draw with `random.randbytes`; on a clear base the case passes and leaves the files as they were |
| MountIoTest.RunCases | testcases/mount/test_mount_io.py:103-108 | the three (size, count) cases run in turn under one base: nothing outside base changes, and on a clear base all pass and the files end as they were |
| MountIoTest.TestIoConsistency | testcases/mount/test_mount_io.py:97-114 | base is removed in `finally`, except a regular file already at base, which fails the mkdir with FileExistsError and stays; passes when rootdir exists and base did not |
| CifsKo.PathData.constructor | testcases/cifs_ko/test_cifs_ko.py:14-17 | a buffer of exactly `size` bytes from the next `size` draws |
| CifsKo.PathData.RenewData | testcases/cifs_ko/test_cifs_ko.py:19-20 | a new buffer of the same size from the next draws |
| CifsKo.PathData.Write | testcases/cifs_ko/test_cifs_ko.py:22-23 | the file gets exactly the buffer, or nothing changes |
| CifsKo.PathData.Mkdirs | testcases/cifs_ko/test_cifs_ko.py:28-29 | on Pass the parent is a directory; when no prefix of it is a file it passes and adds exactly its missing ancestors; files are never touched |
| CifsKo.PathData.Unlink | testcases/cifs_ko/test_cifs_ko.py:31-32 | removes exactly this file; fails iff it was not a file |
| CifsKo.PathData.VerifySize | testcases/cifs_ko/test_cifs_ko.py:37-38 | returns whether stat reports `size`, raising only when stat does |
| CifsKo.PathData.VerifyData | testcases/cifs_ko/test_cifs_ko.py:40-42 | true iff the stored bytes have length `size` and equal the buffer, raising only when the read does |
| CifsKo.MakeDatasets | testcases/cifs_ko/test_cifs_ko.py:50-55 | `count` objects at base/"0" … base/"count-1" with distinct paths, the k-th buffer from draws k·size onwards |
| CifsKo.MkdirsPhase | testcases/cifs_ko/test_cifs_ko.py:60-61 | on Pass every dataset's parent is a directory; it passes when no prefix of any parent is a file; every added directory is an ancestor of some parent, and none is added when every parent exists |
| CifsKo.MkdirsMadeBase | testcases/cifs_ko/test_cifs_ko.py:60-61 | after a passing mkdirs loop over datasets in one base, the directories added are exactly the missing ancestors of base, none as long as a dataset path |
| CifsKo.WritePhase | testcases/cifs_ko/test_cifs_ko.py:62-63 | passes iff every file can be placed; then each holds its buffer; no other file changes |
| CifsKo.ReadPhase | testcases/cifs_ko/test_cifs_ko.py:64-65 | passes iff every dataset file exists; otherwise raises the first failing read's error |
| CifsKo.Mismatches | testcases/cifs_ko/test_cifs_ko.py:67-69 | the number of "data not eq" reports is at most the number of datasets |
| CifsKo.NoMismatchWhenStored | testcases/cifs_ko/test_cifs_ko.py:67-69 | nothing is reported when every file holds its buffer |
| CifsKo.VerifyPhase | testcases/cifs_ko/test_cifs_ko.py:67-69 | passes iff every dataset file can be read; then the number of "data not eq" reports is exactly the number of datasets whose data differ |
| CifsKo.DoUnlinkPhase | testcases/cifs_ko/test_cifs_ko.py:70-71 | as written: AttributeError on the first element; passes only for an empty list |
| CifsKo.UnlinkPhase | testcases/cifs_ko/test_cifs_ko.py:70-71 | corrected `unlink` loop: passes iff the paths are distinct existing files, and then exactly those are gone |
| CifsKo.WriteAndCompare | testcases/cifs_ko/test_cifs_ko.py:58-69 | four 1 MiB datasets at base/"0" … base/"3"; when no prefix of base is a file and no dataset path is a directory (base may be missing, as /mnt/cifs/A/B in `main`), every phase passes, nothing is reported, each file holds its buffer, and exactly the missing ancestors of base are added |
| CifsKo.RunTest | testcases/cifs_ko/test_cifs_ko.py:58-71 | as written the run never passes; under the same condition on base it ends in AttributeError with the four files left holding their buffers and base's missing ancestors created |
| CifsKo.RunTestUnlinking | testcases/cifs_ko/test_cifs_ko.py:58-71 | corrected: under the same condition on base (which may be missing) the run passes, removes exactly the four files, and leaves base's missing ancestors created |
| MountDbm.NewRecord | testcases/mount/mount_dbm.py:14-17 | key is str(ikey), val is the hash of the key, and the tag is in [0, 0x3FFFFFFF] |
| MountDbm.IKeyOfNewRecord | testcases/mount/mount_dbm.py:19-20 | `ikey()` gives back the integer the record was made from |
| MountDbm.CheckConsistent | testcases/mount/mount_dbm.py:31-33 | passes iff val is the hash of the record's own key; otherwise "not consistent" |
| MountDbm.NewRecordConsistent | testcases/mount/mount_dbm.py:22-33 | every freshly made record passes the consistency check |
| MountDbm.CheckEqual | testcases/mount/mount_dbm.py:36-42 | passes iff the records are equal; key is compared first, then val, then tag, and the first difference is reported |
| MountDbm.StoreAllUnique | testcases/mount/mount_dbm.py:56-59 | after storing records with unique keys, each key maps to its record |
| MountDbm.StoreAllOther | testcases/mount/mount_dbm.py:56-59 | storing leaves every key not among the records as it was |
| MountDbm.StoreAllLastWins | testcases/mount/mount_dbm.py:56-59 | a key ends up holding the last record stored under it |
| MountDbm.QueryAllPass | testcases/mount/mount_dbm.py:61-66 | a query passes iff every record is stored unchanged under its key and is consistent |
| MountDbm.QueryPermutation | testcases/mount/mount_dbm.py:83-84 | whether a query passes does not depend on the order of the list |
| MountDbm.Database.constructor | testcases/mount/mount_dbm.py:46-47 | keeps the path; nothing stored yet |
| MountDbm.Database.Create | testcases/mount/mount_dbm.py:49-50 | flag "n": a new, empty database |
| MountDbm.Database.Destroy | testcases/mount/mount_dbm.py:52-54 | nothing stored remains |
| MountDbm.Database.Store | testcases/mount/mount_dbm.py:56-59 | the database after writing each record under its key, in list order |
| MountDbm.Database.Query | testcases/mount/mount_dbm.py:61-66 | the first failure in list order (missing key, inconsistent value, field mismatch), or pass |
| MountDbm.MakeRecords | testcases/mount/mount_dbm.py:69-70 | one record per integer of the range, in order, each tag from the next draw |
| MountDbm.MadeUnique | testcases/mount/mount_dbm.py:69-70 | records made from a range have unique, consistent keys drawn from that range |
| MountDbm.HalvesDisjoint | testcases/mount/mount_dbm.py:75-76 | the two halves [0, n/2) and [n/2, n) share no key |
| MountDbm.FirstHalfPasses | testcases/mount/mount_dbm.py:81-84 | after storing the first half, querying it in any order passes |
| MountDbm.BothHalvesPass | testcases/mount/mount_dbm.py:85-87 | after storing the shuffled second half, both halves are retrievable in the original order |
| MountDbm.CheckDbmConsistency | testcases/mount/mount_dbm.py:73-89 | against the map, every query of the sequence passes |
| MountDbm.CheckDbmConsistencyAt | testcases/mount/mount_dbm.py:92-100 | passes iff "dbm-consistency" is not a file (rootdir existing); then its tree is removed and nothing else changes |
| Conftest.ParamIdInjective | testcases/misc/conftest.py:54 | for one interface, different shares give different ids |
| Conftest.GenerateMountCheck | testcases/misc/conftest.py:48-56 | KeyError when public_interfaces is missing, IndexError when it is empty; otherwise the first interface only, one parameter per exported share in order with id ipaddr-share, and none when exported_sharenames is missing |
| Conftest.GeneratedIdsDistinct | testcases/misc/conftest.py:52-55 | distinct exported shares give distinct parameter ids |
| Conftest.FixtureEmptied | testcases/misc/conftest.py:39-43 | once the test directory's tree is gone, only the mount point and tmp root remain under the tmp root |
| Conftest.MakeTmpMountPoint | testcases/misc/conftest.py:20-21 | a new tmp root with a new mount point as its only entry, or a lookup error with nothing changed |
| Conftest.MountFixture.constructor | testcases/misc/conftest.py:19 | the flag starts clear |
| Conftest.MountFixture.Setup | testcases/misc/conftest.py:14-35 | corrected (mounts `str(mount_point)`): on success the flag is set, the share is mounted with only host overridden, and exactly the three new directories exist; a parameter lookup failure is re-raised as "Setup failed" before any command |
| Conftest.MountFixture.SetupTry | testcases/misc/conftest.py:22-32 | corrected (mounts `str(mount_point)`): every exception is wrapped as "Setup failed"; the flag is set iff the share got mounted; a lookup failure runs no command |
| Conftest.MountFixture.Teardown | testcases/misc/conftest.py:37-45 | unmounts iff the flag is set; with the fixture intact and a successful unmount it passes and everything under the tmp root is gone, unless the test left a regular file at mount_test, which the rmtree leaves, so the rmdir fails and nothing is removed; failures are wrapped as "Teardown failed" |
| Containers.AssignKeys | testcases/containers/test_containers.py:32-33 | after loading, the names are the old ones plus the listed ones |
| Containers.AssignLastWins | testcases/containers/test_containers.py:32-33 | a later entry with the same name overwrites an earlier one |
| Containers.LoadStep | testcases/containers/test_containers.py:32-33 | each entry adds one assignment, and a new name goes to the end of the key order |
| Containers.ContainerTests.constructor | testcases/containers/test_containers.py:23 | an empty dictionary |
| Containers.ContainerTests.Load | testcases/containers/test_containers.py:26-34 | None returns 0 and changes nothing; otherwise each entry is assigned in order and the number of distinct names is returned; a missing key raises KeyError |
| Containers.GenerateContainersTest | testcases/containers/test_containers.py:68-75 | public_interfaces[0] in every tuple, share-major over the exported shares × the loaded test names |
| Containers.ContainersCheckMounted | testcases/containers/test_containers.py:42-51 | runs the container on mount_point/test iff the directory can be made and the test is loaded; passes iff it exits 0; a non-zero exit fails the assertion, an unloaded test raises KeyError; when the directory could be made, the filesystem ends as it was |
| Containers.UnmountAndRemove | testcases/containers/test_containers.py:62-65 | unmount; if it succeeds, both directories go and nothing else changes; otherwise the failure is raised and the directories stay |
| Containers.MountAndCheck | testcases/containers/test_containers.py:59-65 | corrected (mounts `str(mount_point)`): a successful mount is always followed by its unmount as the last command; if the unmounts succeed, the filesystem is as before minus the two directories and the check passes iff the test is loaded and the container exits 0 (a non-zero exit is "Error running test", an unloaded test KeyError); a failed mount raises with nothing changed |
| Containers.ContainersCheck | testcases/containers/test_containers.py:54-65 | corrected (mounts `str(mount_point)`): a lookup failure raises before anything runs; a successful mount ends with its unmount; if the unmounts succeed, nothing new stays mounted, the filesystem is as before, and the check passes iff the test is loaded and the container exits 0 |
| ConsistencyCheck.Encode | testcases/consistency_check/test_consistency_check.py:38-39 | a text-mode write of ASCII: one byte per character, with the same code |
| ConsistencyCheck.Decode | testcases/consistency_check/test_consistency_check.py:46-47 | a text-mode read: succeeds iff every byte is below 128, character for byte |
| ConsistencyCheck.DecodeEncode | testcases/consistency_check/test_consistency_check.py:38-47 | reading back what was written gives the string again |
| ConsistencyCheck.EncodeDecode | testcases/consistency_check/test_consistency_check.py:38-47 | decodable content is the encoding of what it decodes to |
| ConsistencyCheck.FileContentCheck | testcases/consistency_check/test_consistency_check.py:24-26 | raises iff the content does not decode |
| ConsistencyCheck.FileContentCheckIff | testcases/consistency_check/test_consistency_check.py:24-26 | for an ASCII string, the check holds iff the file holds exactly its encoding |
| ConsistencyCheck.Globals.constructor | testcases/consistency_check/test_consistency_check.py:16 | the global test_info starts as the empty document |
| ConsistencyCheck.ShareNames | testcases/consistency_check/test_consistency_check.py:18-22 | the exported share names in index order; KeyError when missing |
| ConsistencyCheck.GenerateConsistencyCheck | testcases/consistency_check/test_consistency_check.py:60-68 | None gives [] and leaves the global alone; otherwise the global becomes the document and its share names are returned |
| ConsistencyCheck.WriteTestFile | testcases/consistency_check/test_consistency_check.py:37-39 | a new file holding the encoded test string, made iff the mount point is a directory |
| ConsistencyCheck.WriteCycle | testcases/consistency_check/test_consistency_check.py:34-41 | corrected (mounts `str(mount_point)`): the flag tracks whether the share is mounted; a pass leaves it unmounted with a new file holding the test string; with both commands succeeding it passes with exactly mount, umount |
| ConsistencyCheck.ReadCycle | testcases/consistency_check/test_consistency_check.py:43-50 | corrected (mounts `str(mount_point)`): passes only if the file held exactly the encoded test string; then the file is gone and the share unmounted; on such a file with both commands succeeding it passes with exactly mount, umount |
| ConsistencyCheck.TryBody | testcases/consistency_check/test_consistency_check.py:30-50 | corrected (mounts `str(mount_point)`): the flag tracks the mount; a pass leaves the filesystem as before; with four successful commands it passes with exactly mount, umount, mount, umount |
| ConsistencyCheck.UnmountIfFlagged | testcases/consistency_check/test_consistency_check.py:56-58 | unmounts iff the flag is 1; a failed unmount replaces the outcome |
| ConsistencyCheck.CheckCycles | testcases/consistency_check/test_consistency_check.py:30-58 | corrected (mounts `str(mount_point)`): a share not mounted before stays unmounted unless the last command was its failed unmount; four successful commands give a pass with exactly those commands |
| ConsistencyCheck.ConsistencyCheck | testcases/consistency_check/test_consistency_check.py:28-58 | corrected (mounts `str(mount_point)`): the parameter lookup raises before the try with nothing run; otherwise as CheckCycles, with the default combination |
| ConsistencyCheck.TestConsistency | testcases/consistency_check/test_consistency_check.py:71-76 | a pass leaves the filesystem as before |
| MountTest.GenerateMountCheck | testcases/mount/test_mount.py:40-49 | [] for an empty document or no interfaces; KeyError for a missing key; otherwise the interface-major cross product of interfaces × shares, whose length is the product |
| MountTest.AsWrittenSession | testcases/mount/test_mount.py:24-37 | as written: a successful mount ends in UnboundLocalError with the share still mounted and the directories left; a failed mount removes both directories |
| MountTest.MountCheck | testcases/mount/test_mount.py:19-37 | as written: whenever the mount succeeds the check raises, issues no unmount, and leaves new directories behind |
| MountTest.RunChecks | testcases/mount/test_mount.py:29-31 | in a new directory whose parent exists, both checkers pass and only the new directory remains |
| MountTest.CheckAndUnmount | testcases/mount/test_mount.py:27-35 | the checks run and pass; the first two steps of the finally remove test_dir and unmount; the filesystem is unchanged and the unmount's outcome passes iff it returns 0 |
| MountTest.RemoveMountDirs | testcases/mount/test_mount.py:36-37 | both rmdirs succeed and remove exactly the mount point and tmp root |
| MountTest.JoinedSession | testcases/mount/test_mount.py:24-37 | corrected: a successful mount is followed by exactly one unmount; a raising unmount skips the rmdirs and replaces the outcome; if both succeed the check passes, unmounts, and removes both directories; a failed mount removes them without unmounting |
| MountTest.MountCheckJoined | testcases/mount/test_mount.py:19-37 | corrected: if mount and unmount succeed the check passes, nothing new stays mounted, and the filesystem is as before |

## Left out

- YAML parsing (`read_yaml`, `yaml.safe_load`) is not modelled. The parsed test-info document is the parameter `TestInfo`, and a missing key is `None`.
- Real I/O is replaced by the stand-ins above: `os.system`, `subprocess`, the container runner, files and directories. Captured output is not modelled.
- `pickle`, `dbm` and SHA3-512 are not modelled. The database is a map holding the records themselves, which assumes pickling round-trips. The digest is an uninterpreted function.
- MountDbm.Database.Destroy: only empties the map. Whether `path.unlink()` finds the file depends on the dbm backend's file naming, which is not modelled.
- Random seeding (`_reset_random_seed`, `_seed_random`) depends on the wall clock and is not modelled. The generators are oracle sequences. `random.shuffle` is modelled as some permutation of the list.
- Printing (including container output and the "data not eq" line) is not modelled. In `test_cifs_ko.py` the printed mismatches are counted as `notEq` instead.
- TestHelper.GetMountParameters: models `int(combonum / len)` as integer division on naturals. The source uses float division, and negative combination numbers are not modelled.
- FsHelper.GetTmpDir: covers only the case where tmp_dir_0 is absent. If it exists, the loop's `mkdir` makes every next candidate exist, or raises on an existing one, so there is no terminating behaviour to state.
- The module-level `get_tmp_file("/tmp")` of test_smbtorture.py:22 is not modelled. It passes a `str`, so `tmp_root / str(...)` at fshelper.py:54 raises TypeError on import and no smbtorture test is collected as written. Smbtorture.RunSmbtorture models a run as if the module had loaded.
- The smbtorture temporary output file, its removal, `list_smbtorture_tests` (a YAML read, here the parameter `tests`), and the pipe between the programs are not modelled.
- Smbtorture.RunSmbtorture: its contract names the first and third argument vectors but not the second. FilterSubunitCmd's own contract gives the second, and the method passes that vector to the host.
- `generate_mount_check_premounted` and `get_premounted_shares` are not part of this model. The shown `testhelper.py` does not define the latter.
- testhelper/smbclient.py, testcases/consistency/test_consistency.py, selftest/test_testhelper.py and testcases/misc/test_stress.py are not part of this model. They are a network wrapper, a caller of functions the shown helper does not define, a self-test of such functions, and a test whose point is concurrency.
- Entry points are not modelled: `main` of `test_cifs_ko.py`, the `__main__` block of `test_consistency_check.py`, and the pytest test functions beyond the checks they call. The pytest fixtures and parametrisation are reduced to the lists the generators return.
- `flag_file_created` in `test_consistency_check.py` is set and never read, so it is not modelled.
- Text-mode file I/O is modelled as ASCII. The test string is ASCII; other encodings are not modelled.
- A mounted share and the local filesystem are one `FileSystem`. Mounting does not swap the directory's contents.
- MountTest.MountCheck and MountTest.AsWrittenSession: build the mount command from `str(mount_point)`, the corrected form of the second finding. Otherwise every mount in the harness raises before it runs.
- Conftest.MountFixture.Setup: mounts with `str(mount_point)`, the corrected form of the second finding. As written, conftest.py:27 passes the `pathlib.Path`, so every setup fails with "Setup failed" wrapping TypeError before any command runs.
- Conftest.MountFixture.SetupTry: mounts with `str(mount_point)`, the corrected form of the second finding. As written, conftest.py:27 passes the `pathlib.Path`, so every call fails with "Setup failed" wrapping TypeError and the flag stays clear.
- Containers.MountAndCheck: mounts with `str(mount_point)`, the corrected form of the second finding. As written, test_containers.py:59 passes the `pathlib.Path`, so the mount raises TypeError before the `try` and nothing runs.
- Containers.ContainersCheck: mounts with `str(mount_point)`, the corrected form of the second finding. As written, test_containers.py:59 passes the `pathlib.Path`, so every check raises TypeError after making the two directories, which stay.
- ConsistencyCheck.WriteCycle: mounts with `str(mount_point)`, the corrected form of the second finding. As written, test_consistency_check.py:35 passes the `pathlib.Path`, so the cycle raises TypeError with the flag clear.
- ConsistencyCheck.ReadCycle: mounts with `str(mount_point)`, the corrected form of the second finding. As written, test_consistency_check.py:44 passes the `pathlib.Path`, so the cycle raises TypeError with the flag clear.
- ConsistencyCheck.TryBody: mounts with `str(mount_point)`, the corrected form of the second finding. As written, its first mount raises TypeError, so the four-command pass is never reached.
- ConsistencyCheck.CheckCycles: mounts with `str(mount_point)`, the corrected form of the second finding. As written, its first mount raises TypeError, so the four-command pass is never reached.
- ConsistencyCheck.ConsistencyCheck: mounts with `str(mount_point)`, the corrected form of the second finding. As written, its first mount raises TypeError, so the four-command pass is never reached.
- ConsistencyCheck.TestConsistency: states only that a pass leaves the filesystem as before. The failure cases are those of ConsistencyCheck.ConsistencyCheck and the two rmdirs.
- MountDbm.CheckDbmConsistency: always passes. Against the map model no query can fail, so the error paths of `query` are stated in MountDbm.Database.Query instead.

## Findings

| source | as written | input that shows it | evidently intended | confidence | as-written member | corrected member |
|---|---|---|---|---|---|---|
| testhelper/fshelper.py:74-77 | `tmp_dir.mkdir()` sits inside the `while` loop | tmp_root/"tmp_dir_0" absent: the function returns that path without creating it | create the first free tmp_dir_i after the loop, as `get_tmp_mount_point` does | high; not executed | FsHelper.GetTmpDir | FsHelper.GetFreshTmpDir |
| testhelper/cmdhelper.py:36 | `" " + mount_point`, where every caller passes the `pathlib.Path` from `get_tmp_mount_point` | any call from conftest.py:27, test_mount.py:26, test_containers.py:59 or test_consistency_check.py:35 raises TypeError before the mount runs | `" " + str(mount_point)` | medium (the parameter is annotated `str`); not executed | CmdHelper.MountCommandWithPath | CmdHelper.MountCommand |
| testcases/mount/test_mount.py:28 | `test_dir = mount_point + "/mount_test"` on a `pathlib.Path` | any share that mounts: TypeError, then the `finally` reads the unbound `test_dir` (UnboundLocalError), so the share stays mounted and both directories remain | `mount_point / "mount_test"` | high; not executed | MountTest.MountCheck | MountTest.MountCheckJoined |
| testcases/cifs_ko/test_cifs_ko.py:71 | `dset.do_unlink()`, which `PathData` does not define | any run that writes the four files: AttributeError, and the files stay | `dset.unlink()` | high; not executed | CifsKo.RunTest | CifsKo.RunTestUnlinking |
