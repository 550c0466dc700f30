/** testhelper/testhelper.py: reading the test-info document, choosing
    mount parameters, and the random-buffer builder. */
module TestHelper {
  import opened Common
  import opened Rand

  /** One entry of `test_users`. */
  datatype User = User(username: string, password: string)

  /** The parsed test-info YAML mapping. A key the document lacks is None;
      `otherKeys` names the top-level keys the harness does not read. */
  datatype TestInfo = TestInfo(
    publicInterfaces: Option<seq<string>>,
    exportedSharenames: Option<seq<string>>,
    testUsers: Option<seq<User>>,
    testBackend: Option<string>,
    otherKeys: set<string>)

  /** `{}`, which is falsy. */
  const EmptyInfo := TestInfo(None, None, None, None, {})

  /** `d[key]` on the parsed mapping. */
  function Get<T>(field: Option<T>, key: string): (r: Result<T>)
    ensures r.Ok? <==> field.Some?
    ensures field.Some? ==> r.value == field.value
    ensures field.None? ==> r == Err(KeyError(key))
  {
    if field.Some? then Ok(field.value) else Err(KeyError(key))
  }

  // ---------------------------------------------------------------------
  // Mount parameters
  // ---------------------------------------------------------------------

  /** The `mount_params` dictionary. */
  type MountParams = map<string, string>

  const MountKeys: set<string> := {"host", "share", "username", "password"}

  /** `gen_mount_params`: exactly the four keys, bound to the four arguments. */
  function GenMountParams(host: string, share: string, username: string, password: string): (mp: MountParams)
    ensures mp.Keys == MountKeys
    ensures mp["host"] == host && mp["share"] == share
    ensures mp["username"] == username && mp["password"] == password
  {
    map["host" := host, "share" := share, "username" := username, "password" := password]
  }

  /** `mount_params["host"] = ipaddr`: only the host changes. */
  function OverrideHost(mp: MountParams, host: string): (r: MountParams)
    ensures r.Keys == mp.Keys + {"host"}
    ensures r["host"] == host
    ensures forall k :: k in mp && k != "host" ==> r[k] == mp[k]
  {
    mp["host" := host]
  }

  /** `get_default_mount_params`: the first interface, the first exported
      share and the first user, looked up in that order. */
  function GetDefaultMountParams(info: TestInfo): (r: Result<MountParams>)
    ensures r.Ok? <==>
      && info.publicInterfaces.Some? && |info.publicInterfaces.value| > 0
      && info.exportedSharenames.Some? && |info.exportedSharenames.value| > 0
      && info.testUsers.Some? && |info.testUsers.value| > 0
    ensures r.Ok? ==>
      var u := info.testUsers.value[0];
      r.value == GenMountParams(info.publicInterfaces.value[0], info.exportedSharenames.value[0], u.username, u.password)
  {
    var interfaces :- Get(info.publicInterfaces, "public_interfaces");
    var host :- PyIndex(interfaces, 0);
    var shares :- Get(info.exportedSharenames, "exported_sharenames");
    var share :- PyIndex(shares, 0);
    var users :- Get(info.testUsers, "test_users");
    var user :- PyIndex(users, 0);
    Ok(GenMountParams(host, share, user.username, user.password))
  }

  /** `get_total_mount_parameter_combinations`. */
  function GetTotalMountParameterCombinations(info: TestInfo): (r: Result<nat>)
    ensures r.Ok? <==> info.publicInterfaces.Some? && info.testUsers.Some?
    ensures r.Ok? ==> r.value == |info.publicInterfaces.value| * |info.testUsers.value|
  {
    var interfaces :- Get(info.publicInterfaces, "public_interfaces");
    var users :- Get(info.testUsers, "test_users");
    Ok(|interfaces| * |users|)
  }

  /** Combination number to (interface index, user index). */
  function ComboSplit(combonum: nat, numUsers: nat): (nat, nat)
    requires numUsers > 0
  {
    (combonum / numUsers, combonum % numUsers)
  }

  /** The combination numbers below |interfaces| * |users| and the
      (interface, user) index pairs are in one-to-one correspondence. */
  lemma ComboSplitInRange(combonum: nat, numPublic: nat, numUsers: nat)
    requires combonum < numPublic * numUsers
    ensures numUsers > 0
    ensures ComboSplit(combonum, numUsers).0 < numPublic
    ensures ComboSplit(combonum, numUsers).1 < numUsers
    ensures combonum == ComboSplit(combonum, numUsers).0 * numUsers + ComboSplit(combonum, numUsers).1
  {
    var i := combonum / numUsers;
    MulCancelLt(i, numPublic, numUsers);
  }

  lemma ComboSplitOnto(i: nat, j: nat, numPublic: nat, numUsers: nat)
    requires i < numPublic && j < numUsers
    ensures i * numUsers + j < numPublic * numUsers
    ensures ComboSplit(i * numUsers + j, numUsers) == (i, j)
  {
    var c := i * numUsers + j;
    MulMonotone(i + 1, numPublic, numUsers);
    assert c < (i + 1) * numUsers;
    DivModUnique(c, numUsers, i, j);
  }

  /** Multiplication by the same factor keeps strict order only downwards. */
  lemma MulCancelLt(a: nat, b: nat, m: nat)
    ensures a * m < b * m ==> a < b
  {
    if b <= a {
      MulMonotone(b, a, m);
    }
  }

  lemma DivModUnique(c: nat, m: nat, q: nat, r: nat)
    requires 0 < m && r < m && c == q * m + r
    ensures c / m == q && c % m == r
  {
    var q' := c / m;
    assert (q' + 1) * m == q' * m + m && (q + 1) * m == q * m + m;
    MulCancelLt(q, q' + 1, m);
    MulCancelLt(q', q + 1, m);
  }

  /** `get_mount_parameters(test_info, share, combonum)`: an assertion fails
      for combinations past the total; otherwise the interface is number
      combonum / |users| and the user number combonum % |users|, and the
      share is the caller's. */
  function GetMountParameters(info: TestInfo, share: string, combonum: nat): (r: Result<MountParams>)
    ensures info.publicInterfaces.None? ==> r == Err(KeyError("public_interfaces"))
    ensures info.publicInterfaces.Some? && info.testUsers.None? ==> r == Err(KeyError("test_users"))
    ensures info.publicInterfaces.Some? && info.testUsers.Some? ==>
      var np, nu := |info.publicInterfaces.value|, |info.testUsers.value|;
      && (r.Ok? <==> combonum < np * nu)
      && (combonum >= np * nu ==> r == Err(AssertionFailed("Invalid combination number")))
    ensures r.Ok? ==>
      var interfaces, users := info.publicInterfaces.value, info.testUsers.value;
      && |users| > 0
      && var (i, j) := ComboSplit(combonum, |users|);
      && i < |interfaces| && j < |users|
      && r.value == GenMountParams(interfaces[i], share, users[j].username, users[j].password)
  {
    var total :- GetTotalMountParameterCombinations(info);
    if combonum >= total then Err(AssertionFailed("Invalid combination number"))
    else
      var interfaces, users := info.publicInterfaces.value, info.testUsers.value;
      ComboSplitInRange(combonum, |interfaces|, |users|);
      var (numPublic, numUser) := ComboSplit(combonum, |users|);
      Ok(GenMountParams(interfaces[numPublic], share, users[numUser].username, users[numUser].password))
  }

  /** Every (interface, user) pair is reached by exactly one combination
      number below the total, and its share is the one asked for. */
  lemma {:induction false} GetMountParametersCovers(info: TestInfo, share: string, i: nat, j: nat)
    requires info.publicInterfaces.Some? && info.testUsers.Some?
    requires i < |info.publicInterfaces.value| && j < |info.testUsers.value|
    ensures var c := i * |info.testUsers.value| + j;
      var u := info.testUsers.value[j];
      GetMountParameters(info, share, c) == Ok(GenMountParams(info.publicInterfaces.value[i], share, u.username, u.password))
  {
    ComboSplitOnto(i, j, |info.publicInterfaces.value|, |info.testUsers.value|);
  }

  /** `get_num_shares` */
  function GetNumShares(info: TestInfo): (r: Result<nat>)
    ensures r.Ok? <==> info.exportedSharenames.Some?
    ensures r.Ok? ==> r.value == |info.exportedSharenames.value|
  {
    var shares :- Get(info.exportedSharenames, "exported_sharenames");
    Ok(|shares|)
  }

  /** `get_share(test_info, share_num)`: Python indexing of the exported names. */
  function GetShare(info: TestInfo, shareNum: int): (r: Result<string>)
    ensures info.exportedSharenames.None? ==> r == Err(KeyError("exported_sharenames"))
    ensures info.exportedSharenames.Some? ==> r == PyIndex(info.exportedSharenames.value, shareNum)
    ensures info.exportedSharenames.Some? && 0 <= shareNum < |info.exportedSharenames.value| ==>
      r == Ok(info.exportedSharenames.value[shareNum])
  {
    var shares :- Get(info.exportedSharenames, "exported_sharenames");
    PyIndex(shares, shareNum)
  }

  // ---------------------------------------------------------------------
  // generate_random_bytes
  // ---------------------------------------------------------------------

  /** 256^n */
  function Pow256(n: nat): (r: nat)
    ensures r >= 1
  {
    if n == 0 then 1 else 256 * Pow256(n - 1)
  }

  /** `w.to_bytes(n, "big")` for 0 <= w < 256^n. */
  function ToBytesBig(n: nat, w: nat): (r: seq<byte>)
    ensures |r| == n
  {
    if n == 0 then [] else ToBytesBig(n - 1, w / 256) + [(w % 256) as byte]
  }

  /** `int.from_bytes(s, "big")` */
  function FromBytesBig(s: seq<byte>): nat
  {
    if |s| == 0 then 0 else FromBytesBig(s[..|s| - 1]) * 256 + s[|s| - 1]
  }

  /** The big-endian encoding loses nothing. */
  lemma {:induction false} FromToBytesBig(n: nat, w: nat)
    requires w < Pow256(n)
    ensures FromBytesBig(ToBytesBig(n, w)) == w
  {
    if n > 0 {
      var s := ToBytesBig(n, w);
      assert s[..|s| - 1] == ToBytesBig(n - 1, w / 256);
      assert w / 256 < Pow256(n - 1);
      FromToBytesBig(n - 1, w / 256);
    }
  }

  const Word64Limit: nat := 0x1_0000_0000_0000_0000

  /** The 8 bytes one draw contributes: `randint(0, 2**64 - 1).to_bytes(8, "big")`. */
  function Word(draws: nat -> nat, pos: nat): (r: seq<byte>)
    ensures |r| == 8
  {
    ToBytesBig(8, draws(pos) % Word64Limit)
  }

  /** One pass of the loop: below 4096 bytes append the rba 8 bytes,
      from there on rebuild as rba ++ old ++ rba ++ old. */
  function Grow(buf: seq<byte>, rba: seq<byte>): seq<byte>
  {
    if |buf| < 4096 then buf + rba else rba + buf + rba + buf
  }

  /** Every pass strictly lengthens the buffer, and past 4096 bytes keeps
      the old buffer at offsets 8 and |buf| + 16. */
  lemma GrowShape(buf: seq<byte>, rba: seq<byte>)
    requires |rba| == 8
    ensures |buf| < 4096 ==> Grow(buf, rba) == buf + rba
    ensures |buf| >= 4096 ==>
      var g := Grow(buf, rba);
      && |g| == 2 * |buf| + 16
      && g[..8] == rba && g[8..|buf| + 8] == buf
      && g[|buf| + 8..|buf| + 16] == rba && g[|buf| + 16..] == buf
    ensures |Grow(buf, rba)| > |buf|
  {
  }

  /** The loop run to completion from `buf` with draws from `pos` on:
      the final buffer and the position of the next unused draw. */
  function Fill(draws: nat -> nat, pos: nat, buf: seq<byte>, size: nat): (r: (seq<byte>, nat))
    decreases size - |buf|
    ensures |r.0| >= size && r.1 >= pos
    ensures |buf| >= size ==> r == (buf, pos)
  {
    if |buf| >= size then (buf, pos)
    else
      GrowShape(buf, Word(draws, pos));
      Fill(draws, pos + 1, Grow(buf, Word(draws, pos)), size)
  }

  /** `generate_random_bytes(size)` with draws from `pos` on: the bytes
      returned and the position of the next unused draw. */
  function RandomBytes(draws: nat -> nat, pos: nat, size: nat): (r: (seq<byte>, nat))
    ensures |r.0| == size && r.1 >= pos
    ensures size == 0 ==> r == ([], pos)
  {
    var (buf, next) := Fill(draws, pos, [], size);
    (buf[..size], next)
  }

  /** The concatenated bytes of k successive draws. */
  function Words(draws: nat -> nat, pos: nat, k: nat): (r: seq<byte>)
    decreases k
    ensures |r| == 8 * k
  {
    if k == 0 then [] else Word(draws, pos) + Words(draws, pos + 1, k - 1)
  }

  /** Up to 4096 bytes nothing is reused: the buffer is the next k draws
      back to back, k the least with 8k >= size - |buf|. */
  lemma {:induction false} FillWithinPage(draws: nat -> nat, pos: nat, buf: seq<byte>, size: nat, k: nat)
    requires 1 <= k && |buf| + 8 * (k - 1) < size <= |buf| + 8 * k && size <= 4096
    decreases k
    ensures Fill(draws, pos, buf, size) == (buf + Words(draws, pos, k), pos + k)
  {
    var next := buf + Word(draws, pos);
    assert Grow(buf, Word(draws, pos)) == next;
    if k == 1 {
      assert Words(draws, pos, 1) == Word(draws, pos);
    } else {
      FillWithinPage(draws, pos + 1, next, size, k - 1);
      assert next + Words(draws, pos + 1, k - 1) == buf + Words(draws, pos, k);
    }
  }

  /** For size <= 4096, `generate_random_bytes` returns the first `size`
      bytes of ceil(size / 8) rba draws and uses exactly those draws. */
  lemma RandomBytesWithinPage(draws: nat -> nat, pos: nat, size: nat)
    requires 0 < size <= 4096
    ensures var k := (size + 7) / 8;
      RandomBytes(draws, pos, size) == (Words(draws, pos, k)[..size], pos + k)
  {
    var k := (size + 7) / 8;
    FillWithinPage(draws, pos, [], size, k);
    assert [] + Words(draws, pos, k) == Words(draws, pos, k);
  }

  /** `random.randint(0, 0xFFFFFFFFFFFFFFFF).to_bytes(8, "big")`: the next
      draw as 8 big-endian bytes. */
  method RandomWord(rng: Random) returns (rba: seq<byte>)
    modifies rng
    ensures rba == Word(rng.draws, old(rng.pos)) && rng.pos == old(rng.pos) + 1
  {
    var rnd := rng.RandInt(0, 0xFFFF_FFFF_FFFF_FFFF);
    rba := ToBytesBig(8, rnd);
  }

  /** `generate_random_bytes(size)`, consuming one `randint` draw per pass. */
  method GenerateRandomBytes(rng: Random, size: nat) returns (r: seq<byte>)
    modifies rng
    ensures (r, rng.pos) == RandomBytes(rng.draws, old(rng.pos), size)
  {
    var rbytes: seq<byte> := [];
    while |rbytes| < size
      invariant Fill(rng.draws, rng.pos, rbytes, size) == Fill(rng.draws, old(rng.pos), [], size)
      decreases size - |rbytes|
    {
      ghost var prev := rbytes;
      var rba := RandomWord(rng);
      if |rbytes| < 4096 {
        rbytes := rbytes + rba;
      } else {
        rbytes := rba + rbytes + rba + rbytes;
      }
      assert rbytes == Grow(prev, rba);
    }
    r := rbytes[..size];
  }
}
