/** testcases/mount/mount_dbm.py: records keyed by decimal strings, stored in
    and read back from a key-value database, with ordered equality checks.
    The database is a map whose values are the records themselves (pickling
    round-trips), and the SHA3-512 hex digest is the parameter `hash`. */
module MountDbm {
  import opened Common
  import opened Fs
  import opened Rand

  /** A record: `key` is str(ikey), `val` the digest of the key, `rnd` a tag
      in [0, 0x3FFFFFFF]. */
  datatype Record = Record(key: string, val: string, rnd: int)

  const TagLimit: int := 0x4000_0000

  /** `Record(ikey)`, with `draw` the value of the next `randint` draw. */
  function NewRecord(hash: string -> string, ikey: nat, draw: nat): (r: Record)
    ensures r.key == NatToString(ikey) && r.val == hash(r.key)
    ensures 0 <= r.rnd < TagLimit
  {
    Record(NatToString(ikey), hash(NatToString(ikey)), draw % TagLimit)
  }

  /** `rec.ikey()`: `int(rec.key)`. */
  function IKey(r: Record): Result<nat>
  {
    ParseNat(r.key)
  }

  /** `ikey()` gives back the integer the record was made from. */
  lemma IKeyOfNewRecord(hash: string -> string, ikey: nat, draw: nat)
    ensures IKey(NewRecord(hash, ikey, draw)) == Ok(ikey)
  {
    ParseNatToString(ikey);
  }

  /** `rec.has_val_of(key)` */
  predicate HasValOf(r: Record, key: string, hash: string -> string)
  {
    r.val == hash(key)
  }

  /** `_check_consistent(rec)` */
  function CheckConsistent(r: Record, hash: string -> string): (o: Outcome)
    ensures o.Pass? <==> HasValOf(r, r.key, hash)
    ensures o.Fail? ==> o.error == NotConsistent(r.key)
  {
    if !HasValOf(r, r.key, hash) then Fail(NotConsistent(r.key)) else Pass
  }

  /** Every freshly made record is consistent. */
  lemma NewRecordConsistent(hash: string -> string, ikey: nat, draw: nat)
    ensures CheckConsistent(NewRecord(hash, ikey, draw), hash) == Pass
  {
  }

  /** `_check_equal(rec1, rec2)`: key, then val, then rnd; the first field
      that differs is reported. */
  function CheckEqual(r1: Record, r2: Record): (o: Outcome)
    ensures o.Pass? <==> r1 == r2
    ensures r1.key != r2.key ==> o == Fail(KeyMismatch(r1.key, r2.key))
    ensures r1.key == r2.key && r1.val != r2.val ==> o == Fail(ValueMismatch(r1.val, r2.val))
    ensures r1.key == r2.key && r1.val == r2.val && r1.rnd != r2.rnd ==> o == Fail(TagMismatch(r1.rnd, r2.rnd))
  {
    if r1.key != r2.key then Fail(KeyMismatch(r1.key, r2.key))
    else if r1.val != r2.val then Fail(ValueMismatch(r1.val, r2.val))
    else if r1.rnd != r2.rnd then Fail(TagMismatch(r1.rnd, r2.rnd))
    else Pass
  }

  // -----------------------------------------------------------------------
  // Store and query, specified over the map
  // -----------------------------------------------------------------------

  /** `db` after `db[rec.key] = rec` for each record in order. */
  function StoreAll(db: map<string, Record>, recs: seq<Record>): map<string, Record>
  {
    if |recs| == 0 then db
    else StoreAll(db, recs[..|recs| - 1])[recs[|recs| - 1].key := recs[|recs| - 1]]
  }

  function Keys(recs: seq<Record>): set<string>
  {
    set r | r in recs :: r.key
  }

  /** No two different records share a key. */
  ghost predicate UniqueKeys(recs: seq<Record>)
  {
    forall r1, r2 :: r1 in recs && r2 in recs && r1.key == r2.key ==> r1 == r2
  }

  /** After storing records with unique keys each key maps to its record. */
  lemma {:induction false} StoreAllUnique(db: map<string, Record>, recs: seq<Record>)
    requires UniqueKeys(recs)
    ensures forall r :: r in recs ==> r.key in StoreAll(db, recs) && StoreAll(db, recs)[r.key] == r
  {
    if |recs| > 0 {
      var front, last := recs[..|recs| - 1], recs[|recs| - 1];
      assert recs == front + [last];
      StoreAllUnique(db, front);
      forall r | r in recs ensures r.key in StoreAll(db, recs) && StoreAll(db, recs)[r.key] == r {
        if r != last {
          assert r in front && r.key != last.key;
        }
      }
    }
  }

  /** Storing leaves every other key as it was. */
  lemma {:induction false} StoreAllOther(db: map<string, Record>, recs: seq<Record>, k: string)
    requires k !in Keys(recs)
    ensures k in StoreAll(db, recs) <==> k in db
    ensures k in db ==> StoreAll(db, recs)[k] == db[k]
  {
    if |recs| > 0 {
      var front := recs[..|recs| - 1];
      assert recs == front + [recs[|recs| - 1]];
      assert Keys(front) <= Keys(recs);
      StoreAllOther(db, front, k);
    }
  }

  /** A later record with the same key replaces an earlier one: the key ends
      up holding the last record stored under it. */
  lemma {:induction false} StoreAllLastWins(db: map<string, Record>, recs: seq<Record>, i: nat)
    requires i < |recs|
    requires forall j :: i < j < |recs| ==> recs[j].key != recs[i].key
    ensures recs[i].key in StoreAll(db, recs) && StoreAll(db, recs)[recs[i].key] == recs[i]
  {
    if i < |recs| - 1 {
      StoreAllLastWins(db, recs[..|recs| - 1], i);
    }
  }

  /** One iteration of `query`: fetch, unpickle (None raises TypeError),
      check consistency, then equality with the record asked for. */
  function QueryOne(db: map<string, Record>, rec: Record, hash: string -> string): Outcome
  {
    if rec.key !in db then Fail(TypeError)
    else match CheckConsistent(db[rec.key], hash)
      case Fail(e) => Fail(e)
      case Pass => CheckEqual(rec, db[rec.key])
  }

  /** `query(recs)`: the first failure, or Pass. */
  function QueryAll(db: map<string, Record>, recs: seq<Record>, hash: string -> string): Outcome
  {
    if |recs| == 0 then Pass
    else match QueryOne(db, recs[0], hash)
      case Fail(e) => Fail(e)
      case Pass => QueryAll(db, recs[1..], hash)
  }

  /** A query passes iff every record is stored unchanged and consistent. */
  lemma {:induction false} QueryAllPass(db: map<string, Record>, recs: seq<Record>, hash: string -> string)
    ensures QueryAll(db, recs, hash).Pass? <==>
      forall r :: r in recs ==> r.key in db && db[r.key] == r && HasValOf(r, r.key, hash)
  {
    if |recs| > 0 {
      QueryAllPass(db, recs[1..], hash);
      assert recs == [recs[0]] + recs[1..];
    }
  }

  /** The outcome's pass or fail does not depend on the order of the list. */
  lemma QueryPermutation(db: map<string, Record>, a: seq<Record>, b: seq<Record>, hash: string -> string)
    requires multiset(a) == multiset(b)
    ensures QueryAll(db, a, hash).Pass? <==> QueryAll(db, b, hash).Pass?
  {
    QueryAllPass(db, a, hash);
    QueryAllPass(db, b, hash);
    assert forall r :: r in a <==> r in multiset(a);
    assert forall r :: r in b <==> r in multiset(b);
  }

  /** The key-value database at `path`; the file itself is not modelled. */
  class Database {
    const path: Path
    var db: map<string, Record>

    constructor (path: Path)
      ensures this.path == path && db == map[]
    {
      this.path := path;
      db := map[];
    }

    /** `create`: a new, empty database. */
    method Create()
      modifies this
      ensures db == map[]
    {
      db := map[];
    }

    /** `destroy`: close, and remove what was stored. */
    method Destroy()
      modifies this
      ensures db == map[]
    {
      db := map[];
    }

    /** `store(recs)` */
    method Store(recs: seq<Record>)
      modifies this
      ensures db == StoreAll(old(db), recs)
    {
      var i := 0;
      while i < |recs|
        invariant i <= |recs|
        invariant db == StoreAll(old(db), recs[..i])
      {
        assert recs[..i + 1][..i] == recs[..i];
        db := db[recs[i].key := recs[i]];
        i := i + 1;
      }
      assert recs[..i] == recs;
    }

    /** `query(recs)` */
    method Query(recs: seq<Record>, hash: string -> string) returns (o: Outcome)
      ensures o == QueryAll(db, recs, hash)
    {
      var i := 0;
      while i < |recs|
        invariant i <= |recs|
        invariant QueryAll(db, recs, hash) == QueryAll(db, recs[i..], hash)
      {
        assert recs[i..][1..] == recs[i + 1..];
        var rec := recs[i];
        if rec.key !in db {
          return Fail(TypeError);
        }
        var rec2 := db[rec.key];
        o := CheckConsistent(rec2, hash);
        if o.Fail? {
          return;
        }
        o := CheckEqual(rec, rec2);
        if o.Fail? {
          return;
        }
        i := i + 1;
      }
      o := Pass;
    }
  }

  // -----------------------------------------------------------------------
  // The check
  // -----------------------------------------------------------------------

  /** `_make_records(range(lo, hi))`: one record per integer, in order, each
      tag taken from the next draw. */
  method MakeRecords(rng: Random, hash: string -> string, lo: nat, hi: nat) returns (recs: seq<Record>)
    requires lo <= hi
    modifies rng
    ensures |recs| == hi - lo && rng.pos == old(rng.pos) + (hi - lo)
    ensures forall k :: 0 <= k < |recs| ==> recs[k] == NewRecord(hash, lo + k, rng.draws(old(rng.pos) + k))
  {
    recs := [];
    var ikey := lo;
    while ikey < hi
      invariant lo <= ikey <= hi && |recs| == ikey - lo && rng.pos == old(rng.pos) + (ikey - lo)
      invariant forall k :: 0 <= k < |recs| ==> recs[k] == NewRecord(hash, lo + k, rng.draws(old(rng.pos) + k))
    {
      var rnd := rng.RandInt(0, TagLimit - 1);
      recs := recs + [Record(NatToString(ikey), hash(NatToString(ikey)), rnd)];
      ikey := ikey + 1;
    }
  }

  /** `key` is the decimal string of an integer in [lo, hi). */
  ghost predicate KeyIn(key: string, lo: nat, hi: nat)
  {
    exists k: nat :: lo <= k < hi && key == NatToString(k)
  }

  /** Records made from distinct integers have unique keys. */
  lemma MadeUnique(hash: string -> string, recs: seq<Record>, lo: nat, hi: nat, draws: nat -> nat, pos: nat)
    requires |recs| == hi - lo
    requires forall k :: 0 <= k < |recs| ==> recs[k] == NewRecord(hash, lo + k, draws(pos + k))
    ensures UniqueKeys(recs)
    ensures Consistent(recs, hash)
    ensures forall r :: r in recs ==> KeyIn(r.key, lo, hi)
  {
    forall r1, r2 | r1 in recs && r2 in recs && r1.key == r2.key ensures r1 == r2 {
      var i :| 0 <= i < |recs| && recs[i] == r1;
      var j :| 0 <= j < |recs| && recs[j] == r2;
      NatToStringInjective(lo + i, lo + j);
    }
    forall r | r in recs ensures KeyIn(r.key, lo, hi) {
      var i :| 0 <= i < |recs| && recs[i] == r;
      assert lo <= lo + i < hi && r.key == NatToString(lo + i);
    }
  }

  /** Records from [0, h) and from [h, n) never share a key. */
  lemma HalvesDisjoint(recs1: seq<Record>, recs2: seq<Record>, h: nat, n: nat)
    requires forall r :: r in recs1 ==> KeyIn(r.key, 0, h)
    requires forall r :: r in recs2 ==> KeyIn(r.key, h, n)
    ensures Keys(recs1) !! Keys(recs2)
  {
    forall r1, r2 | r1 in recs1 && r2 in recs2 ensures r1.key != r2.key {
      var a :| 0 <= a < h && r1.key == NatToString(a);
      var b :| h <= b < n && r2.key == NatToString(b);
      if r1.key == r2.key {
        NatToStringInjective(a, b);
      }
    }
  }

  /** Every record carries the digest of its own key. */
  ghost predicate Consistent(recs: seq<Record>, hash: string -> string)
  {
    forall r :: r in recs ==> HasValOf(r, r.key, hash)
  }

  /** Storing records with unique keys into an empty database and querying
      them back, in any order, passes. */
  lemma FirstHalfPasses(recs1: seq<Record>, order: seq<Record>, hash: string -> string)
    requires UniqueKeys(recs1) && Consistent(recs1, hash)
    requires multiset(order) == multiset(recs1)
    ensures QueryAll(StoreAll(map[], recs1), order, hash) == Pass
  {
    StoreAllUnique(map[], recs1);
    QueryAllPass(StoreAll(map[], recs1), recs1, hash);
    QueryPermutation(StoreAll(map[], recs1), recs1, order, hash);
  }

  /** Then storing the second half, in any order, leaves both halves
      retrievable. */
  lemma BothHalvesPass(recs1: seq<Record>, recs2: seq<Record>, order2: seq<Record>, hash: string -> string)
    requires UniqueKeys(recs1) && Consistent(recs1, hash)
    requires UniqueKeys(recs2) && Consistent(recs2, hash)
    requires Keys(recs1) !! Keys(recs2)
    requires multiset(order2) == multiset(recs2)
    ensures QueryAll(StoreAll(StoreAll(map[], recs1), order2), recs1 + recs2, hash) == Pass
  {
    var before := StoreAll(map[], recs1);
    var after := StoreAll(before, order2);
    assert forall r :: r in order2 <==> r in recs2 by {
      assert forall r :: r in order2 <==> r in multiset(order2);
      assert forall r :: r in recs2 <==> r in multiset(recs2);
    }
    assert Keys(order2) == Keys(recs2);
    StoreAllUnique(map[], recs1);
    StoreAllUnique(before, order2);
    forall r | r in recs1 + recs2 ensures r.key in after && after[r.key] == r && HasValOf(r, r.key, hash) {
      if r in recs1 {
        assert r.key in Keys(recs1);
        StoreAllOther(before, order2, r.key);
      } else {
        assert r in order2;
      }
    }
    QueryAllPass(after, recs1 + recs2, hash);
  }

  /** `_check_dbm_consistency(base, nrecs)`: store the first half, query it,
      query it again shuffled, store the shuffled second half, query all in
      the original order; `destroy` in `finally`. Against the map every
      query passes. */
  method CheckDbmConsistency(rng: Random, hash: string -> string, base: Path, nrecs: nat) returns (o: Outcome)
    modifies rng
    ensures o == Pass
  {
    var path := base + ["dbm-" + NatToString(nrecs)];
    var half := nrecs / 2;
    ghost var pos1 := rng.pos;
    var recs1 := MakeRecords(rng, hash, 0, half);
    var recs2 := MakeRecords(rng, hash, half, nrecs);
    MadeUnique(hash, recs1, 0, half, rng.draws, pos1);
    MadeUnique(hash, recs2, half, nrecs, rng.draws, pos1 + half);
    HalvesDisjoint(recs1, recs2, half, nrecs);
    ghost var made1 := recs1;
    var recs := recs1 + recs2;
    // Each query below is shown to pass, so the exception that would end
    // the sequence early is never raised.
    var db := new Database(path);
    db.Create();
    db.Store(recs1);
    FirstHalfPasses(made1, recs1, hash);
    o := db.Query(recs1, hash);
    var shuffled1 := rng.Shuffle(recs1);
    recs1 := shuffled1;
    FirstHalfPasses(made1, recs1, hash);
    o := db.Query(recs1, hash);
    var shuffled2 := rng.Shuffle(recs2);
    BothHalvesPass(made1, recs2, shuffled2, hash);
    recs2 := shuffled2;
    db.Store(recs2);
    o := db.Query(recs, hash);
    db.Destroy();
  }

  /** `check_dbm_consistency(rootdir)`: make rootdir/"dbm-consistency"
      (parents, existing allowed; a failure here raises before the `try`),
      run the three sizes, and remove the tree in `finally`. */
  method CheckDbmConsistencyAt(fs: FileSystem, rng: Random, hash: string -> string, rootdir: Path) returns (o: Outcome)
    requires fs.Valid()
    modifies fs, rng
    ensures fs.Valid()
    ensures rootdir in old(fs.dirs) ==> (o.Pass? <==> rootdir + ["dbm-consistency"] !in old(fs.files))
    ensures o.Pass? ==> fs.files == Outside(old(fs.files), rootdir + ["dbm-consistency"])
    ensures o.Fail? ==> fs.files == old(fs.files)
    ensures rootdir in old(fs.dirs) ==>
      fs.dirs == if o.Pass? then set q | q in old(fs.dirs) && !Under(rootdir + ["dbm-consistency"], q) else old(fs.dirs)
  {
    var base := rootdir + ["dbm-consistency"];
    o := fs.Mkdir(base, true, true);
    if o.Fail? {
      return;
    }
    o := CheckDbmConsistency(rng, hash, base, 10);
    o := CheckDbmConsistency(rng, hash, base, 100);
    o := CheckDbmConsistency(rng, hash, base, 10000);
    fs.RmTree(base);
  }
}
