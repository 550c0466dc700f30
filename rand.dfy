/** Python's module-level `random` generator, as an oracle: the generator's
    successive raw draws are fixed in advance and each call consumes the
    next ones. Seeding is outside the model. */
module Rand {
  import opened Common

  /** The bytes `random.randbytes(n)` returns when its draws start at `pos`. */
  function DrawBytes(draws: nat -> nat, pos: nat, n: nat): (r: seq<byte>)
    ensures |r| == n
    ensures forall i :: 0 <= i < n ==> r[i] == draws(pos + i) % 256
  {
    seq(n, i requires 0 <= i < n => (draws(pos + i) % 256) as byte)
  }

  class Random {
    /** The raw draws, in the order the generator produces them. */
    const draws: nat -> nat
    /** How many draws have been consumed. */
    var pos: nat

    constructor (draws: nat -> nat)
      ensures this.draws == draws && pos == 0
    {
      this.draws := draws;
      pos := 0;
    }

    /** `random.randint(lo, hi)`: a value in [lo, hi] from the next draw. */
    method RandInt(lo: int, hi: int) returns (r: int)
      requires lo <= hi
      modifies this
      ensures r == lo + draws(old(pos)) % (hi - lo + 1)
      ensures lo <= r <= hi
      ensures pos == old(pos) + 1
    {
      r := lo + draws(pos) % (hi - lo + 1);
      pos := pos + 1;
    }

    /** `random.randbytes(n)`: n bytes, one draw each. */
    method RandBytes(n: nat) returns (r: seq<byte>)
      modifies this
      ensures r == DrawBytes(draws, old(pos), n)
      ensures pos == old(pos) + n
    {
      r := DrawBytes(draws, pos, n);
      pos := pos + n;
    }

    /** `random.shuffle(s)`: CPython's Fisher–Yates pass from the back. The
        caller's list is rebound to the result. */
    method Shuffle<T>(s: seq<T>) returns (r: seq<T>)
      modifies this
      ensures |r| == |s| && multiset(r) == multiset(s)
      ensures pos == old(pos) + (if |s| == 0 then 0 else |s| - 1)
    {
      r := s;
      var i := |s|;
      while i > 1
        invariant 0 <= i <= |s| && |r| == |s|
        invariant multiset(r) == multiset(s)
        invariant pos == old(pos) + (if |s| == 0 then 0 else |s| - (if i == 0 then 1 else i))
      {
        i := i - 1;
        var j := RandInt(0, i);
        r := r[i := r[j]][j := r[i]];
      }
    }
  }
}
