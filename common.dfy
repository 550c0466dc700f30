/** Values shared by every part of the harness model: bytes, paths, the
    Python exceptions the harness raises or lets through, decimal rendering
    of integers (`str(i)` / `int(s)`) and the cross products the test
    generators build. */
module Common {

  type byte = x: int | 0 <= x < 256

  /** A `pathlib.Path`, as its list of components below the root: `/tmp/42`
      is ["tmp", "42"], and `p / name` is `p + [name]`. */
  type Path = seq<string>

  /** The exceptions the modelled code raises or lets propagate. */
  datatype Error =
    | FileNotFound(path: Path)            // FileNotFoundError
    | FileExists(path: Path)              // FileExistsError
    | NotADirectory(path: Path)           // NotADirectoryError
    | IsADirectory(path: Path)            // IsADirectoryError
    | DirectoryNotEmpty(path: Path)       // OSError(ENOTEMPTY) from rmdir
    | Busy(path: Path)                    // OSError(EBUSY): rmdir of the root
    | SizeMismatch(path: Path, got: nat, want: nat)   // IOError "stat size mismatch"
    | LengthMismatch(got: nat, want: nat)             // IOError "data length mismatch"
    | DataMismatch(path: Path)                        // IOError "data mismatch at"
    | StillExists(path: Path)                         // IOError "still exists"
    | AssertionFailed(msg: string)        // a failed `assert`
    | KeyError(key: string)               // missing key in a parsed YAML mapping
    | IndexError                          // list index out of range
    | InvalidLiteral(text: string)        // ValueError from int()
    | TypeError                           // pickle.loads(None); str + Path
    | UnboundLocalError(name: string)     // a local read before any assignment
    | NotConsistent(key: string)          // ValueError "not consistent"
    | KeyMismatch(a: string, b: string)   // ValueError "key mismatch"
    | ValueMismatch(a: string, b: string) // ValueError "value mismatch"
    | TagMismatch(tag1: int, tag2: int)        // ValueError "random-tag mismatch"
    | AttributeError(name: string)        // call of a method the class does not define
    | UnicodeDecodeError                  // reading a non-ASCII file in text mode
    | SetupFailed(cause: Error)           // Exception("Setup failed: ...")
    | TeardownFailed(cause: Error)        // Exception("Teardown failed: ...")

  /** The completion of a statement sequence: normal, or an exception. */
  datatype Outcome = Pass | Fail(error: Error)

  /** The completion of an expression: a value, or an exception. */
  datatype Result<T> = Ok(value: T) | Err(error: Error) {
    predicate IsFailure() { Err? }

    function PropagateFailure<U>(): Result<U>
      requires Err?
    {
      Err(error)
    }

    function Extract(): T
      requires Ok?
    {
      value
    }
  }

  datatype Option<T> = None | Some(value: T)

  /** `try: body finally: cleanup` — an exception raised by the cleanup
      replaces whatever the body completed with. */
  function Finally(body: Outcome, cleanup: Outcome): (o: Outcome)
    ensures cleanup.Fail? ==> o == cleanup
    ensures cleanup.Pass? ==> o == body
  {
    if cleanup.Fail? then cleanup else body
  }

  /** Python's `s[i]`, negative indices counting from the end. */
  function PyIndex<T>(s: seq<T>, i: int): (r: Result<T>)
    ensures r.Ok? <==> -|s| <= i < |s|
    ensures 0 <= i < |s| ==> r == Ok(s[i])
    ensures -|s| <= i < 0 ==> r == Ok(s[|s| + i])
  {
    if 0 <= i < |s| then Ok(s[i])
    else if -|s| <= i < 0 then Ok(s[|s| + i])
    else Err(IndexError)
  }

  // ---------------------------------------------------------------------
  // Decimal rendering: `str(n)` and `int(s)` for naturals
  // ---------------------------------------------------------------------

  predicate IsDigit(c: char) { '0' <= c <= '9' }

  function DigitChar(d: nat): (c: char)
    requires d < 10
    ensures IsDigit(c) && c as int - '0' as int == d
  {
    (d + '0' as int) as char
  }

  /** `str(n)` for n >= 0. */
  function NatToString(n: nat): (s: string)
    decreases n
    ensures 1 <= |s|
    ensures forall i :: 0 <= i < |s| ==> IsDigit(s[i])
    ensures n < 10 <==> |s| == 1
  {
    if n < 10 then [DigitChar(n)] else NatToString(n / 10) + [DigitChar(n % 10)]
  }

  /** Distinct naturals render as distinct strings, so `base / str(i)`
      names a different file for every i. */
  lemma {:induction false} NatToStringInjective(a: nat, b: nat)
    requires NatToString(a) == NatToString(b)
    ensures a == b
  {
    var s := NatToString(a);
    if a < 10 && b < 10 {
      assert s[0] == DigitChar(a) && s[0] == DigitChar(b);
    } else if a >= 10 && b >= 10 {
      var sa := NatToString(a / 10) + [DigitChar(a % 10)];
      var sb := NatToString(b / 10) + [DigitChar(b % 10)];
      assert sa == sb;
      assert sa[|sa| - 1] == sb[|sb| - 1];
      assert sa[..|sa| - 1] == NatToString(a / 10);
      assert sb[..|sb| - 1] == NatToString(b / 10);
      NatToStringInjective(a / 10, b / 10);
    }
  }

  function DigitValue(c: char): nat
    requires IsDigit(c)
  {
    c as int - '0' as int
  }

  /** The value of a string of decimal digits. */
  function DigitsValue(s: string): nat
    requires forall i :: 0 <= i < |s| ==> IsDigit(s[i])
  {
    if |s| == 0 then 0
    else DigitsValue(s[..|s| - 1]) * 10 + DigitValue(s[|s| - 1])
  }

  /** `int(s)` for the strings the harness passes it; anything that is not a
      non-empty run of decimal digits raises ValueError. Signs, blanks and
      underscores, which `int` also accepts, are not modelled. */
  function ParseNat(s: string): (r: Result<nat>)
    ensures r.Ok? <==> 1 <= |s| && forall i :: 0 <= i < |s| ==> IsDigit(s[i])
  {
    if 1 <= |s| && forall i :: 0 <= i < |s| ==> IsDigit(s[i]) then Ok(DigitsValue(s))
    else Err(InvalidLiteral(s))
  }

  /** `int(str(n)) == n`. */
  lemma {:induction false} ParseNatToString(n: nat)
    ensures ParseNat(NatToString(n)) == Ok(n)
  {
    var s := NatToString(n);
    if n < 10 {
      assert s == [DigitChar(n)] && s[..0] == [];
      assert DigitsValue(s) == DigitValue(DigitChar(n)) == n;
    } else {
      assert s[..|s| - 1] == NatToString(n / 10);
      assert s[|s| - 1] == DigitChar(n % 10);
      ParseNatToString(n / 10);
      assert DigitsValue(s) == (n / 10) * 10 + n % 10;
    }
  }

  // ---------------------------------------------------------------------
  // Cross products, as the nested `for` loops of the generators build them
  // ---------------------------------------------------------------------

  /** The pairs (x, y) for y in ys, in order. */
  function Row<X, Y>(x: X, ys: seq<Y>): seq<(X, Y)>
  {
    seq(|ys|, j requires 0 <= j < |ys| => (x, ys[j]))
  }

  /** `[(x, y) for x in xs for y in ys]`: x-major. */
  function Cross<X, Y>(xs: seq<X>, ys: seq<Y>): seq<(X, Y)>
  {
    if |xs| == 0 then [] else Cross(xs[..|xs| - 1], ys) + Row(xs[|xs| - 1], ys)
  }

  lemma CrossStep<X, Y>(xs: seq<X>, ys: seq<Y>, i: nat)
    requires i < |xs|
    ensures Cross(xs[..i + 1], ys) == Cross(xs[..i], ys) + Row(xs[i], ys)
  {
    assert xs[..i + 1][..i] == xs[..i];
  }

  /** The cross product has one entry per pair. */
  lemma {:induction false} CrossLength<X, Y>(xs: seq<X>, ys: seq<Y>)
    ensures |Cross(xs, ys)| == |xs| * |ys|
  {
    if |xs| > 0 {
      CrossLength(xs[..|xs| - 1], ys);
      assert |xs| * |ys| == (|xs| - 1) * |ys| + |ys|;
    }
  }

  /** Entry i * |ys| + j of the cross product is (xs[i], ys[j]). */
  lemma {:induction false} CrossAt<X, Y>(xs: seq<X>, ys: seq<Y>, i: nat, j: nat)
    requires i < |xs| && j < |ys|
    ensures i * |ys| + j < |Cross(xs, ys)|
    ensures Cross(xs, ys)[i * |ys| + j] == (xs[i], ys[j])
  {
    var n, m := |xs|, |ys|;
    var front := xs[..n - 1];
    CrossLength(front, ys);
    CrossLength(xs, ys);
    assert |Cross(front, ys)| == (n - 1) * m;
    if i == n - 1 {
      assert i * m + j == (n - 1) * m + j;
    } else {
      assert i * m + j < (i + 1) * m <= (n - 1) * m by {
        assert (i + 1) * m == i * m + m;
        MulMonotone(i + 1, n - 1, m);
      }
      CrossAt(front, ys, i, j);
      assert front[i] == xs[i];
    }
    assert n * m == (n - 1) * m + m;
  }

  lemma MulMonotone(a: nat, b: nat, m: nat)
    requires a <= b
    ensures a * m <= b * m
  {
  }

  /** A pair occurs in the cross product iff each part occurs in its list. */
  lemma {:induction false} CrossMember<X, Y>(xs: seq<X>, ys: seq<Y>, x: X, y: Y)
    ensures (x, y) in Cross(xs, ys) <==> x in xs && y in ys
  {
    if |xs| > 0 {
      var front := xs[..|xs| - 1];
      CrossMember(front, ys, x, y);
      assert xs == front + [xs[|xs| - 1]];
      if (x, y) in Row(xs[|xs| - 1], ys) {
        var j :| 0 <= j < |ys| && Row(xs[|xs| - 1], ys)[j] == (x, y);
        assert ys[j] == y;
      }
      if x == xs[|xs| - 1] && y in ys {
        var j :| 0 <= j < |ys| && ys[j] == y;
        assert Row(xs[|xs| - 1], ys)[j] == (x, y);
      }
    }
  }

  // ---------------------------------------------------------------------
  // Counting distinct candidates (termination of the name allocators)
  // ---------------------------------------------------------------------

  /** The first n values of f. */
  ghost function Image<T>(f: nat -> T, n: nat): set<T>
  {
    set j | 0 <= j < n :: f(j)
  }

  /** An injective f has n distinct first values. */
  lemma {:induction false} ImageSize<T>(f: nat -> T, n: nat)
    requires forall a, b :: 0 <= a < b < n ==> f(a) != f(b)
    ensures |Image(f, n)| == n
  {
    if n > 0 {
      ImageSize(f, n - 1);
      assert Image(f, n) == Image(f, n - 1) + {f(n - 1)};
      assert f(n - 1) !in Image(f, n - 1);
    }
  }

  lemma {:induction false} SubsetSize<T>(a: set<T>, b: set<T>)
    requires a <= b
    ensures |a| <= |b|
  {
    if a != {} {
      var x :| x in a;
      SubsetSize(a - {x}, b - {x});
    }
  }
}
