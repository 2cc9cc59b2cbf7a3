/** Shared vocabulary: option/result wrappers, fixed-width integers and the
    identifiers of accounts and storage slots. */
module Common {

  datatype Option<+T> = None | Some(value: T)

  datatype Result<+T, +E> = Ok(value: T) | Err(error: E)

  const UINT64_MODULUS: int := 0x1_0000_0000_0000_0000

  /** Go's `uint64`. */
  type uint64 = x: int | 0 <= x < UINT64_MODULUS

  /** Go's `byte`. */
  type uint8 = x: int | 0 <= x < 256

  /** A 20-byte account address read as a big-endian number, so that numeric
      order coincides with the byte-wise order used to sort addresses. */
  type Address = nat

  /** A 32-byte word (storage key, storage value or hash) read as a big-endian
      number; the zero word is `0`. */
  type Hash = nat

  /** Keccak-256 of the empty byte string: the code hash of an account without code. */
  const EMPTY_CODE_HASH: Hash := 0xc5d2460186f7233c927e7db2dcc703c0e500b653ca82273b7bfad8045d85a470

  /** Addition on Go's `uint64`, which wraps around. */
  function AddUint64(a: uint64, b: uint64): (r: uint64)
    ensures a + b < UINT64_MODULUS ==> r == a + b
    ensures a + b >= UINT64_MODULUS ==> r == a + b - UINT64_MODULUS && r < a
  {
    (a + b) % UINT64_MODULUS
  }

  /** Subtraction on Go's `uint64`, which wraps around. */
  function SubUint64(a: uint64, b: uint64): (r: uint64)
    ensures b <= a ==> r == a - b
    ensures a < b ==> r == a - b + UINT64_MODULUS
  {
    (a - b) % UINT64_MODULUS
  }

  function Min(a: int, b: int): (r: int)
    ensures r <= a && r <= b && (r == a || r == b)
  {
    if a <= b then a else b
  }

  function Max(a: int, b: int): (r: int)
    ensures r >= a && r >= b && (r == a || r == b)
  {
    if a >= b then a else b
  }

  /** Some least element exists in every finite non-empty set of naturals. */
  lemma {:induction false} LeastExists(s: set<nat>)
    requires s != {}
    ensures exists m :: m in s && IsLeast(m, s)
    decreases s
  {
    var x :| x in s;
    if s == {x} {
      assert IsLeast(x, s);
    } else {
      LeastExists(s - {x});
      var m' :| m' in s - {x} && IsLeast(m', s - {x});
      var least := if x < m' then x else m';
      forall y | y in s
        ensures least <= y
      {
        if y != x {
          assert y in s - {x};
        }
      }
      assert IsLeast(least, s);
    }
  }

  predicate IsLeast(m: nat, s: set<nat>)
  {
    forall y :: y in s ==> m <= y
  }

  /** Least element of a finite non-empty set of naturals. */
  function SetMin(s: set<nat>): (m: nat)
    requires s != {}
    ensures m in s
    ensures forall y :: y in s ==> m <= y
  {
    LeastExists(s);
    var m :| m in s && IsLeast(m, s);
    m
  }

  predicate StrictlyIncreasing(xs: seq<nat>)
  {
    forall i, j :: 0 <= i < j < |xs| ==> xs[i] < xs[j]
  }

  /** The elements of a finite set in ascending order (Go's sort over map keys). */
  function SortedElements(s: set<nat>): (r: seq<nat>)
    ensures StrictlyIncreasing(r)
    ensures forall x :: x in s <==> x in r
    ensures |r| == |s|
    decreases s
  {
    if s == {} then []
    else
      var m := SetMin(s);
      var rest := SortedElements(s - {m});
      assert forall i :: 0 <= i < |rest| ==> rest[i] in s - {m};
      [m] + rest
  }
}
