/** Failure-compatible datatypes shared by the other modules. */
module Wrappers {
  datatype Option<+T> = None | Some(value: T)

  datatype Result<+T, +E> = Success(value: T) | Failure(error: E) {
    predicate IsFailure() {
      Failure?
    }

    function PropagateFailure<U>(): Result<U, E>
      requires Failure?
    {
      Failure(error)
    }

    function Extract(): T
      requires Success?
    {
      value
    }
  }

  /** The outcome of a check: `:- Need(condition, error)` stops at the first failed one. */
  datatype Check<+E> = Pass | Fail(error: E) {
    predicate IsFailure() {
      Fail?
    }

    function PropagateFailure<U>(): Result<U, E>
      requires Fail?
    {
      Failure(error)
    }
  }

  function Need<E>(condition: bool, error: E): Check<E> {
    if condition then Pass else Fail(error)
  }
}

/** Bytes and little-endian integers. */
module Bytes {
  type Byte = b: int | 0 <= b < 256

  function U16At(s: seq<Byte>, o: nat): (v: nat)
    requires o + 2 <= |s|
    ensures v < 0x1_0000
  {
    (s[o] as int) + 256 * (s[o + 1] as int)
  }

  function U32At(s: seq<Byte>, o: nat): (v: nat)
    requires o + 4 <= |s|
    ensures v < 0x1_0000_0000
  {
    (s[o] as int) + 256 * (s[o + 1] as int) + 65536 * (s[o + 2] as int) + 16777216 * (s[o + 3] as int)
  }

  /** The four bytes a linker or signing tool stores for `v`. */
  function Le32(v: nat): (s: seq<Byte>)
    ensures |s| == 4
    ensures v < 0x1_0000_0000 ==> U32At(s, 0) == v
  {
    var q1 := v / 256;
    var q2 := q1 / 256;
    var q3 := q2 / 256;
    [v % 256, q1 % 256, q2 % 256, q3 % 256]
  }

  /** Two bytes, likewise. */
  function Le16(v: nat): (s: seq<Byte>)
    ensures |s| == 2
    ensures v < 0x1_0000 ==> U16At(s, 0) == v
  {
    [v % 256, v / 256 % 256]
  }

  function Zeros(n: nat): (s: seq<Byte>)
    ensures |s| == n && forall i :: 0 <= i < n ==> s[i] == 0
  {
    seq(n, _ => 0)
  }
}
