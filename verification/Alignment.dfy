/** Power-of-two rounding, written with the bit operations the PE code uses. */
module Alignment {

  /** The bitwise conjunction of two non-negative integers. */
  function BitAnd(a: nat, b: nat): nat {
    if a == 0 || b == 0 then 0 else 2 * BitAnd(a / 2, b / 2) + if a % 2 == 1 && b % 2 == 1 then 1 else 0
  }

  predicate PowerOfTwo(n: nat) {
    n == 1 || (n > 0 && n % 2 == 0 && PowerOfTwo(n / 2))
  }

  /** `(size + alignment - 1) & ~(alignment - 1)`; clearing the bits of a mask subtracts their conjunction. */
  function AlignUp(size: nat, alignment: nat): nat
    requires alignment > 0
  {
    var biased := size + alignment - 1;
    AndBound(biased, alignment - 1);
    biased - BitAnd(biased, alignment - 1)
  }

  lemma {:induction false} AndBound(a: nat, b: nat)
    ensures BitAnd(a, b) <= a && BitAnd(a, b) <= b
  {
    if a != 0 && b != 0 {
      AndBound(a / 2, b / 2);
    }
  }

  lemma {:induction false} AndSelf(a: nat)
    ensures BitAnd(a, a) == a
  {
    if a != 0 {
      AndSelf(a / 2);
    }
  }

  /** The usual `n & (n - 1)` test accepts exactly the powers of two. */
  lemma {:induction false} PowerOfTwoTest(n: nat)
    requires n > 0
    ensures BitAnd(n, n - 1) == 0 <==> PowerOfTwo(n)
  {
    if n % 2 == 1 {
      AndSelf(n / 2);
      assert (n - 1) / 2 == n / 2;
    } else {
      PowerOfTwoTest(n / 2);
      assert (n - 1) / 2 == n / 2 - 1;
    }
  }

  lemma HalfRemainder(a: nat, m: nat)
    requires m > 0
    ensures a % (2 * m) == 2 * ((a / 2) % m) + a % 2
  {
    var q, r := (a / 2) / m, (a / 2) % m;
    var low := 2 * r + a % 2;
    assert a == 2 * (q * m + r) + a % 2;
    assert a == q * (2 * m) + low;
    UniqueRemainder(a, 2 * m, q, low);
  }

  lemma UniqueRemainder(a: nat, d: nat, q: nat, r: nat)
    requires d > 0 && r < d && a == q * d + r
    ensures a % d == r && a / d == q
  {
    var e := a / d - q;
    assert e * d == r - a % d;
    assert e >= 1 ==> e * d >= d;
    assert e <= -1 ==> e * d <= -1 * d;
  }

  lemma {:induction false} MaskIsRemainder(a: nat, n: nat)
    requires PowerOfTwo(n)
    ensures BitAnd(a, n - 1) == a % n
  {
    if a != 0 && n != 1 {
      var m := n / 2;
      MaskIsRemainder(a / 2, m);
      assert (n - 1) / 2 == m - 1 && (n - 1) % 2 == 1;
      HalfRemainder(a, m);
    }
  }

  lemma RoundDown(a: nat, d: nat)
    requires d > 0
    ensures (a - a % d) % d == 0 && a - d < a - a % d <= a
  {
    var down := a - a % d;
    assert down == (a / d) * d + 0;
    UniqueRemainder(down, d, a / d, 0);
  }

  /** Rounding with a power of two gives the least multiple that is not below the size. */
  lemma AlignUpIsLeast(size: nat, alignment: nat)
    requires alignment > 0 && (BitAnd(alignment, alignment - 1) == 0 || PowerOfTwo(alignment))
    ensures AlignUp(size, alignment) % alignment == 0
    ensures size <= AlignUp(size, alignment) < size + alignment
  {
    hide BitAnd, AlignUp, PowerOfTwo;
    AlignUpValue(size, alignment);
    RoundDownBounds(size, alignment);
  }

  lemma RoundDownBounds(size: nat, d: nat)
    requires d > 0
    ensures
      var biased := size + d - 1;
      var up := biased - biased % d;
      up % d == 0 && size <= up < size + d
  {
    RoundDown(size + d - 1, d);
  }

  lemma AlignUpValue(size: nat, alignment: nat)
    requires alignment > 0 && (BitAnd(alignment, alignment - 1) == 0 || PowerOfTwo(alignment))
    ensures AlignUp(size, alignment) == (size + alignment - 1) - (size + alignment - 1) % alignment
  {
    hide BitAnd, PowerOfTwo;
    PowerOfTwoTest(alignment);
    MaskIsRemainder(size + alignment - 1, alignment);
  }
}
