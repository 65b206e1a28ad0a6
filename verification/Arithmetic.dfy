/** Order, products and quotients of integers. */
module Arithmetic {

  lemma MulOrder(x: int, y: int, m: int)
    requires m > 0
    ensures x <= y <==> x * m <= y * m
  {
    if x <= y {
      assert (y - x) * m >= 0;
    } else {
      assert (x - y - 1) * m >= 0;
    }
  }

  lemma DivIs(a: int, b: int)
    requires b > 0
    ensures (a / b) * b <= a < (a / b) * b + b
  {
  }

  /** The quotient is the greatest number of whole parts. */
  lemma DivOrder(a: int, b: int, q: int)
    requires b > 0
    ensures q <= a / b <==> q * b <= a
  {
    DivIs(a, b);
    MulOrder(q, a / b, b);
    MulOrder(q, a / b + 1, b);
    MulOrder(a / b + 1, q, b);
    assert (a / b + 1) * b == (a / b) * b + b;
  }

  // ----- 64 bits -----

  const MAX_INT64 := 0x7fff_ffff_ffff_ffff
  const WORD: nat := 0x1_0000_0000_0000_0000

  predicate Int64(n: int) {
    -MAX_INT64 - 1 <= n <= MAX_INT64
  }

  /** Two's complement of 64 bits. */
  function Wrap64(x: int): (r: int)
    ensures Int64(r)
    ensures Int64(x) ==> r == x
  {
    var m := x % WORD;
    if m > MAX_INT64 then m - WORD else m
  }

  lemma WrapIs(x: int) returns (k: int)
    ensures Wrap64(x) == x + k * WORD
  {
    k := -(x / WORD) - if x % WORD > MAX_INT64 then 1 else 0;
  }

  /** A 64-bit sum of 64-bit values is the true sum, wrapped once. */
  lemma WrapOnce(a: int, b: int)
    ensures Wrap64(Wrap64(a) + Wrap64(b)) == Wrap64(a + b)
  {
    var i := WrapIs(a);
    var j := WrapIs(b);
    var k := WrapIs(Wrap64(a) + Wrap64(b));
    var l := WrapIs(a + b);
    WrappedOnce(Wrap64(Wrap64(a) + Wrap64(b)), Wrap64(a + b), i + j + k - l);
  }

  lemma WrappedOnce(x: int, y: int, k: int)
    requires Int64(x) && Int64(y) && x == y + k * WORD
    ensures x == y
  {
  }

  /** Quotient truncated towards zero. */
  function Quot(a: int, b: int): int
    requires b > 0
  {
    if a >= 0 then a / b else -(-a / b)
  }

  lemma QuotSign(a: int, b: int)
    requires b > 0
    ensures a >= 0 ==> Quot(a, b) == a / b
    ensures a < 0 ==> Quot(a, b) <= 0
  {
    if a < 0 {
      DivOrder(-a, b, 0);
    }
  }

  lemma QuotNear(v: int, q: int)
    requires q > 0
    ensures -q < v - Quot(v, q) * q < q
  {
    if v >= 0 {
      DivIs(v, q);
    } else {
      DivIs(-v, q);
    }
  }
}
