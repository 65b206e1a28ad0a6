/** Sums of an integer measure over a sequence. */
module Sums {

  function Sum<T>(s: seq<T>, f: T -> int): int {
    if s == [] then 0 else f(s[0]) + Sum(s[1..], f)
  }

  lemma {:induction false} SumAppend<T>(a: seq<T>, b: seq<T>, f: T -> int)
    ensures Sum(a + b, f) == Sum(a, f) + Sum(b, f)
  {
    if a == [] {
      assert a + b == b;
    } else {
      assert (a + b)[1..] == a[1..] + b;
      SumAppend(a[1..], b, f);
    }
  }

  lemma SumPush<T>(a: seq<T>, x: T, f: T -> int)
    ensures Sum(a + [x], f) == Sum(a, f) + f(x)
  {
    SumAppend(a, [x], f);
    assert Sum([x], f) == f(x) + Sum([], f);
  }

  lemma {:induction false} SumUpdate<T>(s: seq<T>, i: nat, x: T, f: T -> int)
    requires i < |s|
    ensures Sum(s[i := x], f) == Sum(s, f) - f(s[i]) + f(x)
  {
    if i > 0 {
      assert s[i := x][1..] == s[1..][i - 1 := x];
      SumUpdate(s[1..], i - 1, x, f);
    } else {
      assert s[i := x][1..] == s[1..];
    }
  }

  /** Pointwise comparison carries over to the sums. */
  lemma {:induction false} SumMono<T>(s: seq<T>, f: T -> int, g: T -> int)
    requires forall i | 0 <= i < |s| :: f(s[i]) <= g(s[i])
    ensures Sum(s, f) <= Sum(s, g)
  {
    if s != [] {
      assert f(s[0]) <= g(s[0]);
      forall i | 0 <= i < |s[1..]| ensures f(s[1..][i]) <= g(s[1..][i]) {
        assert s[1..][i] == s[i + 1];
      }
      SumMono(s[1..], f, g);
    }
  }

  lemma {:induction false} SumSame<T, U>(s: seq<T>, t: seq<U>, f: T -> int, g: U -> int)
    requires |s| == |t| && forall i | 0 <= i < |s| :: f(s[i]) == g(t[i])
    ensures Sum(s, f) == Sum(t, g)
  {
    if s != [] {
      assert f(s[0]) == g(t[0]);
      forall i | 0 <= i < |s[1..]| ensures f(s[1..][i]) == g(t[1..][i]) {
        assert s[1..][i] == s[i + 1] && t[1..][i] == t[i + 1];
      }
      SumSame(s[1..], t[1..], f, g);
    }
  }

  /** One term of a sum of non-negative terms is at most the sum. */
  lemma {:induction false} SumTerm<T>(s: seq<T>, i: nat, f: T -> int)
    requires i < |s| && forall k | 0 <= k < |s| :: f(s[k]) >= 0
    ensures 0 <= f(s[i]) <= Sum(s, f)
  {
    assert f(s[0]) >= 0;
    forall k | 0 <= k < |s[1..]| ensures f(s[1..][k]) >= 0 {
      assert s[1..][k] == s[k + 1];
    }
    if i > 0 {
      SumTerm(s[1..], i - 1, f);
    } else {
      SumNonNegative(s[1..], f);
    }
  }

  lemma {:induction false} SumNonNegative<T>(s: seq<T>, f: T -> int)
    requires forall k | 0 <= k < |s| :: f(s[k]) >= 0
    ensures Sum(s, f) >= 0
  {
    if s != [] {
      assert f(s[0]) >= 0;
      forall k | 0 <= k < |s[1..]| ensures f(s[1..][k]) >= 0 {
        assert s[1..][k] == s[k + 1];
      }
      SumNonNegative(s[1..], f);
    }
  }

  lemma {:induction false} SumZero<T>(s: seq<T>, f: T -> int)
    requires forall i | 0 <= i < |s| :: f(s[i]) == 0
    ensures Sum(s, f) == 0
  {
    if s != [] {
      assert f(s[0]) == 0;
      forall i | 0 <= i < |s[1..]| ensures f(s[1..][i]) == 0 {
        assert s[1..][i] == s[i + 1];
      }
      SumZero(s[1..], f);
    }
  }

  /** Two measures that agree everywhere but at `i` have sums that differ by what they differ there. */
  lemma SumOneOff<T>(s: seq<T>, i: nat, x: T, f: T -> int, g: T -> int)
    requires i < |s| && f(x) == g(x) && forall k | 0 <= k < |s| && k != i :: f(s[k]) == g(s[k])
    ensures Sum(s, f) - Sum(s, g) == f(s[i]) - g(s[i])
  {
    var t := s[i := x];
    SumUpdate(s, i, x, f);
    SumUpdate(s, i, x, g);
    SumSame(t, t, f, g);
  }

  lemma SumSplit<T>(s: seq<T>, n: nat, f: T -> int)
    requires n <= |s|
    ensures Sum(s, f) == Sum(s[..n], f) + Sum(s[n..], f)
  {
    assert s == s[..n] + s[n..];
    SumAppend(s[..n], s[n..], f);
  }

  lemma SumTwoTerms<T>(s: seq<T>, i: nat, j: nat, f: T -> int)
    requires i < |s| && j < |s| && i != j && forall k | 0 <= k < |s| :: f(s[k]) >= 0
    ensures f(s[i]) + f(s[j]) <= Sum(s, f)
  {
    var n := (if i < j then i else j) + 1;
    var m := if i < j then j else i;
    SumSplit(s, n, f);
    SumTerm(s[..n], n - 1, f);
    SumTerm(s[n..], m - n, f);
  }
}
