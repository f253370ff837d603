/** Integer rounding, and counting over sequences of timestamps. */
module Arith {

  datatype Option<+T> = None | Some(value: T)

  function Min(a: int, b: int): int { if a <= b then a else b }

  function Max(a: int, b: int): int { if a >= b then a else b }

  /** The least integer whose product with `b` reaches `a`. */
  function CeilDiv(a: int, b: int): (q: int)
    requires b > 0
    ensures (q - 1) * b < a <= q * b
  {
    (a + b - 1) / b
  }

  lemma CeilDivLeast(a: int, b: int, q: int)
    requires b > 0
    ensures q >= CeilDiv(a, b) <==> q * b >= a
  {
    var c := CeilDiv(a, b);
    if q >= c {
      MulMono(c, q, b);
    } else {
      MulMono(q, c - 1, b);
    }
  }

  lemma MulMono(a: int, b: int, n: int)
    requires a <= b && n >= 0
    ensures a * n <= b * n
  {
  }

  lemma DivIs(a: int, b: int, q: int)
    requires b > 0 && q * b <= a < q * b + b
    ensures a / b == q
  {
    var k := a / b;
    if k < q {
      MulMono(k + 1, q, b);
    } else if k > q {
      MulMono(q + 1, k, b);
    }
  }

  predicate NonDecreasing(s: seq<int>) {
    |s| <= 1 || (NonDecreasing(s[..|s| - 1]) && s[|s| - 2] <= s[|s| - 1])
  }

  lemma NonDecreasingSnoc(s: seq<int>, x: int)
    ensures NonDecreasing(s + [x]) <==> NonDecreasing(s) && (s != [] ==> s[|s| - 1] <= x)
  {
    assert (s + [x])[..|s|] == s;
  }

  lemma {:induction false} NonDecreasingAt(s: seq<int>, i: nat, j: nat)
    requires NonDecreasing(s) && i <= j < |s|
    ensures s[i] <= s[j]
  {
    if j < |s| - 1 {
      NonDecreasingAt(s[..|s| - 1], i, j);
    } else if i < j {
      NonDecreasingAt(s[..|s| - 1], i, j - 1);
    }
  }

  lemma {:induction false} PrefixNonDecreasing(s: seq<int>, t: seq<int>)
    requires NonDecreasing(s + t)
    ensures NonDecreasing(s)
  {
    hide NonDecreasing;
    if t == [] {
      assert s + t == s;
    } else {
      var u, x := t[..|t| - 1], t[|t| - 1];
      assert s + t == s + u + [x];
      NonDecreasingSnoc(s + u, x);
      PrefixNonDecreasing(s, u);
    }
  }

  /** A bound on the last element of a nondecreasing sequence bounds every element. */
  lemma AllUpToLast(s: seq<int>)
    requires NonDecreasing(s)
    ensures forall x :: x in s ==> x <= s[|s| - 1]
  {
    forall x | x in s ensures x <= s[|s| - 1] {
      var i :| 0 <= i < |s| && s[i] == x;
      NonDecreasingAt(s, i, |s| - 1);
    }
  }

  function Copies(x: int, n: nat): (s: seq<int>)
    ensures |s| == n && forall i :: 0 <= i < n ==> s[i] == x
  {
    seq(n, _ => x)
  }

  /** How many elements of `s` lie in the half-open interval [lo, hi). */
  function CountIn(s: seq<int>, lo: int, hi: int): (n: nat)
    ensures n <= |s|
  {
    if s == [] then 0
    else CountIn(s[..|s| - 1], lo, hi) + (if lo <= s[|s| - 1] < hi then 1 else 0)
  }

  lemma CountInSnoc(s: seq<int>, x: int, lo: int, hi: int)
    ensures CountIn(s + [x], lo, hi) == CountIn(s, lo, hi) + (if lo <= x < hi then 1 else 0)
  {
    assert (s + [x])[..|s|] == s;
  }

  lemma {:induction false} CountInSplit(s: seq<int>, lo: int, mid: int, hi: int)
    requires lo <= mid <= hi
    ensures CountIn(s, lo, hi) == CountIn(s, lo, mid) + CountIn(s, mid, hi)
  {
    if s != [] {
      CountInSplit(s[..|s| - 1], lo, mid, hi);
    }
  }

  lemma {:induction false} CountInWiden(s: seq<int>, lo: int, hi: int, lo': int, hi': int)
    requires lo' <= lo && hi <= hi'
    ensures CountIn(s, lo, hi) <= CountIn(s, lo', hi')
  {
    if s != [] {
      CountInWiden(s[..|s| - 1], lo, hi, lo', hi');
    }
  }

  lemma {:induction false} CountInNone(s: seq<int>, lo: int, hi: int)
    requires forall x :: x in s ==> !(lo <= x < hi)
    ensures CountIn(s, lo, hi) == 0
  {
    if s != [] {
      var t := s[..|s| - 1];
      forall x | x in t ensures !(lo <= x < hi) {
        var i :| 0 <= i < |t| && t[i] == x;
        assert s[i] in s;
      }
      assert s[|s| - 1] in s;
      CountInNone(t, lo, hi);
    }
  }
}
