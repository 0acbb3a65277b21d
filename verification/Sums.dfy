/** Sums over append-only lists of documents: every balance in the system is such a sum. */
module Sums {

  ghost function Sum<T>(s: seq<T>, f: T -> int): int
  {
    if |s| == 0 then 0 else Sum(s[..|s| - 1], f) + f(s[|s| - 1])
  }

  lemma SumPush<T>(s: seq<T>, x: T, f: T -> int)
    ensures Sum(s + [x], f) == Sum(s, f) + f(x)
  {
    assert (s + [x])[..|s|] == s;
  }

  lemma {:induction false} SumConcat<T>(s: seq<T>, t: seq<T>, f: T -> int)
    ensures Sum(s + t, f) == Sum(s, f) + Sum(t, f)
  {
    if t == [] {
      assert s + t == s;
    } else {
      var init, last := t[..|t| - 1], t[|t| - 1];
      assert s + t == (s + init) + [last];
      SumPush(s + init, last, f);
      SumConcat(s, init, f);
    }
  }

  lemma SumUpdate<T>(s: seq<T>, i: nat, x: T, f: T -> int)
    requires i < |s|
    ensures Sum(s[i := x], f) == Sum(s, f) - f(s[i]) + f(x)
  {
    assert s == s[..i] + ([s[i]] + s[i + 1..]);
    assert s[i := x] == s[..i] + ([x] + s[i + 1..]);
    SumConcat(s[..i], [s[i]] + s[i + 1..], f);
    SumConcat(s[..i], [x] + s[i + 1..], f);
    SumConcat([s[i]], s[i + 1..], f);
    SumConcat([x], s[i + 1..], f);
    SumPush([], s[i], f);
    SumPush([], x, f);
    assert [] + [s[i]] == [s[i]] && [] + [x] == [x];
  }

  lemma {:induction false} SumRemove<T>(s: seq<T>, i: nat, f: T -> int)
    requires i < |s|
    ensures Sum(s[..i] + s[i + 1..], f) == Sum(s, f) - f(s[i])
  {
    var n := |s| - 1;
    if i == n {
      assert s[..i] + s[i + 1..] == s[..n];
    } else {
      var left := s[..n][..i] + s[..n][i + 1..];
      SumRemove(s[..n], i, f);
      assert s[..i] + s[i + 1..] == left + [s[n]];
      SumPush(left, s[n], f);
    }
  }

  lemma {:induction false} SumZero<T>(s: seq<T>, f: T -> int)
    requires forall x <- s :: f(x) == 0
    ensures Sum(s, f) == 0
  {
    if s != [] { SumZero(s[..|s| - 1], f); }
  }

  lemma {:induction false} SumNonNegative<T>(s: seq<T>, f: T -> int)
    requires forall x <- s :: f(x) >= 0
    ensures Sum(s, f) >= 0
  {
    if s != [] { SumNonNegative(s[..|s| - 1], f); }
  }

  /** Two lists that agree position by position under the two weights have the same sum. */
  lemma {:induction false} SumAgree<T, U>(s: seq<T>, f: T -> int, t: seq<U>, g: U -> int)
    requires |s| == |t| && forall i :: 0 <= i < |s| ==> f(s[i]) == g(t[i])
    ensures Sum(s, f) == Sum(t, g)
  {
    if s != [] { SumAgree(s[..|s| - 1], f, t[..|t| - 1], g); }
  }

  /** Pointwise domination of one list by another gives domination of the sums. */
  lemma {:induction false} SumDominated<T>(s: seq<T>, t: seq<T>, f: T -> int)
    requires |s| == |t| && forall i :: 0 <= i < |s| ==> f(s[i]) <= f(t[i])
    ensures Sum(s, f) <= Sum(t, f)
  {
    if s != [] { SumDominated(s[..|s| - 1], t[..|t| - 1], f); }
  }

  /** A non-negative weight sums to at least any one of its terms. */
  lemma {:induction false} SumAtLeastTerm<T>(s: seq<T>, i: nat, f: T -> int)
    requires i < |s| && forall x <- s :: f(x) >= 0
    ensures Sum(s, f) >= f(s[i])
  {
    if i == |s| - 1 {
      SumNonNegative(s[..i], f);
    } else {
      SumAtLeastTerm(s[..|s| - 1], i, f);
    }
  }
}
