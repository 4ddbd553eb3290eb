/** Python's list comprehension `[x for x in s if p(x)]`, for a total test and
    for a test that may raise, and the subsequence relation it establishes. */
module Seqs {
  import opened Wrappers

  /** `[x for x in s if p(x)]` */
  function Filter<T>(s: seq<T>, p: T -> bool): (r: seq<T>)
    ensures |r| <= |s|
    ensures forall i | 0 <= i < |r| :: p(r[i]) && r[i] in s
    decreases |s|
  {
    if s == [] then []
    else Filter(s[..|s| - 1], p) + (if p(s[|s| - 1]) then [s[|s| - 1]] else [])
  }

  /** `a` is obtained from `b` by deleting elements, keeping the order of the rest:
      the last element of `b` is either the last element of `a` or deleted. */
  predicate IsSubsequence<T(==)>(a: seq<T>, b: seq<T>)
    decreases |b|
  {
    if b == [] then a == []
    else
      || (a != [] && a[|a| - 1] == b[|b| - 1] && IsSubsequence(a[..|a| - 1], b[..|b| - 1]))
      || IsSubsequence(a, b[..|b| - 1])
  }

  lemma SubsequenceExtend<T>(a: seq<T>, b: seq<T>, x: T)
    requires IsSubsequence(a, b)
    ensures IsSubsequence(a, b + [x])
    ensures IsSubsequence(a + [x], b + [x])
  {
    assert (b + [x])[..|b|] == b;
    assert (a + [x])[..|a|] == a;
  }

  lemma {:induction false} SubsequenceReflexive<T>(s: seq<T>)
    ensures IsSubsequence(s, s)
    decreases |s|
  {
    if s != [] {
      SubsequenceReflexive(s[..|s| - 1]);
    }
  }

  /** The filtered list keeps its elements in their original order. */
  lemma {:induction false} FilterIsSubsequence<T>(s: seq<T>, p: T -> bool)
    ensures IsSubsequence(Filter(s, p), s)
    decreases |s|
  {
    if s != [] {
      var init, x := s[..|s| - 1], s[|s| - 1];
      FilterIsSubsequence(init, p);
      assert s == init + [x];
      SubsequenceExtend(Filter(init, p), init, x);
      if p(x) {
        assert Filter(s, p) == Filter(init, p) + [x];
      } else {
        assert Filter(s, p) == Filter(init, p);
      }
    }
  }

  /** Every element passing the test is kept as often as it occurs; every other
      element is dropped. */
  lemma {:induction false} FilterCount<T>(s: seq<T>, p: T -> bool, x: T)
    ensures multiset(Filter(s, p))[x] == if p(x) then multiset(s)[x] else 0
    decreases |s|
  {
    if s != [] {
      var init, last := s[..|s| - 1], s[|s| - 1];
      FilterCount(init, p, x);
      assert s == init + [last];
      assert multiset(s) == multiset(init) + multiset{last};
      if p(last) {
        assert Filter(s, p) == Filter(init, p) + [last];
      } else {
        assert Filter(s, p) == Filter(init, p);
      }
    }
  }

  /** `x` is in the result exactly when it is in the input and passes the test. */
  lemma FilterMembership<T>(s: seq<T>, p: T -> bool, x: T)
    ensures x in Filter(s, p) <==> x in s && p(x)
  {
    FilterCount(s, p, x);
    assert x in Filter(s, p) <==> multiset(Filter(s, p))[x] > 0;
    assert x in s <==> multiset(s)[x] > 0;
  }

  /** When every element passes, the comprehension returns its input unchanged. */
  lemma {:induction false} FilterKeepsAll<T>(s: seq<T>, p: T -> bool)
    requires forall i | 0 <= i < |s| :: p(s[i])
    ensures Filter(s, p) == s
    decreases |s|
  {
    if s != [] {
      FilterKeepsAll(s[..|s| - 1], p);
    }
  }

  /** Filtering one more element extends the filtered prefix by at most that element. */
  lemma FilterSnoc<T>(s: seq<T>, x: T, p: T -> bool)
    ensures Filter(s + [x], p) == Filter(s, p) + (if p(x) then [x] else [])
  {
    assert (s + [x])[..|s|] == s;
  }

  /** Two filters in a row are one filter on the conjunction of their tests. */
  lemma {:induction false} FilterFilter<T>(s: seq<T>, p: T -> bool, q: T -> bool, pq: T -> bool)
    requires forall x :: pq(x) == (p(x) && q(x))
    ensures Filter(Filter(s, p), q) == Filter(s, pq)
    decreases |s|
  {
    if s != [] {
      var init, x := s[..|s| - 1], s[|s| - 1];
      FilterFilter(init, p, q, pq);
      assert Filter(s, pq) == Filter(init, pq) + (if pq(x) then [x] else []);
      if p(x) {
        assert Filter(s, p) == Filter(init, p) + [x];
        FilterSnoc(Filter(init, p), x, q);
      } else {
        assert Filter(s, p) == Filter(init, p);
      }
    }
  }

  /** `[x for x in s if p(x)]` where evaluating `p` may raise: the elements are
      tested from the front and the first exception aborts the comprehension. */
  function FilterOk<T, E>(s: seq<T>, p: T -> Result<bool, E>): (r: Result<seq<T>, E>)
    ensures r.Success? ==> |r.value| <= |s|
    decreases |s|
  {
    if s == [] then Success([])
    else
      var init :- FilterOk(s[..|s| - 1], p);
      var keep :- p(s[|s| - 1]);
      Success(init + (if keep then [s[|s| - 1]] else []))
  }

  /** The total test that FilterOk applies once no exception occurs. */
  predicate Holds<T, E>(p: T -> Result<bool, E>, x: T) {
    p(x) == Success(true)
  }

  function HoldsOf<T, E>(p: T -> Result<bool, E>): T -> bool {
    x => Holds(p, x)
  }

  /** The comprehension succeeds exactly when the test succeeds on every element,
      and then it keeps exactly the elements on which the test returned true. */
  lemma {:induction false} FilterOkSuccess<T, E>(s: seq<T>, p: T -> Result<bool, E>)
    ensures FilterOk(s, p).Success? <==> forall i | 0 <= i < |s| :: p(s[i]).Success?
    ensures FilterOk(s, p).Success? ==> FilterOk(s, p).value == Filter(s, HoldsOf(p))
    decreases |s|
  {
    if s != [] {
      var init := s[..|s| - 1];
      FilterOkSuccess(init, p);
      assert forall i | 0 <= i < |init| :: init[i] == s[i];
      if forall i | 0 <= i < |s| :: p(s[i]).Success? {
        assert forall i | 0 <= i < |init| :: p(init[i]).Success?;
      }
    }
  }

  /** The exception raised is the one of the first element whose test raises. */
  lemma {:induction false} FilterOkFailure<T, E>(s: seq<T>, p: T -> Result<bool, E>, i: int)
    requires 0 <= i < |s| && p(s[i]).Failure?
    requires forall j | 0 <= j < i :: p(s[j]).Success?
    ensures FilterOk(s, p) == Failure(p(s[i]).error)
    decreases |s|
  {
    var init := s[..|s| - 1];
    if i < |s| - 1 {
      assert init[i] == s[i];
      FilterOkFailure(init, p, i);
    } else {
      FilterOkSuccess(init, p);
      assert forall j | 0 <= j < |init| :: init[j] == s[j];
    }
  }

  /** A comprehension whose prefix before `k` succeeded raises the exception of
      the test at `k`, when that test raises. */
  lemma FilterOkStopsAt<T, E>(s: seq<T>, p: T -> Result<bool, E>, k: int)
    requires 0 <= k < |s| && FilterOk(s[..k], p).Success? && p(s[k]).Failure?
    ensures FilterOk(s, p) == Failure(p(s[k]).error)
  {
    FilterOkSuccess(s[..k], p);
    assert forall j | 0 <= j < k :: s[..k][j] == s[j];
    FilterOkFailure(s, p, k);
  }

  /** Two tests that agree everywhere give the same comprehension. */
  lemma {:induction false} FilterOkSame<T, E>(s: seq<T>, p: T -> Result<bool, E>, q: T -> Result<bool, E>)
    requires forall x :: p(x) == q(x)
    ensures FilterOk(s, p) == FilterOk(s, q)
    decreases |s|
  {
    if s != [] {
      FilterOkSame(s[..|s| - 1], p, q);
    }
  }

  /** Testing one more element of a prefix that succeeded. */
  lemma FilterOkExtend<T, E>(s: seq<T>, p: T -> Result<bool, E>, k: int, acc: seq<T>)
    requires 0 <= k < |s| && FilterOk(s[..k], p) == Success(acc) && p(s[k]).Success?
    ensures p(s[k]).value ==> FilterOk(s[..k + 1], p) == Success(acc + [s[k]])
    ensures !p(s[k]).value ==> FilterOk(s[..k + 1], p) == Success(acc)
  {
    assert s[..k + 1][..k] == s[..k];
    assert acc + [] == acc;
  }
}
