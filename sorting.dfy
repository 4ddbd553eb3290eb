/** Python's `sorted(s, key=key)`: a stable sort on an integer key. The
    descending variant `reverse=True` is, by Python's own definition, still
    stable, so it is the ascending sort on the negated key. */
module Sorting {
  import opened Wrappers

  predicate SortedBy<T>(s: seq<T>, key: T -> int) {
    forall i, j | 0 <= i < j < |s| :: key(s[i]) <= key(s[j])
  }

  /** Puts `x` in front of the first element whose key is not smaller than its own. */
  function Insert<T>(x: T, s: seq<T>, key: T -> int): (r: seq<T>)
    ensures multiset(r) == multiset(s) + multiset{x}
    ensures |r| == |s| + 1
    decreases |s|
  {
    if s == [] then [x]
    else if key(x) <= key(s[0]) then [x] + s
    else
      assert s == [s[0]] + s[1..];
      [s[0]] + Insert(x, s[1..], key)
  }

  /** Every key of the result is at least `b` when `x` and every element of `s` are. */
  lemma {:induction false} InsertBound<T>(x: T, s: seq<T>, key: T -> int, b: int)
    requires b <= key(x) && forall i | 0 <= i < |s| :: b <= key(s[i])
    ensures forall i | 0 <= i < |Insert(x, s, key)| :: b <= key(Insert(x, s, key)[i])
    decreases |s|
  {
    var r := Insert(x, s, key);
    if s == [] {
      assert r == [x];
    } else if key(x) <= key(s[0]) {
      assert r == [x] + s;
      forall i | 0 <= i < |r| ensures b <= key(r[i]) {
        if i > 0 {
          assert r[i] == s[i - 1];
        }
      }
    } else {
      var rest := Insert(x, s[1..], key);
      assert forall i | 0 <= i < |s[1..]| :: s[1..][i] == s[i + 1];
      InsertBound(x, s[1..], key, b);
      assert r == [s[0]] + rest;
      forall i | 0 <= i < |r| ensures b <= key(r[i]) {
        if i > 0 {
          assert r[i] == rest[i - 1];
        }
      }
    }
  }

  /** Inserting into a sorted list keeps it sorted. */
  lemma {:induction false} InsertSorted<T>(x: T, s: seq<T>, key: T -> int)
    requires SortedBy(s, key)
    ensures SortedBy(Insert(x, s, key), key)
    decreases |s|
  {
    var r := Insert(x, s, key);
    if s == [] {
      assert r == [x];
    } else if key(x) <= key(s[0]) {
      assert r == [x] + s;
      forall a, b | 0 <= a < b < |r| ensures key(r[a]) <= key(r[b]) {
        assert r[b] == s[b - 1];
        if a > 0 {
          assert r[a] == s[a - 1];
        }
      }
    } else {
      var rest := Insert(x, s[1..], key);
      assert forall i | 0 <= i < |s[1..]| :: s[1..][i] == s[i + 1];
      assert SortedBy(s[1..], key);
      InsertSorted(x, s[1..], key);
      InsertBound(x, s[1..], key, key(s[0]));
      assert r == [s[0]] + rest;
      forall a, b | 0 <= a < b < |r| ensures key(r[a]) <= key(r[b]) {
        assert r[b] == rest[b - 1];
        if a > 0 {
          assert r[a] == rest[a - 1];
        }
      }
    }
  }

  /** Insertion sort, which inserts each element in front of the equal keys of the
      elements after it and so keeps equal keys in their input order. */
  function SortBy<T>(s: seq<T>, key: T -> int): (r: seq<T>)
    ensures SortedBy(r, key)
    ensures multiset(r) == multiset(s)
    ensures |r| == |s|
    decreases |s|
  {
    if s == [] then []
    else
      assert s == [s[0]] + s[1..];
      var sorted := SortBy(s[1..], key);
      InsertSorted(s[0], sorted, key);
      Insert(s[0], sorted, key)
  }

  /** The elements of `s` whose key is `k`, in their order in `s`. */
  function WithKey<T>(s: seq<T>, key: T -> int, k: int): seq<T>
    decreases |s|
  {
    if s == [] then []
    else (if key(s[0]) == k then [s[0]] else []) + WithKey(s[1..], key, k)
  }

  lemma WithKeyCons<T>(y: T, t: seq<T>, key: T -> int, k: int)
    ensures key(y) == k ==> WithKey([y] + t, key, k) == [y] + WithKey(t, key, k)
    ensures key(y) != k ==> WithKey([y] + t, key, k) == WithKey(t, key, k)
  {
    assert ([y] + t)[0] == y && ([y] + t)[1..] == t;
    assert [] + WithKey(t, key, k) == WithKey(t, key, k);
  }

  /** Inserting `x` adds it to the front of the elements with its key and
      leaves the elements of every other key as they were. */
  lemma {:induction false} InsertWithKey<T>(x: T, s: seq<T>, key: T -> int, k: int)
    ensures key(x) == k ==> WithKey(Insert(x, s, key), key, k) == [x] + WithKey(s, key, k)
    ensures key(x) != k ==> WithKey(Insert(x, s, key), key, k) == WithKey(s, key, k)
    decreases |s|
  {
    if s == [] {
      assert Insert(x, s, key) == [x] + [];
      WithKeyCons(x, [], key, k);
    } else if key(x) <= key(s[0]) {
      assert Insert(x, s, key) == [x] + s;
      WithKeyCons(x, s, key, k);
    } else {
      InsertWithKey(x, s[1..], key, k);
      InsertPastHead(x, s, key, k);
    }
  }

  /** The step of InsertWithKey where `x` goes past the head of `s`. */
  lemma InsertPastHead<T>(x: T, s: seq<T>, key: T -> int, k: int)
    requires s != [] && key(x) > key(s[0])
    requires key(x) == k ==> WithKey(Insert(x, s[1..], key), key, k) == [x] + WithKey(s[1..], key, k)
    requires key(x) != k ==> WithKey(Insert(x, s[1..], key), key, k) == WithKey(s[1..], key, k)
    ensures key(x) == k ==> WithKey(Insert(x, s, key), key, k) == [x] + WithKey(s, key, k)
    ensures key(x) != k ==> WithKey(Insert(x, s, key), key, k) == WithKey(s, key, k)
  {
    var rest := Insert(x, s[1..], key);
    assert Insert(x, s, key) == [s[0]] + rest;
    WithKeyCons(s[0], rest, key, k);
    assert s == [s[0]] + s[1..];
    WithKeyCons(s[0], s[1..], key, k);
  }

  /** Stability: for every key, the elements with that key appear in the sorted
      result in the same order as in the input. */
  lemma {:induction false} SortByStable<T>(s: seq<T>, key: T -> int, k: int)
    ensures WithKey(SortBy(s, key), key, k) == WithKey(s, key, k)
    decreases |s|
  {
    if s != [] {
      SortByStable(s[1..], key, k);
      InsertWithKey(s[0], SortBy(s[1..], key), key, k);
      assert s == [s[0]] + s[1..];
      WithKeyCons(s[0], s[1..], key, k);
    }
  }

  /** An input that is already in key order is returned unchanged. */
  lemma {:induction false} SortBySorted<T>(s: seq<T>, key: T -> int)
    requires SortedBy(s, key)
    ensures SortBy(s, key) == s
    decreases |s|
  {
    if s != [] {
      assert SortedBy(s[1..], key);
      SortBySorted(s[1..], key);
      if |s| > 1 {
        assert key(s[0]) <= key(s[1]);
      }
    }
  }

  // ---- Keys that may raise ----

  /** The keys `sorted` computes, front to back, before it compares anything;
      the first key that raises aborts the sort. */
  function KeysOf<T, E>(s: seq<T>, key: T -> Result<int, E>): (r: Result<seq<int>, E>)
    ensures r.Success? ==> |r.value| == |s|
    decreases |s|
  {
    if s == [] then Success([])
    else
      var k :- key(s[0]);
      var ks :- KeysOf(s[1..], key);
      Success([k] + ks)
  }

  /** The key as a total function once every key is known to exist, negated
      for `reverse=True`. */
  function TotalKey<T, E>(key: T -> Result<int, E>, reverse: bool): T -> int {
    x => if key(x).Failure? then 0 else if reverse then -key(x).value else key(x).value
  }

  /** `sorted(s, key=key, reverse=reverse)` */
  function SortOn<T, E>(s: seq<T>, key: T -> Result<int, E>, reverse: bool): Result<seq<T>, E> {
    var _ :- KeysOf(s, key);
    Success(SortBy(s, TotalKey(key, reverse)))
  }

  lemma {:induction false} KeysOfSuccess<T, E>(s: seq<T>, key: T -> Result<int, E>)
    ensures KeysOf(s, key).Success? <==> forall i | 0 <= i < |s| :: key(s[i]).Success?
    decreases |s|
  {
    if s != [] {
      KeysOfSuccess(s[1..], key);
      assert forall i | 1 <= i < |s| :: s[1..][i - 1] == s[i];
      if forall i | 0 <= i < |s[1..]| :: key(s[1..][i]).Success? {
        assert forall i | 1 <= i < |s| :: key(s[i]).Success?;
      }
    }
  }

  /** The exception of the first element whose key raises is the one raised. */
  lemma {:induction false} KeysOfFailure<T, E>(s: seq<T>, key: T -> Result<int, E>, i: int)
    requires 0 <= i < |s| && key(s[i]).Failure?
    requires forall j | 0 <= j < i :: key(s[j]).Success?
    ensures KeysOf(s, key) == Failure(key(s[i]).error)
    decreases |s|
  {
    if i > 0 {
      assert forall j | 0 <= j < i - 1 :: s[1..][j] == s[j + 1];
      KeysOfFailure(s[1..], key, i - 1);
    }
  }

  /** `sorted` with a key that may raise either raises the first key's exception
      or returns a stable permutation of its input in key order, ascending, or
      descending when `reverse` is set. */
  lemma SortOnSpec<T, E>(s: seq<T>, key: T -> Result<int, E>, reverse: bool)
    ensures SortOn(s, key, reverse).Success? <==> forall i | 0 <= i < |s| :: key(s[i]).Success?
    ensures SortOn(s, key, reverse).Success? ==>
              var r := SortOn(s, key, reverse).value;
              && multiset(r) == multiset(s)
              && (forall i | 0 <= i < |r| :: key(r[i]).Success?)
              && (forall i, j | 0 <= i < j < |r| ::
                    if reverse then key(r[i]).value >= key(r[j]).value else key(r[i]).value <= key(r[j]).value)
              && (forall k :: WithKey(r, TotalKey(key, reverse), k) == WithKey(s, TotalKey(key, reverse), k))
  {
    KeysOfSuccess(s, key);
    if SortOn(s, key, reverse).Success? {
      var f := TotalKey(key, reverse);
      var r := SortBy(s, f);
      forall i | 0 <= i < |r| ensures key(r[i]).Success? {
        assert r[i] in multiset(s);
      }
      assert SortedBy(r, f);
      forall k {
        SortByStable(s, f, k);
      }
    }
  }
}
