/** A stable sort into non-increasing key order: the behaviour of Python's
    list sort with a key and `reverse=True`, which orders by descending key
    and keeps elements with equal keys in their original relative order.

    Stability is stated without indices: for every key value, the elements
    carrying that value appear in the output in the same order as in the input.
 */
module StableSort {

  /** Keys never increase from left to right. */
  predicate NonIncreasing<T>(s: seq<T>, key: T -> real) {
    forall i, j :: 0 <= i < j < |s| ==> key(s[i]) >= key(s[j])
  }

  /** The elements of `s` whose key is `v`, in their order in `s`. */
  function WithKey<T>(s: seq<T>, key: T -> real, v: real): seq<T> {
    if s == [] then []
    else (if key(s[0]) == v then [s[0]] else []) + WithKey(s[1..], key, v)
  }

  /** Places `x` in front of the first element whose key is not larger than its own. */
  function Insert<T>(x: T, s: seq<T>, key: T -> real): (r: seq<T>)
    ensures multiset(r) == multiset(s) + multiset{x}
    ensures |r| == |s| + 1
  {
    if s == [] || key(x) >= key(s[0]) then
      [x] + s
    else
      assert s == [s[0]] + s[1..];
      [s[0]] + Insert(x, s[1..], key)
  }

  lemma TailNonIncreasing<T>(s: seq<T>, key: T -> real)
    requires s != [] && NonIncreasing(s, key)
    ensures NonIncreasing(s[1..], key)
  {
    var tail := s[1..];
    forall i, j | 0 <= i < j < |tail|
      ensures key(tail[i]) >= key(tail[j])
    {
      assert tail[i] == s[i + 1] && tail[j] == s[j + 1];
    }
  }

  /** Every element of a sorted sequence has a key no larger than the head's. */
  lemma HeadIsLargest<T>(s: seq<T>, key: T -> real, y: T)
    requires s != [] && NonIncreasing(s, key) && y in multiset(s)
    ensures key(y) <= key(s[0])
  {
    var k :| 0 <= k < |s| && s[k] == y;
    if k > 0 {
      assert key(s[0]) >= key(s[k]);
    }
  }

  /** Inserting into a sorted sequence keeps it sorted. */
  lemma {:induction false} InsertSorted<T>(x: T, s: seq<T>, key: T -> real)
    requires NonIncreasing(s, key)
    ensures NonIncreasing(Insert(x, s, key), key)
    decreases |s|
  {
    var r := Insert(x, s, key);
    if s == [] || key(x) >= key(s[0]) {
      forall i, j | 0 <= i < j < |r|
        ensures key(r[i]) >= key(r[j])
      {
        assert r[j] == s[j - 1];
        if i > 0 {
          assert r[i] == s[i - 1];
        } else if j > 1 {
          assert key(s[0]) >= key(s[j - 1]);
        }
      }
    } else {
      var tail := s[1..];
      TailNonIncreasing(s, key);
      InsertSorted(x, tail, key);
      var rest := Insert(x, tail, key);
      assert r == [s[0]] + rest;
      forall i, j | 0 <= i < j < |r|
        ensures key(r[i]) >= key(r[j])
      {
        assert r[j] == rest[j - 1];
        if i > 0 {
          assert r[i] == rest[i - 1];
        } else {
          assert rest[j - 1] in multiset(rest);
          if rest[j - 1] != x {
            assert rest[j - 1] in multiset(s);
            HeadIsLargest(s, key, rest[j - 1]);
          }
        }
      }
    }
  }

  /** `x` lands before every element with the same key, as if it had come first. */
  lemma {:induction false} InsertStable<T>(x: T, s: seq<T>, key: T -> real, v: real)
    requires NonIncreasing(s, key)
    ensures WithKey(Insert(x, s, key), key, v) == WithKey([x] + s, key, v)
    decreases |s|
  {
    if s == [] || key(x) >= key(s[0]) {
    } else {
      var tail := s[1..];
      TailNonIncreasing(s, key);
      InsertStable(x, tail, key, v);
      var rest := Insert(x, tail, key);
      var r := [s[0]] + rest;
      assert r == Insert(x, s, key);
      assert r[1..] == rest;
      assert ([x] + s)[1..] == s;
      assert ([x] + tail)[1..] == tail;
      var hs := if key(s[0]) == v then [s[0]] else [];
      var hx := if key(x) == v then [x] else [];
      assert hs + hx == hx + hs;
      calc {
        WithKey(r, key, v);
        hs + WithKey(rest, key, v);
        hs + WithKey([x] + tail, key, v);
        hs + (hx + WithKey(tail, key, v));
        hx + (hs + WithKey(tail, key, v));
        hx + WithKey(s, key, v);
        WithKey([x] + s, key, v);
      }
    }
  }

  /** Insertion sort into non-increasing key order. */
  function SortDesc<T>(s: seq<T>, key: T -> real): (r: seq<T>)
    ensures |r| == |s|
    decreases |s|
  {
    if s == [] then []
    else Insert(s[0], SortDesc(s[1..], key), key)
  }

  /** The sort is a permutation into non-increasing key order that keeps
      elements of equal key in their original order. */
  lemma SortDescIsStableSort<T>(s: seq<T>, key: T -> real)
    ensures multiset(SortDesc(s, key)) == multiset(s)
    ensures NonIncreasing(SortDesc(s, key), key)
    ensures forall v :: WithKey(SortDesc(s, key), key, v) == WithKey(s, key, v)
  {
    SortDescPermutes(s, key);
    SortDescSorted(s, key);
    SortDescStable(s, key);
  }

  lemma {:induction false} SortDescPermutes<T>(s: seq<T>, key: T -> real)
    ensures multiset(SortDesc(s, key)) == multiset(s)
    decreases |s|
  {
    if s != [] {
      SortDescPermutes(s[1..], key);
      assert s == [s[0]] + s[1..];
    }
  }

  lemma {:induction false} SortDescSorted<T>(s: seq<T>, key: T -> real)
    ensures NonIncreasing(SortDesc(s, key), key)
    decreases |s|
  {
    if s != [] {
      SortDescSorted(s[1..], key);
      InsertSorted(s[0], SortDesc(s[1..], key), key);
    }
  }

  lemma {:induction false} SortDescStable<T>(s: seq<T>, key: T -> real)
    ensures forall v :: WithKey(SortDesc(s, key), key, v) == WithKey(s, key, v)
    decreases |s|
  {
    if s != [] {
      var rest := SortDesc(s[1..], key);
      SortDescStable(s[1..], key);
      SortDescSorted(s[1..], key);
      SortStep(s, rest, key);
    }
  }

  /** One step of the sort: if the tail was sorted stably into `rest`,
      inserting the head into `rest` sorts the whole sequence stably. */
  lemma SortStep<T>(s: seq<T>, rest: seq<T>, key: T -> real)
    requires s != [] && NonIncreasing(rest, key)
    requires forall v :: WithKey(rest, key, v) == WithKey(s[1..], key, v)
    ensures forall v :: WithKey(Insert(s[0], rest, key), key, v) == WithKey(s, key, v)
  {
    forall v
      ensures WithKey(Insert(s[0], rest, key), key, v) == WithKey(s, key, v)
    {
      InsertStable(s[0], rest, key, v);
      assert ([s[0]] + rest)[1..] == rest;
    }
  }

  /** `s[i]` has the largest key and no earlier element reaches it. */
  ghost predicate IsFirstMax<T>(s: seq<T>, key: T -> real, i: int) {
    && 0 <= i < |s|
    && (forall j :: 0 <= j < |s| ==> key(s[j]) <= key(s[i]))
    && (forall j :: 0 <= j < i ==> key(s[j]) < key(s[i]))
  }

  /** The first element with key `v` heads the elements with that key. */
  lemma {:induction false} WithKeyHead<T>(s: seq<T>, key: T -> real, v: real, k: int)
    requires 0 <= k < |s| && key(s[k]) == v
    ensures exists i :: 0 <= i <= k && key(s[i]) == v &&
                        (forall j :: 0 <= j < i ==> key(s[j]) != v) &&
                        WithKey(s, key, v) != [] && WithKey(s, key, v)[0] == s[i]
    decreases |s|
  {
    if key(s[0]) == v {
      assert WithKey(s, key, v)[0] == s[0];
    } else {
      assert s[1..][k - 1] == s[k];
      WithKeyHead(s[1..], key, v, k - 1);
      var i :| 0 <= i <= k - 1 && key(s[1..][i]) == v &&
               (forall j :: 0 <= j < i ==> key(s[1..][j]) != v) &&
               WithKey(s[1..], key, v) != [] && WithKey(s[1..], key, v)[0] == s[1..][i];
      assert WithKey(s, key, v) == WithKey(s[1..], key, v);
      forall j | 0 <= j < i + 1
        ensures key(s[j]) != v
      {
        if j > 0 {
          assert s[j] == s[1..][j - 1];
        }
      }
      assert key(s[i + 1]) == v && s[i + 1] == s[1..][i];
    }
  }

  /** No element of `s` has a larger key than the head of its sort. */
  lemma SortedHeadIsMax<T>(s: seq<T>, key: T -> real)
    requires |s| > 0
    ensures forall j :: 0 <= j < |s| ==> key(s[j]) <= key(SortDesc(s, key)[0])
  {
    var r := SortDesc(s, key);
    SortDescIsStableSort(s, key);
    forall j | 0 <= j < |s|
      ensures key(s[j]) <= key(r[0])
    {
      assert s[j] in multiset(s);
      HeadIsLargest(r, key, s[j]);
    }
  }

  /** The head of the sorted sequence is the first element of largest key:
      among elements tied for the largest key, the earliest one wins. */
  lemma SortedHeadIsFirstMax<T>(s: seq<T>, key: T -> real)
    requires |s| > 0
    ensures exists i :: IsFirstMax(s, key, i) && SortDesc(s, key)[0] == s[i]
  {
    var r := SortDesc(s, key);
    SortDescIsStableSort(s, key);
    SortedHeadIsMax(s, key);
    var v := key(r[0]);
    assert r[0] in multiset(r);
    var k :| 0 <= k < |s| && s[k] == r[0];
    WithKeyHead(s, key, v, k);
    var i :| 0 <= i <= k && key(s[i]) == v &&
             (forall j :: 0 <= j < i ==> key(s[j]) != v) &&
             WithKey(s, key, v) != [] && WithKey(s, key, v)[0] == s[i];
    assert WithKey(r, key, v)[0] == r[0];
    assert IsFirstMax(s, key, i);
  }

  /** Sorting neither adds nor drops an element. */
  lemma SortKeepsMembers<T>(s: seq<T>, key: T -> real, x: T)
    ensures x in SortDesc(s, key) <==> x in s
  {
    var r := SortDesc(s, key);
    SortDescIsStableSort(s, key);
    assert x in r <==> x in multiset(r);
    assert x in s <==> x in multiset(s);
  }
}
