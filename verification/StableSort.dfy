/** `sorted(..., key=..., reverse=True)`: descending by key, equal keys in their original order. */
module StableSort {

  /** Inserts `x` behind every element whose key is at least its own. */
  function Insert<T>(s: seq<T>, x: T, key: T -> real): seq<T> {
    if s == [] then [x]
    else if key(s[0]) >= key(x) then [s[0]] + Insert(s[1..], x, key)
    else [x] + s
  }

  function Descending<T>(s: seq<T>, key: T -> real): seq<T> {
    if s == [] then [] else Insert(Descending(s[..|s| - 1], key), s[|s| - 1], key)
  }

  ghost predicate IsDescending<T>(s: seq<T>, key: T -> real) {
    forall i, j :: 0 <= i < j < |s| ==> key(s[i]) >= key(s[j])
  }

  /** The elements with key `k`, in order. */
  function WithKey<T>(s: seq<T>, key: T -> real, k: real): seq<T> {
    if s == [] then [] else (if key(s[0]) == k then [s[0]] else []) + WithKey(s[1..], key, k)
  }

  lemma {:induction false} InsertAdds<T>(s: seq<T>, x: T, key: T -> real)
    ensures multiset(Insert(s, x, key)) == multiset(s) + multiset{x}
  {
    if s != [] {
      assert s == [s[0]] + s[1..];
      InsertAdds(s[1..], x, key);
    }
  }

  lemma {:induction false} InsertDescending<T>(s: seq<T>, x: T, key: T -> real)
    requires IsDescending(s, key)
    ensures IsDescending(Insert(s, x, key), key)
    ensures forall y :: y in Insert(s, x, key) ==> y == x || y in s
  {
    if s != [] && key(s[0]) >= key(x) {
      InsertDescending(s[1..], x, key);
      var rest := Insert(s[1..], x, key);
      forall j | 0 <= j < |rest| ensures key(s[0]) >= key(rest[j]) {
        assert rest[j] in rest;
        if rest[j] != x {
          var i :| 0 <= i < |s[1..]| && s[1..][i] == rest[j];
          assert s[i + 1] == rest[j];
        }
      }
    }
  }

  /** A sorted permutation of the input. */
  lemma {:induction false} Sorts<T>(s: seq<T>, key: T -> real)
    ensures multiset(Descending(s, key)) == multiset(s) && IsDescending(Descending(s, key), key)
    ensures |Descending(s, key)| == |s|
  {
    if s != [] {
      var front, last := s[..|s| - 1], s[|s| - 1];
      Sorts(front, key);
      InsertAdds(Descending(front, key), last, key);
      InsertDescending(Descending(front, key), last, key);
      assert s == front + [last];
      hide *;
      SameSize(Descending(s, key), s);
    }
  }

  lemma SameSize<T>(a: seq<T>, b: seq<T>)
    requires multiset(a) == multiset(b)
    ensures |a| == |b|
  {
    assert |multiset(a)| == |a| && |multiset(b)| == |b|;
  }

  lemma {:induction false} WithKeyConcat<T>(a: seq<T>, b: seq<T>, key: T -> real, k: real)
    ensures WithKey(a + b, key, k) == WithKey(a, key, k) + WithKey(b, key, k)
  {
    if a == [] {
      assert a + b == b;
    } else {
      WithKeyConcat(a[1..], b, key, k);
      assert (a + b)[1..] == a[1..] + b;
    }
  }

  lemma {:induction false} InsertStable<T>(s: seq<T>, x: T, key: T -> real, k: real)
    requires IsDescending(s, key)
    ensures WithKey(Insert(s, x, key), key, k) == WithKey(s + [x], key, k)
  {
    WithKeyConcat(s, [x], key, k);
    if s != [] {
      if key(s[0]) >= key(x) {
        InsertStable(s[1..], x, key, k);
        WithKeyConcat(s[1..], [x], key, k);
      } else if k == key(x) {
        NoneWithKey(s, key, k);
        WithKeyConcat([x], s, key, k);
      } else {
        WithKeyConcat([x], s, key, k);
      }
    }
  }

  lemma {:induction false} NoneWithKey<T>(s: seq<T>, key: T -> real, k: real)
    requires forall x :: x in s ==> key(x) != k
    ensures WithKey(s, key, k) == []
  {
    if s != [] {
      NoneWithKey(s[1..], key, k);
    }
  }

  /** Elements with equal keys keep their order. */
  lemma {:induction false} Stable<T>(s: seq<T>, key: T -> real, k: real)
    ensures WithKey(Descending(s, key), key, k) == WithKey(s, key, k)
  {
    if s != [] {
      var front, last := s[..|s| - 1], s[|s| - 1];
      Stable(front, key, k);
      Sorts(front, key);
      InsertStable(Descending(front, key), last, key, k);
      WithKeyConcat(Descending(front, key), [last], key, k);
      WithKeyConcat(front, [last], key, k);
      assert s == front + [last];
    }
  }

  lemma {:induction false} InsertLast<T>(s: seq<T>, x: T, key: T -> real)
    requires forall y :: y in s ==> key(y) >= key(x)
    ensures Insert(s, x, key) == s + [x]
  {
    if s != [] {
      assert s[0] in s;
      InsertLast(s[1..], x, key);
    }
  }

  /** Sorting what is sorted changes nothing. */
  lemma {:induction false} SortsOnce<T>(s: seq<T>, key: T -> real)
    requires IsDescending(s, key)
    ensures Descending(s, key) == s
  {
    if s != [] {
      var front, last := s[..|s| - 1], s[|s| - 1];
      SortsOnce(front, key);
      InsertLast(front, last, key);
    }
  }
}
