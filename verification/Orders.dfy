/** Python's ordering of strings, and what makes a sorted listing canonical. */
module Orders {

  /** Strict lexicographic order by code point, as `sorted` compares two `str`. */
  predicate Before(a: string, b: string) {
    b != "" && (a == "" || a[0] < b[0] || (a[0] == b[0] && Before(a[1..], b[1..])))
  }

  /** `a` is a proper beginning of `b`, or smaller at the first place where they differ. */
  ghost predicate Precedes(a: string, b: string, k: int) {
    0 <= k <= |a| && k < |b| && a[..k] == b[..k] && (k == |a| || a[k] < b[k])
  }

  lemma {:induction false} BeforeExactly(a: string, b: string)
    ensures Before(a, b) <==> exists k :: Precedes(a, b, k)
  {
    if a != "" && b != "" && a[0] == b[0] {
      BeforeExactly(a[1..], b[1..]);
      if k :| Precedes(a[1..], b[1..], k) {
        assert a[..k + 1] == [a[0]] + a[1..][..k] && b[..k + 1] == [b[0]] + b[1..][..k];
        assert Precedes(a, b, k + 1);
      }
      if k :| Precedes(a, b, k) {
        assert a[1..][..k - 1] == a[..k][1..] && b[1..][..k - 1] == b[..k][1..];
        assert Precedes(a[1..], b[1..], k - 1);
      }
    } else {
      assert Before(a, b) ==> Precedes(a, b, 0);
      if k :| Precedes(a, b, k) {
        assert k > 0 ==> a[..k][0] == b[..k][0];
      }
    }
  }

  lemma {:induction false} BeforeTotal(a: string, b: string)
    ensures a == b || Before(a, b) || Before(b, a)
    ensures !(Before(a, b) && Before(b, a))
    ensures a == b ==> !Before(a, b)
  {
    if a != "" && b != "" && a[0] == b[0] {
      BeforeTotal(a[1..], b[1..]);
      assert a == [a[0]] + a[1..] && b == [b[0]] + b[1..];
    }
  }

  lemma {:induction false} BeforeTransitive(a: string, b: string, c: string)
    requires Before(a, b) && Before(b, c)
    ensures Before(a, c)
  {
    if a != "" && a[0] == b[0] && b[0] == c[0] {
      BeforeTransitive(a[1..], b[1..], c[1..]);
    }
  }

  /** A listing without repeats, in order. */
  ghost predicate Sorted(s: seq<string>) {
    forall i, j :: 0 <= i < j < |s| ==> Before(s[i], s[j])
  }

  /** `s` is what `sorted` returns for the set `elements`. */
  ghost predicate Lists(s: seq<string>, elements: set<string>) {
    Sorted(s) && forall x :: x in s <==> x in elements
  }

  lemma FirstIsLeast(s: seq<string>, x: string)
    requires Sorted(s) && x in s
    ensures x == s[0] || Before(s[0], x)
  {
    var i :| 0 <= i < |s| && s[i] == x;
  }

  /** The sorted listing of a set is unique. */
  lemma {:induction false} ListsUnique(a: seq<string>, b: seq<string>, elements: set<string>)
    requires Lists(a, elements) && Lists(b, elements)
    ensures a == b
  {
    ListsEmpty(a, elements);
    ListsEmpty(b, elements);
    if a != [] {
      assert a[0] in b && b[0] in a;
      FirstIsLeast(a, b[0]);
      FirstIsLeast(b, a[0]);
      BeforeTotal(a[0], b[0]);
      TailLists(a, elements);
      TailLists(b, elements);
      ListsUnique(a[1..], b[1..], elements - {a[0]});
      assert a == [a[0]] + a[1..] && b == [b[0]] + b[1..];
    }
  }

  lemma ListsEmpty(s: seq<string>, elements: set<string>)
    requires Lists(s, elements)
    ensures s == [] <==> elements == {}
  {
    if s != [] {
      assert s[0] in elements;
    }
    if elements != {} {
      var x :| x in elements;
      assert x in s;
    }
  }

  lemma TailLists(s: seq<string>, elements: set<string>)
    requires Lists(s, elements) && s != []
    ensures Lists(s[1..], elements - {s[0]})
  {
    forall x ensures x in s[1..] <==> x in elements - {s[0]} {
      if x in s[1..] {
        var i :| 0 <= i < |s[1..]| && s[1..][i] == x;
        assert s[i + 1] == x && Before(s[0], x);
        BeforeTotal(s[0], x);
      }
      assert s == [s[0]] + s[1..];
    }
  }
}
