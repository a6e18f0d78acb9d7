/**
 Tracked paths that differ only in case. The fold is any per-character map that
 sends exactly '/' to '/', as simple lower-casing does.
 */
module CaseCollisions {

  type Fold = char -> char

  ghost predicate KeepsSlashes(fold: Fold) {
    forall c :: fold(c) == '/' <==> c == '/'
  }

  function Folded(fold: Fold, s: string): (r: string)
    ensures |r| == |s| && forall i :: 0 <= i < |s| ==> r[i] == fold(s[i])
  {
    seq(|s|, i requires 0 <= i < |s| => fold(s[i]))
  }

  // ------------------------------------------------------------------ prefixes

  /** `path.split("/")` */
  function SplitPath(path: string): (parts: seq<string>)
    ensures parts != []
  {
    if path == "" then [""]
    else
      var front, last := SplitPath(path[..|path| - 1]), path[|path| - 1];
      if last == '/' then front + [""] else front[|front| - 1 := front[|front| - 1] + [last]]
  }

  /** `"/".join(parts)` */
  function JoinPath(parts: seq<string>): string {
    if parts == [] then ""
    else if |parts| == 1 then parts[0]
    else JoinPath(parts[..|parts| - 1]) + "/" + parts[|parts| - 1]
  }

  /** `p` is `path` cut off before a slash, or all of it. */
  ghost predicate PrefixAt(path: string, k: nat, p: string) {
    k <= |path| && (k == |path| || path[k] == '/') && p == path[..k]
  }

  ghost predicate IsPrefix(path: string, p: string) { exists k: nat :: PrefixAt(path, k, p) }

  lemma {:induction false} JoinSplit(path: string)
    ensures JoinPath(SplitPath(path)) == path
  {
    if path != "" {
      var front, last := path[..|path| - 1], path[|path| - 1];
      var parts := SplitPath(front);
      JoinSplit(front);
      assert path == front + [last];
      if last == '/' {
        assert (parts + [""])[..|parts|] == parts;
      } else {
        JoinExtend(parts, last);
      }
    }
  }

  lemma JoinExtend(parts: seq<string>, c: char)
    requires parts != []
    ensures JoinPath(parts[|parts| - 1 := parts[|parts| - 1] + [c]]) == JoinPath(parts) + [c]
  {
    var n := |parts| - 1;
    var longer := parts[n := parts[n] + [c]];
    assert longer[..n] == parts[..n];
  }

  /** Joining fewer than all parts gives the path up to one of its slashes. */
  lemma {:induction false} JoinedPrefix(path: string, depth: nat)
    requires 1 <= depth < |SplitPath(path)|
    ensures exists k: nat :: k < |path| && path[k] == '/' && JoinPath(SplitPath(path)[..depth]) == path[..k]
  {
    var n := |path| - 1;
    var front, last := path[..n], path[n];
    var before := SplitPath(front);
    assert SplitPath(path)[..depth] == before[..depth];
    if depth == |before| {
      assert before[..depth] == before;
      JoinSplit(front);
      assert path[n] == '/' && JoinPath(SplitPath(path)[..depth]) == path[..n];
    } else {
      JoinedPrefix(front, depth);
      var k: nat :| k < |front| && front[k] == '/' && JoinPath(before[..depth]) == front[..k];
      assert front[..k] == path[..k] && path[k] == '/';
    }
  }

  /** The path up to one of its slashes is the join of fewer than all parts. */
  lemma {:induction false} PrefixJoined(path: string, k: nat)
    requires k < |path| && path[k] == '/'
    ensures exists depth :: 1 <= depth < |SplitPath(path)| && JoinPath(SplitPath(path)[..depth]) == path[..k]
  {
    var n := |path| - 1;
    var front := path[..n];
    var before := SplitPath(front);
    if k == n {
      JoinSplit(front);
      assert SplitPath(path)[..|before|] == before;
    } else {
      PrefixJoined(front, k);
      var depth :| 1 <= depth < |before| && JoinPath(before[..depth]) == front[..k];
      assert SplitPath(path)[..depth] == before[..depth] && path[..k] == front[..k];
    }
  }

  ghost predicate JoinAt(path: string, depth: nat, p: string) {
    1 <= depth <= |SplitPath(path)| && p == JoinPath(SplitPath(path)[..depth])
  }

  lemma JoinWhole(path: string)
    ensures JoinAt(path, |SplitPath(path)|, path)
  {
    JoinSplit(path);
    assert SplitPath(path)[..|SplitPath(path)|] == SplitPath(path);
  }

  lemma PrefixIsJoin(path: string, k: nat, p: string)
    requires PrefixAt(path, k, p)
    ensures exists depth :: JoinAt(path, depth, p)
  {
    if k < |path| {
      PrefixJoined(path, k);
      var depth :| 1 <= depth < |SplitPath(path)| && JoinPath(SplitPath(path)[..depth]) == path[..k];
      assert JoinAt(path, depth, p);
    } else {
      JoinWhole(path);
      assert p == path;
    }
  }

  lemma JoinIsPrefix(path: string, depth: nat, p: string)
    requires JoinAt(path, depth, p)
    ensures IsPrefix(path, p)
  {
    if depth < |SplitPath(path)| {
      JoinedPrefix(path, depth);
      var k: nat :| k < |path| && path[k] == '/' && p == path[..k];
      assert PrefixAt(path, k, p);
    } else {
      JoinWhole(path);
      assert PrefixAt(path, |path|, p);
    }
  }

  /** The prefixes of a path are the joins of its first parts. */
  lemma PrefixesAreJoins(path: string, p: string)
    ensures IsPrefix(path, p) <==> exists depth :: JoinAt(path, depth, p)
  {
    if IsPrefix(path, p) {
      var k: nat :| PrefixAt(path, k, p);
      PrefixIsJoin(path, k, p);
    }
    if depth :| JoinAt(path, depth, p) {
      JoinIsPrefix(path, depth, p);
    }
  }

  // ------------------------------------------------------------------ collecting

  /** `p` is a prefix of some tracked path. */
  ghost predicate TrackedPrefix(tracked: seq<string>, p: string) {
    exists i :: 0 <= i < |tracked| && IsPrefix(tracked[i], p)
  }

  type Spellings = map<string, set<string>>

  /** `spellings` files every member of `all` under its fold. */
  ghost predicate Files(fold: Fold, spellings: Spellings, all: iset<string>) {
    (forall p :: p in all <==> Folded(fold, p) in spellings && p in spellings[Folded(fold, p)])
    && (forall f, p :: f in spellings && p in spellings[f] ==> Folded(fold, p) == f)
  }

  ghost function Prefixes(tracked: seq<string>): iset<string> {
    iset p | TrackedPrefix(tracked, p)
  }

  function Add(fold: Fold, spellings: Spellings, p: string): Spellings {
    var f := Folded(fold, p);
    spellings[f := (if f in spellings then spellings[f] else {}) + {p}]
  }

  lemma AddFiles(fold: Fold, spellings: Spellings, all: iset<string>, p: string)
    requires Files(fold, spellings, all)
    ensures Files(fold, Add(fold, spellings, p), all + iset{p})
  {
  }

  method CollectSpellings(fold: Fold, tracked: seq<string>) returns (spellings: Spellings)
    ensures Files(fold, spellings, Prefixes(tracked))
  {
    spellings := map[];
    ghost var all: iset<string> := iset{};
    for i := 0 to |tracked|
      invariant Files(fold, spellings, all)
      invariant forall p :: p in all <==> exists n :: 0 <= n < i && IsPrefix(tracked[n], p)
    {
      var parts := SplitPath(tracked[i]);
      ghost var before := all;
      for depth := 1 to |parts| + 1
        invariant Files(fold, spellings, all)
        invariant forall p :: p in all <==> p in before || exists d: nat :: d < depth && JoinAt(tracked[i], d, p)
      {
        var prefix := JoinPath(parts[..depth]);
        assert JoinAt(tracked[i], depth, prefix);
        AddFiles(fold, spellings, all, prefix);
        spellings := Add(fold, spellings, prefix);
        all := all + iset{prefix};
      }
      forall p ensures p in all <==> p in before || IsPrefix(tracked[i], p) {
        PrefixesAreJoins(tracked[i], p);
      }
    }
    assert all == Prefixes(tracked);
  }

  // -------------------------------------------------------------------- reporting

  /** `path` lies below `root`. */
  predicate Below(path: string, root: string) {
    |root| < |path| && path[|root|] == '/' && path[..|root|] == root
  }

  /** Behind the first `n` characters all members read the same. */
  predicate SameTail(group: set<string>, n: nat) {
    forall p, q :: p in group && q in group && n <= |p| && n <= |q| ==> p[n..] == q[n..]
  }

  predicate Collides(spellings: Spellings, f: string) { f in spellings && |spellings[f]| > 1 }

  /** `root` is a colliding directory above `f` whose renaming would leave one spelling of `f`. */
  predicate ExplainedBy(spellings: Spellings, f: string, root: string)
    requires f in spellings
  {
    Below(f, root) && SameTail(spellings[f], |root| + 1)
  }

  predicate Explained(spellings: Spellings, f: string)
    requires f in spellings
  {
    exists root :: root in spellings && Collides(spellings, root) && ExplainedBy(spellings, f, root)
  }

  /** The groups reported: those that collide and are not explained by a colliding ancestor. */
  function ShallowestOnly(spellings: Spellings): Spellings {
    map f | f in spellings && Collides(spellings, f) && !Explained(spellings, f) :: spellings[f]
  }

  /** `report` is what the scan of the tracked prefixes reports. */
  ghost predicate Reports(fold: Fold, tracked: seq<string>, report: Spellings) {
    exists spellings :: Files(fold, spellings, Prefixes(tracked)) && report == ShallowestOnly(spellings)
  }

  method PathCollisions(fold: Fold, tracked: seq<string>) returns (report: Spellings)
    ensures Reports(fold, tracked, report)
  {
    var spellings := CollectSpellings(fold, tracked);
    report := ShallowestOnly(spellings);
  }

  // ------------------------------------------------------------------ main results

  lemma CutPrefix(fold: Fold, tracked: seq<string>, p: string, root: string)
    requires KeepsSlashes(fold) && TrackedPrefix(tracked, p) && Below(Folded(fold, p), root)
    ensures |root| < |p| && p[|root|] == '/' && TrackedPrefix(tracked, p[..|root|]) && Folded(fold, p[..|root|]) == root
  {
    var f := Folded(fold, p);
    assert f[|root|] == fold(p[|root|]);
    var i :| 0 <= i < |tracked| && IsPrefix(tracked[i], p);
    var k: nat :| PrefixAt(tracked[i], k, p);
    assert tracked[i][|root|] == p[|root|];
    assert PrefixAt(tracked[i], |root|, p[..|root|]);
    assert Folded(fold, p[..|root|]) == f[..|root|];
  }

  /** If `root` explains `f` and `above` explains `root`, then `above` explains `f`. */
  lemma ExplainsThrough(fold: Fold, tracked: seq<string>, spellings: Spellings, f: string, root: string, above: string)
    requires KeepsSlashes(fold) && Files(fold, spellings, Prefixes(tracked))
    requires f in spellings && root in spellings && ExplainedBy(spellings, f, root) && ExplainedBy(spellings, root, above)
    ensures ExplainedBy(spellings, f, above)
  {
    assert f[..|root|][..|above|] == f[..|above|] && f[|above|] == f[..|root|][|above|];
    forall p, q | p in spellings[f] && q in spellings[f] && |above| + 1 <= |p| && |above| + 1 <= |q|
      ensures p[|above| + 1..] == q[|above| + 1..]
    {
      assert p in Prefixes(tracked) && q in Prefixes(tracked);
      CutPrefix(fold, tracked, p, root);
      CutPrefix(fold, tracked, q, root);
      var a, b := p[..|root|], q[..|root|];
      assert a in Prefixes(tracked) && b in Prefixes(tracked);
      assert a[|above| + 1..] == b[|above| + 1..];
      var n := |root| - |above| - 1;
      assert p == a + "/" + p[|root| + 1..] && q == b + "/" + q[|root| + 1..];
      assert p[|above| + 1..] == a[|above| + 1..] + "/" + p[|root| + 1..];
      assert q[|above| + 1..] == b[|above| + 1..] + "/" + q[|root| + 1..];
    }
  }

  /** An explaining ancestor can be chosen among the reported ones. */
  lemma {:induction false} ReportedExplainer(fold: Fold, tracked: seq<string>, spellings: Spellings, f: string, root: string)
    requires KeepsSlashes(fold) && Files(fold, spellings, Prefixes(tracked))
    requires f in spellings && Collides(spellings, root) && ExplainedBy(spellings, f, root)
    ensures exists r :: r in ShallowestOnly(spellings) && ExplainedBy(spellings, f, r)
    decreases |root|
  {
    if Explained(spellings, root) {
      var above :| above in spellings && Collides(spellings, above) && ExplainedBy(spellings, root, above);
      ExplainsThrough(fold, tracked, spellings, f, root, above);
      ReportedExplainer(fold, tracked, spellings, f, above);
    }
  }

  /**
   A colliding group is dropped from the report exactly when a reported group stands
   above it and all its members read the same below that directory.
   */
  lemma DroppedExactlyWhenExplained(fold: Fold, tracked: seq<string>, spellings: Spellings, f: string)
    requires KeepsSlashes(fold) && Files(fold, spellings, Prefixes(tracked)) && Collides(spellings, f)
    ensures f !in ShallowestOnly(spellings)
            <==> exists r :: r in ShallowestOnly(spellings) && ExplainedBy(spellings, f, r)
  {
    if Explained(spellings, f) {
      var root :| root in spellings && Collides(spellings, root) && ExplainedBy(spellings, f, root);
      ReportedExplainer(fold, tracked, spellings, f, root);
    }
  }

  lemma TwoMembers(s: set<string>)
    ensures |s| > 1 <==> exists p, q :: p in s && q in s && p != q
  {
    if |s| > 1 {
      var p :| p in s;
      assert |s - {p}| > 0;
      var q :| q in s - {p};
    }
    if p, q :| p in s && q in s && p != q {
      assert |s - {p}| == |s| - 1;
      assert q in s - {p};
    }
  }

  /** The report is empty exactly when no two distinct tracked prefixes fold together. */
  lemma EmptyReport(fold: Fold, tracked: seq<string>, spellings: Spellings)
    requires KeepsSlashes(fold) && Files(fold, spellings, Prefixes(tracked))
    ensures ShallowestOnly(spellings) == map[]
            <==> forall p, q :: TrackedPrefix(tracked, p) && TrackedPrefix(tracked, q) && Folded(fold, p) == Folded(fold, q) ==> p == q
  {
    if p, q :| TrackedPrefix(tracked, p) && TrackedPrefix(tracked, q) && Folded(fold, p) == Folded(fold, q) && p != q {
      var f := Folded(fold, p);
      assert p in Prefixes(tracked) && q in Prefixes(tracked);
      TwoMembers(spellings[f]);
      DroppedExactlyWhenExplained(fold, tracked, spellings, f);
    }
    if f :| f in ShallowestOnly(spellings) {
      TwoMembers(spellings[f]);
      var p, q :| p in spellings[f] && q in spellings[f] && p != q;
      assert p in Prefixes(tracked) && q in Prefixes(tracked);
    }
  }
}
