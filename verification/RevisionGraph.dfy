/**
 The alembic revision graph: walking an unlanded chain down to where it left the
 landed graph, planning the remedy for several heads, and what the planned edits
 do to the graph.
 */
module RevisionGraph {
  import opened Options
  import opened Orders
  import opened RhsTokens
  import opened RhsRewrite
  import opened RevisionScan

  /** Every revision with the parents it names. */
  type Graph = map<string, seq<string>>

  function GraphOf(revisions: map<string, string>): Graph {
    map rev | rev in revisions :: ParentRefs(revisions[rev])
  }

  // ------------------------------------------------------ the fork-root walk

  datatype Walked = Root(rev: string) | MergeRevision(blocker: string) | CycleAt(blocker: string)

  function Last(s: seq<string>): string
    requires s != []
  {
    s[|s| - 1]
  }

  ghost predicate OnlyParent(g: Graph, rev: string, parent: string) {
    rev in g && g[rev] == [parent]
  }

  /**
   From its first element on, each revision has the next one as its only parent,
   and that parent is a known revision that has not landed. Nothing repeats.
   */
  ghost predicate IsChain(g: Graph, landed: set<string>, c: seq<string>) {
    c != []
    && (forall i, j :: 0 <= i < j < |c| ==> c[i] != c[j])
    && (forall i, j :: 0 <= i < j < |c| && j == i + 1 ==> OnlyParent(g, c[i], c[j]))
    && (forall i :: 1 <= i < |c| ==> c[i] in g && c[i] !in landed)
  }

  /** The revision leaves the unlanded graph: no parent, or one that is landed or missing. */
  ghost predicate LeavesGraph(g: Graph, landed: set<string>, rev: string) {
    rev in g ==> g[rev] == [] || (|g[rev]| == 1 && (g[rev][0] in landed || g[rev][0] !in g))
  }

  /** The chain `c` cannot be extended, and `w` says why. */
  ghost predicate Ends(g: Graph, landed: set<string>, c: seq<string>, w: Walked) {
    IsChain(g, landed, c)
    && match w
       case Root(rev) => rev == Last(c) && LeavesGraph(g, landed, rev) && (rev in g && g[rev] != [] ==> g[rev][0] !in c)
       case MergeRevision(rev) => rev == Last(c) && rev in g && |g[rev]| > 1
       case CycleAt(rev) => rev == Last(c) && rev in g && |g[rev]| == 1 && g[rev][0] in c
  }

  /** The walk as a function: the outcome for a chain followed so far. */
  function Walk(g: Graph, landed: set<string>, c: seq<string>): Walked
    requires c != []
    decreases g.Keys - Elements(c)
  {
    var current := Last(c);
    if current !in g then Root(current)
    else if |g[current]| > 1 then MergeRevision(current)
    else if g[current] == [] then Root(current)
    else
      var parent := g[current][0];
      if parent in c then CycleAt(current)
      else if parent in landed || parent !in g then Root(current)
      else
        assert parent in g.Keys - Elements(c) && parent in Elements(c + [parent]);
        Walk(g, landed, c + [parent])
  }

  function Elements(c: seq<string>): set<string> { set x | x in c }

  /** The chain that the walk follows to its end. */
  lemma {:induction false} WalkEnds(g: Graph, landed: set<string>, c: seq<string>) returns (full: seq<string>)
    requires IsChain(g, landed, c)
    ensures c <= full && Ends(g, landed, full, Walk(g, landed, c))
    decreases g.Keys - Elements(c)
  {
    full := c;
    var current := Last(c);
    if current in g && |g[current]| == 1 {
      var parent := g[current][0];
      if parent !in c && parent !in landed && parent in g {
        assert parent in g.Keys - Elements(c) && parent in Elements(c + [parent]);
        full := WalkEnds(g, landed, c + [parent]);
      }
    }
  }

  /** Two ended chains from the same revision are the same. */
  lemma {:induction false} EndsUnique(g: Graph, landed: set<string>, c: seq<string>, w: Walked, d: seq<string>, v: Walked, n: nat)
    requires Ends(g, landed, c, w) && Ends(g, landed, d, v)
    requires 0 < n <= |c| && n <= |d| && c[..n] == d[..n]
    ensures c == d && w == v
    decreases |c| - n
  {
    assert c[n - 1] == c[..n][n - 1] == d[n - 1];
    if n < |c| && n < |d| {
      assert c[..n + 1] == c[..n] + [c[n]] && d[..n + 1] == d[..n] + [d[n]];
      EndsUnique(g, landed, c, w, d, v, n + 1);
    } else if n < |c| {
      assert d == c[..n];
      NoEndInside(g, landed, c, n, v);
    } else if n < |d| {
      assert c == d[..n];
      NoEndInside(g, landed, d, n, w);
    }
  }

  /** A chain that goes on has not ended. */
  lemma NoEndInside(g: Graph, landed: set<string>, c: seq<string>, n: nat, v: Walked)
    requires IsChain(g, landed, c) && 0 < n < |c|
    ensures !Ends(g, landed, c[..n], v)
  {
    assert Last(c[..n]) == c[n - 1] && OnlyParent(g, c[n - 1], c[n]);
    assert c[n] !in c[..n];
  }

  /**
   The walk. It terminates on every graph and its outcome is the one that some
   ended chain from the head has: a root exactly when every revision down to it
   is an unlanded one with at most one parent, else the first merge revision or
   the revision whose parent closes a cycle.
   */
  method WalkToForkRoot(head: string, revisions: map<string, string>, landed: set<string>) returns (w: Walked)
    ensures w == Walk(GraphOf(revisions), landed, [head])
    ensures exists c :: c != [] && c[0] == head && Ends(GraphOf(revisions), landed, c, w)
    ensures forall c, v :: c != [] && c[0] == head && Ends(GraphOf(revisions), landed, c, v) ==> v == w
  {
    ghost var g := GraphOf(revisions);
    w := Root(head);
    var current := head;
    var seen := {head};
    ghost var c := [head];
    WalkSpec(g, landed, head);
    while true
      invariant c != [] && Last(c) == current && seen == Elements(c)
      invariant Walk(g, landed, c) == Walk(g, landed, [head])
      decreases g.Keys - seen
    {
      if current !in revisions {
        return Root(current);
      }
      var parents := ParentRefs(revisions[current]);
      if |parents| > 1 {
        return MergeRevision(current);
      }
      if parents == [] {
        return Root(current);
      }
      var parent := parents[0];
      if parent in seen {
        return CycleAt(current);
      }
      if parent in landed || parent !in revisions {
        return Root(current);
      }
      c := c + [parent];
      seen := seen + {parent};
      current := parent;
    }
  }

  /** The walk's outcome is the outcome of an ended chain, and of no other one. */
  lemma WalkSpec(g: Graph, landed: set<string>, head: string)
    ensures exists c :: c != [] && c[0] == head && Ends(g, landed, c, Walk(g, landed, [head]))
    ensures forall c, v :: c != [] && c[0] == head && Ends(g, landed, c, v) ==> v == Walk(g, landed, [head])
  {
    var full := WalkEnds(g, landed, [head]);
    assert full[0] == head;
    forall c, v | c != [] && c[0] == head && Ends(g, landed, c, v)
      ensures v == Walk(g, landed, [head])
    {
      assert c[..1] == full[..1];
      EndsUnique(g, landed, c, v, full, Walk(g, landed, [head]), 1);
    }
  }

  // -------------------------------------------------------------- the planner

  datatype Kind = Unknown | Merge | Blocked | Repoint | Chain

  datatype Edit = Edit(rev: string, path: Option<string>)

  datatype Remediation = Remediation(
    kind: Kind,
    landedHeads: seq<string>,
    unlandedHeads: seq<string>,
    target: Option<string>,
    edits: seq<Edit>,
    blocked: seq<(string, Walked)>)

  /** The members of `heads` that are in `landed`, or those that are not. */
  function Select(heads: seq<string>, landed: set<string>, inside: bool): (r: seq<string>)
    ensures forall h :: h in r <==> h in heads && (h in landed) == inside
  {
    if heads == [] then []
    else (if (heads[0] in landed) == inside then [heads[0]] else []) + Select(heads[1..], landed, inside)
  }

  /** The chains without a one-token fix, each with its blocker. */
  function BlockedChains(g: Graph, landed: set<string>, heads: seq<string>): (r: seq<(string, Walked)>)
    ensures r == [] <==> forall h :: h in heads ==> Walk(g, landed, [h]).Root?
  {
    if heads == [] then []
    else
      var w := Walk(g, landed, [heads[0]]);
      (if w.Root? then [] else [(heads[0], w)]) + BlockedChains(g, landed, heads[1..])
  }

  /** The roots of the resolvable chains, each once, in the order first reached. */
  function Roots(g: Graph, landed: set<string>, heads: seq<string>): (r: seq<string>)
    ensures forall rev :: rev in r <==> exists h :: h in heads && Walk(g, landed, [h]) == Root(rev)
  {
    if heads == [] then []
    else
      var before := Roots(g, landed, heads[..|heads| - 1]);
      var w := Walk(g, landed, [Last(heads)]);
      assert heads == heads[..|heads| - 1] + [Last(heads)];
      if w.Root? && w.rev !in before then before + [w.rev] else before
  }

  function EditedRevisions(edits: seq<Edit>): set<string> { set edit | edit in edits :: edit.rev }

  function Edits(roots: seq<string>, paths: map<string, string>): (r: seq<Edit>)
    ensures EditedRevisions(r) == Elements(roots) - {""}
  {
    if roots == [] then []
    else
      var rest := Edits(roots[1..], paths);
      assert Elements(roots) == {roots[0]} + Elements(roots[1..]) by { assert roots == [roots[0]] + roots[1..]; }
      if roots[0] == "" then rest
      else
        var first := Edit(roots[0], if roots[0] in paths then Some(paths[roots[0]]) else None);
        assert EditedRevisions([first] + rest) == {roots[0]} + EditedRevisions(rest) by { EditedCons(first, rest); }
        [first] + rest
  }

  lemma EditedCons(first: Edit, rest: seq<Edit>)
    ensures EditedRevisions([first] + rest) == {first.rev} + EditedRevisions(rest)
  {
    assert ([first] + rest)[0] == first;
    assert forall edit :: edit in [first] + rest <==> edit == first || edit in rest;
  }

  function PlanRemediation(scan: Scan, baseline: Option<set<string>>): Remediation {
    match baseline
    case None => Remediation(Unknown, [], [], None, [], [])
    case Some(landed) =>
      var landedHeads := Select(scan.heads, landed, true);
      var unlandedHeads := Select(scan.heads, landed, false);
      if unlandedHeads == [] then Remediation(Merge, landedHeads, [], None, [], [])
      else
        var g := GraphOf(scan.revisions);
        var blocked := BlockedChains(g, landed, unlandedHeads);
        var edits := Edits(Roots(g, landed, unlandedHeads), scan.paths);
        var target := if |landedHeads| == 1 then Some(landedHeads[0]) else None;
        if blocked != [] then Remediation(Blocked, landedHeads, unlandedHeads, target, edits, blocked)
        else if target.Some? then Remediation(Repoint, landedHeads, unlandedHeads, target, edits, [])
        else Remediation(Chain, landedHeads, unlandedHeads, None, edits, [])
  }

  /** The right-hand sides after setting the parent of every edited revision. */
  function Repointed(revisions: map<string, string>, edited: set<string>, target: string): map<string, string> {
    map rev | rev in revisions ::
      if rev in edited then Rewrite(revisions[rev], OldParent(revisions[rev]), target) else revisions[rev]
  }
}
