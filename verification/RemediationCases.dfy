/**
 When each remedy is given and what it names, said of the chains from the heads alone.
 */
module RemediationCases {
  import opened Options
  import opened RevisionScan
  import opened RevisionGraph
  import opened Sublists

  ghost function ChosenAt(heads: seq<string>, chosen: iset<string>): set<nat> {
    set p: nat | p < |heads| && heads[p] in chosen
  }

  /** `r` is what is left of `heads` when only the chosen elements stay. */
  ghost predicate InOrder(r: seq<string>, heads: seq<string>, chosen: iset<string>) {
    Picks(r, heads, ChosenAt(heads, chosen))
  }

  lemma InOrderNone(chosen: iset<string>)
    ensures InOrder([], [], chosen)
  {
    var heads: seq<string> := [];
    PicksNone(heads);
    assert ChosenAt(heads, chosen) == {};
  }

  lemma InOrderCons(r: seq<string>, heads: seq<string>, chosen: iset<string>)
    requires heads != [] && InOrder(r, heads[1..], chosen)
    ensures InOrder((if heads[0] in chosen then [heads[0]] else []) + r, heads, chosen)
  {
    var rest := heads[1..];
    assert heads == [heads[0]] + rest;
    PicksCons(r, rest, ChosenAt(rest, chosen), heads[0], heads[0] in chosen, ChosenAt(heads, chosen));
  }

  lemma {:induction false} SelectInOrder(heads: seq<string>, landed: set<string>, inside: bool)
    ensures InOrder(Select(heads, landed, inside), heads, iset h | (h in landed) == inside)
  {
    var chosen := iset h: string | (h in landed) == inside;
    if heads == [] {
      InOrderNone(chosen);
    } else {
      SelectInOrder(heads[1..], landed, inside);
      InOrderCons(Select(heads[1..], landed, inside), heads, chosen);
    }
  }

  // --------------------------------------------------------------------- chains from the heads

  /** A chain from the head ends this way. */
  ghost predicate HeadEnds(g: Graph, landed: set<string>, head: string, w: Walked) {
    exists c :: c != [] && c[0] == head && Ends(g, landed, c, w)
  }

  /** The heads with a chain that ends at a merge revision or in a cycle. */
  ghost function Stuck(g: Graph, landed: set<string>): iset<string> { iset h | IsStuck(g, landed, h) }

  ghost predicate IsStuck(g: Graph, landed: set<string>, head: string) {
    exists w :: HeadEnds(g, landed, head, w) && !w.Root?
  }

  lemma HeadEndsWalk(g: Graph, landed: set<string>, head: string)
    ensures forall w :: HeadEnds(g, landed, head, w) <==> w == Walk(g, landed, [head])
    ensures head in Stuck(g, landed) <==> !Walk(g, landed, [head]).Root?
  {
    hide Ends, Walk;
    WalkSpec(g, landed, head);
    assert HeadEnds(g, landed, head, Walk(g, landed, [head]));
  }

  function Heads(blocked: seq<(string, Walked)>): seq<string> {
    seq(|blocked|, i requires 0 <= i < |blocked| => blocked[i].0)
  }

  lemma {:induction false} BlockedInOrder(g: Graph, landed: set<string>, heads: seq<string>)
    ensures InOrder(Heads(BlockedChains(g, landed, heads)), heads, Stuck(g, landed))
    ensures forall b :: b in BlockedChains(g, landed, heads) ==> HeadEnds(g, landed, b.0, b.1)
  {
    hide Walk, Stuck, HeadEnds;
    var chosen := Stuck(g, landed);
    if heads == [] {
      InOrderNone(chosen);
    } else {
      var rest, w := BlockedChains(g, landed, heads[1..]), Walk(g, landed, [heads[0]]);
      BlockedInOrder(g, landed, heads[1..]);
      HeadEndsWalk(g, landed, heads[0]);
      InOrderCons(Heads(rest), heads, chosen);
      assert BlockedChains(g, landed, heads) == (if w.Root? then [] else [(heads[0], w)]) + rest;
      hide InOrder, BlockedChains;
      HeadsCons(heads[0], w, rest);
    }
  }

  lemma HeadsCons(head: string, w: Walked, rest: seq<(string, Walked)>)
    ensures Heads([(head, w)] + rest) == [head] + Heads(rest) && Heads([] + rest) == [] + Heads(rest)
  {
    assert [] + rest == rest;
  }

  // ------------------------------------------------------------------------------ the edits

  /** Among `heads` a chain ends at root `a` before any ends at root `b`. */
  ghost predicate ReachedBefore(g: Graph, landed: set<string>, heads: seq<string>, a: string, b: string) {
    exists p :: 0 <= p < |heads| && HeadEnds(g, landed, heads[p], Root(a))
      && forall q :: 0 <= q <= p ==> !HeadEnds(g, landed, heads[q], Root(b))
  }

  lemma {:induction false} RootsInOrder(g: Graph, landed: set<string>, heads: seq<string>)
    ensures var r := Roots(g, landed, heads);
      forall i, j :: 0 <= i < j < |r| ==> ReachedBefore(g, landed, heads, r[i], r[j])
  {
    hide Walk, HeadEnds;
    if heads != [] {
      var front := heads[..|heads| - 1];
      var before, r := Roots(g, landed, front), Roots(g, landed, heads);
      RootsInOrder(g, landed, front);
      forall i, j | 0 <= i < j < |r| ensures ReachedBefore(g, landed, heads, r[i], r[j]) {
        if j < |before| {
          var p :| 0 <= p < |front| && HeadEnds(g, landed, front[p], Root(before[i]))
            && forall q :: 0 <= q <= p ==> !HeadEnds(g, landed, front[q], Root(before[j]));
          assert heads[p] == front[p] && forall q :: 0 <= q <= p ==> heads[q] == front[q];
        } else {
          LastRoot(g, landed, heads, before[i], r[j]);
        }
      }
    }
  }

  lemma LastRoot(g: Graph, landed: set<string>, heads: seq<string>, a: string, b: string)
    requires heads != []
    requires var before := Roots(g, landed, heads[..|heads| - 1]); a in before && b !in before
    ensures ReachedBefore(g, landed, heads, a, b)
  {
    hide Walk, HeadEnds;
    var front := heads[..|heads| - 1];
    var h :| h in front && Walk(g, landed, [h]) == Root(a);
    var p :| 0 <= p < |front| && front[p] == h;
    HeadEndsWalk(g, landed, heads[p]);
    forall q | 0 <= q <= p ensures !HeadEnds(g, landed, heads[q], Root(b)) {
      HeadEndsWalk(g, landed, heads[q]);
      assert front[q] == heads[q] && front[q] in front;
    }
  }

  ghost predicate Distinct(edits: seq<Edit>) {
    forall i, j :: 0 <= i < j < |edits| ==> edits[i].rev != edits[j].rev
  }

  function PathOf(paths: map<string, string>, rev: string): Option<string> {
    if rev in paths then Some(paths[rev]) else None
  }

  /** Each edit is one of the roots with the path of its file, in the order of the roots. */
  lemma {:induction false} EditsAt(roots: seq<string>, paths: map<string, string>) returns (at: seq<nat>)
    ensures var edits := Edits(roots, paths);
      |at| == |edits| && (forall i, j :: 0 <= i < j < |at| ==> at[i] < at[j])
      && (forall k :: 0 <= k < |at| ==> at[k] < |roots| && edits[k].rev == roots[at[k]])
      && (forall edit :: edit in edits ==> edit.path == PathOf(paths, edit.rev))
  {
    if roots == [] {
      at := [];
    } else {
      var rest := EditsAt(roots[1..], paths);
      var moved: seq<nat> := seq(|rest|, i requires 0 <= i < |rest| => rest[i] + 1);
      at := moved;
      if roots[0] != "" {
        at := [0] + moved;
        EditFirst(roots, paths);
      }
    }
  }

  lemma EditFirst(roots: seq<string>, paths: map<string, string>)
    requires roots != [] && roots[0] != ""
    ensures Edits(roots, paths) == [Edit(roots[0], PathOf(paths, roots[0]))] + Edits(roots[1..], paths)
  {
  }

  /**
   The edits are the roots at which chains from the heads end and nothing else, each once
   and with the path of its file, in the order in which the heads reach them.
   */
  ghost predicate NamesRoots(g: Graph, landed: set<string>, heads: seq<string>, paths: map<string, string>, edits: seq<Edit>) {
    (forall rev :: rev in EditedRevisions(edits) <==> rev != "" && exists h :: h in heads && HeadEnds(g, landed, h, Root(rev)))
    && (forall i, j :: 0 <= i < j < |edits| ==> ReachedBefore(g, landed, heads, edits[i].rev, edits[j].rev))
    && (forall edit :: edit in edits ==> edit.path == PathOf(paths, edit.rev))
  }

  lemma EditsExactly(g: Graph, landed: set<string>, heads: seq<string>, paths: map<string, string>)
    ensures NamesRoots(g, landed, heads, paths, Edits(Roots(g, landed, heads), paths))
  {
    hide Walk, HeadEnds, ReachedBefore;
    var roots := Roots(g, landed, heads);
    var at := EditsAt(roots, paths);
    RootsInOrder(g, landed, heads);
    forall h, rev ensures HeadEnds(g, landed, h, Root(rev)) <==> Walk(g, landed, [h]) == Root(rev) {
      HeadEndsWalk(g, landed, h);
    }
    assert forall rev :: rev in Elements(roots) <==> rev in roots;
    hide Edits, Roots;
  }

  // ------------------------------------------------------------------------------ the remedy

  /** No baseline, no advice. */
  lemma UnknownExactly(scan: Scan, baseline: Option<set<string>>)
    ensures var r := PlanRemediation(scan, baseline);
      (r.kind == Unknown <==> baseline == None)
      && (r.kind == Unknown ==> r.landedHeads == r.unlandedHeads == [] && r.target == None && r.edits == [] && r.blocked == [])
  {
    hide Walk, Select, BlockedChains, Roots, Edits;
  }

  lemma HeadsSplit(scan: Scan, landed: set<string>)
    ensures var r := PlanRemediation(scan, Some(landed));
      r.landedHeads == Select(scan.heads, landed, true) && r.unlandedHeads == Select(scan.heads, landed, false)
      && InOrder(r.landedHeads, scan.heads, iset h | (h in landed) == true)
      && InOrder(r.unlandedHeads, scan.heads, iset h | (h in landed) == false)
  {
    SelectInOrder(scan.heads, landed, true);
    SelectInOrder(scan.heads, landed, false);
    hide InOrder, Select, BlockedChains, Roots, Edits, GraphOf;
  }

  /** Which remedy is given, for every scan and landed set, and the target it names. */
  lemma KindExactly(scan: Scan, landed: set<string>)
    ensures var r, g := PlanRemediation(scan, Some(landed)), GraphOf(scan.revisions);
      (r.kind == Merge <==> forall h :: h in scan.heads ==> h in landed)
      && (r.kind == Blocked <==> exists h :: h in scan.heads && h !in landed && IsStuck(g, landed, h))
      && (r.kind == Repoint <==> r.kind != Merge && r.kind != Blocked && |r.landedHeads| == 1)
      && (r.kind == Chain <==> r.kind != Merge && r.kind != Blocked && |r.landedHeads| != 1)
      && r.target == (if r.kind != Merge && |r.landedHeads| == 1 then Some(r.landedHeads[0]) else None)
  {
    var g := GraphOf(scan.revisions);
    forall h ensures IsStuck(g, landed, h) <==> !Walk(g, landed, [h]).Root? {
      HeadEndsWalk(g, landed, h);
    }
    KindStep(scan, landed);
    hide Walk, BlockedChains, Roots, Edits, GraphOf, IsStuck, PlanRemediation, Select;
    var unlanded := Select(scan.heads, landed, false);
    SomeElement(unlanded);
  }

  lemma SomeElement(heads: seq<string>)
    ensures heads == [] <==> forall h :: h !in heads
  {
    assert heads != [] ==> heads[0] in heads;
  }

  lemma KindStep(scan: Scan, landed: set<string>)
    ensures var r, heads, unlanded := PlanRemediation(scan, Some(landed)), Select(scan.heads, landed, true), Select(scan.heads, landed, false);
      r.landedHeads == heads && r.unlandedHeads == unlanded
      && (r.kind == Merge <==> unlanded == [])
      && (r.kind == Blocked <==> unlanded != [] && BlockedChains(GraphOf(scan.revisions), landed, unlanded) != [])
      && (r.kind == Repoint <==> r.kind != Merge && r.kind != Blocked && |heads| == 1)
      && (r.kind == Chain <==> r.kind != Merge && r.kind != Blocked && |heads| != 1)
      && r.target == (if r.kind != Merge && |heads| == 1 then Some(heads[0]) else None)
  {
    hide Walk, BlockedChains, Roots, Edits, GraphOf, Select;
  }

  /** The chains without a one-token fix: all of them, each with the way it ends. */
  lemma BlockedExactly(scan: Scan, landed: set<string>)
    ensures var r, g := PlanRemediation(scan, Some(landed)), GraphOf(scan.revisions);
      InOrder(Heads(r.blocked), r.unlandedHeads, Stuck(g, landed))
      && forall b :: b in r.blocked ==> HeadEnds(g, landed, b.0, b.1)
  {
    var g := GraphOf(scan.revisions);
    BlockedInOrder(g, landed, Select(scan.heads, landed, false));
    NothingIn(g, landed);
    hide BlockedChains, Roots, Edits, GraphOf, Select, InOrder, Stuck, HeadEnds, Heads;
  }

  /** Whatever the remedy, the edits are the roots of the chains from the unlanded heads. */
  lemma EditsNamed(scan: Scan, landed: set<string>)
    ensures var r := PlanRemediation(scan, Some(landed));
      NamesRoots(GraphOf(scan.revisions), landed, r.unlandedHeads, scan.paths, r.edits)
  {
    EditsExactly(GraphOf(scan.revisions), landed, Select(scan.heads, landed, false), scan.paths);
    NothingNamed(GraphOf(scan.revisions), landed, scan.paths);
    hide BlockedChains, Roots, Edits, GraphOf, Select, NamesRoots;
  }

  lemma NothingNamed(g: Graph, landed: set<string>, paths: map<string, string>)
    ensures NamesRoots(g, landed, [], paths, [])
  {
    hide HeadEnds;
  }

  lemma NothingIn(g: Graph, landed: set<string>)
    ensures InOrder(Heads([]), [], Stuck(g, landed))
  {
    InOrderNone(Stuck(g, landed));
    assert Heads([]) == [];
  }
}
