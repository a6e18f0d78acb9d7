/** What following the planner's `repoint` advice does to the revision graph. */
module RepointAdvice {
  import opened Options
  import opened Orders
  import opened RhsTokens
  import opened RhsRewrite
  import opened RevisionScan
  import opened RevisionGraph

  // ------------------------------------------------------------------- paths

  /** Each revision names the next one as a parent. */
  ghost predicate IsPath(g: Graph, p: seq<string>) {
    p != [] && forall i, j :: 0 <= i < j < |p| && j == i + 1 ==> Edge(g, p[i], p[j])
  }

  ghost predicate Edge(g: Graph, rev: string, parent: string) {
    rev in g && parent in g[rev]
  }

  ghost predicate Acyclic(g: Graph) {
    forall p {:trigger IsPath(g, p)} :: IsPath(g, p) && |p| > 1 ==> p[0] != Last(p)
  }

  ghost predicate Reaches(g: Graph, from: string, to: string) {
    exists p :: IsPath(g, p) && p[0] == from && Last(p) == to
  }

  ghost predicate Named(g: Graph, rev: string) {
    exists child :: child in g && rev in g[child]
  }

  /** The revisions that no other revision names as a parent. */
  ghost function HeadSet(g: Graph): set<string> {
    set rev | rev in g && !Named(g, rev)
  }

  ghost predicate NamedByLanded(g: Graph, landed: set<string>, rev: string) {
    exists child :: child in g && child in landed && rev in g[child]
  }

  /** The heads of the landed part of the graph, taken by itself. */
  ghost function LandedPartHeads(g: Graph, landed: set<string>): set<string> {
    set rev | rev in g && rev in landed && !NamedByLanded(g, landed, rev)
  }

  /** Landing is closed under parents. */
  ghost predicate LandedNamesLanded(g: Graph, landed: set<string>) {
    forall rev, parent :: rev in g && rev in landed && parent in g[rev] ==> parent in landed
  }

  // ------------------------------------------------- the heads of a scan

  lemma {:induction false} DeclaringSome(sources: seq<Source>, rev: string, i: nat)
    requires i < |sources| && Declares(sources[i], rev)
    ensures Declaring(sources, rev) != []
  {
    var n := |sources| - 1;
    if i < n {
      DeclaringSome(sources[..n], rev, i);
    }
  }

  lemma {:induction false} DeclaringTwice(sources: seq<Source>, rev: string, i: nat, k: nat)
    requires i < k < |sources| && Declares(sources[i], rev) && Declares(sources[k], rev)
    ensures |Declaring(sources, rev)| >= 2
  {
    var n := |sources| - 1;
    if k < n {
      DeclaringTwice(sources[..n], rev, i, k);
    } else {
      DeclaringSome(sources[..n], rev, i);
    }
  }

  lemma {:induction false} LastDeclaringIn(sources: seq<Source>, rev: string)
    requires LastDeclaring(sources, rev).Some?
    ensures exists k :: 0 <= k < |sources| && sources[k] == LastDeclaring(sources, rev).value && Declares(sources[k], rev)
  {
    var n := |sources| - 1;
    if !Declares(sources[n], rev) {
      LastDeclaringIn(sources[..n], rev);
      var k :| 0 <= k < n && sources[..n][k] == LastDeclaring(sources, rev).value && Declares(sources[..n][k], rev);
      assert sources[k] == sources[..n][k];
    }
  }

  /** A file whose id no other file declares is the one whose parents count. */
  lemma OnlyDeclaring(sources: seq<Source>, rev: string, i: nat)
    requires i < |sources| && Declares(sources[i], rev) && |Declaring(sources, rev)| < 2
    ensures LastDeclaring(sources, rev) == Some(sources[i])
  {
    DeclaringSome(sources, rev, i);
    LastOfDeclaring(sources, rev);
    LastDeclaringIn(sources, rev);
    var k :| 0 <= k < |sources| && sources[k] == LastDeclaring(sources, rev).value && Declares(sources[k], rev);
    if i < k {
      DeclaringTwice(sources, rev, i, k);
    } else if k < i {
      DeclaringTwice(sources, rev, k, i);
    }
  }

  /** What the graph names, some file names; without duplicates also the other way round. */
  lemma NamedInScan(sources: seq<Source>, scan: Scan, rev: string)
    requires LastDeclarations(sources, scan.revisions, scan.paths) && DuplicatesKept(sources, scan.duplicates)
    ensures Named(GraphOf(scan.revisions), rev) ==> NamedBySome(sources, rev)
    ensures scan.duplicates == [] ==> (Named(GraphOf(scan.revisions), rev) <==> NamedBySome(sources, rev))
  {
    hide ParentRefs, Declaring, LastDeclaring, OverwritesOf;
    var g := GraphOf(scan.revisions);
    if Named(g, rev) {
      var child :| child in g && rev in g[child];
      LastDeclaringIn(sources, child);
      var k :| 0 <= k < |sources| && sources[k] == LastDeclaring(sources, child).value && Declares(sources[k], child);
      assert Names(sources[k], rev);
    }
    if scan.duplicates == [] && NamedBySome(sources, rev) {
      var i :| 0 <= i < |sources| && Names(sources[i], rev);
      var child := sources[i].parsed.value.rev;
      NoOverwrites(sources, scan.duplicates, child);
      OnlyDeclaring(sources, child, i);
      assert child in g && rev in g[child];
    }
  }

  lemma NoOverwrites(sources: seq<Source>, duplicates: seq<Overwrite>, rev: string)
    requires DuplicatesKept(sources, duplicates) && duplicates == []
    ensures |Declaring(sources, rev)| < 2
  {
    assert ForRevision(duplicates, rev) == [];
  }

  /**
   The heads a scan reports are heads of its graph, and all of them when no id was
   declared twice.
   */
  lemma ScanHeads(sources: seq<Source>, scan: Scan)
    requires LastDeclarations(sources, scan.revisions, scan.paths) && DuplicatesKept(sources, scan.duplicates)
    requires Lists(scan.heads, set rev | rev in scan.revisions && !NamedBySome(sources, rev))
    ensures ReportsHeads(scan)
    ensures scan.duplicates == [] ==> Lists(scan.heads, HeadSet(GraphOf(scan.revisions)))
    ensures scan.duplicates == [] ==> forall landed :: UnlandedReported(scan, landed)
  {
    hide LastDeclarations, DuplicatesKept, NamedBySome, Named;
    var reported := set rev | rev in scan.revisions && !NamedBySome(sources, rev);
    forall rev | rev in scan.revisions
      ensures rev in reported ==> rev in HeadSet(GraphOf(scan.revisions))
      ensures scan.duplicates == [] ==> (rev in reported <==> rev in HeadSet(GraphOf(scan.revisions)))
    {
      NamedInScan(sources, scan, rev);
    }
    assert scan.duplicates == [] ==> reported == HeadSet(GraphOf(scan.revisions));
  }

  // ------------------------------------------- what the walk tells of a graph

  /** `rev` lies on the resolved chain of some unlanded head, which ends at an edited root. */
  ghost predicate Covered(g: Graph, landed: set<string>, edited: set<string>, rev: string) {
    exists c :: IsChain(g, landed, c) && rev in c && Last(c) in edited && LeavesGraph(g, landed, Last(c))
  }

  /** The target is a landed head, and the edited revisions are unlanded ones that leave the graph. */
  ghost predicate AtForkRoots(g: Graph, landed: set<string>, edited: set<string>, target: string) {
    target in g && target in landed && !Named(g, target)
    && (forall rev :: rev in edited ==> rev in g && rev !in landed && LeavesGraph(g, landed, rev))
    && (exists head :: head in HeadSet(g) && head !in landed)
  }

  /** And the chain of every unlanded head ends at one of them. */
  ghost predicate Advice(g: Graph, landed: set<string>, edited: set<string>, target: string) {
    AtForkRoots(g, landed, edited, target)
    && forall head :: head in HeadSet(g) && head !in landed ==> Covered(g, landed, edited, head)
  }

  /** The scan reports sorted heads of its graph. */
  ghost predicate ReportsHeads(scan: Scan) {
    Sorted(scan.heads) && forall head :: head in scan.heads ==> head in HeadSet(GraphOf(scan.revisions))
  }

  /** No unlanded head goes unreported because an overwritten file names it. */
  ghost predicate UnlandedReported(scan: Scan, landed: set<string>) {
    forall head :: head in HeadSet(GraphOf(scan.revisions)) && head !in landed ==> head in scan.heads
  }

  /** The resolved chain of one unlanded head. */
  lemma HeadCovered(g: Graph, landed: set<string>, edited: set<string>, head: string)
    requires head in g && head !in landed && Walk(g, landed, [head]).Root? && Walk(g, landed, [head]).rev in edited
    ensures Covered(g, landed, edited, head)
    ensures var rev := Walk(g, landed, [head]).rev;
      rev in g && rev !in landed && LeavesGraph(g, landed, rev)
  {
    hide Walk;
    WalkSpec(g, landed, head);
    var c :| c != [] && c[0] == head && Ends(g, landed, c, Walk(g, landed, [head]));
  }

  /** The planner's answer is such an advice, if every unlanded head was reported. */
  lemma PlanAdvises(scan: Scan, landed: set<string>)
    requires ReportsHeads(scan) && "" !in scan.revisions
    requires PlanRemediation(scan, Some(landed)).kind == Repoint
    ensures var plan := PlanRemediation(scan, Some(landed));
      AtForkRoots(GraphOf(scan.revisions), landed, EditedRevisions(plan.edits), plan.target.value)
      && (UnlandedReported(scan, landed) ==>
            Advice(GraphOf(scan.revisions), landed, EditedRevisions(plan.edits), plan.target.value))
  {
    hide Walk, ParentRefs, Covered, LeavesGraph, EditedRevisions, BlockedChains, Roots, Edits, Sorted, Select;
    var g := GraphOf(scan.revisions);
    var plan := PlanRemediation(scan, Some(landed));
    var edited := EditedRevisions(plan.edits);
    assert plan.target.value in plan.landedHeads;
    assert plan.unlandedHeads[0] in plan.unlandedHeads;
    forall head | head in plan.unlandedHeads
      ensures head in HeadSet(g) && head !in landed && Covered(g, landed, edited, head)
      ensures var w := Walk(g, landed, [head]);
        w.Root? && w.rev in g && w.rev !in landed && LeavesGraph(g, landed, w.rev)
    {
      assert Walk(g, landed, [head]).Root?;
      assert Walk(g, landed, [head]).rev in Roots(g, landed, plan.unlandedHeads);
      HeadCovered(g, landed, edited + {Walk(g, landed, [head]).rev}, head);
      HeadCovered(g, landed, edited, head);
    }
  }

  // -------------------------------------------- covering the unlanded graph

  lemma Subpath(g: Graph, p: seq<string>, i: nat, j: nat)
    requires IsPath(g, p) && i < j <= |p|
    ensures IsPath(g, p[i..j])
  {
  }

  lemma AcyclicPair(g: Graph, p: seq<string>, i: nat, j: nat)
    requires Acyclic(g) && IsPath(g, p) && i < j < |p|
    ensures p[i] != p[j]
  {
    hide IsPath;
    var q := p[i..j + 1];
    Subpath(g, p, i, j + 1);
    assert q[0] == p[i] && Last(q) == p[j];
  }

  lemma AcyclicDistinct(g: Graph, p: seq<string>)
    requires Acyclic(g) && IsPath(g, p)
    ensures forall i, j :: 0 <= i < j < |p| ==> p[i] != p[j]
  {
    forall i, j | 0 <= i < j < |p| ensures p[i] != p[j] {
      AcyclicPair(g, p, i, j);
    }
  }

  lemma {:induction false} DistinctSize(s: seq<string>)
    requires forall i, j :: 0 <= i < j < |s| ==> s[i] != s[j]
    ensures |Elements(s)| == |s|
  {
    if s != [] {
      DistinctSize(s[1..]);
      assert s == [s[0]] + s[1..];
      assert Elements(s) == {s[0]} + Elements(s[1..]);
    }
  }

  lemma SubsetSize(a: set<string>, b: set<string>)
    requires a <= b
    ensures |a| <= |b|
  {
    assert b == a + (b - a);
  }

  /** A parent on the chain of a covered child is covered too. */
  lemma CoveredStep(g: Graph, landed: set<string>, edited: set<string>, child: string, rev: string)
    requires Covered(g, landed, edited, child) && child in g && rev in g[child] && rev in g && rev !in landed
    ensures Covered(g, landed, edited, rev)
  {
    var c :| IsChain(g, landed, c) && child in c && Last(c) in edited && LeavesGraph(g, landed, Last(c));
    var i :| 0 <= i < |c| && c[i] == child;
    if i < |c| - 1 {
      assert OnlyParent(g, c[i], c[i + 1]);
    }
  }

  /** In an acyclic graph every unlanded revision is covered: climb to a head. */
  lemma {:induction false} AllCovered(g: Graph, landed: set<string>, edited: set<string>, target: string, up: seq<string>)
    requires Acyclic(g) && LandedNamesLanded(g, landed) && Advice(g, landed, edited, target)
    requires IsPath(g, up) && (forall x :: x in up ==> x in g) && up[0] !in landed
    ensures Covered(g, landed, edited, up[0])
    decreases |g.Keys| - |up|
  {
    if Named(g, up[0]) {
      var child :| child in g && up[0] in g[child];
      var longer := [child] + up;
      assert IsPath(g, longer);
      AcyclicDistinct(g, longer);
      DistinctSize(longer);
      SubsetSize(Elements(longer), g.Keys);
      AllCovered(g, landed, edited, target, longer);
      CoveredStep(g, landed, edited, child, up[0]);
    }
  }

  /** An unlanded revision is either edited, or its only parent is an unlanded one. */
  lemma Unedited(g: Graph, landed: set<string>, edited: set<string>, target: string, rev: string)
    requires Acyclic(g) && LandedNamesLanded(g, landed) && Advice(g, landed, edited, target)
    requires rev in g && rev !in landed
    ensures rev in edited || (|g[rev]| == 1 && g[rev][0] in g && g[rev][0] !in landed)
  {
    AllCovered(g, landed, edited, target, [rev]);
    hide Acyclic, LandedNamesLanded, Advice, LeavesGraph, IsPath;
    var c :| IsChain(g, landed, c) && rev in c && Last(c) in edited && LeavesGraph(g, landed, Last(c));
    var i :| 0 <= i < |c| && c[i] == rev;
    if i < |c| - 1 {
      assert OnlyParent(g, c[i], c[i + 1]);
    }
  }

  // ------------------------------------------------------- the edited graph

  /** The graph in which every edited revision names `target` alone. */
  function Edited(g: Graph, edited: set<string>, target: string): Graph {
    map rev | rev in g :: if rev in edited then [target] else g[rev]
  }

  /** The text edits have that effect on the graph. */
  lemma RepointedGraph(revisions: map<string, string>, edited: set<string>, target: string)
    requires IsId(target)
    requires forall rev :: rev in edited && rev in revisions ==> |ParentRefs(revisions[rev])| <= 1
    ensures GraphOf(Repointed(revisions, edited, target)) == Edited(GraphOf(revisions), edited, target)
  {
    forall rev | rev in revisions && rev in edited
      ensures ParentRefs(Rewrite(revisions[rev], OldParent(revisions[rev]), target)) == [target]
    {
      RewriteThenParse(revisions[rev], target);
    }
  }

  /** From a landed revision the edited graph only leads to landed ones. */
  lemma {:induction false} StaysLanded(g: Graph, landed: set<string>, edited: set<string>, target: string, p: seq<string>, i: nat, j: nat)
    requires LandedNamesLanded(g, landed) && AtForkRoots(g, landed, edited, target)
    requires IsPath(Edited(g, edited, target), p) && i <= j < |p| && p[i] in landed
    ensures p[j] in landed
    decreases j - i
  {
    if i < j {
      assert Edge(Edited(g, edited, target), p[i], p[i + 1]);
      StaysLanded(g, landed, edited, target, p, i + 1, j);
    }
  }

  /** A cycle of the edited graph would have been one before. */
  lemma StaysAcyclic(g: Graph, landed: set<string>, edited: set<string>, target: string)
    requires Acyclic(g) && LandedNamesLanded(g, landed) && AtForkRoots(g, landed, edited, target)
    ensures Acyclic(Edited(g, edited, target))
  {
    var g' := Edited(g, edited, target);
    forall p | IsPath(g', p) && |p| > 1 ensures p[0] != Last(p) {
      if p[0] == Last(p) {
        forall i, j | 0 <= i < j < |p| && j == i + 1 ensures Edge(g, p[i], p[j]) {
          assert Edge(g', p[i], p[j]);
          if p[i] in edited {
            StaysLanded(g, landed, edited, target, p, j, |p| - 1);
            StaysLanded(g, landed, edited, target, p, 0, i);
          }
        }
        assert IsPath(g, p);
      }
    }
  }

  /** Every unlanded revision reaches the target. */
  lemma ReachesTarget(g: Graph, landed: set<string>, edited: set<string>, target: string, rev: string)
    requires Acyclic(g) && LandedNamesLanded(g, landed) && Advice(g, landed, edited, target)
    requires rev in g && rev !in landed
    ensures Reaches(Edited(g, edited, target), rev, target)
  {
    AllCovered(g, landed, edited, target, [rev]);
    var c :| IsChain(g, landed, c) && rev in c && Last(c) in edited && LeavesGraph(g, landed, Last(c));
    var i :| 0 <= i < |c| && c[i] == rev;
    hide Acyclic, LandedNamesLanded, Covered;
    ChainReaches(g, landed, edited, target, c, i);
  }

  /** A chain of unlanded revisions leads to the target once its root is edited. */
  lemma {:induction false} ChainReaches(g: Graph, landed: set<string>, edited: set<string>, target: string, c: seq<string>, i: nat)
    requires IsChain(g, landed, c) && i < |c| && Advice(g, landed, edited, target)
    requires Last(c) in edited
    ensures Reaches(Edited(g, edited, target), c[i], target)
    decreases |c| - i
  {
    hide Covered, IsPath;
    var g' := Edited(g, edited, target);
    if c[i] in edited {
      PathOfTwo(g', c[i], target);
    } else {
      assert OnlyParent(g, c[i], c[i + 1]);
      ChainReaches(g, landed, edited, target, c, i + 1);
      PathLonger(g', c[i], c[i + 1], target);
    }
  }

  lemma PathOfTwo(g: Graph, from: string, to: string)
    requires Edge(g, from, to)
    ensures Reaches(g, from, to)
  {
    assert IsPath(g, [from, to]);
  }

  lemma PathLonger(g: Graph, from: string, next: string, to: string)
    requires Edge(g, from, next) && Reaches(g, next, to)
    ensures Reaches(g, from, to)
  {
    var p :| IsPath(g, p) && p[0] == next && Last(p) == to;
    assert IsPath(g, [from] + p);
  }

  /** Who can be named in the edited graph. */
  lemma NamedAfterOnly(g: Graph, landed: set<string>, edited: set<string>, target: string, rev: string)
    requires Acyclic(g) && LandedNamesLanded(g, landed) && Advice(g, landed, edited, target)
    requires rev in g && rev != target && Named(Edited(g, edited, target), rev)
    ensures if rev in landed then NamedByLanded(g, landed, rev) else Named(g, rev)
  {
    hide Covered, LeavesGraph, Acyclic;
    var child :| child in Edited(g, edited, target) && rev in Edited(g, edited, target)[child];
    assert child !in edited && rev in g[child];
    if rev in landed && child !in landed {
      Unedited(g, landed, edited, target, child);
    }
  }

  lemma TargetNamed(g: Graph, landed: set<string>, edited: set<string>, target: string)
    requires Advice(g, landed, edited, target)
    ensures Named(Edited(g, edited, target), target)
  {
    var head :| head in HeadSet(g) && head !in landed;
    assert Covered(g, landed, edited, head);
    var c :| IsChain(g, landed, c) && head in c && Last(c) in edited && LeavesGraph(g, landed, Last(c));
    assert Last(c) in Edited(g, edited, target) && target in Edited(g, edited, target)[Last(c)];
  }

  /** Who stays named in the edited graph. */
  lemma NamedStill(g: Graph, landed: set<string>, edited: set<string>, target: string, rev: string)
    requires Advice(g, landed, edited, target) && rev in g
    requires if rev in landed then NamedByLanded(g, landed, rev) else Named(g, rev)
    ensures Named(Edited(g, edited, target), rev)
  {
    hide Covered;
    var child :| child in g && rev in g[child] && (rev in landed ==> child in landed);
    assert child !in edited;
    assert rev in Edited(g, edited, target)[child];
  }

  /** Who is named in the edited graph. */
  lemma NamedAfter(g: Graph, landed: set<string>, edited: set<string>, target: string, rev: string)
    requires Acyclic(g) && LandedNamesLanded(g, landed) && Advice(g, landed, edited, target)
    requires rev in g
    ensures Named(Edited(g, edited, target), rev)
            <==> rev == target || (if rev in landed then NamedByLanded(g, landed, rev) else Named(g, rev))
  {
    hide Covered, Acyclic, LandedNamesLanded;
    if rev == target {
      TargetNamed(g, landed, edited, target);
    } else if Named(Edited(g, edited, target), rev) {
      NamedAfterOnly(g, landed, edited, target, rev);
    } else if if rev in landed then NamedByLanded(g, landed, rev) else Named(g, rev) {
      NamedStill(g, landed, edited, target, rev);
    }
  }

  /** The heads afterwards are the unlanded heads, plus the landed tips besides the target. */
  lemma HeadsAfter(g: Graph, landed: set<string>, edited: set<string>, target: string)
    requires Acyclic(g) && LandedNamesLanded(g, landed) && Advice(g, landed, edited, target)
    ensures HeadSet(Edited(g, edited, target))
         == UnlandedHeads(g, landed) + (LandedPartHeads(g, landed) - {target})
    ensures target in LandedPartHeads(g, landed) && UnlandedHeads(g, landed) !! LandedPartHeads(g, landed)
  {
    forall rev | rev in g
      ensures Named(Edited(g, edited, target), rev)
              <==> rev == target || (if rev in landed then NamedByLanded(g, landed, rev) else Named(g, rev))
    {
      NamedAfter(g, landed, edited, target, rev);
    }
  }

  // ------------------------------------------------------------- main result

  /**
   Following a `repoint` answer. The scan is acyclic and landed revisions name only
   landed parents. Setting the parent of every named revision to the target, in
   the text, leaves an acyclic graph, in which every unlanded revision has the target
   below it if every unlanded head was reported. The heads are exactly the unlanded
   heads the answer lists if and only if every unlanded head was reported and the
   landed part of the graph has a single head.
   */
  lemma RepointFixesHeads(scan: Scan, landed: set<string>, after: seq<string>)
    requires ReportsHeads(scan) && "" !in scan.revisions
    requires Acyclic(GraphOf(scan.revisions)) && LandedNamesLanded(GraphOf(scan.revisions), landed)
    requires PlanRemediation(scan, Some(landed)).kind == Repoint
    requires IsId(PlanRemediation(scan, Some(landed)).target.value)
    requires var plan := PlanRemediation(scan, Some(landed));
      Lists(after, HeadSet(GraphOf(Repointed(scan.revisions, EditedRevisions(plan.edits), plan.target.value))))
    ensures var plan := PlanRemediation(scan, Some(landed));
      var g' := GraphOf(Repointed(scan.revisions, EditedRevisions(plan.edits), plan.target.value));
      Acyclic(g')
      && (UnlandedReported(scan, landed) ==> forall rev :: rev in g' && rev !in landed ==> Reaches(g', rev, plan.target.value))
      && (after == plan.unlandedHeads
          <==> UnlandedReported(scan, landed) && |LandedPartHeads(GraphOf(scan.revisions), landed)| == 1)
  {
    hide *;
    RepointTarget(scan, landed);
    var g := GraphOf(scan.revisions);
    var plan := PlanRemediation(scan, Some(landed));
    var edited, target := EditedRevisions(plan.edits), plan.target.value;
    PlanAdvises(scan, landed);
    AdviceEdits(scan.revisions, landed, edited, target);
    RepointedGraph(scan.revisions, edited, target);
    StaysAcyclic(g, landed, edited, target);
    if UnlandedReported(scan, landed) {
      AllReach(g, landed, edited, target);
      HeadsAfter(g, landed, edited, target);
      UnlandedListed(scan, landed);
      SameListing(after, plan.unlandedHeads, UnlandedHeads(g, landed), LandedPartHeads(g, landed), target);
    } else {
      UnreportedStays(scan, landed, edited, target, after);
    }
  }

  lemma AllReach(g: Graph, landed: set<string>, edited: set<string>, target: string)
    requires Acyclic(g) && LandedNamesLanded(g, landed) && Advice(g, landed, edited, target)
    ensures var g' := Edited(g, edited, target);
      forall rev :: rev in g' && rev !in landed ==> Reaches(g', rev, target)
  {
    hide Acyclic, LandedNamesLanded, Advice, Reaches;
    forall rev | rev in Edited(g, edited, target) && rev !in landed ensures Reaches(Edited(g, edited, target), rev, target) {
      ReachesTarget(g, landed, edited, target, rev);
    }
  }

  /** An unlanded head that was not reported is a head afterwards, and not one the answer lists. */
  lemma UnreportedStays(scan: Scan, landed: set<string>, edited: set<string>, target: string, after: seq<string>)
    requires !UnlandedReported(scan, landed) && AtForkRoots(GraphOf(scan.revisions), landed, edited, target)
    requires Lists(after, HeadSet(Edited(GraphOf(scan.revisions), edited, target)))
    requires PlanRemediation(scan, Some(landed)).kind == Repoint
    ensures after != PlanRemediation(scan, Some(landed)).unlandedHeads
  {
    hide ParentRefs, Walk, LeavesGraph, Sorted, PlanRemediation, GraphOf, Named;
    var g := GraphOf(scan.revisions);
    var head :| head in HeadSet(g) && head !in landed && head !in scan.heads;
    StaysHead(g, landed, edited, target, head);
    assert head in HeadSet(Edited(g, edited, target)) && head in after;
    ListedUnlanded(scan, landed, head);
  }

  lemma StaysHead(g: Graph, landed: set<string>, edited: set<string>, target: string, head: string)
    requires head in HeadSet(g) && head !in landed && target in landed
    ensures head in HeadSet(Edited(g, edited, target))
  {
  }

  lemma ListedUnlanded(scan: Scan, landed: set<string>, head: string)
    ensures head in PlanRemediation(scan, Some(landed)).unlandedHeads ==> head in scan.heads
  {
    hide Walk, ParentRefs, GraphOf, BlockedChains, Roots, Edits;
  }

  lemma RepointTarget(scan: Scan, landed: set<string>)
    ensures PlanRemediation(scan, Some(landed)).kind == Repoint ==> PlanRemediation(scan, Some(landed)).target.Some?
  {
  }

  ghost function UnlandedHeads(g: Graph, landed: set<string>): set<string> {
    set head | head in HeadSet(g) && head !in landed
  }

  lemma AdviceEdits(revisions: map<string, string>, landed: set<string>, edited: set<string>, target: string)
    requires AtForkRoots(GraphOf(revisions), landed, edited, target)
    ensures forall rev :: rev in edited && rev in revisions ==> |ParentRefs(revisions[rev])| <= 1
  {
    hide ParentRefs, Covered;
  }

  lemma UnlandedListed(scan: Scan, landed: set<string>)
    requires ReportsHeads(scan) && UnlandedReported(scan, landed)
    requires PlanRemediation(scan, Some(landed)).kind == Repoint
    ensures Lists(PlanRemediation(scan, Some(landed)).unlandedHeads, UnlandedHeads(GraphOf(scan.revisions), landed))
  {
    hide ParentRefs, Walk;
    SelectSorted(scan.heads, landed, false);
  }

  /** A listing of `heads` and the tips besides the target lists `heads` only if there are none. */
  lemma SameListing(after: seq<string>, listed: seq<string>, heads: set<string>, tips: set<string>, target: string)
    requires Lists(after, heads + (tips - {target})) && Lists(listed, heads) && target in tips && heads !! tips
    ensures after == listed <==> |tips| == 1
  {
    if |tips| == 1 {
      OnlyElement(tips, target);
      assert heads + (tips - {target}) == heads;
      ListsUnique(after, listed, heads);
    }
    if after == listed {
      forall rev | rev in tips ensures rev == target {
        assert rev != target ==> rev in after;
      }
      assert tips == {target};
    }
  }

  lemma OnlyElement(s: set<string>, x: string)
    requires x in s && |s| == 1
    ensures s == {x}
  {
    assert |s - {x}| == 0;
  }

  lemma {:induction false} SelectSorted(heads: seq<string>, landed: set<string>, inside: bool)
    requires Sorted(heads)
    ensures Sorted(Select(heads, landed, inside))
  {
    if heads != [] {
      SelectSorted(heads[1..], landed, inside);
      forall h | h in Select(heads[1..], landed, inside) ensures Before(heads[0], h) {
        var i :| 0 <= i < |heads[1..]| && heads[1..][i] == h;
        assert heads[i + 1] == h;
      }
    }
  }

  /**
   Whatever the answer, every revision it tells an author to edit is an unlanded
   one with at most one parent, where an unlanded chain leaves the landed graph.
   */
  lemma EditsAreForkRoots(scan: Scan, landed: set<string>, rev: string)
    requires forall head :: head in scan.heads ==> head in HeadSet(GraphOf(scan.revisions))
    requires rev in EditedRevisions(PlanRemediation(scan, Some(landed)).edits)
    ensures var g := GraphOf(scan.revisions);
      rev in g && rev !in landed && LeavesGraph(g, landed, rev)
      && exists head, c :: head in HeadSet(g) && head !in landed && c != [] && c[0] == head && Ends(g, landed, c, Root(rev))
  {
    var g := GraphOf(scan.revisions);
    var heads := Select(scan.heads, landed, false);
    assert rev in Roots(g, landed, heads);
    var head :| head in heads && Walk(g, landed, [head]) == Root(rev);
    WalkSpec(g, landed, head);
    var c :| c != [] && c[0] == head && Ends(g, landed, c, Root(rev));
    assert head in HeadSet(g);
  }
}
