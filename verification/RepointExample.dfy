/** The repoint advice at work on a small forked graph. */
module RepointExample {
  import opened Options
  import opened Orders
  import opened RhsTokens
  import opened RevisionScan
  import opened RevisionGraph
  import opened RepointAdvice

  // a and b have landed; c forked off a, and d follows c.

  const REVISIONS := map["a" := "None", "b" := "'a'", "c" := "'a'", "d" := "'c'"]
  const FORKED := Scan(4, REVISIONS, map["a" := "a.py", "b" := "b.py", "c" := "c.py", "d" := "d.py"], ["b", "d"], 4, [])
  const LANDED := {"a", "b"}
  const GRAPH := map["a" := [], "b" := ["a"], "c" := ["a"], "d" := ["c"]]

  lemma QuotedParent(s: string)
    requires |s| == 3 && s[0] == s[2] == '\'' && InLiteral(s[1])
    ensures ParentRefs(s) == [[s[1]]]
  {
    assert RunEnd(s, 1) == 2;
    assert MatchAt(s, 0) == Literal(3);
    assert s[1..2] == [s[1]];
    assert RefsFrom(s, 3) == [];
  }

  lemma NoParent()
    ensures ParentRefs("None") == []
  {
    var s := "None";
    assert RefsFrom(s, 4) == [];
    assert RefsFrom(s, 3) == RefsFrom(s, 2) == RefsFrom(s, 1) == [];
  }

  lemma ForkedGraph()
    ensures GraphOf(REVISIONS) == GRAPH
  {
    NoParent();
    QuotedParent("'a'");
    QuotedParent("'c'");
    hide ParentRefs;
  }

  function Rank(rev: string): nat { if rev == "d" then 2 else if rev == "b" || rev == "c" then 1 else 0 }

  lemma {:induction false} RankFalls(p: seq<string>, i: nat, j: nat)
    requires IsPath(GRAPH, p) && i < j < |p|
    ensures Rank(p[j]) < Rank(p[i])
  {
    assert Edge(GRAPH, p[j - 1], p[j]);
    if i < j - 1 {
      RankFalls(p, i, j - 1);
    }
  }

  lemma ForkedAcyclic()
    ensures Acyclic(GRAPH)
  {
    hide IsPath;
    forall p | IsPath(GRAPH, p) && |p| > 1 ensures p[0] != Last(p) {
      RankFalls(p, 0, |p| - 1);
    }
  }

  lemma ForkedNames(rev: string)
    requires rev in GRAPH
    ensures Named(GRAPH, rev) <==> rev == "a" || rev == "c"
    ensures NamedByLanded(GRAPH, LANDED, rev) <==> rev == "a"
  {
    assert "a" in GRAPH["b"] && "c" in GRAPH["d"];
  }

  lemma ForkedHeads()
    ensures Lists(["b", "d"], HeadSet(GRAPH)) && Acyclic(GRAPH) && LandedNamesLanded(GRAPH, LANDED)
    ensures LandedPartHeads(GRAPH, LANDED) == {"b"}
  {
    ForkedAcyclic();
    hide Acyclic, Named, NamedByLanded;
    ForkedNames("a");
    ForkedNames("b");
    ForkedNames("c");
    ForkedNames("d");
    assert HeadSet(GRAPH) == {"b", "d"};
  }

  lemma ForkedWalk()
    ensures Walk(GRAPH, LANDED, ["d"]) == Root("c")
  {
    assert Walk(GRAPH, LANDED, ["d"] + ["c"]) == Root("c");
  }

  lemma ForkedSelect()
    ensures Select(["b", "d"], LANDED, true) == ["b"] && Select(["b", "d"], LANDED, false) == ["d"]
  {
    var heads := ["b", "d"];
    assert heads[1..] == ["d"] && heads[1..][1..] == [];
  }

  lemma ForkedRoots()
    ensures BlockedChains(GRAPH, LANDED, ["d"]) == [] && Roots(GRAPH, LANDED, ["d"]) == ["c"]
  {
    ForkedWalk();
    hide Walk;
    assert ["d"][..0] == [] && Roots(GRAPH, LANDED, []) == [];
  }

  lemma ForkedEdits()
    ensures Edits(["c"], FORKED.paths) == [Edit("c", Some("c.py"))]
  {
    assert ["c"][1..] == [];
  }

  /** The planner names c, not the head d, and b as its new parent. */
  lemma ForkedPlan()
    ensures PlanRemediation(FORKED, Some(LANDED))
         == Remediation(Repoint, ["b"], ["d"], Some("b"), [Edit("c", Some("c.py"))], [])
  {
    ForkedGraph();
    ForkedSelect();
    ForkedRoots();
    ForkedEdits();
    hide Walk, GraphOf, Select, Roots, BlockedChains, Edits;
  }

  /** Following the advice leaves d as the only head. */
  lemma ForkRepaired(after: seq<string>)
    requires Lists(after, HeadSet(GraphOf(Repointed(REVISIONS, {"c"}, "b"))))
    ensures after == ["d"]
  {
    ForkedGraph();
    ForkedPlan();
    ForkedHeads();
    hide GraphOf, PlanRemediation, HeadSet, Acyclic, LandedNamesLanded, LandedPartHeads, Repointed;
    var edits := [Edit("c", Some("c.py"))];
    assert edits[0] in edits && EditedRevisions(edits) == {"c"};
    RepointFixesHeads(FORKED, LANDED, after);
  }
}
