/** How the statements that the split works on come from source code. */
module SplitSources {
  import opened Options
  import PythonScopes
  import FreeNames
  import ScopeAgreement
  import SplitPlan
  import SplitClosure
  import SplitOrigins

  /** The code of a top-level statement other than an import, and the names it defines. */
  datatype Source = Source(code: PythonScopes.Node, defines: seq<string>, copyable: bool)

  /** The statement: what it uses and rebinds is what the analyses say of its code. */
  function StmtOf(s: Source): SplitPlan.Stmt {
    var uses, rebinds := FreeNames.Free(s.code, []), PythonScopes.DeclaredGlobal(s.code);
    if s.defines == [] then SplitPlan.Plain(uses, rebinds) else SplitPlan.Definition(s.defines, uses, rebinds, s.copyable)
  }

  function StmtsOf(sources: seq<Source>): seq<SplitPlan.Stmt> {
    if sources == [] then [] else [StmtOf(sources[0])] + StmtsOf(sources[1..])
  }

  function CodeOf(sources: seq<Source>): seq<PythonScopes.Node> {
    if sources == [] then [] else [sources[0].code] + CodeOf(sources[1..])
  }

  lemma OneMore(s: SplitPlan.Stmt, rest: seq<SplitPlan.Stmt>)
    ensures SplitPlan.AllUses([s] + rest) == SplitPlan.Uses(s) + SplitPlan.AllUses(rest)
    ensures SplitPlan.AllRebinds([s] + rest) == SplitPlan.Rebinds(s) + SplitPlan.AllRebinds(rest)
  {
    assert forall t :: t in [s] + rest <==> t == s || t in rest;
  }

  /** The sets the split computes with are those of analysing all the code at once. */
  lemma {:induction false} UsesAreFree(sources: seq<Source>)
    ensures SplitPlan.AllUses(StmtsOf(sources)) == FreeNames.FreeAll(CodeOf(sources), [])
    ensures SplitPlan.AllRebinds(StmtsOf(sources)) == PythonScopes.DeclaredGlobalAll(CodeOf(sources))
  {
    if sources != [] {
      UsesAreFree(sources[1..]);
      OneMore(StmtOf(sources[0]), StmtsOf(sources[1..]));
      assert CodeOf(sources)[1..] == CodeOf(sources[1..]);
    }
  }

  /** What code rebinds it uses: a name declared global counts as referenced. */
  lemma RebindsAreUses(s: Source)
    requires ScopeAgreement.Grammatical(s.code)
    ensures SplitPlan.Rebinds(StmtOf(s)) <= SplitPlan.Uses(StmtOf(s))
  {
    ScopeAgreement.DeclaredCollected(s.code, []);
  }

  // ------------------------------------------------- what the rules say is needed

  /** By the scope rules the code takes the name from its module. */
  ghost predicate Needs(code: PythonScopes.Node, x: string) {
    x in PythonScopes.DeclaredGlobal(code) || PythonScopes.Hits(x, PythonScopes.Reads(code, []))
  }

  /** The code takes the name from its module by overlooked occurrences alone. */
  ghost predicate OnlyOverlooked(code: PythonScopes.Node, x: string) {
    x !in PythonScopes.DeclaredGlobal(code)
    && ScopeAgreement.HiddenHit(x, PythonScopes.Reads(code, [])) && !ScopeAgreement.PlainHit(x, PythonScopes.Reads(code, []))
  }

  lemma NeededReported(code: PythonScopes.Node, x: string)
    requires ScopeAgreement.Grammatical(code) && Needs(code, x) && !OnlyOverlooked(code, x)
    ensures x in FreeNames.Free(code, [])
  {
    if x in PythonScopes.DeclaredGlobal(code) {
      ScopeAgreement.DeclaredCollected(code, []);
    } else {
      ScopeAgreement.ReadsUndeclared(x, code, []);
      ScopeAgreement.CausesSplit(x, PythonScopes.Reads(code, []));
      ScopeAgreement.Agree(x, code, []);
    }
  }

  /** The statements of `__init__` other than its docstring and imports come from these sources. */
  ghost predicate Written(init: seq<SplitPlan.Stmt>, sources: seq<Option<Source>>) {
    |init| == |sources|
    && forall i :: 0 <= i < |init| ==>
         match sources[i]
         case Some(s) => init[i] == StmtOf(s) && ScopeAgreement.Grammatical(s.code)
         case None => init[i].Import? || init[i].Docstring?
  }

  /** What the moved and copied code needs is bound in the new module, or built in, or overlooked. */
  lemma MovedNeedsMet(req: SplitPlan.Request, pkg: SplitPlan.Package, moved: set<nat>, copied: set<nat>,
                      sources: seq<Option<Source>>, i: nat, x: string)
    requires SplitClosure.Parts(req, pkg, moved, copied) && Written(pkg.init, sources)
    requires i < |sources| && sources[i].Some? && i in moved + copied && Needs(sources[i].value.code, x)
    ensures x in SplitPlan.Bound(SplitPlan.PlanOf(req, pkg).newModule) || x in pkg.builtins
            || OnlyOverlooked(sources[i].value.code, x)
  {
    var code := sources[i].value.code;
    if !OnlyOverlooked(code, x) && x !in pkg.builtins {
      NeededReported(code, x);
      SplitClosure.AcceptedFacts(req, pkg, moved, copied);
      MovedUse(req, pkg, moved, copied, i, x);
      SplitClosure.NewModuleBinds(req, pkg, moved, copied, x);
    }
  }

  lemma MovedUse(req: SplitPlan.Request, pkg: SplitPlan.Package, moved: set<nat>, copied: set<nat>, i: nat, x: string)
    requires i < |pkg.init| && i in moved + copied && x in SplitPlan.Uses(pkg.init[i]) - pkg.builtins
    ensures x in SplitPlan.Derive(req, pkg, moved, copied).free
  {
    var d := SplitPlan.Derive(req, pkg, moved, copied);
    SplitClosure.PickMember(pkg.init, moved, true, pkg.init[i]);
    SplitClosure.PickMember(pkg.init, copied, true, pkg.init[i]);
    assert pkg.init[i] in d.moved + d.copied;
  }

  /**
   The new module binds everything that the moved and copied code needs, built-in
   names aside, if and only if every name that some of this code needs by overlooked
   occurrences alone is used by other code that moves or is copied, or is named by
   the split, or is built in.
   */
  lemma MovedNeedsExactly(req: SplitPlan.Request, pkg: SplitPlan.Package, moved: set<nat>, copied: set<nat>,
                          sources: seq<Option<Source>>)
    requires SplitClosure.Parts(req, pkg, moved, copied) && Written(pkg.init, sources)
    ensures (forall i, x :: NeededAt(sources, moved + copied, i, x) ==>
               x in SplitPlan.Bound(SplitPlan.PlanOf(req, pkg).newModule) || x in pkg.builtins)
            <==> (forall i, x :: OverlookedAt(sources, moved + copied, i, x) ==>
                    Provided(req, pkg, moved, copied, x) || x in pkg.builtins)
  {
    forall i, x | NeededAt(sources, moved + copied, i, x)
      ensures x in SplitPlan.Bound(SplitPlan.PlanOf(req, pkg).newModule) || x in pkg.builtins
              || OverlookedAt(sources, moved + copied, i, x)
    {
      hide Needs, OnlyOverlooked, Written, SplitPlan.Bound, SplitPlan.PlanOf;
      MovedNeedsMet(req, pkg, moved, copied, sources, i, x);
    }
    hide SplitPlan.Bound, SplitPlan.PlanOf, SplitPlan.Derive;
    forall x ensures x in SplitPlan.Bound(SplitPlan.PlanOf(req, pkg).newModule) <==> Provided(req, pkg, moved, copied, x) {
      SplitOrigins.NewModuleBindsExactly(req, pkg, moved, copied, x);
    }
    hide NeededAt, Provided;
    forall i, x | OverlookedAt(sources, moved + copied, i, x) ensures NeededAt(sources, moved + copied, i, x) {
    }
  }

  ghost predicate NeededAt(sources: seq<Option<Source>>, positions: set<nat>, i: nat, x: string) {
    i < |sources| && sources[i].Some? && i in positions && Needs(sources[i].value.code, x)
  }

  ghost predicate OverlookedAt(sources: seq<Option<Source>>, positions: set<nat>, i: nat, x: string) {
    NeededAt(sources, positions, i, x) && OnlyOverlooked(sources[i].value.code, x)
  }

  /** Moved or copied code uses the name, as far as the analysis tells, or the split names it. */
  predicate Provided(req: SplitPlan.Request, pkg: SplitPlan.Package, moved: set<nat>, copied: set<nat>, x: string) {
    x in SplitPlan.Derive(req, pkg, moved, copied).free || x in req.names + req.copies || x == SplitPlan.ROUTER || x == "APIRouter"
  }

  lemma StayingUse(req: SplitPlan.Request, pkg: SplitPlan.Package, moved: set<nat>, copied: set<nat>, i: nat, x: string)
    requires i < |pkg.init| && i !in moved && x in SplitPlan.Uses(pkg.init[i])
    ensures x in SplitPlan.AllUses(SplitPlan.Derive(req, pkg, moved, copied).remaining)
  {
    SplitClosure.PickMember(pkg.init, moved, false, pkg.init[i]);
    assert pkg.init[i] in SplitPlan.Derive(req, pkg, moved, copied).remaining;
  }

  /** What the staying code needs is bound in the new `__init__` if it was before, or overlooked. */
  lemma StayingNeedsMet(req: SplitPlan.Request, pkg: SplitPlan.Package, moved: set<nat>, copied: set<nat>,
                        sources: seq<Option<Source>>, i: nat, x: string)
    requires SplitClosure.Parts(req, pkg, moved, copied) && Written(pkg.init, sources)
    requires i < |sources| && sources[i].Some? && i !in moved && Needs(sources[i].value.code, x)
    requires x in SplitPlan.Bound(pkg.init) || x in pkg.builtins
    ensures x in SplitPlan.Bound(SplitPlan.PlanOf(req, pkg).newInit) || x in pkg.builtins
            || OnlyOverlooked(sources[i].value.code, x)
  {
    var code := sources[i].value.code;
    if !OnlyOverlooked(code, x) && x !in pkg.builtins {
      NeededReported(code, x);
      StayingUse(req, pkg, moved, copied, i, x);
      hide *;
      SplitClosure.StaysBound(req, pkg, moved, copied, x);
    }
  }
}
