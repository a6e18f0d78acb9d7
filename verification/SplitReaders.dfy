/** What a split means for those left behind: readers of the package, rebound state, and the text that stays. */
module SplitReaders {
  import opened Options
  import opened SplitPlan
  import opened SplitClosure
  import opened SplitOrigins

  // ------------------------------------------------------- readers of the package

  /** Adding an import of the domain router binds its alias, and only that. */
  lemma AddedBinds(req: Request, d: Derived, imp: Imp)
    ensures imp in Added(req, d) ==>
      Binds(imp) == RouterAlias(req.domain) || (Binds(imp) in d.reexport && imp == Imp(req.domain, 1, Some(Binds(imp)), Some(Binds(imp))))
  {
  }

  lemma SelectedEverywhere(stmts: seq<Stmt>, names: seq<string>, i: nat, x: string)
    requires Select(stmts, names).Chosen? && i < |stmts| && x in names && x in Defines(stmts[i])
    ensures i in Select(stmts, names).positions
  {
  }

  lemma RemainingDefinition(req: Request, pkg: Package, moved: set<nat>, copied: set<nat>, x: string, s: Stmt)
    requires Parts(req, pkg, moved, copied) && x in Defines(s)
    ensures s in Pick(pkg.init, moved, false) <==> s in pkg.init && x !in req.names
  {
    hide Pick, Select, PlanOf, Build;
    PickMember(pkg.init, moved, false, s);
    forall i: nat | i < |pkg.init| && pkg.init[i] == s ensures i in moved <==> x in req.names {
      if i in moved {
        SelectedStatement(pkg.init, req.names, i);
      }
      if x in req.names {
        SelectedEverywhere(pkg.init, req.names, i, x);
      }
    }
    if s in pkg.init {
      var i: nat :| i < |pkg.init| && pkg.init[i] == s;
    }
  }

  /**
   A name that remaining code or another file still reads, and that stays in
   `__init__`, keeps its origin there.
   */
  lemma StayingNameOrigin(req: Request, pkg: Package, parts: seq<string>, moved: set<nat>, copied: set<nat>, x: string)
    requires Parts(req, pkg, moved, copied) && WellFormed(pkg)
    requires x in Derive(req, pkg, moved, copied).stillRead && x !in req.names && x != RouterAlias(req.domain)
    ensures Origins(PlanOf(req, pkg).newInit, parts, true, x) == Origins(pkg.init, parts, true, x)
  {
    var d := Derive(req, pkg, moved, copied);
    var newInit := PlanOf(req, pkg).newInit;
    NewInitSets(req, pkg, moved, copied);
    ImportsStay(req, pkg, moved, copied);
    assert x !in Prunable(req, pkg, d);
    forall s | x in Defines(s) ensures s in newInit <==> s in pkg.init {
      RemainingDefinition(req, pkg, moved, copied, x, s);
      NewInitDefinition(req, pkg, moved, copied, x, s);
    }
    forall imp | imp in AllImps(newInit) && Binds(imp) == x ensures imp in AllImps(pkg.init) {
      AddedBinds(req, d, imp);
    }
    hide PlanOf, Derive, OriginOf, Prunable, WellFormed, AllImps, RouterAlias, ImportOrigins;
    forall imp | imp in AllImps(newInit) && Binds(imp) == x
      ensures OriginOf(imp, parts, true) in ImportOrigins(pkg.init, parts, true, x)
    {
      ImportOrigin(pkg.init, parts, true, imp);
    }
    forall imp | imp in AllImps(pkg.init) && Binds(imp) == x
      ensures OriginOf(imp, parts, true) in ImportOrigins(newInit, parts, true, x)
    {
      ImportOrigin(newInit, parts, true, imp);
    }
    OriginsWithin(newInit, parts, true, pkg.init, parts, true, x);
    OriginsWithin(pkg.init, parts, true, newInit, parts, true, x);
    assert StatementOrigins(newInit, x) == StatementOrigins(pkg.init, x);
  }

  lemma {:induction false} PrunedDefinition(stmts: seq<Stmt>, prunable: set<string>, s: Stmt)
    requires Defines(s) != {}
    ensures s in PruneAll(stmts, prunable) <==> s in stmts
  {
    if stmts != [] {
      PrunedDefinition(stmts[..|stmts| - 1], prunable, s);
      assert stmts == stmts[..|stmts| - 1] + [stmts[|stmts| - 1]];
    }
  }

  lemma MergedDefinition(stmts: seq<Stmt>, add: set<Imp>, s: Stmt)
    requires MergeLocalImports(stmts, add).MergedInto? && Defines(s) != {}
    ensures s in MergeLocalImports(stmts, add).stmts <==> s in stmts
  {
    hide MergeLocalImports, AllImps;
    var a, b, c := MergeCut(stmts, add);
  }

  lemma NewInitDefinition(req: Request, pkg: Package, moved: set<nat>, copied: set<nat>, x: string, s: Stmt)
    requires Parts(req, pkg, moved, copied) && x in Defines(s)
    ensures s in PlanOf(req, pkg).newInit <==> s in Pick(pkg.init, moved, false)
  {
    hide PlanOf, Pick, Select, PruneAll, MergeLocalImports, ResolveAll, StateFault;
    AcceptedFacts(req, pkg, moved, copied);
    var d := Derive(req, pkg, moved, copied);
    PrunedDefinition(d.remaining, Prunable(req, pkg, d), s);
    MergedDefinition(PruneAll(d.remaining, Prunable(req, pkg, d)), Added(req, d), s);
  }

  /** Where the re-export of a moved name takes it from. */
  function ReexportOrigin(req: Request, parts: seq<string>, x: string): Origin {
    FromModule(ImportSource(Imp(req.domain, 1, None, None), parts, true), Some(x))
  }

  /**
   A moved name that remaining code or another file reads through the package is
   still bound there, to the re-export of the new module and to what `__init__`
   imported under that name, if anything; in the new module it is the very definition
   it was before.
   */
  lemma MovedNameReached(req: Request, pkg: Package, parts: seq<string>, moved: set<nat>, copied: set<nat>, x: string)
    requires Parts(req, pkg, moved, copied) && WellFormed(pkg)
    requires x in Derive(req, pkg, moved, copied).reexport && x != RouterAlias(req.domain)
    ensures Origins(PlanOf(req, pkg).newInit, parts, true, x)
         == {ReexportOrigin(req, parts, x)} + ImportOrigins(pkg.init, parts, true, x)
    ensures Origins(PlanOf(req, pkg).newModule, parts + [req.domain], false, x) == StatementOrigins(pkg.init, x)
  {
    var d := Derive(req, pkg, moved, copied);
    var newInit := PlanOf(req, pkg).newInit;
    MovedNameOrigin(req, pkg, parts, moved, copied, x);
    NewInitSets(req, pkg, moved, copied);
    ImportsStay(req, pkg, moved, copied);
    var own := Imp(req.domain, 1, Some(x), Some(x));
    assert own in Added(req, d) && Binds(own) == x && OriginOf(own, parts, true) == ReexportOrigin(req, parts, x);
    forall imp | Binds(imp) == x ensures imp in AllImps(newInit) <==> imp == own || imp in AllImps(pkg.init) {
      AddedBinds(req, d, imp);
    }
    forall s | s in newInit ensures x !in Defines(s) {
      if x in Defines(s) {
        NewInitDefinition(req, pkg, moved, copied, x, s);
        RemainingDefinition(req, pkg, moved, copied, x, s);
      }
    }
    hide PlanOf, Derive, Select, Pick, Added, OriginOf, AllImps;
  }

  // ---------------------------------------------------------------- shared state

  /** Moved code rebinds the name, and what stays behind reads it. */
  ghost predicate RebindsMove(pkg: Package, d: Derived, x: string) {
    x in AllRebinds(d.moved) && x in d.remainingFree + pkg.reached
  }

  /** Code that stays behind rebinds the name, and moved or copied code uses it. */
  ghost predicate RebindsStay(d: Derived, x: string) {
    x in AllRebinds(d.remaining) && x in AllUses(d.moved + d.copied)
  }

  ghost predicate BoundTwice(req: Request, pkg: Package, x: string)
    requires PlanOf(req, pkg).Accepted?
  {
    x in Bound(PlanOf(req, pkg).newModule) && x in Bound(PlanOf(req, pkg).newInit)
  }

  /** One side rebinds the name, the other one uses it, and each has a binding of its own. */
  ghost predicate SharedState(req: Request, pkg: Package, d: Derived, x: string)
    requires PlanOf(req, pkg).Accepted?
  {
    (RebindsMove(pkg, d, x) || RebindsStay(d, x)) && BoundTwice(req, pkg, x)
  }

  lemma RebindsUsed(req: Request, pkg: Package, moved: set<nat>, copied: set<nat>, x: string)
    requires Parts(req, pkg, moved, copied) && WellFormed(pkg)
    requires x in AllRebinds(Derive(req, pkg, moved, copied).moved)
    ensures var d := Derive(req, pkg, moved, copied);
      x in AllUses(d.moved + d.copied) && x in AllRebinds(d.moved + d.copied)
  {
    var d := Derive(req, pkg, moved, copied);
    var s :| s in d.moved && x in Rebinds(s);
    PickMember(pkg.init, moved, true, s);
    assert s in d.moved + d.copied;
  }

  /** A name outside the listed ones is not rebound by moved code and shared: it would have been refused. */
  lemma ForeignNotShared(req: Request, pkg: Package, moved: set<nat>, copied: set<nat>, x: string)
    requires Parts(req, pkg, moved, copied) && WellFormed(pkg)
    requires x !in Derive(req, pkg, moved, copied).local
    ensures !(RebindsMove(pkg, Derive(req, pkg, moved, copied), x) && BoundTwice(req, pkg, x))
  {
    hide PruneAll, MergeLocalImports, Select, Pick, PlanOf, Bound, AllRebinds, AllUses, ResolveAll;
    var d := Derive(req, pkg, moved, copied);
    if x in AllRebinds(d.moved) && x in d.remainingFree + pkg.reached {
      RebindsUsed(req, pkg, moved, copied, x);
      if x in pkg.builtins {
        BuiltinUnbound(req, pkg, moved, copied, x);
      } else {
        AcceptedFacts(req, pkg, moved, copied);
        AllResolved(pkg, d.free - d.local);
        ByImportIsImported(pkg, x);
      }
    }
  }

  lemma ByImportIsImported(pkg: Package, x: string)
    requires Resolve(pkg, x).ByImport?
    ensures IsImported(pkg, x)
  {
  }

  /** Nor is a moved name: it would have been refused. */
  lemma MovedNotShared(req: Request, pkg: Package, moved: set<nat>, copied: set<nat>, x: string)
    requires Parts(req, pkg, moved, copied) && x in req.names
    ensures !(RebindsMove(pkg, Derive(req, pkg, moved, copied), x) && BoundTwice(req, pkg, x))
  {
    hide ResolveAll, PruneAll, MergeLocalImports, Select, Pick, PlanOf, Bound;
    var d := Derive(req, pkg, moved, copied);
    AcceptedFacts(req, pkg, moved, copied);
    assert AllRebinds(d.moved) * d.reexport == {};
    assert !(x in AllRebinds(d.moved) && x in d.reexport);
  }

  /** Copied names and the router are bound in both modules. */
  lemma CopyBoundTwice(req: Request, pkg: Package, moved: set<nat>, copied: set<nat>, x: string)
    requires Parts(req, pkg, moved, copied) && WellFormed(pkg) && (x == ROUTER || x in req.copies)
    ensures x in Bound(PlanOf(req, pkg).newModule) && x in Bound(PlanOf(req, pkg).newInit)
  {
    hide ResolveAll, PruneAll, MergeLocalImports, Select, Pick, PlanOf, Bound, RouterImport;
    var d := Derive(req, pkg, moved, copied);
    var built, newInit := PlanOf(req, pkg).newModule, PlanOf(req, pkg).newInit;
    AcceptedFacts(req, pkg, moved, copied);
    assert x !in req.names by {
      assert Names(req.names) * Names(req.copies) == {};
      assert !(x in Names(req.names) && x in Names(req.copies));
    }
    if x == ROUTER {
      assert built[1] in built;
      BoundByDefinition(built, built[1], x);
    } else {
      SelectedBound(pkg.init, req.copies, copied, x);
      var s :| s in d.copied && x in Defines(s);
      NewModuleDefinition(req, pkg, moved, copied, s);
      BoundByDefinition(built, s, x);
      Picked(pkg.init, req.copies, copied, s);
    }
    assert x in AllDefines(pkg.init);
    var s :| s in pkg.init && x in Defines(s);
    RemainingDefinition(req, pkg, moved, copied, x, s);
    NewInitDefinition(req, pkg, moved, copied, x, s);
    BoundByDefinition(newInit, s, x);
  }

  /** What moved code rebinds is shared if and only if it is a copied name or the router: the refusals see to all others. */
  lemma MovedRebindsShared(req: Request, pkg: Package, moved: set<nat>, copied: set<nat>, x: string)
    requires Parts(req, pkg, moved, copied) && WellFormed(pkg)
    requires RebindsMove(pkg, Derive(req, pkg, moved, copied), x)
    ensures BoundTwice(req, pkg, x) <==> x == ROUTER || x in req.copies
  {
    LocalNames(req, pkg, moved, copied);
    if x == ROUTER || x in req.copies {
      CopyBoundTwice(req, pkg, moved, copied, x);
    } else if x in req.names {
      MovedNotShared(req, pkg, moved, copied, x);
    } else {
      ForeignNotShared(req, pkg, moved, copied, x);
    }
  }

  lemma StayingUse(req: Request, pkg: Package, moved: set<nat>, copied: set<nat>, x: string)
    requires Parts(req, pkg, moved, copied) && WellFormed(pkg)
    requires x in AllRebinds(Derive(req, pkg, moved, copied).remaining)
    ensures x in AllUses(Derive(req, pkg, moved, copied).remaining)
  {
    hide Select, PlanOf, ResolveAll, StateFault, Build;
    var d := Derive(req, pkg, moved, copied);
    var s :| s in d.remaining && x in Rebinds(s);
    PickMember(pkg.init, moved, false, s);
  }

  /** A moved name is bound in `__init__` afterwards exactly when it is re-exported or `__init__` imports it too. */
  lemma MovedNameBound(req: Request, pkg: Package, moved: set<nat>, copied: set<nat>, x: string)
    requires Parts(req, pkg, moved, copied) && WellFormed(pkg) && x in req.names && x != RouterAlias(req.domain)
    ensures x in Bound(PlanOf(req, pkg).newModule)
    ensures x in Bound(PlanOf(req, pkg).newInit) <==> x in Derive(req, pkg, moved, copied).reexport || Imported(pkg.init, x)
  {
    var parts: seq<string> := [];
    MovedNameOrigin(req, pkg, parts, moved, copied, x);
    hide PlanOf, Select, Pick, Derive, Origins;
    NoOrigin(PlanOf(req, pkg).newModule, parts + [req.domain], false, x);
    OriginParts(pkg.init, parts, true, x);
    MovedNameStays(req, pkg, moved, copied, x);
  }

  lemma MovedNameStays(req: Request, pkg: Package, moved: set<nat>, copied: set<nat>, x: string)
    requires Parts(req, pkg, moved, copied) && WellFormed(pkg) && x in req.names && x != RouterAlias(req.domain)
    ensures x in Bound(PlanOf(req, pkg).newInit) <==> x in Derive(req, pkg, moved, copied).reexport || Imported(pkg.init, x)
  {
    var d := Derive(req, pkg, moved, copied);
    var newInit := PlanOf(req, pkg).newInit;
    NewInitSets(req, pkg, moved, copied);
    ImportsStay(req, pkg, moved, copied);
    BoundIn(newInit, x);
    forall s | s in newInit ensures x !in Defines(s) {
      if x in Defines(s) {
        NewInitDefinition(req, pkg, moved, copied, x, s);
        RemainingDefinition(req, pkg, moved, copied, x, s);
      }
    }
    assert x !in Prunable(req, pkg, d);
    assert x in d.reexport ==> Imp(req.domain, 1, Some(x), Some(x)) in Added(req, d);
    hide Select, Pick, PlanOf, Derive, Added, Prunable;
    forall imp | imp in AllImps(newInit) && Binds(imp) == x ensures x in d.reexport || imp in AllImps(pkg.init) {
      AddedBinds(req, d, imp);
    }
  }

  /**
   What code left behind rebinds, and moved code uses, is shared always, built-in
   names aside: no refusal looks at it.
   */
  lemma StayingRebindsShared(req: Request, pkg: Package, moved: set<nat>, copied: set<nat>, x: string)
    requires Parts(req, pkg, moved, copied) && WellFormed(pkg) && Closed(pkg.init, pkg.builtins)
    requires RouterAlias(req.domain) !in pkg.builtins
    requires RebindsStay(Derive(req, pkg, moved, copied), x)
    ensures BoundTwice(req, pkg, x) <==>
      (x in pkg.builtins ==> x == ROUTER || x in req.copies || x in Derive(req, pkg, moved, copied).reexport
                             || (x in req.names && Imported(pkg.init, x)))
  {
    LocalNames(req, pkg, moved, copied);
    StayingUse(req, pkg, moved, copied, x);
    AcceptedFacts(req, pkg, moved, copied);
    hide PlanOf, Select, Pick, ResolveAll, StateFault, PruneAll, MergeLocalImports, NewModule, Bound, WellFormed, Parts;
    if x == ROUTER || x in req.copies {
      CopyBoundTwice(req, pkg, moved, copied, x);
    } else if x !in pkg.builtins {
      RemainingBound(req, pkg, moved, copied, x);
      NewModuleBinds(req, pkg, moved, copied, x);
    } else if x in req.names {
      MovedNameBound(req, pkg, moved, copied, x);
    } else {
      BuiltinUnbound(req, pkg, moved, copied, x);
    }
  }

  /**
   When two modules hold a name that one of them rebinds and the other one uses: if
   moved code rebinds it, exactly for a copied name or the router; if code that stays
   does, always, built-in names aside.
   */
  lemma SharedStateExactly(req: Request, pkg: Package, moved: set<nat>, copied: set<nat>, x: string)
    requires Parts(req, pkg, moved, copied) && WellFormed(pkg) && Closed(pkg.init, pkg.builtins)
    requires RouterAlias(req.domain) !in pkg.builtins
    ensures var d := Derive(req, pkg, moved, copied);
      SharedState(req, pkg, d, x)
      <==> (RebindsMove(pkg, d, x) && (x == ROUTER || x in req.copies))
           || (RebindsStay(d, x)
               && (x in pkg.builtins ==> x == ROUTER || x in req.copies || x in d.reexport
                                         || (x in req.names && Imported(pkg.init, x))))
  {
    var d := Derive(req, pkg, moved, copied);
    hide PlanOf, Derive, WellFormed, RebindsMove, RebindsStay, BoundTwice, Closed;
    if RebindsMove(pkg, d, x) {
      MovedRebindsShared(req, pkg, moved, copied, x);
    }
    if RebindsStay(d, x) {
      StayingRebindsShared(req, pkg, moved, copied, x);
    }
  }

  // ------------------------------------------------------------- what is kept

  /** The statements that are not imports. */
  function Code(stmts: seq<Stmt>): seq<Stmt> {
    if stmts == [] then []
    else Code(stmts[..|stmts| - 1]) + (if IsImport(stmts[|stmts| - 1]) then [] else [stmts[|stmts| - 1]])
  }

  lemma {:induction false} CodeConcat(a: seq<Stmt>, b: seq<Stmt>)
    ensures Code(a + b) == Code(a) + Code(b)
  {
    if b == [] {
      assert a + b == a;
    } else {
      var n := |b| - 1;
      CodeConcat(a, b[..n]);
      assert (a + b)[..|a| + n] == a + b[..n];
    }
  }

  lemma {:induction false} CodeOfImports(stmts: seq<Stmt>)
    requires forall s :: s in stmts ==> IsImport(s)
    ensures Code(stmts) == []
  {
    if stmts != [] {
      CodeOfImports(stmts[..|stmts| - 1]);
    }
  }

  lemma PruneLast(stmts: seq<Stmt>, prunable: set<string>)
    requires stmts != []
    ensures PruneAll(stmts, prunable) == PruneAll(stmts[..|stmts| - 1], prunable) + Prune(stmts[|stmts| - 1], prunable)
  {
    hide Prune;
  }

  lemma NoCode(prunable: set<string>)
    ensures PruneAll([], prunable) == []
  {
  }

  lemma {:induction false} PruneCode(stmts: seq<Stmt>, prunable: set<string>)
    ensures Code(PruneAll(stmts, prunable)) == Code(stmts)
  {
    hide *;
    if stmts == [] {
      NoCode(prunable);
    } else {
      var front, last := stmts[..|stmts| - 1], stmts[|stmts| - 1];
      PruneCode(front, prunable);
      PruneLast(stmts, prunable);
      CodeConcat(PruneAll(front, prunable), Prune(last, prunable));
      PruneOneCode(last, prunable);
      CodeConcat(front, [last]);
      assert front + [last] == stmts;
    }
  }

  lemma PruneOneCode(s: Stmt, prunable: set<string>)
    ensures Code(Prune(s, prunable)) == Code([s])
  {
    CodeOne(s);
    hide Code;
    if s.Import? {
      CodeOfImports(Prune(s, prunable));
    }
  }

  lemma CodeOne(s: Stmt)
    ensures Code([s]) == if IsImport(s) then [] else [s]
  {
    assert Code([s][..0]) == [];
  }

  /**
   Nothing but imports is added, dropped or reordered: the code of the new `__init__`
   is the code that did not move, in file order, followed by the include line; the
   new module ends with the copied and the moved statements, each in file order.
   */
  lemma CodeConserved(req: Request, pkg: Package, moved: set<nat>, copied: set<nat>)
    requires Parts(req, pkg, moved, copied)
    ensures Code(PlanOf(req, pkg).newInit) == Code(Pick(pkg.init, moved, false)) + [IncludeLine(req)]
    ensures Code(PlanOf(req, pkg).newModule)
         == [Definition([ROUTER], {"APIRouter"}, {}, false)] + Pick(pkg.init, copied, true) + Pick(pkg.init, moved, true)
  {
    hide *;
    NewInitCode(req, pkg, moved, copied);
    NewModuleCode(req, pkg, moved, copied);
  }

  lemma MergeCode(stmts: seq<Stmt>, add: set<Imp>)
    requires MergeLocalImports(stmts, add).MergedInto?
    ensures Code(MergeLocalImports(stmts, add).stmts) == Code(stmts)
  {
    hide *;
    var a, b, c := MergeCut(stmts, add);
    CodeOfImports(b);
    CodeConcat(a, b + c);
    CodeConcat(b, c);
    var block := Rendered(add + AllImps(b));
    CodeConcat(a, [block] + c);
    CodeConcat([block], c);
    CodeOne(block);
    assert IsImport(block) by { RenderedIsImport(add + AllImps(b)); }
  }

  lemma RenderedIsImport(block: set<Imp>)
    ensures IsImport(Rendered(block))
  {
  }

  lemma NewInitCode(req: Request, pkg: Package, moved: set<nat>, copied: set<nat>)
    requires Parts(req, pkg, moved, copied)
    ensures Code(PlanOf(req, pkg).newInit) == Code(Pick(pkg.init, moved, false)) + [IncludeLine(req)]
  {
    hide ResolveAll, PruneAll, Select, Pick, PlanOf, StateFault, MergeLocalImports, Code;
    var d := Derive(req, pkg, moved, copied);
    AcceptedFacts(req, pkg, moved, copied);
    var pruned := PruneAll(d.remaining, Prunable(req, pkg, d));
    PruneCode(d.remaining, Prunable(req, pkg, d));
    MergeCode(pruned, Added(req, d));
    CodeConcat(MergeLocalImports(pruned, Added(req, d)).stmts, [IncludeLine(req)]);
    CodeOne(IncludeLine(req));
  }

  lemma {:induction false} CodeOfDefinitions(stmts: seq<Stmt>)
    requires forall s :: s in stmts ==> !IsImport(s)
    ensures Code(stmts) == stmts
  {
    if stmts != [] {
      CodeOfDefinitions(stmts[..|stmts| - 1]);
    }
  }

  lemma PickedCode(stmts: seq<Stmt>, names: seq<string>, positions: set<nat>)
    requires Select(stmts, names) == Chosen(positions)
    ensures Code(Pick(stmts, positions, true)) == Pick(stmts, positions, true)
  {
    hide Select;
    SelectSound(stmts, names, positions);
    forall s | s in Pick(stmts, positions, true) ensures !IsImport(s) {
      PickMember(stmts, positions, true, s);
    }
    CodeOfDefinitions(Pick(stmts, positions, true));
  }

  lemma NewModuleCode(req: Request, pkg: Package, moved: set<nat>, copied: set<nat>)
    requires Parts(req, pkg, moved, copied)
    ensures Code(PlanOf(req, pkg).newModule)
         == [Definition([ROUTER], {"APIRouter"}, {}, false)] + Pick(pkg.init, copied, true) + Pick(pkg.init, moved, true)
  {
    hide ResolveAll, PruneAll, Select, Pick, PlanOf, RouterImport, StateFault, MergeLocalImports;
    var d := Derive(req, pkg, moved, copied);
    AcceptedFacts(req, pkg, moved, copied);
    var front := Rendered(ResolveAll(pkg, d.free - d.local).needed + {RouterImport(pkg.init)});
    var router := Definition([ROUTER], {"APIRouter"}, {}, false);
    assert PlanOf(req, pkg).newModule == (([front] + [router]) + d.copied) + d.moved;
    CodeConcat(([front] + [router]) + d.copied, d.moved);
    CodeConcat([front] + [router], d.copied);
    CodeConcat([front], [router]);
    CodeOne(front);
    CodeOne(router);
    PickedCode(pkg.init, req.names, moved);
    PickedCode(pkg.init, req.copies, copied);
  }
}
