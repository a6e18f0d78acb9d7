/** What an accepted split guarantees: both modules are closed, and names keep their origin. */
module SplitClosure {
  import opened Options
  import opened SplitPlan

  // ------------------------------------------------------------ taking it apart

  /** The selections behind an accepted plan. */
  ghost predicate Parts(req: Request, pkg: Package, moved: set<nat>, copied: set<nat>) {
    PlanOf(req, pkg).Accepted? && RequestFault(req).None?
    && Select(pkg.init, req.names) == Chosen(moved) && Select(pkg.init, req.copies) == Chosen(copied)
    && PlanOf(req, pkg) == Build(req, pkg, Derive(req, pkg, moved, copied))
  }

  lemma PartsExist(req: Request, pkg: Package) returns (moved: set<nat>, copied: set<nat>)
    requires PlanOf(req, pkg).Accepted?
    ensures Parts(req, pkg, moved, copied)
  {
    hide Build, Derive, Select;
    moved, copied := Select(pkg.init, req.names).positions, Select(pkg.init, req.copies).positions;
  }

  /** The facts about an accepted plan that the theorems use. */
  lemma AcceptedFacts(req: Request, pkg: Package, moved: set<nat>, copied: set<nat>)
    requires Parts(req, pkg, moved, copied)
    ensures var d := Derive(req, pkg, moved, copied);
      var resolved := ResolveAll(pkg, d.free - d.local);
      var merged := MergeLocalImports(PruneAll(d.remaining, Prunable(req, pkg, d)), Added(req, d));
      ResolutionFault(resolved.kinds).None? && StateFault(req, pkg, d).None? && merged.MergedInto?
      && PlanOf(req, pkg).newModule == NewModule(pkg, d, resolved.needed)
      && PlanOf(req, pkg).newInit == merged.stmts + [IncludeLine(req)]
  {
    hide Derive, ResolveAll, MergeLocalImports, PruneAll, StateFault, ResolutionFault, NewModule, PlanOf;
  }

  lemma {:induction false} FirstFaultNone(stmts: seq<Stmt>, names: seq<string>, k: nat, name: string)
    requires k <= |names| && FirstFault(stmts, names, k).None? && name in names[k..]
    ensures NameFault(stmts, names, name).None?
    decreases |names| - k
  {
    if name != names[k] {
      FirstFaultNone(stmts, names, k + 1, name);
    }
  }

  lemma SelectedName(stmts: seq<Stmt>, names: seq<string>, n: string)
    requires Select(stmts, names).Chosen? && n in names
    ensures NameFault(stmts, names, n).None?
    ensures exists i :: i in Select(stmts, names).positions && i < |stmts| && n in Defines(stmts[i])
  {
    hide NameFault;
    assert names[0..] == names;
    FirstFaultNone(stmts, names, 0, n);
    assert n in AllDefines(stmts);
    var s :| s in stmts && n in Defines(s);
    var i :| 0 <= i < |stmts| && stmts[i] == s;
    assert i in Select(stmts, names).positions;
  }

  lemma SelectedStatement(stmts: seq<Stmt>, names: seq<string>, i: nat)
    requires Select(stmts, names).Chosen? && i in Select(stmts, names).positions
    ensures i < |stmts| && stmts[i].Definition? && forall x :: x in Defines(stmts[i]) ==> x in names
  {
    hide BindingCount, FirstFault;
    var n :| n in names && n in Defines(stmts[i]);
    SelectedName(stmts, names, n);
    assert i in DefinedAt(stmts, n);
  }

  /** A selection holds whole definitions of listed names, one for each name. */
  lemma SelectSound(stmts: seq<Stmt>, names: seq<string>, positions: set<nat>)
    requires Select(stmts, names) == Chosen(positions)
    ensures forall n :: n in names ==> exists i :: i in positions && i < |stmts| && n in Defines(stmts[i])
    ensures forall i :: i in positions ==>
      i < |stmts| && stmts[i].Definition? && forall x :: x in Defines(stmts[i]) ==> x in names
    ensures forall n :: n in names ==> BindingCount(stmts, n) <= 1
  {
    hide BindingCount, Select;
    forall n | n in names
      ensures BindingCount(stmts, n) <= 1
      ensures exists i :: i in positions && i < |stmts| && n in Defines(stmts[i])
    {
      SelectedName(stmts, names, n);
    }
    forall i | i in positions
      ensures i < |stmts| && stmts[i].Definition? && forall x :: x in Defines(stmts[i]) ==> x in names
    {
      SelectedStatement(stmts, names, i);
    }
  }

  lemma {:induction false} PickMember(stmts: seq<Stmt>, positions: set<nat>, inside: bool, s: Stmt)
    ensures s in Pick(stmts, positions, inside)
            <==> exists i: nat :: i < |stmts| && (i in positions) == inside && stmts[i] == s
  {
    if stmts != [] {
      var n := |stmts| - 1;
      PickMember(stmts[..n], positions, inside, s);
      if s in Pick(stmts[..n], positions, inside) {
        var i: nat :| i < n && (i in positions) == inside && stmts[..n][i] == s;
        assert stmts[i] == s;
      }
      if i: nat :| i < |stmts| && (i in positions) == inside && stmts[i] == s {
        assert i < n ==> stmts[..n][i] == s;
      }
    }
  }

  lemma {:induction false} BindingBinds(imps: seq<Imp>, name: string)
    ensures forall imp :: imp in Binding(imps, name) <==> imp in imps && Binds(imp) == name
  {
    if imps != [] {
      BindingBinds(imps[1..], name);
      assert imps == [imps[0]] + imps[1..];
    }
  }

  /** The imports found for a name are the imports that bind it. */
  lemma {:induction false} ImportsOfBinds(stmts: seq<Stmt>, name: string, imp: Imp)
    ensures imp in ImportsOf(stmts, name)
            <==> Binds(imp) == name && exists s :: s in stmts && s.Import? && imp in Imps(s)
  {
    if stmts != [] {
      var front, last := stmts[..|stmts| - 1], stmts[|stmts| - 1];
      ImportsOfBinds(front, name, imp);
      if last.Import? {
        BindingBinds(last.imps, name);
      }
      assert stmts == front + [last];
    }
  }

  lemma ResolveBinds(pkg: Package, name: string)
    requires Resolve(pkg, name).ByImport?
    ensures Resolve(pkg, name).imps != {}
    ensures forall imp :: imp in Resolve(pkg, name).imps ==> Binds(imp) == name
  {
    var found := ImportsOf(pkg.init, name);
    if found != [] {
      assert Normal(found[0]) in Resolve(pkg, name).imps;
      forall imp | imp in found ensures Binds(Normal(imp)) == name {
        ImportsOfBinds(pkg.init, name, imp);
      }
    }
  }

  /** No failure was met, so every name resolved by import. */
  lemma AllResolved(pkg: Package, names: set<string>)
    requires ResolutionFault(ResolveAll(pkg, names).kinds).None?
    ensures forall x :: x in names ==> Resolve(pkg, x).ByImport?
  {
    hide Resolve;
    var kinds := ResolveAll(pkg, names).kinds;
    forall x | x in names ensures Resolve(pkg, x).ByImport? || Resolve(pkg, x) in kinds {
    }
  }

  lemma RouterImportBinds(stmts: seq<Stmt>)
    ensures Binds(RouterImport(stmts)) == "APIRouter"
  {
    var imps := ImportsOf(stmts, "APIRouter");
    if imps != [] {
      ImportsOfBinds(stmts, "APIRouter", imps[|imps| - 1]);
    }
  }

  lemma BoundByImp(stmts: seq<Stmt>, s: Stmt, imp: Imp)
    requires s in stmts && imp in Imps(s)
    ensures Binds(imp) in Bound(stmts)
  {
    assert imp in AllImps(stmts);
  }

  lemma BoundByDefinition(stmts: seq<Stmt>, s: Stmt, x: string)
    requires s in stmts && x in Defines(s)
    ensures x in Bound(stmts)
  {
    assert x in AllDefines(stmts);
  }

  // ---------------------------------------------------------- the new module

  /** The new module is closed: every accepted split leaves no name unbound in it. */
  lemma NewModuleClosed(req: Request, pkg: Package)
    requires PlanOf(req, pkg).Accepted?
    ensures Closed(PlanOf(req, pkg).newModule, pkg.builtins)
  {
    var moved, copied := PartsExist(req, pkg);
    AcceptedFacts(req, pkg, moved, copied);
    var d := Derive(req, pkg, moved, copied);
    var needed := ResolveAll(pkg, d.free - d.local).needed;
    forall x | x in AllUses(NewModule(pkg, d, needed)) - pkg.builtins
      ensures x in Bound(NewModule(pkg, d, needed))
    {
      hide PlanOf, Derive, ResolveAll, Select, Resolve, RouterImport, StateFault, Bound, MergeLocalImports, PruneAll;
      NewModuleUse(pkg, d, needed, x);
      if x == "APIRouter" {
        BoundRouterClass(pkg, d, needed);
      } else {
        NewModuleBinds(req, pkg, moved, copied, x);
      }
    }
  }

  /** A name used in the new module is used by moved or copied code, or is the router class. */
  lemma NewModuleUse(pkg: Package, d: Derived, needed: set<Imp>, x: string)
    requires x in AllUses(NewModule(pkg, d, needed))
    ensures x == "APIRouter" || x in AllUses(d.moved + d.copied)
  {
    var built := NewModule(pkg, d, needed);
    var s :| s in built && x in Uses(s);
    if s in d.copied || s in d.moved {
      assert s in d.moved + d.copied;
    }
  }

  lemma BoundRouterClass(pkg: Package, d: Derived, needed: set<Imp>)
    ensures "APIRouter" in Bound(NewModule(pkg, d, needed))
  {
    var built := NewModule(pkg, d, needed);
    RouterImportBinds(pkg.init);
    assert built[0] in built;
    BoundByImp(built, built[0], RouterImport(pkg.init));
  }

  lemma NewModuleBinds(req: Request, pkg: Package, moved: set<nat>, copied: set<nat>, x: string)
    requires Parts(req, pkg, moved, copied)
    requires var d := Derive(req, pkg, moved, copied); x in d.free
    ensures var d := Derive(req, pkg, moved, copied);
      x in Bound(NewModule(pkg, d, ResolveAll(pkg, d.free - d.local).needed))
  {
    hide RouterImport, Bound, Select, Resolve, RequestFault, MergeLocalImports, PruneAll;
    var d := Derive(req, pkg, moved, copied);
    var needed := ResolveAll(pkg, d.free - d.local).needed;
    var built := NewModule(pkg, d, needed);
    AcceptedFacts(req, pkg, moved, copied);
    if x == ROUTER {
      assert built[1] in built;
      BoundByDefinition(built, built[1], x);
    } else if x in req.names {
      SelectedBound(pkg.init, req.names, moved, x);
      var s :| s in d.moved && x in Defines(s);
      assert s in built;
      BoundByDefinition(built, s, x);
    } else if x in req.copies {
      SelectedBound(pkg.init, req.copies, copied, x);
      var s :| s in d.copied && x in Defines(s);
      assert s in built;
      BoundByDefinition(built, s, x);
    } else {
      assert x in d.free - d.local;
      AllResolved(pkg, d.free - d.local);
      ResolveBinds(pkg, x);
      var imp :| imp in Resolve(pkg, x).imps;
      assert imp in needed;
      assert built[0] in built;
      BoundByImp(built, built[0], imp);
    }
  }

  lemma SelectedBound(stmts: seq<Stmt>, names: seq<string>, positions: set<nat>, x: string)
    requires Select(stmts, names) == Chosen(positions) && x in names
    ensures exists s :: s in Pick(stmts, positions, true) && x in Defines(s)
  {
    SelectSound(stmts, names, positions);
    var i :| i in positions && i < |stmts| && x in Defines(stmts[i]);
    PickMember(stmts, positions, true, stmts[i]);
  }

  // --------------------------------------------------- the remaining __init__

  lemma ConcatSets(a: seq<Stmt>, b: seq<Stmt>)
    ensures AllImps(a + b) == AllImps(a) + AllImps(b)
    ensures AllUses(a + b) == AllUses(a) + AllUses(b)
    ensures AllDefines(a + b) == AllDefines(a) + AllDefines(b)
  {
    assert forall s :: s in a + b <==> s in a || s in b;
  }

  lemma SingleSets(s: Stmt)
    ensures AllImps([s]) == Imps(s) && AllUses([s]) == Uses(s) && AllDefines([s]) == Defines(s)
  {
    assert s in [s];
  }

  lemma ImportsOnly(stmts: seq<Stmt>)
    requires forall s :: s in stmts ==> IsImport(s)
    ensures AllUses(stmts) == {} && AllDefines(stmts) == {}
  {
  }

  /** How merging cuts the statements: what it keeps before, the imports it replaces, what it keeps after. */
  lemma MergeCut(stmts: seq<Stmt>, add: set<Imp>) returns (a: seq<Stmt>, b: seq<Stmt>, c: seq<Stmt>)
    requires MergeLocalImports(stmts, add).MergedInto?
    ensures stmts == a + (b + c) && forall s :: s in b ==> IsImport(s)
    ensures MergeLocalImports(stmts, add).stmts == a + ([Rendered(add + AllImps(b))] + c)
  {
    hide IsRelative, AllImps;
    var start := if stmts != [] && stmts[0].Docstring? then 1 else 0;
    var length := ImportRun(stmts[start..]);
    var run := stmts[start..start + length];
    var cut := FirstRelative(run);
    a, b, c := stmts[..start + cut], run[cut..], stmts[start + |run|..];
    hide ImportRun, FirstRelative, IsImport;
    CutInThree(stmts, start, length, cut);
    RunOfImports(stmts[start..], cut, b);
  }

  lemma CutInThree(stmts: seq<Stmt>, start: nat, length: nat, cut: nat)
    requires start + length <= |stmts| && cut <= length
    ensures stmts == stmts[..start + cut] + (stmts[start..start + length][cut..] + stmts[start + length..])
    ensures stmts[start..start + length] == stmts[start..][..length]
  {
  }

  lemma RunOfImports(stmts: seq<Stmt>, cut: nat, b: seq<Stmt>)
    requires cut <= ImportRun(stmts) && b == stmts[..ImportRun(stmts)][cut..]
    ensures forall s :: s in b ==> IsImport(s)
  {
    forall s | s in b ensures IsImport(s) {
      var i :| 0 <= i < |b| && b[i] == s;
      assert s == stmts[cut + i];
    }
  }

  /** Merging local imports adds imports and changes nothing else. */
  lemma MergeKeeps(stmts: seq<Stmt>, add: set<Imp>)
    requires MergeLocalImports(stmts, add).MergedInto?
    ensures var merged := MergeLocalImports(stmts, add).stmts;
      AllImps(merged) == AllImps(stmts) + add && AllUses(merged) == AllUses(stmts) && AllDefines(merged) == AllDefines(stmts)
  {
    hide *;
    var a, b, c := MergeCut(stmts, add);
    var block := Rendered(add + AllImps(b));
    ImportsOnly(b);
    SingleSets(block);
    ConcatSets(a, b + c);
    ConcatSets(b, c);
    ConcatSets(a, [block] + c);
    ConcatSets([block], c);
    RenderedSets(add + AllImps(b));
  }

  lemma RenderedSets(block: set<Imp>)
    ensures Imps(Rendered(block)) == block && Uses(Rendered(block)) == {} && Defines(Rendered(block)) == {}
  {
  }

  lemma PruneOne(s: Stmt, prunable: set<string>)
    ensures AllUses(Prune(s, prunable)) == Uses(s) && AllDefines(Prune(s, prunable)) == Defines(s)
    ensures AllImps(Prune(s, prunable)) <= Imps(s)
    ensures forall imp :: imp in Imps(s) && Binds(imp) !in prunable ==> imp in AllImps(Prune(s, prunable))
  {
    SingleSets(s);
    if s.Import? {
      SingleSets(s.(imps := KeptImps(s.imps, prunable)));
    }
  }

  /** Pruning cuts imports that bind prunable names and changes nothing else. */
  lemma {:induction false} PruneKeeps(stmts: seq<Stmt>, prunable: set<string>)
    ensures AllUses(PruneAll(stmts, prunable)) == AllUses(stmts)
    ensures AllDefines(PruneAll(stmts, prunable)) == AllDefines(stmts)
    ensures AllImps(PruneAll(stmts, prunable)) <= AllImps(stmts)
    ensures forall imp :: imp in AllImps(stmts) && Binds(imp) !in prunable ==> imp in AllImps(PruneAll(stmts, prunable))
  {
    if stmts != [] {
      hide AllImps, AllUses, AllDefines, Prune;
      var front, last := stmts[..|stmts| - 1], stmts[|stmts| - 1];
      assert stmts == front + [last];
      PruneKeeps(front, prunable);
      PruneOne(last, prunable);
      ConcatSets(front, [last]);
      SingleSets(last);
      ConcatSets(PruneAll(front, prunable), Prune(last, prunable));
    }
  }

  /** What the new `__init__` imports, uses and defines. */
  lemma NewInitSets(req: Request, pkg: Package, moved: set<nat>, copied: set<nat>)
    requires Parts(req, pkg, moved, copied)
    ensures var d := Derive(req, pkg, moved, copied);
      var newInit := PlanOf(req, pkg).newInit;
      AllUses(newInit) == AllUses(d.remaining) + {ROUTER, RouterAlias(req.domain)}
      && AllDefines(newInit) == AllDefines(d.remaining)
      && AllImps(newInit) <= AllImps(d.remaining) + Added(req, d)
      && Added(req, d) <= AllImps(newInit)
      && forall imp :: imp in AllImps(d.remaining) && Binds(imp) !in Prunable(req, pkg, d) ==> imp in AllImps(newInit)
  {
    AcceptedFacts(req, pkg, moved, copied);
    var d := Derive(req, pkg, moved, copied);
    var pruned := PruneAll(d.remaining, Prunable(req, pkg, d));
    var merged := MergeLocalImports(pruned, Added(req, d)).stmts;
    IncludeSets(req);
    hide *;
    PruneKeeps(d.remaining, Prunable(req, pkg, d));
    MergeKeeps(pruned, Added(req, d));
    ConcatSets(merged, [IncludeLine(req)]);
    SingleSets(IncludeLine(req));
  }

  lemma IncludeSets(req: Request)
    ensures Uses(IncludeLine(req)) == {ROUTER, RouterAlias(req.domain)}
    ensures Imps(IncludeLine(req)) == {} && Defines(IncludeLine(req)) == {}
  {
  }

  lemma BoundIn(stmts: seq<Stmt>, x: string)
    ensures x in Bound(stmts) <==> x in AllDefines(stmts) || exists imp :: imp in AllImps(stmts) && Binds(imp) == x
  {
  }

  /** A definition of an unlisted name stays in `__init__`. */
  lemma DefinitionStays(req: Request, pkg: Package, moved: set<nat>, copied: set<nat>, x: string)
    requires Parts(req, pkg, moved, copied) && x !in req.names
    ensures var d := Derive(req, pkg, moved, copied);
      forall s :: s in pkg.init && x in Defines(s) ==> s in d.remaining
  {
    hide Select, Pick, PlanOf, Build;
    SelectSound(pkg.init, req.names, moved);
    forall s | s in pkg.init && x in Defines(s) ensures s in Pick(pkg.init, moved, false) {
      var i: nat :| i < |pkg.init| && pkg.init[i] == s;
      PickMember(pkg.init, moved, false, s);
    }
  }

  /** Imports are never moved. */
  lemma ImportsStay(req: Request, pkg: Package, moved: set<nat>, copied: set<nat>)
    requires Parts(req, pkg, moved, copied)
    ensures AllImps(Derive(req, pkg, moved, copied).remaining) == AllImps(pkg.init)
  {
    hide Select, Pick, PlanOf, Build;
    SelectSound(pkg.init, req.names, moved);
    var remaining := Pick(pkg.init, moved, false);
    forall s ensures s in remaining ==> s in pkg.init
      ensures s in pkg.init && Imps(s) != {} ==> s in remaining
    {
      PickMember(pkg.init, moved, false, s);
      if s in pkg.init && Imps(s) != {} {
        var i: nat :| i < |pkg.init| && pkg.init[i] == s;
        assert i !in moved;
      }
    }
  }

  /** A closed `__init__` that defines its router stays closed. */
  lemma NewInitClosed(req: Request, pkg: Package)
    requires PlanOf(req, pkg).Accepted?
    requires Closed(pkg.init, pkg.builtins) && ROUTER in AllDefines(pkg.init)
    ensures Closed(PlanOf(req, pkg).newInit, pkg.builtins)
  {
    var moved, copied := PartsExist(req, pkg);
    var d := Derive(req, pkg, moved, copied);
    var newInit := PlanOf(req, pkg).newInit;
    NewInitSets(req, pkg, moved, copied);
    forall x | x in AllUses(newInit) - pkg.builtins ensures x in Bound(newInit) {
      hide PlanOf, Prunable, RouterAlias, Select, Pick;
      BoundIn(newInit, x);
      if x == RouterAlias(req.domain) {
        assert Imp(req.domain, 1, Some(ROUTER), Some(x)) in Added(req, d);
      } else if x == ROUTER {
        var s :| s in pkg.init && x in Defines(s);
        DefinitionStays(req, pkg, moved, copied, x);
      } else {
        assert x in AllUses(d.remaining);
        RemainingBound(req, pkg, moved, copied, x);
      }
    }
  }

  lemma RemainingUse(req: Request, pkg: Package, moved: set<nat>, copied: set<nat>, x: string)
    requires Parts(req, pkg, moved, copied) && x in AllUses(Derive(req, pkg, moved, copied).remaining)
    ensures x in AllUses(pkg.init)
  {
    var s :| s in Pick(pkg.init, moved, false) && x in Uses(s);
    PickMember(pkg.init, moved, false, s);
  }

  lemma RemainingBound(req: Request, pkg: Package, moved: set<nat>, copied: set<nat>, x: string)
    requires Parts(req, pkg, moved, copied) && Closed(pkg.init, pkg.builtins)
    requires x in AllUses(Derive(req, pkg, moved, copied).remaining) - pkg.builtins
    ensures x in Bound(PlanOf(req, pkg).newInit)
  {
    RemainingUse(req, pkg, moved, copied, x);
    StaysBound(req, pkg, moved, copied, x);
  }

  /** A name that remaining code uses, as far as the analysis tells, stays bound. */
  lemma StaysBound(req: Request, pkg: Package, moved: set<nat>, copied: set<nat>, x: string)
    requires Parts(req, pkg, moved, copied) && x in Bound(pkg.init)
    requires x in AllUses(Derive(req, pkg, moved, copied).remaining) - pkg.builtins
    ensures x in Bound(PlanOf(req, pkg).newInit)
  {
    var d := Derive(req, pkg, moved, copied);
    var newInit := PlanOf(req, pkg).newInit;
    NewInitSets(req, pkg, moved, copied);
    ImportsStay(req, pkg, moved, copied);
    hide PlanOf, RouterAlias, Select, Pick, RequestFault;
    BoundIn(newInit, x);
    BoundIn(pkg.init, x);
    if x in req.names {
      var imp := Imp(req.domain, 1, Some(x), Some(x));
      assert imp in Added(req, d) && Binds(imp) == x;
    } else if x in AllDefines(pkg.init) {
      var s :| s in pkg.init && x in Defines(s);
      DefinitionStays(req, pkg, moved, copied, x);
    } else {
      var imp :| imp in AllImps(pkg.init) && Binds(imp) == x;
      assert x !in Prunable(req, pkg, d);
    }
  }
}
