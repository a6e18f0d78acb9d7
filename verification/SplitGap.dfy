/** The gap that the refusals about rebound state leave, on a small package. */
module SplitGap {
  import opened Options
  import opened SplitPlan
  import opened SplitClosure
  import opened SplitOrigins
  import opened SplitReaders

  // from logging import getLogger; from fastapi import APIRouter
  // router = APIRouter()
  // logger = getLogger(...)
  // def f(): global logger; ...
  // a statement that still uses logger

  const IMPORTS := Import([Imp("logging", 0, Some("getLogger"), None), Imp("fastapi", 0, Some("APIRouter"), None)], false, false)
  const ROUTER_DEF := Definition(["router"], {"APIRouter"}, {}, false)
  const LOGGER_DEF := Definition(["logger"], {"getLogger"}, {}, true)
  const F_DEF := Definition(["f"], {"logger"}, {"logger"}, false)
  const READER := Plain({"logger"}, {})
  const INIT := [IMPORTS, ROUTER_DEF, LOGGER_DEF, F_DEF, READER]
  const MOVE_F := Request("d", ["f"], ["logger"])
  const TOY := Package(INIT, map[], "proxy", {}, false, {}, {}, {}, {}, None)

  /** How the functions over a module grow with one more statement. */
  lemma Snoc(front: seq<Stmt>, s: Stmt, positions: set<nat>, inside: bool, name: string)
    ensures Pick(front + [s], positions, inside)
         == Pick(front, positions, inside) + (if (|front| in positions) == inside then [s] else [])
    ensures BindingCount(front + [s], name)
         == BindingCount(front, name) + (if s.Definition? then Occurrences(s.defines, name) else 0)
    ensures ImportsOf(front + [s], name) == ImportsOf(front, name) + (if s.Import? then Binding(s.imps, name) else [])
  {
    assert (front + [s])[..|front|] == front;
  }

  lemma ToyWalk(positions: set<nat>, inside: bool, name: string)
    ensures Pick(INIT, positions, inside)
         == (if (0 in positions) == inside then [IMPORTS] else []) + (if (1 in positions) == inside then [ROUTER_DEF] else [])
            + (if (2 in positions) == inside then [LOGGER_DEF] else []) + (if (3 in positions) == inside then [F_DEF] else [])
            + (if (4 in positions) == inside then [READER] else [])
    ensures BindingCount(INIT, name)
         == Occurrences(["router"], name) + Occurrences(["logger"], name) + Occurrences(["f"], name)
    ensures ImportsOf(INIT, name) == Binding(IMPORTS.imps, name)
  {
    var one, two, three := [] + [IMPORTS], [IMPORTS, ROUTER_DEF], [IMPORTS, ROUTER_DEF, LOGGER_DEF];
    var four := [IMPORTS, ROUTER_DEF, LOGGER_DEF, F_DEF];
    assert two == one + [ROUTER_DEF] && three == two + [LOGGER_DEF] && four == three + [F_DEF] && INIT == four + [READER];
    hide Pick, BindingCount, ImportsOf, Binding, Occurrences;
    Snoc([], IMPORTS, positions, inside, name);
    Snoc(one, ROUTER_DEF, positions, inside, name);
    Snoc(two, LOGGER_DEF, positions, inside, name);
    Snoc(three, F_DEF, positions, inside, name);
    Snoc(four, READER, positions, inside, name);
    Nothing(positions, inside, name);
  }

  lemma Nothing(positions: set<nat>, inside: bool, name: string)
    ensures Pick([], positions, inside) == [] && BindingCount([], name) == 0 && ImportsOf([], name) == []
  {
  }

  lemma ToyDefines(i: nat)
    requires i < |INIT|
    ensures Defines(INIT[i]) == if i == 1 then {"router"} else if i == 2 then {"logger"} else if i == 3 then {"f"} else {}
  {
  }

  lemma ToyFault(name: string, at: nat)
    requires (name == "f" && at == 3) || (name == "logger" && at == 2)
    ensures NameFault(INIT, [name], name).None?
  {
    ToyWalk({}, true, name);
    assert BindingCount(INIT, name) == 1;
    forall i: nat | i in DefinedAt(INIT, name) ensures forall x :: x in Defines(INIT[i]) ==> x in [name] {
      ToyDefines(i);
    }
  }

  /** Selecting one name that exactly one statement of the toy package defines, alone. */
  lemma ToySelect(name: string, at: nat)
    requires (name == "f" && at == 3) || (name == "logger" && at == 2)
    ensures Select(INIT, [name]) == Chosen({at})
  {
    ToyFault(name, at);
    hide BindingCount, NameFault, Defines;
    forall i: nat | i < |INIT| ensures name in Defines(INIT[i]) <==> i == at {
      ToyDefines(i);
    }
    assert INIT[at] in INIT && name in AllDefines(INIT);
    assert FirstFault(INIT, [name], 0).None?;
    assert forall n :: n in [name] <==> n == name;
    var positions := set i: nat | i < |INIT| && exists n :: n in [name] && n in Defines(INIT[i]);
    assert Select(INIT, [name]) == Chosen(positions);
    forall i: nat ensures i in positions <==> i in {at} {
      assert name in [name];
    }
  }

  lemma UsesOfFour(a: Stmt, b: Stmt, c: Stmt, d: Stmt)
    ensures AllUses([a, b, c, d]) == Uses(a) + Uses(b) + Uses(c) + Uses(d)
  {
    var all := [a, b, c, d];
    assert all[0] == a && all[1] == b && all[2] == c && all[3] == d;
    assert a in all && b in all && c in all && d in all;
  }

  lemma ToyRemaining()
    ensures Pick(INIT, {3}, false) == [IMPORTS, ROUTER_DEF, LOGGER_DEF, READER]
    ensures AllUses([IMPORTS, ROUTER_DEF, LOGGER_DEF, READER]) == {"APIRouter", "getLogger", "logger"}
  {
    ToyWalk({3}, false, "");
    UsesOfFour(IMPORTS, ROUTER_DEF, LOGGER_DEF, READER);
    hide AllUses, Pick;
  }

  lemma RebindsOfTwo(a: Stmt, b: Stmt)
    ensures AllRebinds([a]) == Rebinds(a) && AllRebinds([a] + [b]) == Rebinds(a) + Rebinds(b)
    ensures AllUses([a]) == Uses(a) && AllUses([a] + [b]) == Uses(a) + Uses(b)
  {
    var both := [a] + [b];
    assert both[0] == a && both[1] == b;
    assert a in both && b in both;
  }

  lemma ToyMoved()
    ensures Pick(INIT, {3}, true) == [F_DEF] && Pick(INIT, {2}, true) == [LOGGER_DEF]
    ensures AllUses([F_DEF] + [LOGGER_DEF]) == {"logger", "getLogger"}
    ensures AllUses([F_DEF]) == {"logger"}
    ensures AllRebinds([F_DEF]) == AllRebinds([F_DEF] + [LOGGER_DEF]) == {"logger"}
  {
    ToyWalk({3}, true, "");
    ToyWalk({2}, true, "");
    RebindsOfTwo(F_DEF, LOGGER_DEF);
    hide AllUses, AllRebinds, Pick;
  }

  lemma ToyDerived()
    ensures var d := Derive(MOVE_F, TOY, {3}, {2});
      d.moved == [F_DEF] && d.copied == [LOGGER_DEF] && d.remaining == [IMPORTS, ROUTER_DEF, LOGGER_DEF, READER]
      && d.local == {"f", "logger", "router"} && d.free == {"logger", "getLogger"}
      && d.remainingFree == d.stillRead == {"APIRouter", "getLogger", "logger"} && d.reexport == {}
  {
    ToyRemaining();
    ToyMoved();
    hide Pick, AllUses;
    assert Names(MOVE_F.names) == {"f"} && Names(MOVE_F.copies) == {"logger"};
  }

  lemma ToyImports(name: string)
    ensures name == "getLogger" ==> ImportsOf(INIT, name) == [Imp("logging", 0, Some("getLogger"), None)]
    ensures name == "APIRouter" ==> ImportsOf(INIT, name) == [Imp("fastapi", 0, Some("APIRouter"), None)]
    ensures name == "router" || name == "logger" ==> ImportsOf(INIT, name) == []
  {
    ToyWalk({}, true, name);
    assert IMPORTS.imps[1..] == [Imp("fastapi", 0, Some("APIRouter"), None)];
    assert IMPORTS.imps[1..][1..] == [];
  }

  lemma ToyResolves()
    ensures Resolve(TOY, "getLogger").ByImport?
    ensures ResolveAll(TOY, {"getLogger"}).kinds == {}
  {
    ToyImports("getLogger");
    assert ImportsOf(TOY.init, "getLogger") == [Imp("logging", 0, Some("getLogger"), None)];
  }

  lemma ToyStateFault()
    ensures StateFault(MOVE_F, TOY, Derive(MOVE_F, TOY, {3}, {2})).None?
  {
    ToyDerived();
    ToyMoved();
    hide AllRebinds, Derive;
    var d := Derive(MOVE_F, TOY, {3}, {2});
    assert ImportedFree(TOY, d) <= {"getLogger"};
  }

  lemma ToyMerges()
    ensures var d := Derive(MOVE_F, TOY, {3}, {2});
      MergeLocalImports(PruneAll(d.remaining, Prunable(MOVE_F, TOY, d)), Added(MOVE_F, d)).MergedInto?
  {
    ToyDerived();
    ToyMoved();
    hide Derive, AllUses;
    var d := Derive(MOVE_F, TOY, {3}, {2});
    assert Prunable(MOVE_F, TOY, d) == {};
    PruneNothing(d.remaining);
    ToyBlock(Added(MOVE_F, d));
  }

  lemma {:induction false} PruneNothing(stmts: seq<Stmt>)
    ensures PruneAll(stmts, {}) == stmts
  {
    if stmts != [] {
      PruneNothing(stmts[..|stmts| - 1]);
    }
  }

  lemma ToyBlock(add: set<Imp>)
    ensures MergeLocalImports([IMPORTS, ROUTER_DEF, LOGGER_DEF, READER], add).MergedInto?
  {
    var stmts := [IMPORTS, ROUTER_DEF, LOGGER_DEF, READER];
    assert stmts[0..] == stmts && stmts[1..][0] == ROUTER_DEF;
    assert ImportRun(stmts[1..]) == 0;
    assert ImportRun(stmts) == 1;
    var run := stmts[0..1];
    assert run == [IMPORTS];
    assert !IsRelative(IMPORTS);
    assert run[1..] == [];
    assert FirstRelative(run) == 1;
  }

  lemma ToyRequest()
    ensures ValidDomain(MOVE_F.domain) && RequestFault(MOVE_F).None?
  {
    assert Names(MOVE_F.names) == {"f"} && Names(MOVE_F.copies) == {"logger"};
  }

  lemma ToyAccepted()
    ensures Parts(MOVE_F, TOY, {3}, {2})
  {
    hide *;
    ToyRequest();
    ToySelect("f", 3);
    ToySelect("logger", 2);
    ToyResolved();
    ToyStateFault();
    ToyMerges();
    ToyFields();
    CopyableLogger();
    AcceptedIf(MOVE_F, TOY, {3}, {2});
  }

  lemma ToyFields()
    ensures TOY.init == INIT && TOY.target.None? && MOVE_F.names == ["f"] && MOVE_F.copies == ["logger"]
  {
  }

  lemma ToyResolved()
    ensures var d := Derive(MOVE_F, TOY, {3}, {2});
      ResolutionFault(ResolveAll(TOY, d.free - d.local).kinds).None?
  {
    ToyDerived();
    ToyResolves();
    hide Derive, ResolveAll;
    var d := Derive(MOVE_F, TOY, {3}, {2});
    assert d.free - d.local == {"getLogger"};
    NoFault();
  }

  lemma CopyableLogger()
    ensures forall i: nat :: i in {2} && i < |INIT| ==> INIT[i].Definition? && INIT[i].copyable
  {
  }

  lemma NoFault()
    ensures ResolutionFault({}).None?
  {
  }

  /** When nothing refuses it, a plan is accepted. */
  lemma AcceptedIf(req: Request, pkg: Package, moved: set<nat>, copied: set<nat>)
    requires ValidDomain(req.domain) && pkg.target.None? && RequestFault(req).None?
    requires Select(pkg.init, req.names) == Chosen(moved) && Select(pkg.init, req.copies) == Chosen(copied)
    requires forall i: nat :: i in copied && i < |pkg.init| ==> pkg.init[i].Definition? && pkg.init[i].copyable
    requires var d := Derive(req, pkg, moved, copied);
      ResolutionFault(ResolveAll(pkg, d.free - d.local).kinds).None? && StateFault(req, pkg, d).None?
      && MergeLocalImports(PruneAll(d.remaining, Prunable(req, pkg, d)), Added(req, d)).MergedInto?
    ensures Parts(req, pkg, moved, copied)
  {
    hide Select, Derive, ResolveAll, StateFault, PruneAll, MergeLocalImports, Prunable, Added, RequestFault, ValidDomain, ResolutionFault;
  }

  lemma ToyWellFormed()
    ensures WellFormed(TOY)
  {
    ToyImports("APIRouter");
    hide ImportsOf;
    forall s | s in INIT ensures !s.Rendered? && Rebinds(s) <= Uses(s) {
    }
    forall imp | imp in AllImps(INIT) ensures Binds(imp) in {"getLogger", "APIRouter"} {
    }
    forall x | x in AllDefines(INIT) ensures x in {"router", "logger", "f"} {
    }
    assert ROUTER_DEF == INIT[1] && ROUTER_DEF in INIT && ROUTER in Defines(ROUTER_DEF);
  }

  /** The small package meets everything that the theorems about accepted splits ask for. */
  lemma ToyMeetsAll()
    ensures Parts(MOVE_F, TOY, {3}, {2}) && WellFormed(TOY) && Closed(TOY.init, TOY.builtins)
  {
    ToyAccepted();
    ToyWellFormed();
    hide Parts, WellFormed;
    forall x | x in AllUses(INIT) ensures x in Bound(INIT) {
      assert IMPORTS == INIT[0] && LOGGER_DEF == INIT[2];
      assert x in {"getLogger", "APIRouter", "logger"};
      BoundByImp(INIT, IMPORTS, IMPORTS.imps[0]);
      BoundByImp(INIT, IMPORTS, IMPORTS.imps[1]);
      BoundByDefinition(INIT, LOGGER_DEF, "logger");
    }
  }

  lemma PartsAccepted(req: Request, pkg: Package, moved: set<nat>, copied: set<nat>)
    requires Parts(req, pkg, moved, copied)
    ensures PlanOf(req, pkg).Accepted?
  {
    hide PlanOf;
  }

  /**
   A split that the refusals let through: `f` rebinds the copied `logger` in the new
   module, while the code left in `__init__` goes on reading its own.
   */
  lemma CopiedStateShared()
    ensures PlanOf(MOVE_F, TOY).Accepted?
    ensures SharedState(MOVE_F, TOY, Derive(MOVE_F, TOY, {3}, {2}), "logger")
  {
    ToyMeetsAll();
    ToyDerived();
    ToyMoved();
    PartsAccepted(MOVE_F, TOY, {3}, {2});
    assert RouterAlias(MOVE_F.domain) !in TOY.builtins;
    hide Derive, Parts, WellFormed, AllRebinds, AllUses, PlanOf, SharedState, Closed;
    SharedStateExactly(MOVE_F, TOY, {3}, {2}, "logger");
  }
}
