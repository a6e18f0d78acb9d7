/** Splits that are accepted although they change what a name means, share state or leave a name unbound. */
module SplitOversights {
  import opened Options
  import opened SplitPlan
  import opened SplitClosure
  import opened SplitOrigins
  import opened SplitReaders
  import opened SplitToys
  import PythonScopes
  import FreeNames
  import ScopeAgreement
  import ScopeGaps
  import SplitSources

  // ------------------------------------------- def g(): global getLogger; ...  def f(): getLogger(...); open(...)

  const OPEN_DEF := Definition(["open"], {}, {}, false)
  const G_DEF := Definition(["g"], {"getLogger"}, {"getLogger"}, false)
  const F_DEF := Definition(["f"], {"getLogger", "open"}, {}, false)
  const SHADOWING := Toy(OPEN_DEF, G_DEF, F_DEF, {"open"})

  lemma ShadowingMeetsAll()
    ensures Parts(Move("f"), SHADOWING, {4}, {}) && PlanOf(Move("f"), SHADOWING).Accepted?
    ensures WellFormed(SHADOWING) && Closed(SHADOWING.init, SHADOWING.builtins) && RouterAlias(Move("f").domain) !in SHADOWING.builtins
    ensures Movable(OPEN_DEF, G_DEF, F_DEF, "f", {"open"})
  {
    assert Movable(OPEN_DEF, G_DEF, F_DEF, "f", {"open"});
    hide *;
    ToyParts(OPEN_DEF, G_DEF, F_DEF, "f", {"open"});
    ToyWellFormed(OPEN_DEF, G_DEF, F_DEF, "f", {"open"});
    ShadowingFields();
    ToyClosed(OPEN_DEF, G_DEF, F_DEF, {"open"});
  }

  lemma ShadowingFields()
    ensures Uses(OPEN_DEF) + Uses(G_DEF) + Uses(F_DEF) - {"open"} <= {"getLogger"}
    ensures SHADOWING == Toy(OPEN_DEF, G_DEF, F_DEF, {"open"})
    ensures SHADOWING.init == Init(OPEN_DEF, G_DEF, F_DEF) && SHADOWING.builtins == {"open"} && Move("f").domain == "d"
    ensures "_d_router" !in {"open"}
  {
    assert 'o' != '_' && "open"[0] == 'o' && "_d_router"[0] == '_';
  }

  lemma ShadowingDerived()
    ensures var d := Derive(Move("f"), SHADOWING, {4}, {});
      d.moved + d.copied == d.moved == [F_DEF] && d.local == {"f", ROUTER} && d.reexport == {}
    ensures AllUses([F_DEF]) == {"getLogger", "open"}
    ensures "getLogger" in AllRebinds(Derive(Move("f"), SHADOWING, {4}, {}).remaining)
  {
    ShadowingMeetsAll();
    ToyDerived(OPEN_DEF, G_DEF, F_DEF, "f", {"open"});
    SetsOfOne(F_DEF);
    SetsOfFour(IMPORTS, ROUTER_DEF, OPEN_DEF, G_DEF);
    hide Derive, AllUses, AllRebinds, AllDefines;
  }

  /**
   `g`, which stays, rebinds the imported `getLogger`; `f`, which moves, goes on with
   an import of its own. The split is accepted, with nothing copied.
   */
  lemma StayingStateShared()
    ensures PlanOf(Move("f"), SHADOWING).Accepted?
    ensures SharedState(Move("f"), SHADOWING, Derive(Move("f"), SHADOWING, {4}, {}), "getLogger")
  {
    ShadowingMeetsAll();
    ShadowingDerived();
    hide Derive, Parts, WellFormed, AllRebinds, AllUses, PlanOf, SharedState, Closed;
    SharedStateExactly(Move("f"), SHADOWING, {4}, {}, "getLogger");
  }

  /** `f` called the `open` of the module, which the new module does not bind: it calls the built-in one. */
  lemma ShadowedBuiltinLost(parts: seq<string>)
    ensures PlanOf(Move("f"), SHADOWING).Accepted? && "open" in AllUses(Derive(Move("f"), SHADOWING, {4}, {}).moved)
    ensures "open" !in Bound(PlanOf(Move("f"), SHADOWING).newModule)
    ensures Origins(PlanOf(Move("f"), SHADOWING).newModule, parts + ["d"], false, "open") != Origins(SHADOWING.init, parts, true, "open")
  {
    ShadowingMeetsAll();
    ShadowingDerived();
    ToyBound(OPEN_DEF, G_DEF, F_DEF, "open");
    hide Derive, Parts, WellFormed, AllUses, PlanOf, Closed, Origins, Bound;
    BuiltinUnbound(Move("f"), SHADOWING, {4}, {}, "open");
    NoOrigin(PlanOf(Move("f"), SHADOWING).newModule, parts + ["d"], false, "open");
    NoOrigin(SHADOWING.init, parts, true, "open");
  }

  // ------------------------------------------- getLogger imported and then defined; def g(): getLogger(...)

  const LOGGER_DEF := Definition(["getLogger"], {}, {}, false)
  const USER := Plain({"getLogger"}, {})
  const MOVER := Definition(["f"], {"getLogger"}, {}, false)
  const REDEFINED := Toy(LOGGER_DEF, USER, MOVER, {})

  lemma RedefinedMeetsAll()
    ensures Parts(Move("f"), REDEFINED, {4}, {}) && PlanOf(Move("f"), REDEFINED).Accepted?
    ensures WellFormed(REDEFINED) && Closed(REDEFINED.init, REDEFINED.builtins)
    ensures Movable(LOGGER_DEF, USER, MOVER, "f", {})
  {
    assert Movable(LOGGER_DEF, USER, MOVER, "f", {});
    hide *;
    ToyParts(LOGGER_DEF, USER, MOVER, "f", {});
    ToyWellFormed(LOGGER_DEF, USER, MOVER, "f", {});
    RedefinedFields();
    ToyClosed(LOGGER_DEF, USER, MOVER, {});
  }

  lemma RedefinedFields()
    ensures Uses(LOGGER_DEF) + Uses(USER) + Uses(MOVER) - {} <= {"getLogger"}
    ensures REDEFINED == Toy(LOGGER_DEF, USER, MOVER, {})
    ensures REDEFINED.init == Init(LOGGER_DEF, USER, MOVER) && REDEFINED.builtins == {}
  {
  }

  lemma RedefinedTwice()
    ensures TwoBindings(REDEFINED.init, "getLogger")
  {
    var init := REDEFINED.init;
    assert init[0] == IMPORTS && init[2] == LOGGER_DEF && LOGGER_DEF in init && IMPORTS in init;
    assert "getLogger" in Defines(LOGGER_DEF);
    assert IMPORTS.imps[0] in Imps(IMPORTS) && Binds(IMPORTS.imps[0]) == "getLogger";
    assert IMPORTS.imps[0] in AllImps(init);
  }

  lemma RedefinedUse()
    ensures var d := Derive(Move("f"), REDEFINED, {4}, {}); "getLogger" in AllUses(d.moved + d.copied)
  {
    RedefinedMeetsAll();
    ToyDerived(LOGGER_DEF, USER, MOVER, "f", {});
    SetsOfOne(MOVER);
    hide Derive, AllUses;
  }

  /** `f` used the definition that stays behind, and is given the import: the split is not refused. */
  lemma RedefinedImportTaken(parts: seq<string>)
    ensures PlanOf(Move("f"), REDEFINED).Accepted? && "getLogger" in AllDefines(REDEFINED.init)
    ensures Origins(PlanOf(Move("f"), REDEFINED).newModule, parts + ["d"], false, "getLogger")
            != Origins(REDEFINED.init, parts, true, "getLogger")
  {
    RedefinedMeetsAll();
    RedefinedTwice();
    RedefinedUse();
    assert Move("f").domain == "d" && Move("f").copies == [];
    hide Derive, Parts, WellFormed, AllUses, PlanOf, Closed, Origins, Bound, Imported, AllDefines;
    KeepsOrigin(Move("f"), REDEFINED, parts, {4}, {}, "getLogger");
  }

  // ------------------------------------------- x = 0; class C: y = x; x = 1

  const X_SOURCE := SplitSources.Source(PythonScopes.Name("x", PythonScopes.Store), ["x"], false)
  const C_SOURCE := SplitSources.Source(ScopeGaps.EARLY, ["C"], false)
  const NEUTRAL := SplitSources.Source(PythonScopes.Str([]), [], false)

  lemma EarlyStmts()
    ensures SplitSources.StmtOf(X_SOURCE) == Definition(["x"], {}, {}, false)
    ensures SplitSources.StmtOf(C_SOURCE) == Definition(["C"], {}, {}, false)
    ensures SplitSources.StmtOf(NEUTRAL) == Plain({}, {})
  {
    EarlyUses();
    assert PythonScopes.DeclaredGlobal(NEUTRAL.code) == {};
    hide FreeNames.FreeAll, PythonScopes.DeclaredGlobalAll, ScopeGaps.EARLY;
  }

  lemma EarlyUses()
    ensures FreeNames.Free(ScopeGaps.EARLY, []) == {} && PythonScopes.DeclaredGlobal(ScopeGaps.EARLY) == {}
    ensures forall x :: SplitSources.Needs(ScopeGaps.EARLY, x) <==> x == "x"
  {
    ScopeGaps.EarlyGrammatical();
    ScopeGaps.EarlyReads();
    ScopeGaps.AllGrammatical(ScopeGaps.EARLY, ScopeGaps.EARLY);
    ScopeGaps.ReadTwo(ScopeGaps.EARLY, ScopeGaps.EARLY, []);
    hide FreeNames.Free, FreeNames.FreeAll, PythonScopes.Reads, PythonScopes.ReadAll, PythonScopes.DeclaredGlobal,
      PythonScopes.DeclaredGlobalAll, ScopeAgreement.Grammatical, ScopeAgreement.GrammaticalAll;
    var r := PythonScopes.Read("x", ScopeGaps.ClassChain({}), false);
    assert r in PythonScopes.Reads(ScopeGaps.EARLY, []);
    assert ScopeAgreement.Visible(r.chain, 0) && "x" in r.chain[0].locals - r.chain[0].tucked;
    forall x ensures x !in FreeNames.Free(ScopeGaps.EARLY, []) {
      ScopeAgreement.Agree(x, ScopeGaps.EARLY, []);
    }
  }

  function Early(): Package {
    Toy(SplitSources.StmtOf(X_SOURCE), SplitSources.StmtOf(NEUTRAL), SplitSources.StmtOf(C_SOURCE), {})
  }

  /** The class needs `x`, which its module defined; the new module does not bind it, and nothing refuses the split. */
  lemma EarlyReadUnbound()
    ensures PlanOf(Move("C"), Early()).Accepted? && Early().init[4] == SplitSources.StmtOf(C_SOURCE)
    ensures SplitSources.Needs(C_SOURCE.code, "x") && "x" in Bound(Early().init) && Early().builtins == {}
    ensures "x" !in Bound(PlanOf(Move("C"), Early()).newModule)
  {
    EarlyStmts();
    EarlyUses();
    hide SplitSources.StmtOf, SplitSources.Needs, FreeNames.Free, PythonScopes.DeclaredGlobal;
    var a, b, m := Definition(["x"], {}, {}, false), Plain({}, {}), Definition(["C"], {}, {}, false);
    assert Early() == Toy(a, b, m, {}) && Movable(a, b, m, "C", {});
    ToyBound(a, b, m, "x");
    ToyParts(a, b, m, "C", {});
    Unneeded(a, b, m, "C", {}, "x");
  }

  /** What moved code does not use, and the split does not name, is not bound in the new module. */
  lemma Unneeded(a: Stmt, b: Stmt, m: Stmt, name: string, builtins: set<string>, x: string)
    requires Movable(a, b, m, name, builtins) && x !in m.uses && x !in {name, ROUTER, "APIRouter"}
    ensures PlanOf(Move(name), Toy(a, b, m, builtins)).Accepted?
    ensures x !in Bound(PlanOf(Move(name), Toy(a, b, m, builtins)).newModule)
  {
    var req, pkg := Move(name), Toy(a, b, m, builtins);
    ToyParts(a, b, m, name, builtins);
    ToyDerived(a, b, m, name, builtins);
    ToyNames(name);
    assert m.uses - builtins <= m.uses && ROUTER == "router";
    hide *;
    NewModuleBindsOnly(req, pkg, {4}, {}, x);
  }

  lemma ToyNames(name: string)
    ensures forall n :: n in Move(name).names + Move(name).copies <==> n == name
  {
  }

  // ------------------------------------------- count = 0; count += 1

  const COUNT_SOURCE := SplitSources.Source(PythonScopes.Name("count", PythonScopes.Store), ["count"], false)
  const PLUS_SOURCE := SplitSources.Source(ScopeGaps.COUNTING, [], false)

  lemma CountStmts()
    ensures SplitSources.StmtOf(COUNT_SOURCE) == Definition(["count"], {}, {}, false)
    ensures SplitSources.StmtOf(PLUS_SOURCE) == Plain({}, {}) && SplitSources.Needs(PLUS_SOURCE.code, "count")
  {
    assert PythonScopes.Read("count", [], true) in PythonScopes.Reads(ScopeGaps.COUNTING, []);
  }

  function Counting(): Package {
    Toy(SplitSources.StmtOf(PLUS_SOURCE), SplitSources.StmtOf(NEUTRAL), SplitSources.StmtOf(COUNT_SOURCE), {})
  }

  /** The definition of `count` moves, and `count += 1` stays: the new `__init__` does not bind what it needs. */
  lemma AugmentedLeftUnbound()
    ensures PlanOf(Move("count"), Counting()).Accepted? && Counting().init[2] == SplitSources.StmtOf(PLUS_SOURCE)
    ensures SplitSources.Needs(PLUS_SOURCE.code, "count") && "count" in Bound(Counting().init) && Counting().builtins == {}
    ensures "count" !in Bound(PlanOf(Move("count"), Counting()).newInit)
  {
    CountToy();
    CountStmts();
    hide *;
    var a, b, m := Plain({}, {}), Plain({}, {}), Definition(["count"], {}, {}, false);
    ToyBound(a, b, m, "count");
    ToyParts(a, b, m, "count", {});
    ToyWellFormed(a, b, m, "count", {});
    ToyDerived(a, b, m, "count", {});
    NotImported(a, b, m, "count");
    MovedNameBound(Move("count"), Counting(), {4}, {}, "count");
  }

  lemma CountToy()
    ensures var a, b, m := Plain({}, {}), Plain({}, {}), Definition(["count"], {}, {}, false);
      Counting() == Toy(a, b, m, {}) && Movable(a, b, m, "count", {}) && Counting().init == Init(a, b, m)
      && "count" in Defines(m) && Init(a, b, m)[2] == a
    ensures Counting().builtins == {} && "count" in Move("count").names && "count" != RouterAlias(Move("count").domain)
  {
    CountStmts();
    EarlyStmts();
    hide SplitSources.StmtOf, SplitSources.Needs;
    assert Move("count").domain == "d" && "count"[0] != '_' && RouterAlias("d")[0] == '_';
  }

  lemma NotImported(a: Stmt, b: Stmt, m: Stmt, x: string)
    requires !a.Import? && !b.Import? && !m.Import? && !a.Rendered? && !b.Rendered? && !m.Rendered?
    requires x !in {"getLogger", "APIRouter"}
    ensures !Imported(Init(a, b, m), x)
  {
  }
}
