/**
 Where names come from before and after a split: moved code, code left behind and
 readers of the package resolve their names to the same place, and rebound state is
 not held twice. The exact exceptions are part of the statements.
 */
module SplitOrigins {
  import opened Options
  import opened SplitPlan
  import opened SplitClosure

  // ------------------------------------------------------------------- origins

  /** The module an import reads: absolute, or relative to a package; `OutOfRange` leaves the root. */
  datatype Source = Absolute(path: string) | Relative(base: seq<string>, path: string) | OutOfRange

  /** Resolving an import against the dotted parts of the module it stands in. */
  function ImportSource(imp: Imp, parts: seq<string>, isPackage: bool): Source
    requires isPackage || parts != []
  {
    if imp.level == 0 then Absolute(imp.path)
    else
      var base := if isPackage then parts else parts[..|parts| - 1];
      var drop := imp.level - 1;
      if drop > |base| then OutOfRange else Relative(base[..|base| - drop], imp.path)
  }

  /** What a name stands for: something another module holds, or a statement here. */
  datatype Origin = FromModule(source: Source, name: Option<string>) | ByStatement(stmt: Stmt)

  function OriginOf(imp: Imp, parts: seq<string>, isPackage: bool): Origin
    requires isPackage || parts != []
  {
    FromModule(ImportSource(imp, parts, isPackage), imp.name)
  }

  function Origins(stmts: seq<Stmt>, parts: seq<string>, isPackage: bool, x: string): set<Origin>
    requires isPackage || parts != []
  {
    ImportOrigins(stmts, parts, isPackage, x) + StatementOrigins(stmts, x)
  }

  function ImportOrigins(stmts: seq<Stmt>, parts: seq<string>, isPackage: bool, x: string): set<Origin>
    requires isPackage || parts != []
  {
    set imp | imp in AllImps(stmts) && Binds(imp) == x :: OriginOf(imp, parts, isPackage)
  }

  function StatementOrigins(stmts: seq<Stmt>, x: string): set<Origin> {
    set s | s in stmts && x in Defines(s) :: ByStatement(s)
  }

  ghost predicate Imported(stmts: seq<Stmt>, x: string) { exists imp :: imp in AllImps(stmts) && Binds(imp) == x }

  /** The module imports the name and defines it as well. */
  ghost predicate TwoBindings(stmts: seq<Stmt>, x: string) { x in AllDefines(stmts) && Imported(stmts, x) }

  lemma OriginParts(stmts: seq<Stmt>, parts: seq<string>, isPackage: bool, x: string)
    requires isPackage || parts != []
    ensures ImportOrigins(stmts, parts, isPackage, x) == {} <==> !Imported(stmts, x)
    ensures StatementOrigins(stmts, x) == {} <==> x !in AllDefines(stmts)
    ensures ImportOrigins(stmts, parts, isPackage, x) !! StatementOrigins(stmts, x)
  {
    if imp :| imp in AllImps(stmts) && Binds(imp) == x {
      assert OriginOf(imp, parts, isPackage) in ImportOrigins(stmts, parts, isPackage, x);
    }
    if x in AllDefines(stmts) {
      var s :| s in stmts && x in Defines(s);
      assert ByStatement(s) in StatementOrigins(stmts, x);
    }
  }

  lemma SamePart(a: set<Origin>, b: set<Origin>)
    requires a !! b
    ensures a == a + b <==> b == {}
  {
    if x :| x in b {
      assert x in a + b && x !in a;
    }
  }

  /** A relative import reads the same module from the package and from a module in it. */
  lemma SameSource(imp: Imp, parts: seq<string>, domain: string)
    ensures OriginOf(imp, parts + [domain], false) == OriginOf(imp, parts, true)
    ensures OriginOf(Normal(imp), parts + [domain], false) == OriginOf(imp, parts, true)
  {
    assert (parts + [domain])[..|parts|] == parts;
  }

  /** A package `__init__` as written by hand: it defines its router, with the class imported. */
  ghost predicate WellFormed(pkg: Package) {
    (forall s :: s in pkg.init ==> !s.Rendered? && Rebinds(s) <= Uses(s))
    && ImportsOf(pkg.init, "APIRouter") != [] && "APIRouter" !in pkg.builtins && "APIRouter" !in AllDefines(pkg.init)
    && ROUTER in AllDefines(pkg.init)
  }

  lemma OriginsWithin(a: seq<Stmt>, partsA: seq<string>, packageA: bool, b: seq<Stmt>, partsB: seq<string>, packageB: bool, x: string)
    requires (packageA || partsA != []) && (packageB || partsB != [])
    requires forall imp :: imp in AllImps(a) && Binds(imp) == x ==>
      OriginOf(imp, partsA, packageA) in ImportOrigins(b, partsB, packageB, x)
    ensures ImportOrigins(a, partsA, packageA, x) <= ImportOrigins(b, partsB, packageB, x)
  {
  }

  lemma ImportOrigin(stmts: seq<Stmt>, parts: seq<string>, isPackage: bool, imp: Imp)
    requires (isPackage || parts != []) && imp in AllImps(stmts)
    ensures OriginOf(imp, parts, isPackage) in ImportOrigins(stmts, parts, isPackage, Binds(imp))
  {
  }

  lemma NoOrigin(stmts: seq<Stmt>, parts: seq<string>, isPackage: bool, x: string)
    requires isPackage || parts != []
    ensures Origins(stmts, parts, isPackage, x) == {} <==> x !in Bound(stmts)
  {
    OriginParts(stmts, parts, isPackage, x);
    BoundIn(stmts, x);
    hide ImportOrigins, StatementOrigins, Bound, AllDefines;
  }

  // -------------------------------------------------- the sets of the new module

  /** A selected statement imports nothing and defines only listed names. */
  lemma Picked(stmts: seq<Stmt>, names: seq<string>, positions: set<nat>, s: Stmt)
    requires Select(stmts, names) == Chosen(positions) && s in Pick(stmts, positions, true)
    ensures Imps(s) == {} && Defines(s) <= Names(names) && s in stmts
  {
    hide Select;
    SelectSound(stmts, names, positions);
    PickMember(stmts, positions, true, s);
  }

  lemma PickedImps(stmts: seq<Stmt>, names: seq<string>, positions: set<nat>)
    requires Select(stmts, names) == Chosen(positions)
    ensures AllImps(Pick(stmts, positions, true)) == {}
  {
    hide Select, Pick;
    forall s | s in Pick(stmts, positions, true) ensures Imps(s) == {} {
      Picked(stmts, names, positions, s);
    }
  }

  lemma NewModuleSets(req: Request, pkg: Package, moved: set<nat>, copied: set<nat>)
    requires Parts(req, pkg, moved, copied)
    ensures var d := Derive(req, pkg, moved, copied);
      AllImps(PlanOf(req, pkg).newModule) == ResolveAll(pkg, d.free - d.local).needed + {RouterImport(pkg.init)}
  {
    hide Select, Pick, ResolveAll, PlanOf, RouterImport, AllImps;
    AcceptedFacts(req, pkg, moved, copied);
    PickedImps(pkg.init, req.names, moved);
    PickedImps(pkg.init, req.copies, copied);
    var d := Derive(req, pkg, moved, copied);
    NewModuleImps(pkg, d, ResolveAll(pkg, d.free - d.local).needed);
  }

  lemma NewModuleImps(pkg: Package, d: Derived, needed: set<Imp>)
    requires AllImps(d.moved) == AllImps(d.copied) == {}
    ensures AllImps(NewModule(pkg, d, needed)) == needed + {RouterImport(pkg.init)}
  {
    hide RouterImport, AllImps;
    var front, router := Rendered(needed + {RouterImport(pkg.init)}), Definition([ROUTER], {"APIRouter"}, {}, false);
    assert NewModule(pkg, d, needed) == (([front] + [router]) + d.copied) + d.moved;
    ConcatSets(([front] + [router]) + d.copied, d.moved);
    ConcatSets([front] + [router], d.copied);
    ConcatSets([front], [router]);
    SingleSets(front);
    SingleSets(router);
  }

  /** The definitions in the new module: the moved ones, the copied ones and the router. */
  lemma NewModuleDefinition(req: Request, pkg: Package, moved: set<nat>, copied: set<nat>, s: Stmt)
    requires Parts(req, pkg, moved, copied)
    ensures s in PlanOf(req, pkg).newModule && Defines(s) != {} ==>
      (s in Pick(pkg.init, moved, true) && Defines(s) <= Names(req.names))
      || (s in Pick(pkg.init, copied, true) && Defines(s) <= Names(req.copies))
      || Defines(s) == {ROUTER}
    ensures s in Pick(pkg.init, moved, true) + Pick(pkg.init, copied, true) ==> s in PlanOf(req, pkg).newModule
  {
    hide Select, Pick, ResolveAll, PlanOf, RouterImport;
    AcceptedFacts(req, pkg, moved, copied);
    if s in Pick(pkg.init, moved, true) {
      Picked(pkg.init, req.names, moved, s);
    }
    if s in Pick(pkg.init, copied, true) {
      Picked(pkg.init, req.copies, copied, s);
    }
  }

  /** The statements that define a moved name are the moved ones. */
  lemma MovedDefinition(req: Request, pkg: Package, moved: set<nat>, copied: set<nat>, x: string, s: Stmt)
    requires Parts(req, pkg, moved, copied) && x in req.names && x in Defines(s)
    ensures s in pkg.init <==> s in Pick(pkg.init, moved, true)
  {
    PickMember(pkg.init, moved, true, s);
    if s in pkg.init {
      var i: nat :| i < |pkg.init| && pkg.init[i] == s;
      assert i in moved;
    }
  }

  // --------------------------------------------------------- names of moved code

  /** A moved name stands for the statements it stood for. */
  lemma MovedNameOrigin(req: Request, pkg: Package, parts: seq<string>, moved: set<nat>, copied: set<nat>, x: string)
    requires Parts(req, pkg, moved, copied) && WellFormed(pkg) && x in req.names
    ensures x in AllDefines(pkg.init)
    ensures Origins(PlanOf(req, pkg).newModule, parts + [req.domain], false, x) == StatementOrigins(pkg.init, x)
  {
    var d := Derive(req, pkg, moved, copied);
    var built := PlanOf(req, pkg).newModule;
    NewModuleSets(req, pkg, moved, copied);
    SelectedName(pkg.init, req.names, x);
    assert x in AllDefines(pkg.init);
    NeededBinds(pkg, d.free - d.local, x);
    RouterImported(pkg);
    forall s | x in Defines(s) ensures s in built <==> s in pkg.init {
      NewModuleDefinition(req, pkg, moved, copied, s);
      MovedDefinition(req, pkg, moved, copied, x, s);
    }
    assert !Imported(built, x);
    hide PlanOf, Select, Pick, Derive, ResolveAll, Build, RouterImport, Imported;
    OriginParts(built, parts + [req.domain], false, x);
  }

  /** What is needed binds the names that were resolved. */
  lemma NeededBinds(pkg: Package, names: set<string>, x: string)
    ensures forall imp :: imp in ResolveAll(pkg, names).needed && Binds(imp) == x ==>
      x in names && Resolve(pkg, x).ByImport? && imp in Resolve(pkg, x).imps
    ensures x in names && Resolve(pkg, x).ByImport? ==> Resolve(pkg, x).imps <= ResolveAll(pkg, names).needed
  {
    forall imp | imp in ResolveAll(pkg, names).needed && Binds(imp) == x
      ensures x in names && Resolve(pkg, x).ByImport? && imp in Resolve(pkg, x).imps
    {
      var y :| y in names && Resolve(pkg, y).ByImport? && imp in Resolve(pkg, y).imps;
      ResolveBinds(pkg, y);
    }
  }

  lemma RouterImported(pkg: Package)
    requires WellFormed(pkg)
    ensures RouterImport(pkg.init) in ImportsOf(pkg.init, "APIRouter") && Binds(RouterImport(pkg.init)) == "APIRouter"
    ensures "APIRouter" !in AllDefines(pkg.init)
  {
    RouterImportBinds(pkg.init);
    ImportsOfBinds(pkg.init, "APIRouter", RouterImport(pkg.init));
    assert RouterImport(pkg.init) in AllImps(pkg.init);
  }

  /** A name that is taken over by import stands for what the imports of `__init__` make it. */
  lemma ImportedNameOrigin(req: Request, pkg: Package, parts: seq<string>, moved: set<nat>, copied: set<nat>, x: string)
    requires Parts(req, pkg, moved, copied) && WellFormed(pkg) && Closed(pkg.init, pkg.builtins)
    requires var d := Derive(req, pkg, moved, copied); x in d.free - d.local
    ensures Imported(pkg.init, x)
    ensures Origins(PlanOf(req, pkg).newModule, parts + [req.domain], false, x) == ImportOrigins(pkg.init, parts, true, x)
  {
    var d := Derive(req, pkg, moved, copied);
    var built := PlanOf(req, pkg).newModule;
    AcceptedFacts(req, pkg, moved, copied);
    AllResolved(pkg, d.free - d.local);
    UsedInInit(req, pkg, moved, copied, x);
    NewModuleSets(req, pkg, moved, copied);
    NeededBinds(pkg, d.free - d.local, x);
    RouterImported(pkg);
    LocalNames(req, pkg, moved, copied);
    hide PlanOf, Select, Pick, Derive, ResolveAll, Build, RouterImport, Resolve, ImportsOf, Closed, WellFormed, ImportOrigins, StatementOrigins;
    forall s | s in built ensures x !in Defines(s) {
      NewModuleDefinition(req, pkg, moved, copied, s);
    }
    forall imp | imp in AllImps(built) && Binds(imp) == x
      ensures OriginOf(imp, parts + [req.domain], false) in ImportOrigins(pkg.init, parts, true, x)
    {
      TakenOver(pkg, parts, req.domain, x, imp);
    }
    forall imp | imp in AllImps(pkg.init) && Binds(imp) == x
      ensures OriginOf(imp, parts, true) in ImportOrigins(built, parts + [req.domain], false, x)
    {
      TakesOver(pkg, x, imp);
      SameSource(imp, parts, req.domain);
      ImportOrigin(built, parts + [req.domain], false, Normal(imp));
    }
    OriginsWithin(built, parts + [req.domain], false, pkg.init, parts, true, x);
    OriginsWithin(pkg.init, parts, true, built, parts + [req.domain], false, x);
    OriginParts(built, parts + [req.domain], false, x);
    ImportedByResolution(pkg, x);
  }

  lemma ImportedByResolution(pkg: Package, x: string)
    requires WellFormed(pkg) && Resolve(pkg, x).ByImport? && x in Bound(pkg.init)
    ensures Imported(pkg.init, x)
  {
    BoundIn(pkg.init, x);
    if ImportsOf(pkg.init, x) != [] {
      ImportsOfBinds(pkg.init, x, ImportsOf(pkg.init, x)[0]);
      assert ImportsOf(pkg.init, x)[0] in AllImps(pkg.init);
    }
  }

  lemma UsedInInit(req: Request, pkg: Package, moved: set<nat>, copied: set<nat>, x: string)
    requires Parts(req, pkg, moved, copied) && Closed(pkg.init, pkg.builtins)
    requires x in Derive(req, pkg, moved, copied).free
    ensures x in Bound(pkg.init)
  {
    var d := Derive(req, pkg, moved, copied);
    var s :| s in d.moved + d.copied && x in Uses(s);
    PickMember(pkg.init, moved, true, s);
    PickMember(pkg.init, copied, true, s);
    assert x in AllUses(pkg.init);
  }

  lemma ResolvedImports(pkg: Package, x: string)
    requires WellFormed(pkg) && Resolve(pkg, x).ByImport? && x in Bound(pkg.init)
    ensures Resolve(pkg, x).imps == set imp | imp in ImportsOf(pkg.init, x) :: Normal(imp)
  {
    if ImportsOf(pkg.init, x) == [] {
      BoundIn(pkg.init, x);
      var imp :| imp in AllImps(pkg.init) && Binds(imp) == x;
      ImportsOfBinds(pkg.init, x, imp);
    }
  }

  /** An import that resolution takes over reads what an import of `__init__` reads. */
  lemma TakenOver(pkg: Package, parts: seq<string>, domain: string, x: string, imp: Imp)
    requires WellFormed(pkg) && Resolve(pkg, x).ByImport? && x in Bound(pkg.init)
    requires imp in Resolve(pkg, x).imps || imp in ImportsOf(pkg.init, x)
    ensures OriginOf(imp, parts + [domain], false) in ImportOrigins(pkg.init, parts, true, x)
  {
    ResolvedImports(pkg, x);
    hide Resolve, Bound, WellFormed, ImportsOf, OriginOf, ImportOrigins;
    var other :| other in ImportsOf(pkg.init, x) && (imp == other || imp == Normal(other));
    ImportsOfBinds(pkg.init, x, other);
    ImportOrigin(pkg.init, parts, true, other);
    SameSource(other, parts, domain);
  }

  /** Every import of `__init__` that binds the name is taken over. */
  lemma TakesOver(pkg: Package, x: string, imp: Imp)
    requires WellFormed(pkg) && Resolve(pkg, x).ByImport? && x in Bound(pkg.init)
    requires imp in AllImps(pkg.init) && Binds(imp) == x
    ensures Normal(imp) in Resolve(pkg, x).imps && Binds(Normal(imp)) == x
  {
    ImportsOfBinds(pkg.init, x, imp);
    ResolvedImports(pkg, x);
    ResolveBinds(pkg, x);
  }

  /** One name of moved code keeps its origin unless `__init__` binds it twice, or shadows a built-in with it. */
  lemma KeepsOrigin(req: Request, pkg: Package, parts: seq<string>, moved: set<nat>, copied: set<nat>, x: string)
    requires Parts(req, pkg, moved, copied) && WellFormed(pkg) && Closed(pkg.init, pkg.builtins)
    requires var d := Derive(req, pkg, moved, copied);
      x in AllUses(d.moved + d.copied) && x != ROUTER && x !in req.copies
    ensures Origins(PlanOf(req, pkg).newModule, parts + [req.domain], false, x) == Origins(pkg.init, parts, true, x)
            <==> !TwoBindings(pkg.init, x)
                 && (x in pkg.builtins && x !in Derive(req, pkg, moved, copied).local ==> x !in Bound(pkg.init))
  {
    var d := Derive(req, pkg, moved, copied);
    var built := PlanOf(req, pkg).newModule;
    OriginParts(pkg.init, parts, true, x);
    BoundIn(pkg.init, x);
    LocalNames(req, pkg, moved, copied);
    hide ImportOrigins, StatementOrigins, PlanOf, Select, Pick, Build, Imported, Bound, AllDefines;
    var imports, statements := ImportOrigins(pkg.init, parts, true, x), StatementOrigins(pkg.init, x);
    SamePart(imports, statements);
    SamePart(statements, imports);
    if x in req.names {
      MovedNameOrigin(req, pkg, parts, moved, copied, x);
    } else if x in d.free {
      ImportedNameOrigin(req, pkg, parts, moved, copied, x);
    } else {
      BuiltinUnbound(req, pkg, moved, copied, x);
      NoOrigin(built, parts + [req.domain], false, x);
      NoOrigin(pkg.init, parts, true, x);
    }
  }

  /**
   Every name that moved or copied code uses, except the deliberate router and copy
   bindings, has the same origin in the new module as it had in `__init__`, if and
   only if that code uses no built-in name that `__init__` shadows, and no name that
   `__init__` both imports and defines.
   */
  lemma MovedCodeKeepsOrigins(req: Request, pkg: Package, parts: seq<string>, moved: set<nat>, copied: set<nat>)
    requires Parts(req, pkg, moved, copied) && WellFormed(pkg) && Closed(pkg.init, pkg.builtins)
    ensures var d := Derive(req, pkg, moved, copied);
      (forall x :: x in AllUses(d.moved + d.copied) && x != ROUTER && x !in req.copies ==>
         Origins(PlanOf(req, pkg).newModule, parts + [req.domain], false, x) == Origins(pkg.init, parts, true, x))
      <==> (forall x :: x in AllUses(d.moved + d.copied) * pkg.builtins - d.local ==> x !in Bound(pkg.init))
           && (forall x :: x in AllUses(d.moved + d.copied) && x != ROUTER && x !in req.copies ==> !TwoBindings(pkg.init, x))
  {
    var d := Derive(req, pkg, moved, copied);
    var built := PlanOf(req, pkg).newModule;
    hide Origins, PlanOf, Select, Pick, Build, TwoBindings, Bound;
    forall x | x in AllUses(d.moved + d.copied) && x != ROUTER && x !in req.copies
      ensures Origins(built, parts + [req.domain], false, x) == Origins(pkg.init, parts, true, x)
              <==> !TwoBindings(pkg.init, x) && (x in pkg.builtins && x !in d.local ==> x !in Bound(pkg.init))
    {
      KeepsOrigin(req, pkg, parts, moved, copied, x);
    }
    hide *;
    assert forall x :: x in d.local <==> x in req.names || x in req.copies || x == ROUTER by { LocalNames(req, pkg, moved, copied); }
  }

  lemma LocalNames(req: Request, pkg: Package, moved: set<nat>, copied: set<nat>)
    ensures forall x :: x in Derive(req, pkg, moved, copied).local <==> x in req.names || x in req.copies || x == ROUTER
  {
  }

  /** The new module binds no built-in name of its own accord. */
  lemma BuiltinUnbound(req: Request, pkg: Package, moved: set<nat>, copied: set<nat>, x: string)
    requires Parts(req, pkg, moved, copied) && WellFormed(pkg)
    requires x in pkg.builtins && x !in Derive(req, pkg, moved, copied).local
    ensures x !in Bound(PlanOf(req, pkg).newModule)
  {
    var d := Derive(req, pkg, moved, copied);
    var built := PlanOf(req, pkg).newModule;
    NewModuleSets(req, pkg, moved, copied);
    NeededBinds(pkg, d.free - d.local, x);
    RouterImportBinds(pkg.init);
    forall s | s in built ensures x !in Defines(s) {
      NewModuleDefinition(req, pkg, moved, copied, s);
    }
    BoundIn(built, x);
  }

  /** What is bound in a new module is used there or named by the split. */
  lemma NewModuleBindsOnly(req: Request, pkg: Package, moved: set<nat>, copied: set<nat>, x: string)
    requires Parts(req, pkg, moved, copied)
    requires x !in Derive(req, pkg, moved, copied).free && x !in req.names + req.copies && x != ROUTER && x != "APIRouter"
    ensures PlanOf(req, pkg).Accepted? && x !in Bound(PlanOf(req, pkg).newModule)
  {
    var d := Derive(req, pkg, moved, copied);
    NewModuleSets(req, pkg, moved, copied);
    NeededBinds(pkg, d.free - d.local, x);
    RouterImportBinds(pkg.init);
    var built := PlanOf(req, pkg).newModule;
    hide PlanOf, Derive, Parts, ResolveAll, Pick, RouterImport;
    forall s | s in built ensures x !in Defines(s) {
      NewModuleDefinition(req, pkg, moved, copied, s);
    }
    BoundIn(built, x);
  }

  /** What is bound in a new module: what moved and copied code uses, and what the split names. */
  lemma NewModuleBindsExactly(req: Request, pkg: Package, moved: set<nat>, copied: set<nat>, x: string)
    requires Parts(req, pkg, moved, copied)
    ensures x in Bound(PlanOf(req, pkg).newModule)
            <==> x in Derive(req, pkg, moved, copied).free || x in req.names + req.copies || x == ROUTER || x == "APIRouter"
  {
    var d := Derive(req, pkg, moved, copied);
    AcceptedFacts(req, pkg, moved, copied);
    hide PlanOf, Derive, Select, Bound, ResolveAll, RouterImport, MergeLocalImports, PruneAll, StateFault;
    if x in d.free {
      NewModuleBinds(req, pkg, moved, copied, x);
    } else if x in req.names + req.copies {
      ListedBound(req, pkg, moved, copied, x);
    } else if x == ROUTER {
      var built := PlanOf(req, pkg).newModule;
      assert built[1] in built && x in Defines(built[1]);
      BoundByDefinition(built, built[1], x);
    } else if x == "APIRouter" {
      BoundRouterClass(pkg, d, ResolveAll(pkg, d.free - d.local).needed);
    } else {
      NewModuleBindsOnly(req, pkg, moved, copied, x);
    }
  }

  lemma ListedBound(req: Request, pkg: Package, moved: set<nat>, copied: set<nat>, x: string)
    requires Parts(req, pkg, moved, copied) && x in req.names + req.copies
    ensures x in Bound(PlanOf(req, pkg).newModule)
  {
    hide Bound, Pick;
    var names, positions := if x in req.names then req.names else req.copies, if x in req.names then moved else copied;
    SelectedBound(pkg.init, names, positions, x);
    var s :| s in Pick(pkg.init, positions, true) && x in Defines(s);
    NewModuleDefinition(req, pkg, moved, copied, s);
    hide PlanOf, Select;
    BoundByDefinition(PlanOf(req, pkg).newModule, s, x);
  }
}
