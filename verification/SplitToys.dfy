/** Small packages whose split is accepted: imports, a router, two statements that stay and one that moves. */
module SplitToys {
  import opened Options
  import opened SplitPlan
  import opened SplitClosure
  import opened SplitOrigins
  import SplitGap

  // from logging import getLogger; from fastapi import APIRouter
  // router = APIRouter()

  const IMPORTS := SplitGap.IMPORTS
  const ROUTER_DEF := SplitGap.ROUTER_DEF

  function Staying(a: Stmt, b: Stmt): seq<Stmt> { [IMPORTS, ROUTER_DEF, a, b] }

  function Init(a: Stmt, b: Stmt, m: Stmt): seq<Stmt> { Staying(a, b) + [m] }

  function Move(name: string): Request { Request("d", [name], []) }

  function Toy(a: Stmt, b: Stmt, m: Stmt, builtins: set<string>): Package {
    Package(Init(a, b, m), map[], "proxy", {}, false, {}, {}, {}, builtins, None)
  }

  predicate IsCode(s: Stmt) { (s.Definition? || s.Plain?) && Rebinds(s) <= Uses(s) }

  /** `m`, which defines `name`, can move away from the two others. */
  predicate Movable(a: Stmt, b: Stmt, m: Stmt, name: string, builtins: set<string>) {
    IsCode(a) && IsCode(b) && m.Definition? && m.defines == [name] && m.rebinds == {}
    && name !in {ROUTER, "APIRouter"} + Defines(a) + Defines(b) + Uses(a) + Uses(b)
    && "APIRouter" !in Defines(a) + Defines(b)
    && builtins !! {"getLogger", "APIRouter", "_d_router"}
    && m.uses - builtins <= {"getLogger"} * (Uses(a) + Uses(b))
  }

  lemma ImportsOfToy(a: Stmt, b: Stmt, m: Stmt, name: string)
    requires !a.Import? && !b.Import? && !m.Import?
    ensures ImportsOf(Init(a, b, m), name) == Binding(IMPORTS.imps, name)
  {
    Walk(a, b, m, {}, true, name);
  }

  lemma Walk(a: Stmt, b: Stmt, m: Stmt, positions: set<nat>, inside: bool, name: string)
    requires !a.Import? && !b.Import? && !m.Import?
    ensures Pick(Init(a, b, m), positions, inside)
         == (if (0 in positions) == inside then [IMPORTS] else []) + (if (1 in positions) == inside then [ROUTER_DEF] else [])
            + (if (2 in positions) == inside then [a] else []) + (if (3 in positions) == inside then [b] else [])
            + (if (4 in positions) == inside then [m] else [])
    ensures BindingCount(Init(a, b, m), name) == Occurrences(["router"], name) + Count(a, name) + Count(b, name) + Count(m, name)
    ensures ImportsOf(Init(a, b, m), name) == Binding(IMPORTS.imps, name)
  {
    var one, two, three := [] + [IMPORTS], [IMPORTS, ROUTER_DEF], [IMPORTS, ROUTER_DEF, a];
    assert two == one + [ROUTER_DEF] && three == two + [a] && Staying(a, b) == three + [b];
    hide Pick, BindingCount, ImportsOf, Binding, Occurrences;
    SplitGap.Snoc([], IMPORTS, positions, inside, name);
    SplitGap.Snoc(one, ROUTER_DEF, positions, inside, name);
    SplitGap.Snoc(two, a, positions, inside, name);
    SplitGap.Snoc(three, b, positions, inside, name);
    SplitGap.Snoc(Staying(a, b), m, positions, inside, name);
    SplitGap.Nothing(positions, inside, name);
  }

  function Count(s: Stmt, name: string): nat { if s.Definition? then Occurrences(s.defines, name) else 0 }

  lemma {:induction false} NoOccurrence(defines: seq<string>, name: string)
    requires name !in defines
    ensures Occurrences(defines, name) == 0
  {
    if defines != [] {
      NoOccurrence(defines[1..], name);
    }
  }

  lemma DefinesName(a: Stmt, b: Stmt, m: Stmt, name: string, builtins: set<string>, i: nat)
    requires Movable(a, b, m, name, builtins) && i < 5
    ensures name in Defines(Init(a, b, m)[i]) <==> i == 4
    ensures i == 4 ==> Defines(Init(a, b, m)[i]) == {name}
  {
  }

  lemma Faultless(a: Stmt, b: Stmt, m: Stmt, name: string, builtins: set<string>)
    requires Movable(a, b, m, name, builtins)
    ensures NameFault(Init(a, b, m), [name], name).None?
  {
    var init := Init(a, b, m);
    Walk(a, b, m, {}, true, name);
    NoOccurrence(["router"], name);
    if a.Definition? {
      NoOccurrence(a.defines, name);
    }
    if b.Definition? {
      NoOccurrence(b.defines, name);
    }
    assert Occurrences([name], name) == 1;
    forall i: nat | i in DefinedAt(init, name) ensures forall x :: x in Defines(init[i]) ==> x in [name] {
      DefinesName(a, b, m, name, builtins, i);
    }
    hide BindingCount, Occurrences, Movable;
  }

  lemma SelectName(a: Stmt, b: Stmt, m: Stmt, name: string, builtins: set<string>)
    requires Movable(a, b, m, name, builtins)
    ensures Select(Init(a, b, m), [name]) == Chosen({4})
  {
    Faultless(a, b, m, name, builtins);
    hide BindingCount, NameFault, Defines, Movable;
    var init := Init(a, b, m);
    forall i: nat | i < |init| ensures name in Defines(init[i]) <==> i == 4 {
      DefinesName(a, b, m, name, builtins, i);
    }
    assert init[4] in init && name in AllDefines(init);
    assert FirstFault(init, [name], 0).None?;
    assert forall n :: n in [name] <==> n == name;
    var positions := set i: nat | i < |init| && exists n :: n in [name] && n in Defines(init[i]);
    assert Select(init, [name]) == Chosen(positions);
    forall i: nat ensures i in positions <==> i in {4} {
      assert name in [name];
    }
  }

  lemma SelectNothing(init: seq<Stmt>, none: seq<string>)
    requires none == []
    ensures Select(init, none) == Chosen({})
  {
    hide Defines;
    assert FirstFault(init, none, 0).None?;
    assert forall n :: n !in none;
  }

  lemma SetsOfFour(a: Stmt, b: Stmt, c: Stmt, d: Stmt)
    ensures AllUses([a, b, c, d]) == Uses(a) + Uses(b) + Uses(c) + Uses(d)
    ensures AllRebinds([a, b, c, d]) == Rebinds(a) + Rebinds(b) + Rebinds(c) + Rebinds(d)
    ensures AllDefines([a, b, c, d]) == Defines(a) + Defines(b) + Defines(c) + Defines(d)
  {
    ConcatSets([a], [b, c, d]);
    ConcatSets([b], [c, d]);
    ConcatSets([c], [d]);
    ConcatRebinds([a], [b, c, d]);
    ConcatRebinds([b], [c, d]);
    ConcatRebinds([c], [d]);
    SetsOfOne(a);
    SetsOfOne(b);
    SetsOfOne(c);
    SetsOfOne(d);
    hide *;
    assert [a] + [b, c, d] == [a, b, c, d] && [b] + [c, d] == [b, c, d] && [c] + [d] == [c, d];
  }

  lemma ConcatRebinds(a: seq<Stmt>, b: seq<Stmt>)
    ensures AllRebinds(a + b) == AllRebinds(a) + AllRebinds(b)
  {
    assert forall s :: s in a + b <==> s in a || s in b;
  }

  lemma SetsOfOne(m: Stmt)
    ensures AllUses([m]) == Uses(m) && AllRebinds([m]) == Rebinds(m) && AllDefines([m]) == Defines(m)
  {
    assert m in [m];
  }

  lemma DerivedFrom(a: Stmt, b: Stmt, m: Stmt, name: string, builtins: set<string>)
    requires !a.Import? && !b.Import? && !m.Import?
    ensures var d := Derive(Move(name), Toy(a, b, m, builtins), {4}, {});
      d.moved == [m] && d.copied == [] && d.remaining == Staying(a, b) && d.local == Names([name]) + Names([]) + {ROUTER}
      && d.free == AllUses([m] + []) - builtins && d.remainingFree == AllUses(Staying(a, b)) - builtins
      && d.reexport == Names([name]) * d.remainingFree && d.stillRead == d.remainingFree
  {
    Picks(a, b, m);
    hide Pick, AllUses, Init, Staying, Names;
  }

  lemma ToyDerived(a: Stmt, b: Stmt, m: Stmt, name: string, builtins: set<string>)
    requires Movable(a, b, m, name, builtins)
    ensures var d := Derive(Move(name), Toy(a, b, m, builtins), {4}, {});
      d.moved == [m] && d.copied == [] && d.moved + d.copied == [m] && d.remaining == Staying(a, b)
      && d.local == {name, ROUTER} && d.free == m.uses - builtins
      && d.remainingFree == d.stillRead == {"APIRouter"} + Uses(a) + Uses(b) - builtins && d.reexport == {}
  {
    hide *;
    MovableCode(a, b, m, name, builtins);
    DerivedFrom(a, b, m, name, builtins);
    StayingUses(a, b);
    SetsOfOne(m);
    NamesOf(name);
    Unread(name, {"APIRouter"} + Uses(a) + Uses(b), builtins);
    assert [m] + [] == [m];
  }

  lemma NamesOf(name: string)
    ensures Names([name]) == {name} && Names([name]) + Names([]) + {ROUTER} == {name, ROUTER}
  {
    assert Names([]) == {};
  }

  lemma Unread(name: string, uses: set<string>, builtins: set<string>)
    requires name !in uses
    ensures {name} * (uses - builtins) == {}
  {
  }

  lemma MovableCode(a: Stmt, b: Stmt, m: Stmt, name: string, builtins: set<string>)
    requires Movable(a, b, m, name, builtins)
    ensures !a.Import? && !b.Import? && !m.Import? && m.Definition? && Uses(m) == m.uses
    ensures name !in {"APIRouter"} + Uses(a) + Uses(b)
  {
  }

  lemma Picks(a: Stmt, b: Stmt, m: Stmt)
    requires !a.Import? && !b.Import? && !m.Import?
    ensures Pick(Init(a, b, m), {4}, true) == [m] && Pick(Init(a, b, m), {}, true) == []
    ensures Pick(Init(a, b, m), {4}, false) == Staying(a, b)
  {
    Walk(a, b, m, {4}, true, "");
    Walk(a, b, m, {}, true, "");
    Walk(a, b, m, {4}, false, "");
    hide Pick, BindingCount, ImportsOf, Binding, Occurrences;
  }

  lemma StayingUses(a: Stmt, b: Stmt)
    ensures AllUses(Staying(a, b)) == {"APIRouter"} + Uses(a) + Uses(b)
  {
    SetsOfFour(IMPORTS, ROUTER_DEF, a, b);
    hide AllUses;
  }

  lemma ImportedLogger(a: Stmt, b: Stmt, m: Stmt)
    requires !a.Import? && !b.Import? && !m.Import?
    ensures ImportsOf(Init(a, b, m), "getLogger") == [Imp("logging", 0, Some("getLogger"), None)]
    ensures ImportsOf(Init(a, b, m), "APIRouter") == [Imp("fastapi", 0, Some("APIRouter"), None)]
  {
    ImportsOfToy(a, b, m, "getLogger");
    ImportsOfToy(a, b, m, "APIRouter");
    assert IMPORTS.imps[1..] == [Imp("fastapi", 0, Some("APIRouter"), None)];
    assert IMPORTS.imps[1..][1..] == [];
  }

  lemma Resolved(a: Stmt, b: Stmt, m: Stmt, name: string, builtins: set<string>)
    requires Movable(a, b, m, name, builtins)
    ensures var d := Derive(Move(name), Toy(a, b, m, builtins), {4}, {});
      ResolutionFault(ResolveAll(Toy(a, b, m, builtins), d.free - d.local).kinds).None?
  {
    ToyDerived(a, b, m, name, builtins);
    ImportedLogger(a, b, m);
    SplitGap.NoFault();
    hide Derive;
    var pkg := Toy(a, b, m, builtins);
    assert Resolve(pkg, "getLogger").ByImport?;
    assert ResolveAll(pkg, m.uses - builtins - {name, ROUTER}).kinds == {};
  }

  lemma Stated(a: Stmt, b: Stmt, m: Stmt, name: string, builtins: set<string>)
    requires Movable(a, b, m, name, builtins)
    ensures StateFault(Move(name), Toy(a, b, m, builtins), Derive(Move(name), Toy(a, b, m, builtins), {4}, {})).None?
  {
    ToyDerived(a, b, m, name, builtins);
    SetsOfOne(m);
    hide AllRebinds, Derive, AllUses, AllDefines;
  }

  lemma Merges(a: Stmt, b: Stmt, m: Stmt, name: string, builtins: set<string>)
    requires Movable(a, b, m, name, builtins)
    ensures var pkg := Toy(a, b, m, builtins);
      var d := Derive(Move(name), pkg, {4}, {});
      MergeLocalImports(PruneAll(d.remaining, Prunable(Move(name), pkg, d)), Added(Move(name), d)).MergedInto?
  {
    ToyDerived(a, b, m, name, builtins);
    SetsOfOne(m);
    hide Derive, AllUses, AllRebinds, AllDefines;
    var pkg := Toy(a, b, m, builtins);
    var d := Derive(Move(name), pkg, {4}, {});
    assert Prunable(Move(name), pkg, d) == {};
    SplitGap.PruneNothing(d.remaining);
    hide Movable, Prunable, PruneAll;
    Block(a, b, Added(Move(name), d));
  }

  lemma Block(a: Stmt, b: Stmt, add: set<Imp>)
    ensures MergeLocalImports(Staying(a, b), add).MergedInto?
  {
    var stmts := Staying(a, b);
    assert stmts[0..] == stmts && stmts[1..][0] == ROUTER_DEF;
    assert ImportRun(stmts[1..]) == 0;
    assert ImportRun(stmts) == 1;
    var run := stmts[0..1];
    assert run == [IMPORTS];
    assert !IsRelative(IMPORTS);
    assert run[1..] == [];
    assert FirstRelative(run) == 1;
  }

  lemma RequestFine(name: string)
    requires name != ROUTER
    ensures ValidDomain(Move(name).domain) && RequestFault(Move(name)).None?
  {
    assert Names([name]) == {name};
  }

  lemma Fields(a: Stmt, b: Stmt, m: Stmt, name: string, builtins: set<string>)
    requires Movable(a, b, m, name, builtins)
    ensures Toy(a, b, m, builtins).init == Init(a, b, m) && Toy(a, b, m, builtins).target.None? && name != ROUTER
    ensures Move(name).names == [name] && Move(name).copies == []
  {
  }

  lemma ToyParts(a: Stmt, b: Stmt, m: Stmt, name: string, builtins: set<string>)
    requires Movable(a, b, m, name, builtins)
    ensures Parts(Move(name), Toy(a, b, m, builtins), {4}, {}) && PlanOf(Move(name), Toy(a, b, m, builtins)).Accepted?
  {
    hide *;
    Fields(a, b, m, name, builtins);
    RequestFine(name);
    SelectName(a, b, m, name, builtins);
    SelectNothing(Init(a, b, m), []);
    Resolved(a, b, m, name, builtins);
    Stated(a, b, m, name, builtins);
    Merges(a, b, m, name, builtins);
    SplitGap.AcceptedIf(Move(name), Toy(a, b, m, builtins), {4}, {});
    SplitGap.PartsAccepted(Move(name), Toy(a, b, m, builtins), {4}, {});
  }

  lemma ToyWellFormed(a: Stmt, b: Stmt, m: Stmt, name: string, builtins: set<string>)
    requires Movable(a, b, m, name, builtins)
    ensures WellFormed(Toy(a, b, m, builtins)) && RouterAlias("d") == "_d_router"
  {
    ImportedLogger(a, b, m);
    hide ImportsOf;
    var init := Init(a, b, m);
    forall s | s in init ensures !s.Rendered? && Rebinds(s) <= Uses(s) && "APIRouter" !in Defines(s) {
      FineStmt(a, b, m, name, builtins, s);
    }
    hide Movable, Rebinds, Uses;
    assert ROUTER_DEF == init[1] && ROUTER_DEF in init && ROUTER in Defines(ROUTER_DEF);
  }

  lemma FineStmt(a: Stmt, b: Stmt, m: Stmt, name: string, builtins: set<string>, s: Stmt)
    requires Movable(a, b, m, name, builtins) && s in Init(a, b, m)
    ensures !s.Rendered? && Rebinds(s) <= Uses(s) && "APIRouter" !in Defines(s)
  {
    assert s == IMPORTS || s == ROUTER_DEF || s == a || s == b || s == m;
    hide Init, Staying;
  }

  /** The imported names are bound, and those that the statements define. */
  lemma ToyBound(a: Stmt, b: Stmt, m: Stmt, x: string)
    requires x in {"getLogger", "APIRouter", ROUTER} + Defines(a) + Defines(b) + Defines(m)
    ensures x in Bound(Init(a, b, m))
  {
    var init := Init(a, b, m);
    assert init[0] == IMPORTS && init[1] == ROUTER_DEF && init[2] == a && init[3] == b && init[4] == m;
    BoundByImp(init, IMPORTS, IMPORTS.imps[0]);
    BoundByImp(init, IMPORTS, IMPORTS.imps[1]);
    hide Bound, Init, Staying;
    if x in Defines(a) {
      BoundByDefinition(init, a, x);
    } else if x in Defines(b) {
      BoundByDefinition(init, b, x);
    } else if x in Defines(m) {
      BoundByDefinition(init, m, x);
    } else if x == ROUTER {
      BoundByDefinition(init, ROUTER_DEF, x);
    }
  }

  lemma ToyClosed(a: Stmt, b: Stmt, m: Stmt, builtins: set<string>)
    requires Uses(a) + Uses(b) + Uses(m) - builtins <= {"getLogger"}
    ensures Closed(Init(a, b, m), builtins)
  {
    var init := Init(a, b, m);
    ToyBound(a, b, m, "getLogger");
    ToyBound(a, b, m, "APIRouter");
    hide Bound, AllUses, AllImps, AllDefines, Staying, Uses;
    StayingUses(a, b);
    SetsOfOne(m);
    ConcatSets(Staying(a, b), [m]);
    OnlyImported({"APIRouter"} + Uses(a) + Uses(b) + Uses(m), Uses(a) + Uses(b) + Uses(m), builtins);
  }

  lemma OnlyImported(all: set<string>, uses: set<string>, builtins: set<string>)
    requires all == {"APIRouter"} + uses && uses - builtins <= {"getLogger"}
    ensures forall x :: x in all - builtins ==> x == "getLogger" || x == "APIRouter"
  {
    assert forall x :: x in all - builtins ==> x == "APIRouter" || x in uses - builtins;
  }
}
