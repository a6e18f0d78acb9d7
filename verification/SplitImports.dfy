/**
 What the two modules of an accepted split import, and where the imports stand, said of
 the package and the request alone.
 */
module SplitImports {
  import opened Options
  import opened Sublists
  import opened SplitPlan
  import opened SplitClosure
  import opened SplitOrigins
  import opened SplitRefusals

  // -------------------------------------------------------------------- the new module

  /** The `j`-th import of statement `i` binds the name. */
  ghost predicate BindsAt(stmts: seq<Stmt>, i: int, j: int, name: string) {
    0 <= i < |stmts| && stmts[i].Import? && 0 <= j < |stmts[i].imps| && Binds(stmts[i].imps[j]) == name
  }

  /** `imp` is the last import that binds the name. */
  ghost predicate LastBinding(stmts: seq<Stmt>, name: string, imp: Imp) {
    exists i, j :: BindsAt(stmts, i, j, name) && stmts[i].imps[j] == imp
      && forall k, l :: BindsAt(stmts, k, l, name) ==> k < i || (k == i && l <= j)
  }

  lemma {:induction false} BindingLast(imps: seq<Imp>, name: string)
    ensures var r := Binding(imps, name);
      if r == [] then forall j :: 0 <= j < |imps| ==> Binds(imps[j]) != name
      else exists j :: 0 <= j < |imps| && imps[j] == r[|r| - 1] && Binds(imps[j]) == name
             && forall l :: j < l < |imps| ==> Binds(imps[l]) != name
  {
    hide Binds;
    if imps != [] {
      var rest, r := imps[1..], Binding(imps, name);
      BindingLast(rest, name);
      var more := Binding(rest, name);
      if more == [] {
        forall l | 1 <= l < |imps| ensures Binds(imps[l]) != name {
          assert rest[l - 1] == imps[l];
        }
      } else {
        var j :| 0 <= j < |rest| && rest[j] == more[|more| - 1] && Binds(rest[j]) == name
          && forall l :: j < l < |rest| ==> Binds(rest[l]) != name;
        assert imps[j + 1] == r[|r| - 1];
        forall l | j + 1 < l < |imps| ensures Binds(imps[l]) != name {
          assert rest[l - 1] == imps[l];
        }
      }
    }
  }

  lemma {:induction false} ImportsLast(stmts: seq<Stmt>, name: string)
    ensures var r := ImportsOf(stmts, name);
      if r == [] then forall i, j :: !BindsAt(stmts, i, j, name) else LastBinding(stmts, name, r[|r| - 1])
  {
    hide Binds, Binding;
    if stmts != [] {
      var n := |stmts| - 1;
      var front, last := stmts[..n], stmts[n];
      ImportsLast(front, name);
      forall i, j ensures BindsAt(stmts, i, j, name) <==> BindsAt(front, i, j, name) || (i == n && BindsAt(stmts, n, j, name)) {
        assert 0 <= i < n ==> front[i] == stmts[i];
      }
      var own := if last.Import? then Binding(last.imps, name) else [];
      if last.Import? {
        BindingLast(last.imps, name);
      }
      if own != [] {
        var j :| 0 <= j < |last.imps| && last.imps[j] == own[|own| - 1] && Binds(last.imps[j]) == name
          && forall l :: j < l < |last.imps| ==> Binds(last.imps[l]) != name;
        assert BindsAt(stmts, n, j, name);
      } else if ImportsOf(front, name) != [] {
        LastStays(stmts, name, ImportsOf(front, name)[|ImportsOf(front, name)| - 1]);
      }
    }
  }

  lemma LastStays(stmts: seq<Stmt>, name: string, imp: Imp)
    requires stmts != [] && LastBinding(stmts[..|stmts| - 1], name, imp) && forall i, j :: BindsAt(stmts, i, j, name) ==> i < |stmts| - 1
    ensures LastBinding(stmts, name, imp)
  {
    hide Binds;
    var front := stmts[..|stmts| - 1];
    var i, j :| BindsAt(front, i, j, name) && front[i].imps[j] == imp
      && forall k, l :: BindsAt(front, k, l, name) ==> k < i || (k == i && l <= j);
    assert front[i] == stmts[i];
    assert BindsAt(stmts, i, j, name);
    forall k, l | BindsAt(stmts, k, l, name) ensures k < i || (k == i && l <= j) {
      assert k < |front| ==> front[k] == stmts[k];
      assert BindsAt(front, k, l, name);
    }
  }

  /** The import of the router class: the last one of `__init__`, or that of the framework. */
  ghost predicate BringsRouter(stmts: seq<Stmt>, imp: Imp) {
    LastBinding(stmts, "APIRouter", imp)
    || ((forall i, j :: !BindsAt(stmts, i, j, "APIRouter")) && imp == Imp("fastapi", 0, Some("APIRouter"), None))
  }

  lemma LastUnique(stmts: seq<Stmt>, name: string, a: Imp, b: Imp)
    requires LastBinding(stmts, name, a) && LastBinding(stmts, name, b)
    ensures a == b && exists i, j :: BindsAt(stmts, i, j, name)
  {
    hide Binds;
  }

  lemma RouterExactly(stmts: seq<Stmt>, imp: Imp)
    ensures imp == RouterImport(stmts) <==> BringsRouter(stmts, imp)
  {
    hide LastBinding, ImportsOf, BindsAt;
    ImportsLast(stmts, "APIRouter");
    var r := ImportsOf(stmts, "APIRouter");
    if r != [] {
      LastUnique(stmts, "APIRouter", r[|r| - 1], r[|r| - 1]);
      if LastBinding(stmts, "APIRouter", imp) {
        LastUnique(stmts, "APIRouter", imp, r[|r| - 1]);
      }
    } else if LastBinding(stmts, "APIRouter", imp) {
      LastUnique(stmts, "APIRouter", imp, imp);
    }
  }

  /** The new module imports the router class and what serves each name it takes, and nothing else. */
  lemma NewModuleImports(req: Request, pkg: Package, imp: Imp)
    requires PlanOf(req, pkg).Accepted?
    ensures imp in AllImps(PlanOf(req, pkg).newModule)
            <==> BringsRouter(pkg.init, imp) || exists x :: Taken(req, pkg, x) && Serves(pkg, x, imp)
  {
    hide *;
    var moved, copied := PartsExist(req, pkg);
    DerivedParts(req, pkg, moved, copied);
    NewModuleSets(req, pkg, moved, copied);
    RouterExactly(pkg.init, imp);
    NeededExactly(req, pkg, moved, copied, imp);
  }

  lemma DerivedParts(req: Request, pkg: Package, moved: set<nat>, copied: set<nat>)
    requires Parts(req, pkg, moved, copied)
    ensures moved == Positions(pkg.init, req.names) && copied == Positions(pkg.init, req.copies)
  {
    hide PlanOf, Build, Derive, Select, Positions;
    SelectPositions(pkg.init, req.names);
    SelectPositions(pkg.init, req.copies);
  }

  lemma NeededExactly(req: Request, pkg: Package, moved: set<nat>, copied: set<nat>, imp: Imp)
    requires Parts(req, pkg, moved, copied)
    ensures var d := Derive(req, pkg, moved, copied);
      imp in ResolveAll(pkg, d.free - d.local).needed <==> exists x :: Taken(req, pkg, x) && Serves(pkg, x, imp)
  {
    DerivedParts(req, pkg, moved, copied);
    AcceptedFacts(req, pkg, moved, copied);
    hide Derive, Taken, Serves, Resolve, Parts, Build, PlanOf, ResolutionFault, MergeLocalImports, PruneAll, StateFault;
    var d := Derive(req, pkg, moved, copied);
    AllResolved(pkg, d.free - d.local);
    forall x ensures x in d.free - d.local <==> Taken(req, pkg, x)
      ensures Taken(req, pkg, x) ==> Resolve(pkg, x).ByImport? && (imp in Resolve(pkg, x).imps <==> Serves(pkg, x, imp))
    {
      DerivedExactly(req, pkg, x);
      if Taken(req, pkg, x) {
        ResolvedExactly(pkg, x, imp);
      }
    }
  }

  // ----------------------------------------------------------------- the new `__init__`

  /** A statement that moves, not one that is copied, uses the name. */
  ghost predicate UsedByMoved(req: Request, pkg: Package, x: string) {
    exists i :: 0 <= i < |pkg.init| && DefinesAny(pkg.init[i], req.names) && x in Uses(pkg.init[i])
  }

  /** Provably dead: moved code used the name, and nothing that stays or looks in from outside does. */
  ghost predicate Dead(req: Request, pkg: Package, x: string) {
    UsedByMoved(req, pkg, x) && x !in pkg.builtins && x !in req.names && !StillRead(req, pkg, x)
  }

  lemma DeadExactly(req: Request, pkg: Package, x: string)
    ensures x in Prunable(req, pkg, Derive(req, pkg, Positions(pkg.init, req.names), Positions(pkg.init, req.copies)))
            <==> Dead(req, pkg, x)
  {
    DerivedExactly(req, pkg, x);
    UsesPicked(pkg.init, Positions(pkg.init, req.names), true, x);
    hide Uses, Pick, AllUses, DefinesAny, StillRead;
  }

  /** The statement is an import that may be rewritten: no future import, no comment on it. */
  ghost predicate Rewritable(s: Stmt) { s.Import? && !s.future && !s.commented }

  /** What a split adds to the relative imports: the new router, and the names to be re-exported. */
  ghost predicate AddedFor(req: Request, pkg: Package, imp: Imp) {
    imp == Imp(req.domain, 1, Some("router"), Some("_" + req.domain + "_router"))
    || exists n :: n in req.names && (UsedByStaying(req, pkg, n) || n in pkg.reached) && imp == Imp(req.domain, 1, Some(n), Some(n))
  }

  lemma AddedExactly(req: Request, pkg: Package, imp: Imp)
    ensures imp in Added(req, Derive(req, pkg, Positions(pkg.init, req.names), Positions(pkg.init, req.copies)))
            <==> AddedFor(req, pkg, imp)
  {
    var d := Derive(req, pkg, Positions(pkg.init, req.names), Positions(pkg.init, req.copies));
    forall n ensures n in d.reexport <==> n in req.names && (UsedByStaying(req, pkg, n) || n in pkg.reached) {
      DerivedExactly(req, pkg, n);
    }
    hide Derive, UsedByStaying;
  }

  lemma {:induction false} PrunedImps(stmts: seq<Stmt>, prunable: set<string>, imp: Imp)
    ensures imp in AllImps(PruneAll(stmts, prunable))
            <==> exists s :: s in stmts && imp in Imps(s) && !(Rewritable(s) && Binds(imp) in prunable)
  {
    hide Binds, Imps, Prune;
    if stmts != [] {
      var front, last := stmts[..|stmts| - 1], stmts[|stmts| - 1];
      PrunedImps(front, prunable, imp);
      ConcatSets(PruneAll(front, prunable), Prune(last, prunable));
      PrunedOne(last, prunable, imp);
      assert forall s :: s in stmts <==> s in front || s == last;
    }
  }

  lemma PrunedOne(s: Stmt, prunable: set<string>, imp: Imp)
    ensures imp in AllImps(Prune(s, prunable)) <==> imp in Imps(s) && !(Rewritable(s) && Binds(imp) in prunable)
  {
    hide Binds, AllImps, KeptImps;
    var kept := if s.Import? then KeptImps(s.imps, prunable) else [];
    SingleSets(s);
    if s.Import? {
      SingleSets(s.(imps := kept));
    }
    assert AllImps([]) == {} by { NoImps(); }
  }

  lemma NoImps()
    ensures AllImps([]) == {}
  {
  }

  /** `__init__` keeps its imports but the dead ones, and gains those added. */
  lemma NewInitImports(req: Request, pkg: Package, imp: Imp)
    requires PlanOf(req, pkg).Accepted?
    ensures imp in AllImps(PlanOf(req, pkg).newInit)
            <==> AddedFor(req, pkg, imp)
                 || exists i :: 0 <= i < |pkg.init| && imp in Imps(pkg.init[i])
                                && !(Rewritable(pkg.init[i]) && Dead(req, pkg, Binds(imp)))
  {
    hide *;
    var moved, copied := PartsExist(req, pkg);
    DerivedParts(req, pkg, moved, copied);
    AddedExactly(req, pkg, imp);
    DeadExactly(req, pkg, Binds(imp));
    InitImps(req, pkg, moved, copied, imp);
    StaysImp(req, pkg, moved, copied, imp);
  }

  lemma InitImps(req: Request, pkg: Package, moved: set<nat>, copied: set<nat>, imp: Imp)
    requires Parts(req, pkg, moved, copied)
    ensures var d := Derive(req, pkg, moved, copied);
      imp in AllImps(PlanOf(req, pkg).newInit)
      <==> imp in Added(req, d)
           || exists s :: s in d.remaining && imp in Imps(s) && !(Rewritable(s) && Binds(imp) in Prunable(req, pkg, d))
  {
    AcceptedFacts(req, pkg, moved, copied);
    var d := Derive(req, pkg, moved, copied);
    var pruned := PruneAll(d.remaining, Prunable(req, pkg, d));
    var merged := MergeLocalImports(pruned, Added(req, d)).stmts;
    IncludeSets(req);
    hide *;
    PrunedImps(d.remaining, Prunable(req, pkg, d), imp);
    MergedImps(pruned, Added(req, d));
    ConcatSets(merged, [IncludeLine(req)]);
    SingleSets(IncludeLine(req));
  }

  lemma MergedImps(stmts: seq<Stmt>, add: set<Imp>)
    requires MergeLocalImports(stmts, add).MergedInto?
    ensures AllImps(MergeLocalImports(stmts, add).stmts) == AllImps(stmts) + add
  {
    hide *;
    var a, b, c := MergeCut(stmts, add);
    var block := Rendered(add + AllImps(b));
    ConcatSets(a, b + c);
    ConcatSets(b, c);
    ConcatSets(a, [block] + c);
    ConcatSets([block], c);
    SingleSets(block);
    RenderedSets(add + AllImps(b));
  }

  lemma StaysImp(req: Request, pkg: Package, moved: set<nat>, copied: set<nat>, imp: Imp)
    requires Parts(req, pkg, moved, copied)
    ensures var remaining, prunable := Derive(req, pkg, moved, copied).remaining, Prunable(req, pkg, Derive(req, pkg, moved, copied));
      (exists s :: s in remaining && imp in Imps(s) && !(Rewritable(s) && Binds(imp) in prunable))
      <==> exists i :: 0 <= i < |pkg.init| && imp in Imps(pkg.init[i]) && !(Rewritable(pkg.init[i]) && Binds(imp) in prunable)
  {
    hide PlanOf, Pick, Build, Binds, Rewritable, Prunable, Imps;
    var remaining := Derive(req, pkg, moved, copied).remaining;
    if i :| 0 <= i < |pkg.init| && imp in Imps(pkg.init[i]) {
      assert pkg.init[i] in pkg.init;
    }
    forall s | imp in Imps(s) ensures s in remaining <==> s in pkg.init {
      RemainsIf(req, pkg, moved, copied, s, imp);
    }
  }

  lemma RemainsIf(req: Request, pkg: Package, moved: set<nat>, copied: set<nat>, s: Stmt, imp: Imp)
    requires Parts(req, pkg, moved, copied) && imp in Imps(s)
    ensures s in Derive(req, pkg, moved, copied).remaining <==> s in pkg.init
  {
    hide PlanOf, Pick, Build, Select;
    PickMember(pkg.init, moved, false, s);
    if s in pkg.init {
      var i: nat :| i < |pkg.init| && pkg.init[i] == s;
      if i in moved {
        SelectedStatement(pkg.init, req.names, i);
      }
    }
  }

  // ------------------------------------------------------------ where the imports stand

  /** The statements that stay, in file order. */
  lemma {:induction false} PickPicks(stmts: seq<Stmt>, positions: set<nat>, inside: bool)
    ensures Picks(Pick(stmts, positions, inside), stmts, set p: nat | p < |stmts| && (p in positions) == inside)
  {
    hide Picks;
    if stmts == [] {
      PicksNone(stmts);
      assert (set p: nat | p < |stmts| && (p in positions) == inside) == {};
    } else {
      var n := |stmts| - 1;
      var front := stmts[..n];
      PickPicks(front, positions, inside);
      var before := set p: nat | p < |front| && (p in positions) == inside;
      PicksSnoc(Pick(front, positions, inside), front, before, stmts[n], (n in positions) == inside);
      assert stmts == front + [stmts[n]];
      assert (set p: nat | p < |stmts| && (p in positions) == inside) == before + (if (n in positions) == inside then {n} else {});
    }
  }

  ghost function NeededAt(imps: seq<Imp>, prunable: set<string>): set<nat> {
    set p: nat | p < |imps| && Binds(imps[p]) !in prunable
  }

  /** `t` is `s` without the imports that bind a prunable name. */
  ghost predicate CutTo(s: Stmt, t: Stmt, prunable: set<string>) {
    if Rewritable(s) && exists imp :: imp in s.imps && Binds(imp) in prunable then
      t.Import? && t == s.(imps := t.imps) && Picks(t.imps, s.imps, NeededAt(s.imps, prunable))
    else t == s
  }

  /** All that the statement imports is prunable. */
  ghost predicate Emptied(s: Stmt, prunable: set<string>) {
    Rewritable(s) && s.imps != [] && forall imp :: imp in s.imps ==> Binds(imp) in prunable
  }

  lemma {:induction false} KeptPicks(imps: seq<Imp>, prunable: set<string>)
    ensures Picks(KeptImps(imps, prunable), imps, NeededAt(imps, prunable))
  {
    hide Picks, Binds;
    if imps == [] {
      PicksNone(imps);
      assert NeededAt(imps, prunable) == {};
    } else {
      var rest := imps[1..];
      KeptPicks(rest, prunable);
      assert imps == [imps[0]] + rest;
      PicksCons(KeptImps(rest, prunable), rest, NeededAt(rest, prunable), imps[0], Binds(imps[0]) !in prunable, NeededAt(imps, prunable));
    }
  }

  lemma PruneCut(s: Stmt, prunable: set<string>) returns (t: Stmt)
    ensures CutTo(s, t, prunable) && Prune(s, prunable) == if Emptied(s, prunable) then [] else [t]
  {
    hide Picks, Binds;
    t := s;
    if Rewritable(s) && exists imp :: imp in s.imps && Binds(imp) in prunable {
      KeptPicks(s.imps, prunable);
      var kept := KeptImps(s.imps, prunable);
      t := s.(imps := kept);
      if kept != [] {
        assert kept[0] in kept;
      } else {
        forall imp | imp in s.imps ensures Binds(imp) in prunable {
          assert imp !in kept;
        }
      }
    }
    assert Rewritable(s) && s.imps != [] ==> s.imps[0] in s.imps;
  }

  ghost function FilledAt(stmts: seq<Stmt>, prunable: set<string>): set<nat> {
    set p: nat | p < |stmts| && !Emptied(stmts[p], prunable)
  }

  /** Pruning cuts the dead imports out of each statement, and drops the statements left empty. */
  lemma {:induction false} PrunedPicks(stmts: seq<Stmt>, prunable: set<string>) returns (cut: seq<Stmt>)
    ensures |cut| == |stmts| && forall i :: 0 <= i < |cut| ==> CutTo(stmts[i], cut[i], prunable)
    ensures Picks(PruneAll(stmts, prunable), cut, FilledAt(stmts, prunable))
  {
    hide Picks, CutTo, Emptied, Prune;
    cut := [];
    if stmts == [] {
      PicksNone(stmts);
      assert FilledAt(stmts, prunable) == {};
    } else {
      var n := |stmts| - 1;
      var front := stmts[..n];
      var before := PrunedPicks(front, prunable);
      var t := PruneCut(stmts[n], prunable);
      cut := before + [t];
      PicksSnoc(PruneAll(front, prunable), before, FilledAt(front, prunable), t, !Emptied(stmts[n], prunable));
      assert stmts == front + [stmts[n]];
      assert FilledAt(stmts, prunable) == FilledAt(front, prunable) + (if Emptied(stmts[n], prunable) then {} else {n});
    }
  }

  /**
   The imports of the tail are merged into one block. In front of it stand the docstring
   and imports that are not relative, behind it no import follows, and the tail itself,
   relative imports alone, is empty if there are none.
   */
  ghost predicate Laid(stmts: seq<Stmt>, front: seq<Stmt>, tail: seq<Stmt>, back: seq<Stmt>) {
    stmts == front + tail + back && |front| >= Start(stmts)
    && (forall i :: Start(stmts) <= i < |front| ==> IsImport(front[i]) && !IsRelative(front[i]))
    && (forall s :: s in tail ==> IsImport(s) && IsRelative(s))
    && (back != [] ==> !IsImport(back[0]))
  }

  lemma MergedLaid(stmts: seq<Stmt>, add: set<Imp>) returns (front: seq<Stmt>, tail: seq<Stmt>, back: seq<Stmt>)
    requires MergeLocalImports(stmts, add).MergedInto?
    ensures Laid(stmts, front, tail, back)
    ensures MergeLocalImports(stmts, add).stmts == front + [Rendered(add + AllImps(tail))] + back
  {
    hide IsRelative, IsImport, AllImps, ImportRun, FirstRelative;
    var s := Start(stmts);
    var n := ImportRun(stmts[s..]);
    var cut := FirstRelative(stmts[s..s + n]);
    front, tail, back := stmts[..s + cut], stmts[s..s + n][cut..], stmts[s + n..];
    hide Laid;
    RunLaid(stmts, s, n, cut);
  }

  lemma RunLaid(stmts: seq<Stmt>, s: nat, n: nat, cut: nat)
    requires s == Start(stmts) <= |stmts| && n == ImportRun(stmts[s..]) && cut == FirstRelative(stmts[s..s + n])
    requires forall t :: t in stmts[s..s + n][cut..] ==> IsRelative(t)
    ensures Laid(stmts, stmts[..s + cut], stmts[s..s + n][cut..], stmts[s + n..])
  {
    hide IsRelative, IsImport, ImportRun, FirstRelative, Start;
    var all, run := stmts[s..], stmts[s..s + n];
    forall i | 0 <= i < n ensures IsImport(run[i]) {
      assert run[i] == all[i];
    }
    RunStops(all);
    assert s + n < |stmts| ==> stmts[s + n..][0] == all[n];
    RunFront(stmts, run, s, n, cut);
    RunTail(run, cut);
    CutInThree(stmts, s, n, cut);
    InThree(stmts, stmts[..s + cut], run[cut..], stmts[s + n..]);
  }

  lemma RunFront(stmts: seq<Stmt>, run: seq<Stmt>, s: nat, n: nat, cut: nat)
    requires s + n <= |stmts| && run == stmts[s..s + n] && cut <= n
    requires forall i :: 0 <= i < n ==> IsImport(run[i])
    requires forall i :: 0 <= i < cut ==> !IsRelative(run[i])
    ensures var front := stmts[..s + cut];
      forall i :: s <= i < |front| ==> IsImport(front[i]) && !IsRelative(front[i])
  {
    hide IsRelative, IsImport;
    var front := stmts[..s + cut];
    forall i | s <= i < |front| ensures IsImport(front[i]) && !IsRelative(front[i]) {
      assert front[i] == run[i - s];
    }
  }

  lemma RunTail(run: seq<Stmt>, cut: nat)
    requires cut <= |run| && forall i :: 0 <= i < |run| ==> IsImport(run[i])
    ensures forall t :: t in run[cut..] ==> IsImport(t)
  {
    hide IsImport;
    forall t | t in run[cut..] ensures IsImport(t) {
      var k :| 0 <= k < |run[cut..]| && run[cut..][k] == t;
      assert t == run[cut + k];
    }
  }

  lemma InThree(stmts: seq<Stmt>, front: seq<Stmt>, tail: seq<Stmt>, back: seq<Stmt>)
    requires stmts == front + (tail + back)
    ensures stmts == front + tail + back
  {
  }

  lemma {:induction false} RunStops(stmts: seq<Stmt>)
    ensures ImportRun(stmts) < |stmts| ==> !IsImport(stmts[ImportRun(stmts)])
  {
    hide IsImport;
    if stmts != [] && IsImport(stmts[0]) {
      RunStops(stmts[1..]);
    }
  }

  /** The new `__init__`: what is left of it, with the tail of its imports replaced and the include line at the end. */
  lemma NewInitLaid(req: Request, pkg: Package) returns (front: seq<Stmt>, tail: seq<Stmt>, back: seq<Stmt>, block: set<Imp>)
    requires PlanOf(req, pkg).Accepted?
    ensures Laid(Left(req, pkg), front, tail, back)
    ensures PlanOf(req, pkg).newInit
         == front + [Rendered(block)] + back + [Plain({"router", "_" + req.domain + "_router"}, {})]
    ensures forall imp :: imp in block <==> AddedFor(req, pkg, imp) || imp in AllImps(tail)
  {
    var moved, copied := PartsExist(req, pkg);
    DerivedParts(req, pkg, moved, copied);
    AcceptedFacts(req, pkg, moved, copied);
    var d := Derive(req, pkg, moved, copied);
    var add := Added(req, d);
    front, tail, back := MergedLaid(PruneAll(d.remaining, Prunable(req, pkg, d)), add);
    block := add + AllImps(tail);
    forall imp ensures imp in add <==> AddedFor(req, pkg, imp) {
      AddedExactly(req, pkg, imp);
    }
    assert d.remaining == Pick(pkg.init, moved, false);
    hide PlanOf, Parts, PruneAll, Prunable, AddedFor, Added, AllImps, Laid, MergeLocalImports, Pick, Positions, Build;
  }

  // ---------------------------------------------------------------- the name an import binds

  /** A dotted path binds what stands before its first dot. */
  lemma {:induction false} FirstComponentExactly(path: string, n: nat)
    requires n <= |path| && (n < |path| ==> path[n] == '.') && forall i :: 0 <= i < n ==> path[i] != '.'
    ensures FirstComponent(path) == path[..n]
  {
    if n > 0 {
      FirstComponentExactly(path[1..], n - 1);
      assert path[..n] == [path[0]] + path[1..][..n - 1];
    }
  }
}
