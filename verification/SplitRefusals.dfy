/**
 Which splits are refused and why, said of the package and the request alone, in the
 order in which the refusals are raised; and what planning a finished split again
 gives.
 */
module SplitRefusals {
  import opened Options
  import opened SplitPlan
  import opened SplitClosure
  import opened SplitOrigins

  // ------------------------------------------------- the code that moves, and what it takes along

  /** The statement defines one of the names. */
  ghost predicate DefinesAny(s: Stmt, names: seq<string>) { exists n :: n in names && n in Defines(s) }

  /** The positions of the statements that define one of the names. */
  ghost function Positions(stmts: seq<Stmt>, names: seq<string>): set<nat> {
    set i: nat | i < |stmts| && DefinesAny(stmts[i], names)
  }

  /** A statement that moves, or is copied, uses the name. */
  ghost predicate UsedByMoving(req: Request, pkg: Package, x: string) {
    exists i :: 0 <= i < |pkg.init| && (DefinesAny(pkg.init[i], req.names) || DefinesAny(pkg.init[i], req.copies)) && x in Uses(pkg.init[i])
  }

  /** The new module must take the name from elsewhere. */
  ghost predicate Taken(req: Request, pkg: Package, x: string) {
    UsedByMoving(req, pkg, x) && x !in pkg.builtins && x !in req.names && x !in req.copies && x != ROUTER
  }

  /** A statement that does not move uses the name, which is not built in. */
  ghost predicate UsedByStaying(req: Request, pkg: Package, x: string) {
    x !in pkg.builtins
    && exists i :: 0 <= i < |pkg.init| && !DefinesAny(pkg.init[i], req.names) && x in Uses(pkg.init[i])
  }

  /** What stays behind, or another file, still reads the name through the package. */
  ghost predicate StillRead(req: Request, pkg: Package, x: string) {
    UsedByStaying(req, pkg, x) || x in pkg.reached || x in pkg.stringTargets
  }

  /** A statement that defines one of `names` declares `x` global. */
  ghost predicate RebindsIn(pkg: Package, names: seq<string>, x: string) {
    exists i :: 0 <= i < |pkg.init| && DefinesAny(pkg.init[i], names) && x in Rebinds(pkg.init[i])
  }

  lemma SelectPositions(stmts: seq<Stmt>, names: seq<string>)
    ensures Select(stmts, names).Chosen? ==> Select(stmts, names).positions == Positions(stmts, names)
  {
    hide Defines, FirstFault, AllDefines;
  }

  lemma UsesPicked(stmts: seq<Stmt>, positions: set<nat>, inside: bool, x: string)
    ensures x in AllUses(Pick(stmts, positions, inside))
            <==> exists i: nat :: i < |stmts| && (i in positions) == inside && x in Uses(stmts[i])
  {
    hide Uses, Pick;
    forall s ensures s in Pick(stmts, positions, inside) <==> exists i: nat :: i < |stmts| && (i in positions) == inside && stmts[i] == s {
      PickMember(stmts, positions, inside, s);
    }
    if i: nat :| i < |stmts| && (i in positions) == inside && x in Uses(stmts[i]) {
      assert stmts[i] in Pick(stmts, positions, inside);
    }
  }

  lemma RebindsPicked(stmts: seq<Stmt>, positions: set<nat>, x: string)
    ensures x in AllRebinds(Pick(stmts, positions, true)) <==> exists i: nat :: i < |stmts| && i in positions && x in Rebinds(stmts[i])
  {
    hide Rebinds, Pick;
    forall s ensures s in Pick(stmts, positions, true) <==> exists i: nat :: i < |stmts| && (i in positions) == true && stmts[i] == s {
      PickMember(stmts, positions, true, s);
    }
    if i: nat :| i < |stmts| && i in positions && x in Rebinds(stmts[i]) {
      assert stmts[i] in Pick(stmts, positions, true);
    }
  }

  lemma AllRebindsConcat(a: seq<Stmt>, b: seq<Stmt>)
    ensures AllRebinds(a + b) == AllRebinds(a) + AllRebinds(b)
  {
    assert forall s :: s in a + b <==> s in a || s in b;
  }

  /** What the plan derives from the selection. */
  lemma DerivedExactly(req: Request, pkg: Package, x: string)
    ensures var d := Derive(req, pkg, Positions(pkg.init, req.names), Positions(pkg.init, req.copies));
      (x in d.free - d.local <==> Taken(req, pkg, x))
      && (x in d.free <==> UsedByMoving(req, pkg, x) && x !in pkg.builtins)
      && (x in d.local <==> x in req.names || x in req.copies || x == ROUTER)
      && (x in d.remainingFree <==> UsedByStaying(req, pkg, x))
      && (x in d.reexport <==> x in req.names && (UsedByStaying(req, pkg, x) || x in pkg.reached))
      && (x in d.stillRead <==> StillRead(req, pkg, x))
  {
    var moved, copied := Positions(pkg.init, req.names), Positions(pkg.init, req.copies);
    UsesPicked(pkg.init, moved, true, x);
    UsesPicked(pkg.init, copied, true, x);
    UsesPicked(pkg.init, moved, false, x);
    ConcatSets(Pick(pkg.init, moved, true), Pick(pkg.init, copied, true));
    hide Uses, Pick, AllUses, DefinesAny;
  }

  lemma DerivedRebinds(req: Request, pkg: Package, x: string)
    ensures var d := Derive(req, pkg, Positions(pkg.init, req.names), Positions(pkg.init, req.copies));
      (x in AllRebinds(d.moved) <==> RebindsIn(pkg, req.names, x))
      && (x in AllRebinds(d.moved + d.copied) <==> RebindsIn(pkg, req.names, x) || RebindsIn(pkg, req.copies, x))
  {
    var moved, copied := Positions(pkg.init, req.names), Positions(pkg.init, req.copies);
    RebindsPicked(pkg.init, moved, x);
    RebindsPicked(pkg.init, copied, x);
    AllRebindsConcat(Pick(pkg.init, moved, true), Pick(pkg.init, copied, true));
    hide Rebinds, Pick, AllRebinds, DefinesAny;
  }

  // ------------------------------------------------------------- where a name is found

  ghost predicate ImportedBy(pkg: Package, x: string, imp: Imp) {
    Binds(imp) == x && exists i :: 0 <= i < |pkg.init| && pkg.init[i].Import? && imp in pkg.init[i].imps
  }

  ghost predicate IsImportedName(pkg: Package, x: string) { exists imp :: ImportedBy(pkg, x, imp) }

  /** The import that the new module carries for an import of `__init__`: an alias that repeats the name is dropped. */
  ghost predicate Carries(imp: Imp, from: Imp) {
    if from.level > 0 && from.asname.Some? && from.asname == from.name then imp == Imp(from.path, from.level, from.name, None)
    else imp == from
  }

  /** The import serves the name in the new module. */
  ghost predicate Serves(pkg: Package, x: string, imp: Imp) {
    if IsImportedName(pkg, x) then exists from :: ImportedBy(pkg, x, from) && Carries(imp, from)
    else if x in pkg.siblings then imp == Imp(pkg.siblings[x], 1, Some(x), None)
    else imp == Imp(pkg.proxyPath, 0, Some(x), None)
  }

  /** Neither imported, nor defined here, nor in a sibling. */
  ghost predicate Elsewhere(pkg: Package, x: string) {
    !IsImportedName(pkg, x) && x !in AllDefines(pkg.init) && x !in pkg.siblings
  }

  lemma ImportsOfExactly(pkg: Package, x: string, imp: Imp)
    ensures imp in ImportsOf(pkg.init, x) <==> ImportedBy(pkg, x, imp)
  {
    ImportsOfBinds(pkg.init, x, imp);
    if s :| s in pkg.init && s.Import? && imp in Imps(s) {
      var i :| 0 <= i < |pkg.init| && pkg.init[i] == s;
    }
    if i :| 0 <= i < |pkg.init| && pkg.init[i].Import? && imp in pkg.init[i].imps {
      assert pkg.init[i] in pkg.init && imp in Imps(pkg.init[i]);
    }
  }

  lemma ImportedNames(pkg: Package, x: string)
    ensures ImportsOf(pkg.init, x) != [] <==> IsImportedName(pkg, x)
  {
    hide ImportsOf, ImportedBy;
    forall imp ensures imp in ImportsOf(pkg.init, x) <==> ImportedBy(pkg, x, imp) {
      ImportsOfExactly(pkg, x, imp);
    }
    if ImportsOf(pkg.init, x) != [] {
      assert ImportsOf(pkg.init, x)[0] in ImportsOf(pkg.init, x);
    }
  }

  lemma NormalCarries(from: Imp, imp: Imp)
    ensures imp == Normal(from) <==> Carries(imp, from)
  {
  }

  /** Where each name is found, and why some are not. */
  lemma ResolveExactly(pkg: Package, x: string)
    ensures Resolve(pkg, x) == PackageImport <==> exists imp :: ImportedBy(pkg, x, imp) && imp.level == 1 && imp.path == ""
    ensures Resolve(pkg, x) == InInit <==> !IsImportedName(pkg, x) && x in AllDefines(pkg.init)
    ensures Resolve(pkg, x) == Cyclic <==> Elsewhere(pkg, x) && x in pkg.proxyDefs && pkg.proxyCycle
    ensures Resolve(pkg, x) == Nowhere <==> Elsewhere(pkg, x) && x !in pkg.proxyDefs
    ensures IsImported(pkg, x) <==> IsImportedName(pkg, x) || x in pkg.siblings || x in pkg.proxyDefs
  {
    ImportedNames(pkg, x);
    hide ImportsOf, ImportedBy, AllDefines;
    forall imp ensures imp in ImportsOf(pkg.init, x) <==> ImportedBy(pkg, x, imp) {
      ImportsOfExactly(pkg, x, imp);
    }
  }

  /** The imports that serve a name that is found by import. */
  lemma ResolvedExactly(pkg: Package, x: string, imp: Imp)
    requires Resolve(pkg, x).ByImport?
    ensures imp in Resolve(pkg, x).imps <==> Serves(pkg, x, imp)
  {
    ImportedNames(pkg, x);
    hide ImportsOf, AllDefines;
    forall from ensures from in ImportsOf(pkg.init, x) <==> ImportedBy(pkg, x, from)
      ensures ImportedBy(pkg, x, from) ==> (imp == Normal(from) <==> Carries(imp, from))
    {
      ImportsOfExactly(pkg, x, from);
      NormalCarries(from, imp);
    }
    hide ImportedBy, Normal, Carries;
  }

  // --------------------------------------------------------------- why a selection fails

  /** Two bindings of the name, in two definitions or in one. */
  ghost predicate BoundAgain(stmts: seq<Stmt>, name: string) {
    (exists i, j :: 0 <= i < j < |stmts| && name in Defines(stmts[i]) && name in Defines(stmts[j]))
    || exists i :: 0 <= i < |stmts| && stmts[i].Definition? && Repeats(stmts[i].defines, name)
  }

  ghost predicate Repeats(defines: seq<string>, name: string) {
    exists a, b :: 0 <= a < b < |defines| && defines[a] == defines[b] == name
  }

  lemma {:induction false} OccurrencesTwo(defines: seq<string>, name: string)
    ensures Occurrences(defines, name) > 0 <==> name in defines
    ensures Occurrences(defines, name) > 1 <==> Repeats(defines, name)
  {
    if defines != [] {
      var rest := defines[1..];
      OccurrencesTwo(rest, name);
      if Repeats(rest, name) {
        var a, b :| 0 <= a < b < |rest| && rest[a] == rest[b] == name;
        assert defines[a + 1] == defines[b + 1] == name;
      }
      if defines[0] == name && name in rest {
        var b :| 0 <= b < |rest| && rest[b] == name;
        assert defines[0] == defines[b + 1] == name;
      }
      if Repeats(defines, name) {
        var a, b :| 0 <= a < b < |defines| && defines[a] == defines[b] == name;
        assert rest[b - 1] == name && (a > 0 ==> rest[a - 1] == name);
      }
    }
  }

  lemma {:induction false} CountTwo(stmts: seq<Stmt>, name: string)
    ensures BindingCount(stmts, name) > 0 <==> exists i :: 0 <= i < |stmts| && name in Defines(stmts[i])
    ensures BindingCount(stmts, name) > 1 <==> BoundAgain(stmts, name)
  {
    if stmts != [] {
      var n := |stmts| - 1;
      var front, last := stmts[..n], stmts[n];
      CountTwo(front, name);
      if last.Definition? {
        OccurrencesTwo(last.defines, name);
      }
      hide BindingCount, Repeats, Occurrences;
      CountStep(stmts, name);
      BoundAgainStep(stmts, name);
    }
  }

  lemma CountStep(stmts: seq<Stmt>, name: string)
    requires stmts != []
    ensures var n := |stmts| - 1;
      BindingCount(stmts, name) == BindingCount(stmts[..n], name) + (if stmts[n].Definition? then Occurrences(stmts[n].defines, name) else 0)
    ensures var front := stmts[..|stmts| - 1];
      (exists i :: 0 <= i < |stmts| && name in Defines(stmts[i]))
      <==> (exists i :: 0 <= i < |front| && name in Defines(front[i])) || name in Defines(stmts[|stmts| - 1])
  {
    hide Occurrences, Defines;
    var front := stmts[..|stmts| - 1];
    if i :| 0 <= i < |stmts| - 1 && name in Defines(stmts[i]) {
      assert front[i] == stmts[i];
    }
  }

  lemma BoundAgainStep(stmts: seq<Stmt>, name: string)
    requires stmts != []
    ensures var n := |stmts| - 1;
      var front := stmts[..n];
      BoundAgain(stmts, name)
      <==> (BoundAgain(front, name)
            || (name in Defines(stmts[n]) && exists i :: 0 <= i < n && name in Defines(front[i]))
            || (stmts[n].Definition? && Repeats(stmts[n].defines, name)))
  {
    hide Repeats, Defines;
    var n := |stmts| - 1;
    var front := stmts[..n];
    assert forall i :: 0 <= i < n ==> front[i] == stmts[i];
    if BoundAgain(front, name) {
      if i, j :| 0 <= i < j < |front| && name in Defines(front[i]) && name in Defines(front[j]) {
        assert name in Defines(stmts[i]) && name in Defines(stmts[j]);
      } else {
        var i :| 0 <= i < |front| && front[i].Definition? && Repeats(front[i].defines, name);
        assert stmts[i].Definition? && Repeats(stmts[i].defines, name);
      }
    }
    if BoundAgain(stmts, name) {
      if i, j :| 0 <= i < j < |stmts| && name in Defines(stmts[i]) && name in Defines(stmts[j]) {
        assert name in Defines(front[i]);
      } else {
        var i :| 0 <= i < |stmts| && stmts[i].Definition? && Repeats(stmts[i].defines, name);
        assert i < n ==> front[i].Definition?;
      }
    }
  }

  /** A statement that defines the name also defines one that is not listed. */
  ghost predicate Drags(stmts: seq<Stmt>, names: seq<string>, name: string) {
    exists i, x :: 0 <= i < |stmts| && name in Defines(stmts[i]) && x in Defines(stmts[i]) && x !in names
  }

  lemma NameFaultMeans(stmts: seq<Stmt>, names: seq<string>, name: string)
    ensures NameFault(stmts, names, name) == Some(BoundTwice) <==> BoundAgain(stmts, name)
    ensures NameFault(stmts, names, name) == Some(BindsMore) <==> !BoundAgain(stmts, name) && Drags(stmts, names, name)
    ensures NameFault(stmts, names, name) == None <==> !BoundAgain(stmts, name) && !Drags(stmts, names, name)
  {
    CountTwo(stmts, name);
    hide BindingCount, BoundAgain, Defines;
    if Drags(stmts, names, name) {
      var i, x :| 0 <= i < |stmts| && name in Defines(stmts[i]) && x in Defines(stmts[i]) && x !in names;
      var at: nat := i;
      assert at in DefinedAt(stmts, name) && x in Defines(stmts[at]);
    }
  }

  lemma {:induction false} FirstFaultMeans(stmts: seq<Stmt>, names: seq<string>, k: nat)
    requires k <= |names|
    ensures FirstFault(stmts, names, k).Some? ==>
      exists n :: n in names && NameFault(stmts, names, n) == FirstFault(stmts, names, k)
    ensures FirstFault(stmts, names, k).None? ==> forall i :: k <= i < |names| ==> NameFault(stmts, names, names[i]).None?
    decreases |names| - k
  {
    hide NameFault;
    if k < |names| {
      FirstFaultMeans(stmts, names, k + 1);
    }
  }

  ghost predicate Missing(stmts: seq<Stmt>, names: seq<string>) { exists n :: n in names && n !in AllDefines(stmts) }
  ghost predicate SomeAgain(stmts: seq<Stmt>, names: seq<string>) { exists n :: n in names && BoundAgain(stmts, n) }
  ghost predicate SomeDrag(stmts: seq<Stmt>, names: seq<string>) { exists n :: n in names && Drags(stmts, names, n) }

  /** Why a selection fails: a name is missing, else the first name at fault says. */
  lemma SelectMeans(stmts: seq<Stmt>, names: seq<string>)
    ensures Select(stmts, names) == Fault(NotFound) <==> Missing(stmts, names)
    ensures Select(stmts, names) == Fault(BoundTwice) ==> SomeAgain(stmts, names)
    ensures Select(stmts, names) == Fault(BindsMore) ==> SomeDrag(stmts, names)
    ensures Select(stmts, names).Chosen? <==> !Missing(stmts, names) && !SomeAgain(stmts, names) && !SomeDrag(stmts, names)
    ensures Select(stmts, names).Fault? ==> Select(stmts, names).reason in {NotFound, BoundTwice, BindsMore}
  {
    FirstFaultMeans(stmts, names, 0);
    forall n ensures NameFault(stmts, names, n) == Some(BoundTwice) <==> BoundAgain(stmts, n)
      ensures NameFault(stmts, names, n) == Some(BindsMore) <==> !BoundAgain(stmts, n) && Drags(stmts, names, n)
      ensures NameFault(stmts, names, n) == None <==> !BoundAgain(stmts, n) && !Drags(stmts, names, n)
    {
      NameFaultMeans(stmts, names, n);
    }
    assert FirstFault(stmts, names, 0).Some? ==> FirstFault(stmts, names, 0).value in {BoundTwice, BindsMore} by {
      if FirstFault(stmts, names, 0).Some? {
        var n :| n in names && NameFault(stmts, names, n) == FirstFault(stmts, names, 0);
        FaultKinds(stmts, names, n);
      }
    }
    hide NameFault, FirstFault, BoundAgain, Drags, AllDefines, Defines;
  }

  lemma FaultKinds(stmts: seq<Stmt>, names: seq<string>, n: string)
    ensures NameFault(stmts, names, n).Some? ==> NameFault(stmts, names, n).value in {BoundTwice, BindsMore}
  {
    hide BindingCount, Defines;
  }

  // ------------------------------------------------------------------ import blocks

  function Start(stmts: seq<Stmt>): nat { if stmts != [] && stmts[0].Docstring? then 1 else 0 }

  /** No import stands at the beginning, behind the docstring if there is one. */
  ghost predicate NoBlock(stmts: seq<Stmt>) { Start(stmts) == |stmts| || !IsImport(stmts[Start(stmts)]) }

  /** In the leading run of imports one that is not relative follows a relative one. */
  ghost predicate Mixed(stmts: seq<Stmt>) {
    exists i, j :: Start(stmts) <= i < j < |stmts| && IsRelative(stmts[i]) && !IsRelative(stmts[j])
      && forall k :: Start(stmts) <= k <= j ==> IsImport(stmts[k])
  }

  lemma {:induction false} ImportRunIs(stmts: seq<Stmt>, k: nat)
    requires k < |stmts|
    ensures k < ImportRun(stmts) <==> forall i :: 0 <= i <= k ==> IsImport(stmts[i])
  {
    if IsImport(stmts[0]) && k > 0 {
      ImportRunIs(stmts[1..], k - 1);
      assert forall i :: 1 <= i <= k ==> stmts[1..][i - 1] == stmts[i];
      if forall i :: 0 <= i <= k - 1 ==> IsImport(stmts[1..][i]) {
        forall i | 0 <= i <= k ensures IsImport(stmts[i]) {
          assert i > 0 ==> IsImport(stmts[1..][i - 1]);
        }
      }
    }
  }

  lemma InRun(stmts: seq<Stmt>, j: nat)
    requires Start(stmts) <= j < |stmts|
    ensures j - Start(stmts) < ImportRun(stmts[Start(stmts)..]) <==> forall k :: Start(stmts) <= k <= j ==> IsImport(stmts[k])
  {
    var s := Start(stmts);
    hide IsImport;
    ImportRunIs(stmts[s..], j - s);
    if forall i :: 0 <= i <= j - s ==> IsImport(stmts[s..][i]) {
      forall k | s <= k <= j ensures IsImport(stmts[k]) {
        assert stmts[s..][k - s] == stmts[k];
      }
    }
  }

  /** Why merging fails. */
  lemma MergeMeans(stmts: seq<Stmt>, add: set<Imp>)
    ensures MergeLocalImports(stmts, add) == MergeFault(NoImportBlock) <==> NoBlock(stmts)
    ensures MergeLocalImports(stmts, add) == MergeFault(RelativeNotTail) <==> !NoBlock(stmts) && Mixed(stmts)
    ensures MergeLocalImports(stmts, add).MergedInto? <==> !NoBlock(stmts) && !Mixed(stmts)
  {
    var s := Start(stmts);
    var length := ImportRun(stmts[s..]);
    var run := stmts[s..s + length];
    var cut := FirstRelative(run);
    RunEmpty(stmts);
    RunMixed(stmts, run, cut);
    hide NoBlock, Mixed, IsRelative, ImportRun, FirstRelative, IsImport, AllImps;
  }

  lemma RunEmpty(stmts: seq<Stmt>)
    ensures ImportRun(stmts[Start(stmts)..]) == 0 <==> NoBlock(stmts)
  {
    if Start(stmts) < |stmts| {
      InRun(stmts, Start(stmts));
      hide IsImport, ImportRun;
    }
  }

  lemma RunMixed(stmts: seq<Stmt>, run: seq<Stmt>, cut: nat)
    requires run == stmts[Start(stmts)..Start(stmts) + ImportRun(stmts[Start(stmts)..])] && cut == FirstRelative(run)
    ensures (exists s :: s in run[cut..] && !IsRelative(s)) <==> Mixed(stmts)
  {
    hide *;
    if t :| t in run[cut..] && !IsRelative(t) {
      MixedThere(stmts, run, cut, t);
    }
    if Mixed(stmts) {
      MixedHere(stmts, run, cut);
    }
  }

  lemma MixedThere(stmts: seq<Stmt>, run: seq<Stmt>, cut: nat, t: Stmt)
    requires run == stmts[Start(stmts)..Start(stmts) + ImportRun(stmts[Start(stmts)..])] && cut == FirstRelative(run)
    requires t in run[cut..] && !IsRelative(t)
    ensures Mixed(stmts)
  {
    hide IsRelative, IsImport, ImportRun, FirstRelative;
    var s := Start(stmts);
    var j :| 0 <= j < |run[cut..]| && run[cut..][j] == t;
    assert run[cut] == stmts[s + cut] && t == run[cut + j] == stmts[s + cut + j];
    assert IsRelative(run[cut]);
    InRun(stmts, s + cut + j);
  }

  lemma MixedHere(stmts: seq<Stmt>, run: seq<Stmt>, cut: nat)
    requires run == stmts[Start(stmts)..Start(stmts) + ImportRun(stmts[Start(stmts)..])] && cut == FirstRelative(run)
    requires Mixed(stmts)
    ensures exists s :: s in run[cut..] && !IsRelative(s)
  {
    hide IsRelative, IsImport, ImportRun, FirstRelative;
    var s := Start(stmts);
    var i, j :| s <= i < j < |stmts| && IsRelative(stmts[i]) && !IsRelative(stmts[j])
      && forall k :: s <= k <= j ==> IsImport(stmts[k]);
    InRun(stmts, j);
    assert run[i - s] == stmts[i] && run[j - s] == stmts[j];
    assert cut <= i - s;
    assert run[cut..][j - s - cut] == stmts[j];
  }

  /** A small letter, and then small letters, digits and underscores. */
  ghost predicate ModuleName(s: string) {
    s != "" && 'a' <= s[0] <= 'z' && forall c :: c in s ==> 'a' <= c <= 'z' || '0' <= c <= '9' || c == '_'
  }

  lemma NameCharacters(s: string)
    ensures IsName(s) <==> ModuleName(s)
    ensures IsName(s) ==> s[|s| - 1] != '\n'
  {
    assert forall i :: 0 <= i < |s| ==> s[i] in s;
    forall c | c in s ensures exists i :: 0 <= i < |s| && s[i] == c {
    }
  }

  /** The domains taken: a module name, which one newline may follow. */
  lemma DomainExactly(domain: string)
    ensures ValidDomain(domain) <==> ModuleName(domain) || exists name :: ModuleName(name) && domain == name + "\n"
  {
    hide IsName, ModuleName;
    NameCharacters(domain);
    if name :| ModuleName(name) && domain == name + "\n" {
      NameCharacters(name);
      assert domain[..|domain| - 1] == name;
    }
    if domain != "" && domain[|domain| - 1] == '\n' {
      NameCharacters(domain[..|domain| - 1]);
      assert domain == domain[..|domain| - 1] + "\n";
    }
  }

  // ---------------------------------------------------------------- the reasons

  /** The statements left when the moved ones and the dead imports are cut. */
  ghost function Left(req: Request, pkg: Package): seq<Stmt> {
    PruneAll(Pick(pkg.init, Positions(pkg.init, req.names), false),
             Prunable(req, pkg, Derive(req, pkg, Positions(pkg.init, req.names), Positions(pkg.init, req.copies))))
  }

  /** Moving or copied code rebinds the name, and another module owns it. */
  ghost predicate Foreign(req: Request, pkg: Package, x: string) {
    (RebindsIn(pkg, req.names, x) || RebindsIn(pkg, req.copies, x))
    && (IsImportedName(pkg, x) || x in pkg.siblings || x in pkg.proxyDefs)
  }

  /** What each refusal says of the request and the package. */
  ghost predicate Applies(req: Request, pkg: Package, r: Reason) {
    match r
    case InvalidDomain => !ValidDomain(req.domain)
    case PartlySplit => pkg.target.Some? && exists n :: n in req.names && (n in AllDefines(pkg.init) || n !in pkg.target.value)
    case NothingListed => req.names == []
    case MovedAndCopied => exists n :: n in req.names && n in req.copies
    case RouterListed => ROUTER in req.names || ROUTER in req.copies
    case NotFound => Missing(pkg.init, req.names) || Missing(pkg.init, req.copies)
    case BoundTwice => SomeAgain(pkg.init, req.names) || SomeAgain(pkg.init, req.copies)
    case BindsMore => SomeDrag(pkg.init, req.names) || SomeDrag(pkg.init, req.copies)
    case NotCopyable => exists i :: 0 <= i < |pkg.init| && DefinesAny(pkg.init[i], req.copies) && !pkg.init[i].copyable
    case FromPackageImport => exists x, imp :: Taken(req, pkg, x) && ImportedBy(pkg, x, imp) && imp.level == 1 && imp.path == ""
    case StillDefined => exists x :: Taken(req, pkg, x) && !IsImportedName(pkg, x) && x in AllDefines(pkg.init)
    case ImportCycle => exists x :: Taken(req, pkg, x) && Elsewhere(pkg, x) && x in pkg.proxyDefs && pkg.proxyCycle
    case ResolvesNowhere => exists x :: Taken(req, pkg, x) && Elsewhere(pkg, x) && x !in pkg.proxyDefs
    case SplitState => exists x :: x in req.names && RebindsIn(pkg, req.names, x) && (UsedByStaying(req, pkg, x) || x in pkg.reached)
    case ForeignState => exists x :: Taken(req, pkg, x) && Foreign(req, pkg, x) && StillRead(req, pkg, x)
    case StalePatchTarget => exists x :: x in pkg.patchTargets && (x in req.names || x in req.copies)
    case NoImportBlock => NoBlock(Left(req, pkg))
    case RelativeNotTail => Mixed(Left(req, pkg))
  }

  /** The order of the refusals; those of a selection stand together. */
  function Phase(r: Reason): nat {
    match r
    case InvalidDomain => 0
    case PartlySplit => 1
    case NothingListed => 2
    case MovedAndCopied => 3
    case RouterListed => 4
    case NotFound => 5
    case BoundTwice => 5
    case BindsMore => 5
    case NotCopyable => 6
    case FromPackageImport => 7
    case StillDefined => 8
    case ImportCycle => 9
    case ResolvesNowhere => 10
    case SplitState => 11
    case ForeignState => 12
    case StalePatchTarget => 13
    case NoImportBlock => 14
    case RelativeNotTail => 15
  }

  // --------------------------------------------------------- each refusal, and their order

  lemma KindMeans(pkg: Package, names: set<string>, kind: Resolution)
    requires !kind.ByImport?
    ensures kind in ResolveAll(pkg, names).kinds <==> exists x :: x in names && Resolve(pkg, x) == kind
  {
    hide Resolve;
  }

  lemma ResolutionMeans(req: Request, pkg: Package)
    ensures var d := Derive(req, pkg, Positions(pkg.init, req.names), Positions(pkg.init, req.copies));
      var kinds := ResolveAll(pkg, d.free - d.local).kinds;
      (PackageImport in kinds <==> Applies(req, pkg, FromPackageImport)) && (InInit in kinds <==> Applies(req, pkg, StillDefined))
      && (Cyclic in kinds <==> Applies(req, pkg, ImportCycle)) && (Nowhere in kinds <==> Applies(req, pkg, ResolvesNowhere))
  {
    hide *;
    var d := Derive(req, pkg, Positions(pkg.init, req.names), Positions(pkg.init, req.copies));
    var taken := d.free - d.local;
    forall x ensures x in taken <==> Taken(req, pkg, x) {
      DerivedExactly(req, pkg, x);
    }
    KindMeans(pkg, taken, PackageImport);
    KindMeans(pkg, taken, InInit);
    KindMeans(pkg, taken, Cyclic);
    KindMeans(pkg, taken, Nowhere);
    FromPackageMeans(req, pkg, taken);
    StillDefinedMeans(req, pkg, taken);
    ElsewhereMeans(req, pkg, taken);
  }

  lemma FromPackageMeans(req: Request, pkg: Package, taken: set<string>)
    requires forall x :: x in taken <==> Taken(req, pkg, x)
    ensures (exists x :: x in taken && Resolve(pkg, x) == PackageImport) <==> Applies(req, pkg, FromPackageImport)
  {
    hide Taken, Resolve, ImportedBy;
    forall x ensures Resolve(pkg, x) == PackageImport <==> exists imp :: ImportedBy(pkg, x, imp) && imp.level == 1 && imp.path == "" {
      ResolveExactly(pkg, x);
    }
  }

  lemma StillDefinedMeans(req: Request, pkg: Package, taken: set<string>)
    requires forall x :: x in taken <==> Taken(req, pkg, x)
    ensures (exists x :: x in taken && Resolve(pkg, x) == InInit) <==> Applies(req, pkg, StillDefined)
  {
    hide Taken, Resolve, IsImportedName, AllDefines;
    forall x ensures Resolve(pkg, x) == InInit <==> !IsImportedName(pkg, x) && x in AllDefines(pkg.init) {
      ResolveExactly(pkg, x);
    }
  }

  lemma ElsewhereMeans(req: Request, pkg: Package, taken: set<string>)
    requires forall x :: x in taken <==> Taken(req, pkg, x)
    ensures (exists x :: x in taken && Resolve(pkg, x) == Cyclic) <==> Applies(req, pkg, ImportCycle)
    ensures (exists x :: x in taken && Resolve(pkg, x) == Nowhere) <==> Applies(req, pkg, ResolvesNowhere)
  {
    hide Taken, Resolve, Elsewhere;
    forall x ensures Resolve(pkg, x) == Cyclic <==> Elsewhere(pkg, x) && x in pkg.proxyDefs && pkg.proxyCycle
      ensures Resolve(pkg, x) == Nowhere <==> Elsewhere(pkg, x) && x !in pkg.proxyDefs
    {
      ResolveExactly(pkg, x);
    }
  }

  lemma SplitStateMeans(req: Request, pkg: Package)
    ensures var d := Derive(req, pkg, Positions(pkg.init, req.names), Positions(pkg.init, req.copies));
      AllRebinds(d.moved) * d.reexport != {} <==> Applies(req, pkg, SplitState)
  {
    var d := Derive(req, pkg, Positions(pkg.init, req.names), Positions(pkg.init, req.copies));
    hide Derive, RebindsIn, UsedByStaying, AllRebinds, Positions;
    forall x ensures x in AllRebinds(d.moved) * d.reexport
      <==> x in req.names && RebindsIn(pkg, req.names, x) && (UsedByStaying(req, pkg, x) || x in pkg.reached)
    {
      DerivedExactly(req, pkg, x);
      DerivedRebinds(req, pkg, x);
    }
    NonEmpty(AllRebinds(d.moved) * d.reexport);
  }

  lemma ForeignMember(req: Request, pkg: Package, x: string)
    ensures var d := Derive(req, pkg, Positions(pkg.init, req.names), Positions(pkg.init, req.copies));
      x in AllRebinds(d.moved + d.copied) * ImportedFree(pkg, d) * d.stillRead
      <==> Taken(req, pkg, x) && Foreign(req, pkg, x) && StillRead(req, pkg, x)
  {
    hide Derive, Taken, RebindsIn, StillRead, AllRebinds, Positions, IsImported, IsImportedName;
    DerivedExactly(req, pkg, x);
    DerivedRebinds(req, pkg, x);
    ResolveExactly(pkg, x);
  }

  lemma ForeignStateMeans(req: Request, pkg: Package)
    ensures var d := Derive(req, pkg, Positions(pkg.init, req.names), Positions(pkg.init, req.copies));
      AllRebinds(d.moved + d.copied) * ImportedFree(pkg, d) * d.stillRead != {} <==> Applies(req, pkg, ForeignState)
  {
    var d := Derive(req, pkg, Positions(pkg.init, req.names), Positions(pkg.init, req.copies));
    hide Derive, Taken, Foreign, StillRead, AllRebinds, Positions, ImportedFree;
    var shared := AllRebinds(d.moved + d.copied) * ImportedFree(pkg, d) * d.stillRead;
    forall x ensures x in shared <==> Taken(req, pkg, x) && Foreign(req, pkg, x) && StillRead(req, pkg, x) {
      ForeignMember(req, pkg, x);
    }
    NonEmpty(shared);
  }

  lemma PatchMeans(req: Request, pkg: Package)
    ensures pkg.patchTargets * (Names(req.names) + Names(req.copies)) != {} <==> Applies(req, pkg, StalePatchTarget)
  {
    var stale := pkg.patchTargets * (Names(req.names) + Names(req.copies));
    forall x ensures x in stale <==> x in pkg.patchTargets && (x in req.names || x in req.copies) {}
    NonEmpty(stale);
  }

  lemma StateMeans(req: Request, pkg: Package)
    ensures var d := Derive(req, pkg, Positions(pkg.init, req.names), Positions(pkg.init, req.copies));
      (AllRebinds(d.moved) * d.reexport != {} <==> Applies(req, pkg, SplitState))
      && (AllRebinds(d.moved + d.copied) * ImportedFree(pkg, d) * d.stillRead != {} <==> Applies(req, pkg, ForeignState))
      && (pkg.patchTargets * (Names(req.names) + Names(req.copies)) != {} <==> Applies(req, pkg, StalePatchTarget))
  {
    hide *;
    SplitStateMeans(req, pkg);
    ForeignStateMeans(req, pkg);
    PatchMeans(req, pkg);
  }

  lemma NonEmpty(s: set<string>)
    ensures s != {} <==> exists x :: x in s
  {
  }

  /** The outcome once both selections succeeded. */
  lemma BuildMeans(req: Request, pkg: Package)
    ensures var out := Build(req, pkg, Derive(req, pkg, Positions(pkg.init, req.names), Positions(pkg.init, req.copies)));
      !out.AlreadySplit?
      && (out.Refused? ==> Phase(out.reason) >= 7 && Applies(req, pkg, out.reason)
                           && forall q :: 7 <= Phase(q) < Phase(out.reason) ==> !Applies(req, pkg, q))
      && (out.Accepted? ==> forall q :: Phase(q) >= 7 ==> !Applies(req, pkg, q))
  {
    var d := Derive(req, pkg, Positions(pkg.init, req.names), Positions(pkg.init, req.copies));
    ResolutionMeans(req, pkg);
    StateMeans(req, pkg);
    LeftMeans(req, pkg, Added(req, d));
    hide Derive, ResolveAll, Applies, AllRebinds, ImportedFree, Names, MergeLocalImports, PruneAll, Pick, NewModule, Positions, Left, Added, Prunable;
  }

  lemma LeftMeans(req: Request, pkg: Package, add: set<Imp>)
    ensures var d := Derive(req, pkg, Positions(pkg.init, req.names), Positions(pkg.init, req.copies));
      var merged := MergeLocalImports(PruneAll(d.remaining, Prunable(req, pkg, d)), add);
      (merged == MergeFault(NoImportBlock) <==> Applies(req, pkg, NoImportBlock))
      && (merged == MergeFault(RelativeNotTail) <==> !Applies(req, pkg, NoImportBlock) && Applies(req, pkg, RelativeNotTail))
      && (merged.MergedInto? <==> !Applies(req, pkg, NoImportBlock) && !Applies(req, pkg, RelativeNotTail))
      && (merged.MergeFault? ==> merged.reason == NoImportBlock || merged.reason == RelativeNotTail)
  {
    MergeMeans(Left(req, pkg), add);
    LeftIs(req, pkg);
    MergeKinds(Left(req, pkg), add);
    hide *;
    BlockApplies(req, pkg);
  }

  lemma BlockApplies(req: Request, pkg: Package)
    ensures Applies(req, pkg, NoImportBlock) <==> NoBlock(Left(req, pkg))
    ensures Applies(req, pkg, RelativeNotTail) <==> Mixed(Left(req, pkg))
  {
    hide Left, NoBlock, Mixed;
  }

  lemma MergeKinds(stmts: seq<Stmt>, add: set<Imp>)
    ensures var merged := MergeLocalImports(stmts, add);
      merged.MergeFault? ==> merged.reason == NoImportBlock || merged.reason == RelativeNotTail
  {
    hide ImportRun, FirstRelative, IsRelative, AllImps;
  }

  lemma LeftIs(req: Request, pkg: Package)
    ensures var d := Derive(req, pkg, Positions(pkg.init, req.names), Positions(pkg.init, req.copies));
      Left(req, pkg) == PruneAll(d.remaining, Prunable(req, pkg, d))
  {
    hide PruneAll, Pick, Positions, Prunable;
  }

  lemma CopyMeans(req: Request, pkg: Package)
    ensures var copied := Positions(pkg.init, req.copies);
      (exists i: nat :: i in copied && i < |pkg.init| && !(pkg.init[i].Definition? && pkg.init[i].copyable))
      <==> Applies(req, pkg, NotCopyable)
  {
  }

  lemma RequestMeans(req: Request, pkg: Package)
    ensures Names(req.names) * Names(req.copies) != {} <==> Applies(req, pkg, MovedAndCopied)
  {
    var both := Names(req.names) * Names(req.copies);
    forall n ensures n in both <==> n in req.names && n in req.copies {}
    NonEmpty(both);
  }

  /**
   The answer of the planning, exactly. A refusal gives a reason that applies while
   none that is raised earlier does. A split is a no-op exactly when its target exists
   and nothing is left to do, and is accepted exactly when there is no target and no
   reason applies.
   */
  lemma PlannedExactly(req: Request, pkg: Package)
    ensures var out := PlanOf(req, pkg);
      (out.Refused? ==> Applies(req, pkg, out.reason) && forall q :: Phase(q) < Phase(out.reason) ==> !Applies(req, pkg, q))
      && (out.AlreadySplit? <==> ValidDomain(req.domain) && pkg.target.Some? && !Applies(req, pkg, PartlySplit))
      && (out.Accepted? <==> pkg.target.None? && forall q :: !Applies(req, pkg, q))
  {
    BuildMeans(req, pkg);
    CopyMeans(req, pkg);
    RequestMeans(req, pkg);
    SelectMeans(pkg.init, req.names);
    SelectMeans(pkg.init, req.copies);
    SelectPositions(pkg.init, req.names);
    SelectPositions(pkg.init, req.copies);
    EarlyMeans(req, pkg);
    hide Build, Derive, Select, Applies, Positions, ValidDomain, Names, AllDefines, Missing, SomeAgain, SomeDrag;
  }

  /** The reasons that are read off the request, and those of a selection. */
  lemma EarlyMeans(req: Request, pkg: Package)
    ensures Applies(req, pkg, InvalidDomain) <==> !ValidDomain(req.domain)
    ensures Applies(req, pkg, PartlySplit)
            <==> (pkg.target.Some? && !(forall n :: n in req.names ==> n !in AllDefines(pkg.init) && n in pkg.target.value))
    ensures Applies(req, pkg, NothingListed) <==> req.names == []
    ensures Applies(req, pkg, RouterListed) <==> ROUTER in req.names || ROUTER in req.copies
    ensures Applies(req, pkg, NotFound) <==> Missing(pkg.init, req.names) || Missing(pkg.init, req.copies)
    ensures Applies(req, pkg, BoundTwice) <==> SomeAgain(pkg.init, req.names) || SomeAgain(pkg.init, req.copies)
    ensures Applies(req, pkg, BindsMore) <==> SomeDrag(pkg.init, req.names) || SomeDrag(pkg.init, req.copies)
  {
    hide AllDefines, Missing, SomeAgain, SomeDrag, ValidDomain;
  }

  // ------------------------------------------------------------------- planning again

  /** No moved name is defined in the new `__init__`, and every one is in the new module. */
  lemma NamesMoved(req: Request, pkg: Package, moved: set<nat>, copied: set<nat>, n: string)
    requires Parts(req, pkg, moved, copied) && n in req.names
    ensures n !in AllDefines(PlanOf(req, pkg).newInit) && n in AllDefines(PlanOf(req, pkg).newModule)
  {
    NewInitSets(req, pkg, moved, copied);
    SelectedBound(pkg.init, req.names, moved, n);
    var s :| s in Pick(pkg.init, moved, true) && n in Defines(s);
    NewModuleDefinition(req, pkg, moved, copied, s);
    hide PlanOf, Select, Pick;
    forall t | t in Pick(pkg.init, moved, false) ensures n !in Defines(t) {
      if n in Defines(t) {
        PickMember(pkg.init, moved, false, t);
        MovedDefinition(req, pkg, moved, copied, n, t);
        OnlyMoved(req, pkg, moved, copied, n, t);
      }
    }
  }

  lemma OnlyMoved(req: Request, pkg: Package, moved: set<nat>, copied: set<nat>, n: string, t: Stmt)
    requires Parts(req, pkg, moved, copied) && n in req.names && n in Defines(t)
    ensures t !in Pick(pkg.init, moved, false)
  {
    hide PlanOf, Pick, Build;
    PickMember(pkg.init, moved, false, t);
  }

  /** Planning a split again once it is applied finds nothing to do. */
  lemma PlanAgain(req: Request, pkg: Package)
    requires PlanOf(req, pkg).Accepted?
    ensures var plan := PlanOf(req, pkg);
      PlanOf(req, pkg.(init := plan.newInit, target := Some(AllDefines(plan.newModule)))) == AlreadySplit
  {
    var moved, copied := PartsExist(req, pkg);
    var plan := PlanOf(req, pkg);
    var again := pkg.(init := plan.newInit, target := Some(AllDefines(plan.newModule)));
    PlannedExactly(req, pkg);
    PlannedExactly(req, again);
    hide PlanOf, Parts, ValidDomain, AllDefines;
    assert !Applies(req, pkg, InvalidDomain);
    forall n | n in req.names ensures n !in AllDefines(plan.newInit) && n in AllDefines(plan.newModule) {
      NamesMoved(req, pkg, moved, copied, n);
    }
    assert !Applies(req, again, PartlySplit);
  }
}
