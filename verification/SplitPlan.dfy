/**
 The module-splitting transform on parsed statements: which statements move, what
 the new module imports, what stays re-exported, which imports die, and when the
 split is refused.
 */
module SplitPlan {
  import opened Options

  // ------------------------------------------------------------------- modules

  /** One imported name; without a `name` the module itself is imported. */
  datatype Imp = Imp(path: string, level: nat, name: Option<string>, asname: Option<string>)

  function FirstComponent(path: string): string {
    if path == "" || path[0] == '.' then "" else [path[0]] + FirstComponent(path[1..])
  }

  /** The name an import binds. */
  function Binds(imp: Imp): string {
    match imp.asname
    case Some(alias) => alias
    case None => if imp.name.Some? then imp.name.value else FirstComponent(imp.path)
  }

  /**
   A top-level statement. `uses` are the names it takes from module scope, built-in
   ones included; `rebinds` are the names it declares global. `Rendered` is an
   import block that the transform writes.
   */
  datatype Stmt =
    | Docstring
    | Import(imps: seq<Imp>, future: bool, commented: bool)
    | Rendered(block: set<Imp>)
    | Definition(defines: seq<string>, uses: set<string>, rebinds: set<string>, copyable: bool)
    | Plain(uses: set<string>, rebinds: set<string>)

  function Imps(s: Stmt): set<Imp> {
    match s
    case Import(imps, _, _) => set imp | imp in imps
    case Rendered(block) => block
    case _ => {}
  }

  function Uses(s: Stmt): set<string> { if s.Definition? || s.Plain? then s.uses else {} }

  function Rebinds(s: Stmt): set<string> { if s.Definition? || s.Plain? then s.rebinds else {} }

  function Defines(s: Stmt): set<string> { if s.Definition? then set x | x in s.defines else {} }

  function AllUses(stmts: seq<Stmt>): set<string> { set s, x | s in stmts && x in Uses(s) :: x }

  function AllRebinds(stmts: seq<Stmt>): set<string> { set s, x | s in stmts && x in Rebinds(s) :: x }

  function AllImps(stmts: seq<Stmt>): set<Imp> { set s, imp | s in stmts && imp in Imps(s) :: imp }

  function AllDefines(stmts: seq<Stmt>): set<string> { set s, x | s in stmts && x in Defines(s) :: x }

  function Bound(stmts: seq<Stmt>): set<string> {
    (set imp | imp in AllImps(stmts) :: Binds(imp)) + AllDefines(stmts)
  }

  /** Every name a statement uses is built in or bound at top level. */
  ghost predicate Closed(stmts: seq<Stmt>, builtins: set<string>) {
    AllUses(stmts) - builtins <= Bound(stmts)
  }

  // -------------------------------------------------------- request and outcome

  datatype Request = Request(domain: string, names: seq<string>, copies: seq<string>)

  /**
   The package as the transform reads it: its `__init__`, the names its other
   modules define, the proxy module, the names taken from the package elsewhere
   (`reached`), or named after it in strings (`stringTargets`, `patchTargets`), and
   what the target module defines when it already exists.
   */
  datatype Package = Package(
    init: seq<Stmt>,
    siblings: map<string, string>,
    proxyPath: string,
    proxyDefs: set<string>,
    proxyCycle: bool,
    reached: set<string>,
    stringTargets: set<string>,
    patchTargets: set<string>,
    builtins: set<string>,
    target: Option<set<string>>)

  datatype Reason =
    | InvalidDomain | PartlySplit | NothingListed | MovedAndCopied | RouterListed
    | NotFound | BoundTwice | BindsMore | NotCopyable
    | FromPackageImport | StillDefined | ImportCycle | ResolvesNowhere
    | SplitState | ForeignState | StalePatchTarget
    | NoImportBlock | RelativeNotTail

  datatype Outcome = Refused(reason: Reason) | AlreadySplit | Accepted(newModule: seq<Stmt>, newInit: seq<Stmt>)

  /** `^[a-z][a-z0-9_]*$`, where `$` also matches before a final newline. */
  predicate ValidDomain(domain: string) {
    IsName(if domain != "" && domain[|domain| - 1] == '\n' then domain[..|domain| - 1] else domain)
  }

  predicate IsName(name: string) {
    name != "" && 'a' <= name[0] <= 'z'
    && forall i :: 0 <= i < |name| ==> 'a' <= name[i] <= 'z' || '0' <= name[i] <= '9' || name[i] == '_'
  }

  // ----------------------------------------------------------------- selection

  function Occurrences(defines: seq<string>, name: string): nat {
    if defines == [] then 0 else (if defines[0] == name then 1 else 0) + Occurrences(defines[1..], name)
  }

  /** How many bindings of `name` the definitions of a module hold. */
  function BindingCount(stmts: seq<Stmt>, name: string): nat {
    if stmts == [] then 0
    else
      var last := stmts[|stmts| - 1];
      BindingCount(stmts[..|stmts| - 1], name) + (if last.Definition? then Occurrences(last.defines, name) else 0)
  }

  /** The positions of the statements that define `name`. */
  function DefinedAt(stmts: seq<Stmt>, name: string): set<nat> {
    set i: nat | i < |stmts| && name in Defines(stmts[i])
  }

  /** Why `name` cannot be selected together with `names`. */
  function NameFault(stmts: seq<Stmt>, names: seq<string>, name: string): Option<Reason> {
    if BindingCount(stmts, name) > 1 then Some(BoundTwice)
    else if exists i: nat :: i in DefinedAt(stmts, name) && exists x :: x in Defines(stmts[i]) && x !in names then Some(BindsMore)
    else None
  }

  function FirstFault(stmts: seq<Stmt>, names: seq<string>, k: nat): Option<Reason>
    requires k <= |names|
    decreases |names| - k
  {
    if k == |names| then None
    else if NameFault(stmts, names, names[k]).Some? then NameFault(stmts, names, names[k])
    else FirstFault(stmts, names, k + 1)
  }

  datatype Selection = Fault(reason: Reason) | Chosen(positions: set<nat>)

  function Select(stmts: seq<Stmt>, names: seq<string>): Selection {
    if exists n :: n in names && n !in AllDefines(stmts) then Fault(NotFound)
    else
      match FirstFault(stmts, names, 0)
      case Some(reason) => Fault(reason)
      case None => Chosen(set i: nat | i < |stmts| && exists n :: n in names && n in Defines(stmts[i]))
  }

  /** The statements at the given positions, or all others, in file order. */
  function Pick(stmts: seq<Stmt>, positions: set<nat>, inside: bool): seq<Stmt> {
    if stmts == [] then []
    else
      var n := |stmts| - 1;
      Pick(stmts[..n], positions, inside) + (if (n in positions) == inside then [stmts[n]] else [])
  }

  // ---------------------------------------------------------------- resolution

  /** The imports of `__init__` that bind `name`, in file order. */
  function ImportsOf(stmts: seq<Stmt>, name: string): seq<Imp> {
    if stmts == [] then []
    else
      var last := stmts[|stmts| - 1];
      ImportsOf(stmts[..|stmts| - 1], name) + (if last.Import? then Binding(last.imps, name) else [])
  }

  function Binding(imps: seq<Imp>, name: string): seq<Imp> {
    if imps == [] then []
    else (if Binds(imps[0]) == name then [imps[0]] else []) + Binding(imps[1..], name)
  }

  /** A relative import whose alias repeats the name loses the alias. */
  function Normal(imp: Imp): Imp {
    if imp.level > 0 && imp.asname == imp.name then imp.(asname := None) else imp
  }

  datatype Resolution = ByImport(imps: set<Imp>) | PackageImport | InInit | Cyclic | Nowhere

  /** Where the moved code finds `name`; a name `__init__` defines is looked at before siblings. */
  function Resolve(pkg: Package, name: string): Resolution {
    var imps := ImportsOf(pkg.init, name);
    if imps != [] then
      if exists imp :: imp in imps && imp.level == 1 && imp.path == "" then PackageImport
      else ByImport(set imp | imp in imps :: Normal(imp))
    else if name in AllDefines(pkg.init) then InInit
    else if name in pkg.siblings then ByImport({Imp(pkg.siblings[name], 1, Some(name), None)})
    else if name in pkg.proxyDefs then
      if pkg.proxyCycle then Cyclic else ByImport({Imp(pkg.proxyPath, 0, Some(name), None)})
    else Nowhere
  }

  /** The binding belongs to another module. */
  predicate IsImported(pkg: Package, name: string) {
    ImportsOf(pkg.init, name) != [] || name in pkg.siblings || name in pkg.proxyDefs
  }

  /** The import of `APIRouter` that the new module's own router needs. */
  function RouterImport(stmts: seq<Stmt>): Imp {
    var imps := ImportsOf(stmts, "APIRouter");
    if imps == [] then Imp("fastapi", 0, Some("APIRouter"), None) else imps[|imps| - 1]
  }

  datatype Resolved = Resolved(needed: set<Imp>, kinds: set<Resolution>)

  /** What resolving all of `names` needs, and which kinds of failure it met. */
  function ResolveAll(pkg: Package, names: set<string>): Resolved {
    Resolved(
      set x, imp | x in names && Resolve(pkg, x).ByImport? && imp in Resolve(pkg, x).imps :: imp,
      set x | x in names && !Resolve(pkg, x).ByImport? :: Resolve(pkg, x))
  }

  method ResolveNames(pkg: Package, names: set<string>) returns (r: Resolved)
    ensures r == ResolveAll(pkg, names)
  {
    var needed: set<Imp> := {};
    var kinds: set<Resolution> := {};
    var todo := names;
    while todo != {}
      invariant todo <= names
      invariant Resolved(needed, kinds) == ResolveAll(pkg, names - todo)
    {
      var x :| x in todo;
      ghost var done := names - todo;
      match Resolve(pkg, x) {
        case ByImport(imps) => needed := needed + imps;
        case other => kinds := kinds + {other};
      }
      todo := todo - {x};
      assert names - todo == done + {x};
      ResolveOneMore(pkg, done, x);
    }
    assert names - todo == names;
    r := Resolved(needed, kinds);
  }

  lemma ResolveOneMore(pkg: Package, done: set<string>, x: string)
    ensures ResolveAll(pkg, done + {x}).needed
         == ResolveAll(pkg, done).needed + (if Resolve(pkg, x).ByImport? then Resolve(pkg, x).imps else {})
    ensures ResolveAll(pkg, done + {x}).kinds
         == ResolveAll(pkg, done).kinds + (if Resolve(pkg, x).ByImport? then {} else {Resolve(pkg, x)})
  {
    assert x in done + {x};
    assert forall y :: y in done ==> y in done + {x};
  }

  // ------------------------------------------------------------------- pruning

  /** What is left of one statement of `__init__` once dead imports are cut. */
  function Prune(s: Stmt, prunable: set<string>): seq<Stmt> {
    if !s.Import? || s.future || s.commented || forall imp :: imp in s.imps ==> Binds(imp) !in prunable then [s]
    else
      var kept := KeptImps(s.imps, prunable);
      if kept == [] then [] else [s.(imps := kept)]
  }

  function KeptImps(imps: seq<Imp>, prunable: set<string>): (r: seq<Imp>)
    ensures forall imp :: imp in r <==> imp in imps && Binds(imp) !in prunable
  {
    if imps == [] then []
    else (if Binds(imps[0]) in prunable then [] else [imps[0]]) + KeptImps(imps[1..], prunable)
  }

  function PruneAll(stmts: seq<Stmt>, prunable: set<string>): seq<Stmt> {
    if stmts == [] then [] else PruneAll(stmts[..|stmts| - 1], prunable) + Prune(stmts[|stmts| - 1], prunable)
  }

  // ------------------------------------------------------------ local imports

  predicate IsRelative(s: Stmt) { exists imp :: imp in Imps(s) && imp.level > 0 }

  predicate IsImport(s: Stmt) { s.Import? || s.Rendered? }

  /** Length of the run of imports at the front of `stmts`. */
  function ImportRun(stmts: seq<Stmt>): (n: nat)
    ensures n <= |stmts| && forall i :: 0 <= i < n ==> IsImport(stmts[i])
  {
    if stmts == [] || !IsImport(stmts[0]) then 0 else 1 + ImportRun(stmts[1..])
  }

  /** Position of the first relative import of a run. */
  function FirstRelative(run: seq<Stmt>): (n: nat)
    ensures n <= |run| && (n < |run| ==> IsRelative(run[n])) && forall i :: 0 <= i < n ==> !IsRelative(run[i])
  {
    if run == [] || IsRelative(run[0]) then 0 else 1 + FirstRelative(run[1..])
  }

  datatype Merged = MergeFault(reason: Reason) | MergedInto(stmts: seq<Stmt>)

  /** Merging `add` into the relative imports at the end of the leading import block. */
  function MergeLocalImports(stmts: seq<Stmt>, add: set<Imp>): Merged {
    var start := if stmts != [] && stmts[0].Docstring? then 1 else 0;
    var run := stmts[start..start + ImportRun(stmts[start..])];
    var cut := FirstRelative(run);
    if run == [] then MergeFault(NoImportBlock)
    else if exists s :: s in run[cut..] && !IsRelative(s) then MergeFault(RelativeNotTail)
    else MergedInto(stmts[..start + cut] + [Rendered(add + AllImps(run[cut..]))] + stmts[start + |run|..])
  }

  // -------------------------------------------------------------- the whole plan

  function RouterAlias(domain: string): string { "_" + domain + "_router" }

  const ROUTER := "router"

  /** Everything the plan derives from an accepted selection. */
  datatype Derived = Derived(
    moved: seq<Stmt>, copied: seq<Stmt>, remaining: seq<Stmt>,
    local: set<string>, free: set<string>, remainingFree: set<string>, reexport: set<string>, stillRead: set<string>)

  function Names(s: seq<string>): set<string> { set x | x in s }

  function Derive(req: Request, pkg: Package, moved: set<nat>, copied: set<nat>): Derived {
    var m, c, r := Pick(pkg.init, moved, true), Pick(pkg.init, copied, true), Pick(pkg.init, moved, false);
    var local := Names(req.names) + Names(req.copies) + {ROUTER};
    var remainingFree := AllUses(r) - pkg.builtins;
    Derived(m, c, r, local, AllUses(m + c) - pkg.builtins, remainingFree,
            Names(req.names) * (remainingFree + pkg.reached),
            remainingFree + pkg.reached + pkg.stringTargets)
  }

  function ImportedFree(pkg: Package, d: Derived): set<string> {
    set x | x in d.free && x !in d.local && IsImported(pkg, x)
  }

  /** The refusals that follow resolution, in the order they are raised. */
  function StateFault(req: Request, pkg: Package, d: Derived): Option<Reason> {
    if AllRebinds(d.moved) * d.reexport != {} then Some(SplitState)
    else if AllRebinds(d.moved + d.copied) * ImportedFree(pkg, d) * d.stillRead != {} then Some(ForeignState)
    else if pkg.patchTargets * (Names(req.names) + Names(req.copies)) != {} then Some(StalePatchTarget)
    else None
  }

  function ResolutionFault(kinds: set<Resolution>): Option<Reason> {
    if PackageImport in kinds then Some(FromPackageImport)
    else if InInit in kinds then Some(StillDefined)
    else if Cyclic in kinds then Some(ImportCycle)
    else if Nowhere in kinds then Some(ResolvesNowhere)
    else None
  }

  function NewModule(pkg: Package, d: Derived, needed: set<Imp>): seq<Stmt> {
    [Rendered(needed + {RouterImport(pkg.init)}), Definition([ROUTER], {"APIRouter"}, {}, false)] + d.copied + d.moved
  }

  function Prunable(req: Request, pkg: Package, d: Derived): set<string> {
    AllUses(d.moved) - pkg.builtins - Names(req.names) - d.stillRead
  }

  function Added(req: Request, d: Derived): set<Imp> {
    {Imp(req.domain, 1, Some(ROUTER), Some(RouterAlias(req.domain)))}
    + set n | n in d.reexport :: Imp(req.domain, 1, Some(n), Some(n))
  }

  /** The `include_router` line at the end of `__init__`. */
  function IncludeLine(req: Request): Stmt { Plain({ROUTER, RouterAlias(req.domain)}, {}) }

  function Build(req: Request, pkg: Package, d: Derived): Outcome {
    var resolved := ResolveAll(pkg, d.free - d.local);
    if ResolutionFault(resolved.kinds).Some? then Refused(ResolutionFault(resolved.kinds).value)
    else if StateFault(req, pkg, d).Some? then Refused(StateFault(req, pkg, d).value)
    else
      match MergeLocalImports(PruneAll(d.remaining, Prunable(req, pkg, d)), Added(req, d))
      case MergeFault(reason) => Refused(reason)
      case MergedInto(stmts) => Accepted(NewModule(pkg, d, resolved.needed), stmts + [IncludeLine(req)])
  }

  /** The refusals before anything is selected. */
  function RequestFault(req: Request): Option<Reason> {
    if req.names == [] then Some(NothingListed)
    else if Names(req.names) * Names(req.copies) != {} then Some(MovedAndCopied)
    else if ROUTER in req.names || ROUTER in req.copies then Some(RouterListed)
    else None
  }

  function PlanOf(req: Request, pkg: Package): Outcome {
    if !ValidDomain(req.domain) then Refused(InvalidDomain)
    else if pkg.target.Some? then
      if (forall n :: n in req.names ==> n !in AllDefines(pkg.init) && n in pkg.target.value) then AlreadySplit
      else Refused(PartlySplit)
    else if RequestFault(req).Some? then Refused(RequestFault(req).value)
    else
      match (Select(pkg.init, req.names), Select(pkg.init, req.copies))
      case (Fault(reason), _) => Refused(reason)
      case (_, Fault(reason)) => Refused(reason)
      case (Chosen(moved), Chosen(copied)) =>
        if exists i: nat :: i in copied && i < |pkg.init| && !(pkg.init[i].Definition? && pkg.init[i].copyable) then Refused(NotCopyable)
        else Build(req, pkg, Derive(req, pkg, moved, copied))
  }

  // -------------------------------------------------------------- the computation

  method SelectStatements(stmts: seq<Stmt>, names: seq<string>) returns (r: Selection)
    ensures r == Select(stmts, names)
  {
    if n :| n in names && n !in AllDefines(stmts) {
      return Fault(NotFound);
    }
    hide NameFault, Defines, AllDefines;
    var chosen: set<nat> := {};
    for k := 0 to |names|
      invariant FirstFault(stmts, names, 0) == FirstFault(stmts, names, k)
      invariant forall i: nat :: i in chosen <==> i < |stmts| && exists j :: 0 <= j < k && names[j] in Defines(stmts[i])
    {
      var fault := NameFault(stmts, names, names[k]);
      if fault.Some? {
        return Fault(fault.value);
      }
      chosen := chosen + DefinedAt(stmts, names[k]);
    }
    ChosenAre(stmts, names, chosen);
    r := Chosen(chosen);
  }

  lemma ChosenAre(stmts: seq<Stmt>, names: seq<string>, chosen: set<nat>)
    requires forall i: nat :: i in chosen <==> i < |stmts| && exists j :: 0 <= j < |names| && names[j] in Defines(stmts[i])
    ensures chosen == set i: nat | i < |stmts| && exists n :: n in names && n in Defines(stmts[i])
  {
    hide Defines;
    forall i: nat | i < |stmts|
      ensures (exists n :: n in names && n in Defines(stmts[i]))
              <==> exists j :: 0 <= j < |names| && names[j] in Defines(stmts[i])
    {
      if n :| n in names && n in Defines(stmts[i]) {
        var j :| 0 <= j < |names| && names[j] == n;
      }
      if j :| 0 <= j < |names| && names[j] in Defines(stmts[i]) {
        assert names[j] in names;
      }
    }
  }

  method PruneImports(stmts: seq<Stmt>, prunable: set<string>) returns (kept: seq<Stmt>)
    ensures kept == PruneAll(stmts, prunable)
  {
    kept := [];
    for n := 0 to |stmts|
      invariant kept == PruneAll(stmts[..n], prunable)
    {
      assert stmts[..n + 1][..n] == stmts[..n];
      kept := kept + Prune(stmts[n], prunable);
    }
    assert stmts[..|stmts|] == stmts;
  }

  /** The split, computed without writing anything. */
  method PlanSplit(req: Request, pkg: Package) returns (r: Outcome)
    ensures r == PlanOf(req, pkg)
  {
    hide ValidDomain, RequestFault, Select, ResolveAll, ResolutionFault, StateFault, PruneAll, MergeLocalImports, NewModule,
      Derive, Prunable, Added, IncludeLine, AllDefines;
    if !ValidDomain(req.domain) {
      return Refused(InvalidDomain);
    }
    if pkg.target.Some? {
      var done := forall n :: n in req.names ==> n !in AllDefines(pkg.init) && n in pkg.target.value;
      return if done then AlreadySplit else Refused(PartlySplit);
    }
    if RequestFault(req).Some? {
      return Refused(RequestFault(req).value);
    }
    var moved := SelectStatements(pkg.init, req.names);
    if moved.Fault? {
      return Refused(moved.reason);
    }
    var copied := SelectStatements(pkg.init, req.copies);
    if copied.Fault? {
      return Refused(copied.reason);
    }
    if exists i: nat :: i in copied.positions && i < |pkg.init| && !(pkg.init[i].Definition? && pkg.init[i].copyable) {
      return Refused(NotCopyable);
    }
    var d := Derive(req, pkg, moved.positions, copied.positions);
    var resolved := ResolveNames(pkg, d.free - d.local);
    if ResolutionFault(resolved.kinds).Some? {
      return Refused(ResolutionFault(resolved.kinds).value);
    }
    if StateFault(req, pkg, d).Some? {
      return Refused(StateFault(req, pkg, d).value);
    }
    var pruned := PruneImports(d.remaining, Prunable(req, pkg, d));
    var merged := MergeLocalImports(pruned, Added(req, d));
    if merged.MergeFault? {
      return Refused(merged.reason);
    }
    r := Accepted(NewModule(pkg, d, resolved.needed), merged.stmts + [IncludeLine(req)]);
  }
}
