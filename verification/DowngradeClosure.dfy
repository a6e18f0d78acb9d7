/** Which helpers of a migration are taken to be reachable from `downgrade` alone, and when that is right. */
module DowngradeClosure {

  /**
   A top-level statement: a function with every name under it and the names in its
   decorators, or any other statement with every name under it.
   */
  datatype Stmt =
    | Function(name: string, isAsync: bool, refs: set<string>, decoratorRefs: set<string>)
    | Other(refs: set<string>)

  const DOWNGRADE := "downgrade"
  const UPGRADE := "upgrade"

  /** The functions of a module; the last definition of a name counts. */
  function Functions(body: seq<Stmt>): (r: map<string, Stmt>)
    ensures forall f :: f in r ==> r[f] in body && r[f].Function? && r[f].name == f
  {
    if body == [] then map[]
    else
      var last := body[|body| - 1];
      var before := Functions(body[..|body| - 1]);
      assert body == body[..|body| - 1] + [last];
      if last.Function? then before[last.name := last] else before
  }

  /** The functions that `f` names, `downgrade` left out. */
  function Callees(fs: map<string, Stmt>, f: string): set<string>
    requires f in fs
  {
    fs[f].refs * fs.Keys - {DOWNGRADE}
  }

  // ----------------------------------------------------------------- the closure

  /** A chain of references that starts in `downgrade` and does not come back to it. */
  ghost predicate FromDowngrade(fs: map<string, Stmt>, p: seq<string>) {
    DOWNGRADE in fs && p != []
    && (forall i :: 0 <= i < |p| ==> p[i] in fs)
    && p[0] in Callees(fs, DOWNGRADE)
    && forall i, j :: 0 <= i < j < |p| && j == i + 1 ==> p[j] in Callees(fs, p[i])
  }

  ghost predicate Reached(fs: map<string, Stmt>, f: string) {
    exists p :: FromDowngrade(fs, p) && p[|p| - 1] == f
  }

  /** What `downgrade` reaches by reference. */
  ghost function Closure(fs: map<string, Stmt>): set<string> {
    set f | f in fs && Reached(fs, f)
  }

  /** What the worklist keeps: everything listed is reached, and what `downgrade` and the closure name is listed. */
  ghost predicate Listed(fs: map<string, Stmt>, closure: set<string>, frontier: set<string>) {
    DOWNGRADE in fs && closure + frontier <= fs.Keys
    && (forall f :: f in closure + frontier ==> Reached(fs, f))
    && Callees(fs, DOWNGRADE) <= closure + frontier
    && forall f :: f in closure ==> Callees(fs, f) <= closure + frontier
  }

  lemma ListedStart(fs: map<string, Stmt>)
    requires DOWNGRADE in fs
    ensures Listed(fs, {}, Callees(fs, DOWNGRADE))
  {
    forall f | f in Callees(fs, DOWNGRADE) ensures Reached(fs, f) {
      assert FromDowngrade(fs, [f]);
    }
  }

  lemma ListedAgain(fs: map<string, Stmt>, closure: set<string>, frontier: set<string>, name: string)
    requires Listed(fs, closure, frontier) && name in closure
    ensures Listed(fs, closure, frontier - {name})
  {
    hide Reached, Callees;
    assert closure + (frontier - {name}) == closure + frontier;
  }

  lemma ListedStep(fs: map<string, Stmt>, closure: set<string>, frontier: set<string>, next: set<string>, name: string)
    requires Listed(fs, closure, frontier) && name in frontier && name in fs
    requires next == frontier - {name} + (Callees(fs, name) - (closure + {name}))
    ensures Listed(fs, closure + {name}, next)
  {
    hide Reached, Callees, FromDowngrade;
    CalleesKnown(fs, name);
    var before, all := closure + frontier, closure + {name} + next;
    assert name in before;
    assert all == before + Callees(fs, name);
    forall f | f in all ensures Reached(fs, f) {
      if f in Callees(fs, name) {
        ReachedStep(fs, name, f);
      }
    }
  }

  lemma CalleesKnown(fs: map<string, Stmt>, f: string)
    requires f in fs
    ensures Callees(fs, f) <= fs.Keys
  {
  }

  lemma ListedEnd(fs: map<string, Stmt>, closure: set<string>)
    requires Listed(fs, closure, {})
    ensures closure == Closure(fs)
  {
    hide Callees;
    assert closure + {} == closure;
    forall f | f in fs && Reached(fs, f) ensures f in closure {
      var p :| FromDowngrade(fs, p) && p[|p| - 1] == f;
      Covers(fs, closure, p, |p| - 1);
    }
  }

  /** The worklist computes exactly what `downgrade` reaches without passing through itself. */
  method ComputeClosure(fs: map<string, Stmt>) returns (closure: set<string>)
    requires DOWNGRADE in fs
    ensures closure == Closure(fs)
  {
    hide Closure, Callees, Reached;
    closure := {};
    var frontier := Callees(fs, DOWNGRADE);
    ListedStart(fs);
    while frontier != {}
      invariant Listed(fs, closure, frontier)
      decreases fs.Keys - closure, frontier
    {
      var name :| name in frontier;
      assert name in closure + frontier;
      ghost var before := frontier;
      frontier := frontier - {name};
      if name in closure {
        ListedAgain(fs, closure, before, name);
        continue;
      }
      ghost var known := closure;
      closure := closure + {name};
      frontier := frontier + (Callees(fs, name) - closure);
      ListedStep(fs, known, before, frontier, name);
    }
    ListedEnd(fs, closure);
  }

  lemma ReachedStep(fs: map<string, Stmt>, f: string, g: string)
    requires Reached(fs, f) && f in fs && g in Callees(fs, f)
    ensures Reached(fs, g)
  {
    var p :| FromDowngrade(fs, p) && p[|p| - 1] == f;
    assert FromDowngrade(fs, p + [g]);
  }

  lemma {:induction false} Covers(fs: map<string, Stmt>, closure: set<string>, p: seq<string>, n: nat)
    requires FromDowngrade(fs, p) && n < |p| && closure <= fs.Keys
    requires Callees(fs, DOWNGRADE) <= closure && forall f :: f in closure ==> Callees(fs, f) <= closure
    ensures p[n] in closure
  {
    if n > 0 {
      Covers(fs, closure, p, n - 1);
      assert p[n] in Callees(fs, p[n - 1]);
    }
  }

  // ------------------------------------------------------------------ the helpers

  predicate IsDowngrade(s: Stmt) { s.Function? && !s.isAsync && s.name == DOWNGRADE }

  /** The names a statement keeps on the upgrade path. */
  function KeptBy(s: Stmt, closure: set<string>): set<string> {
    if s.Function? && s.name in closure then s.decoratorRefs
    else if IsDowngrade(s) then {}
    else s.refs
  }

  function Outside(body: seq<Stmt>, closure: set<string>): set<string> {
    set s, x | s in body && x in KeptBy(s, closure) :: x
  }

  /** The helpers excluded from the scan. */
  ghost function Helpers(body: seq<Stmt>): set<string> {
    var closure := Closure(Functions(body));
    closure - Outside(body, closure)
  }

  method DowngradeOnlyHelpers(body: seq<Stmt>) returns (helpers: set<string>)
    ensures helpers == Helpers(body)
  {
    var fs := Functions(body);
    if DOWNGRADE !in fs {
      assert Closure(fs) == {};
      return {};
    }
    var closure := ComputeClosure(fs);
    var outside: set<string> := {};
    for i := 0 to |body|
      invariant outside == Outside(body[..i], closure)
    {
      assert body[..i + 1] == body[..i] + [body[i]];
      outside := outside + KeptBy(body[i], closure);
    }
    assert body[..|body|] == body;
    helpers := closure - outside;
  }

  // ------------------------------------------------------------ what may be reached

  /** The scan looks at the statement. */
  predicate Scanned(s: Stmt, helpers: set<string>) {
    !IsDowngrade(s) && !(s.Function? && s.name in helpers)
  }

  /** The names that run at import time or in a scanned statement: all names of the latter, the decorators of others. */
  function Starts(s: Stmt, helpers: set<string>): set<string> {
    if Scanned(s, helpers) then s.refs else if s.Function? then s.decoratorRefs else {}
  }

  /** The names that the upgrade path starts from: `upgrade`, which the migration tool calls, and those. */
  function EntryNames(body: seq<Stmt>, helpers: set<string>): set<string> {
    {UPGRADE} + set s, x | s in body && x in Starts(s, helpers) :: x
  }

  /** A chain of references that starts from an entry name. */
  ghost predicate FromEntry(body: seq<Stmt>, helpers: set<string>, p: seq<string>) {
    var fs := Functions(body);
    p != [] && p[0] in EntryNames(body, helpers)
    && (forall i :: 0 <= i < |p| ==> p[i] in fs)
    && forall i, j :: 0 <= i < j < |p| && j == i + 1 ==> p[j] in fs[p[i]].refs
  }

  ghost predicate Live(body: seq<Stmt>, helpers: set<string>, f: string) {
    exists p :: FromEntry(body, helpers, p) && p[|p| - 1] == f
  }

  /** From harmless entry names only scanned functions are reached. */
  lemma {:induction false} StaysScanned(body: seq<Stmt>, helpers: set<string>, p: seq<string>, n: nat)
    requires FromEntry(body, helpers, p) && n < |p|
    requires EntryNames(body, helpers) !! helpers + {DOWNGRADE}
    ensures p[n] in EntryNames(body, helpers)
  {
    if n > 0 {
      StaysScanned(body, helpers, p, n - 1);
      var s := Functions(body)[p[n - 1]];
      assert Scanned(s, helpers) && p[n] in s.refs;
      assert s in body && p[n] in Starts(s, helpers);
    }
  }

  lemma DowngradeLive(body: seq<Stmt>, helpers: set<string>, h: string)
    requires DOWNGRADE in EntryNames(body, helpers) && Reached(Functions(body), h)
    ensures Live(body, helpers, h)
  {
    var fs := Functions(body);
    var p :| FromDowngrade(fs, p) && p[|p| - 1] == h;
    var q := [DOWNGRADE] + p;
    forall i, j | 0 <= i < j < |q| && j == i + 1 ensures q[j] in fs[q[i]].refs {
      if i > 0 {
        assert q[i] == p[i - 1] && q[j] == p[j - 1];
      }
    }
    assert FromEntry(body, helpers, q);
  }

  /** No excluded helper is reachable exactly when none is excluded, or no entry name is one or `downgrade`. */
  lemma EntriesDecide(body: seq<Stmt>)
    ensures (forall h :: h in Helpers(body) ==> !Live(body, Helpers(body), h))
            <==> Helpers(body) == {} || EntryNames(body, Helpers(body)) !! Helpers(body) + {DOWNGRADE}
  {
    var helpers := Helpers(body);
    var entries := EntryNames(body, helpers);
    if entries !! helpers + {DOWNGRADE} {
      forall h | h in helpers ensures !Live(body, helpers, h) {
        if p :| FromEntry(body, helpers, p) && p[|p| - 1] == h {
          StaysScanned(body, helpers, p, |p| - 1);
        }
      }
    } else if h :| h in entries && h in helpers {
      assert FromEntry(body, helpers, [h]);
      assert Live(body, helpers, h);
    } else if h :| h in helpers {
      assert DOWNGRADE in entries;
      DowngradeLive(body, helpers, h);
    }
  }

  /** The names under a function include those in its decorators. */
  ghost predicate DecoratorsNamed(body: seq<Stmt>) {
    forall s :: s in body && s.Function? ==> s.decoratorRefs <= s.refs
  }

  /**
   The closure members that are kept because something outside names them name no
   excluded helper themselves, and neither they nor anything outside nor a decorator
   of `downgrade` leads into `downgrade` or a helper.
   */
  ghost predicate KeptStayOutside(body: seq<Stmt>, closure: set<string>, outside: set<string>) {
    UPGRADE !in closure - outside && DOWNGRADE !in outside
    && (forall s :: s in body && s.Function? && s.name in closure * outside ==> s.refs !! closure - outside + {DOWNGRADE})
    && (forall s :: s in body && IsDowngrade(s) ==> s.decoratorRefs !! closure - outside + {DOWNGRADE})
  }

  lemma OutsideHas(body: seq<Stmt>, closure: set<string>, s: Stmt)
    requires s in body
    ensures KeptBy(s, closure) <= Outside(body, closure)
  {
  }

  lemma EntryHas(body: seq<Stmt>, helpers: set<string>, s: Stmt)
    requires s in body
    ensures Starts(s, helpers) <= EntryNames(body, helpers)
  {
  }

  lemma EntriesApart(body: seq<Stmt>, closure: set<string>, outside: set<string>)
    requires outside == Outside(body, closure) && DecoratorsNamed(body) && DOWNGRADE !in closure
    requires KeptStayOutside(body, closure, outside)
    ensures EntryNames(body, closure - outside) !! closure - outside + {DOWNGRADE}
  {
    var helpers := closure - outside;
    forall x | x in EntryNames(body, helpers) ensures x !in helpers + {DOWNGRADE} {
      if x != UPGRADE {
        var s :| s in body && x in Starts(s, helpers);
        OutsideHas(body, closure, s);
        hide Outside, EntryNames;
      }
    }
  }

  lemma EntriesTell(body: seq<Stmt>, closure: set<string>, outside: set<string>)
    requires outside == Outside(body, closure) && DecoratorsNamed(body) && DOWNGRADE !in closure
    requires EntryNames(body, closure - outside) !! closure - outside + {DOWNGRADE}
    ensures KeptStayOutside(body, closure, outside)
  {
    var helpers := closure - outside;
    assert UPGRADE in EntryNames(body, helpers);
    if DOWNGRADE in outside {
      var s :| s in body && DOWNGRADE in KeptBy(s, closure);
      EntryHas(body, helpers, s);
    }
    hide Outside, EntryNames;
    forall s | s in body ensures Starts(s, helpers) !! helpers + {DOWNGRADE} {
      EntryHas(body, helpers, s);
    }
  }

  lemma EmptyDifference(a: set<string>, b: set<string>)
    ensures a - b == {} <==> a <= b
  {
    if a - b == {} {
      forall x | x in a ensures x in b {
        assert x !in a - b;
      }
    }
  }

  lemma HelpersAre(body: seq<Stmt>)
    ensures var closure := Closure(Functions(body));
      DOWNGRADE !in closure && Helpers(body) == closure - Outside(body, closure)
  {
    DowngradeOutside(Functions(body));
  }

  /**
   No excluded helper is reachable from the upgrade path, in any number of steps, if
   and only if the closure lies outside as a whole, or what is kept of it stays
   outside: the scan does not follow the closure members that it keeps.
   */
  lemma ExclusionSound(body: seq<Stmt>)
    requires DecoratorsNamed(body)
    ensures var closure := Closure(Functions(body));
      var outside := Outside(body, closure);
      (forall h :: h in Helpers(body) ==> !Live(body, Helpers(body), h))
      <==> closure <= outside || KeptStayOutside(body, closure, outside)
  {
    hide *;
    EntriesDecide(body);
    HelpersAre(body);
    var closure := Closure(Functions(body));
    var outside := Outside(body, closure);
    EmptyDifference(closure, outside);
    if KeptStayOutside(body, closure, outside) {
      EntriesApart(body, closure, outside);
    }
    if EntryNames(body, closure - outside) !! closure - outside + {DOWNGRADE} {
      EntriesTell(body, closure, outside);
    }
  }

  /**
   In particular it holds when `upgrade` is not in the closure, nothing outside the
   closure names a function in it or `downgrade`, and no decorator of `downgrade` does.
   */
  lemma ExclusionSoundWhenApart(body: seq<Stmt>)
    requires var closure := Closure(Functions(body));
      UPGRADE !in closure && Outside(body, closure) !! closure + {DOWNGRADE}
      && forall s :: s in body && IsDowngrade(s) ==> s.decoratorRefs !! closure + {DOWNGRADE}
    ensures forall h :: h in Helpers(body) ==> !Live(body, Helpers(body), h)
  {
    var closure, helpers := Closure(Functions(body)), Helpers(body);
    assert helpers == closure;
    forall x | x in EntryNames(body, helpers) ensures x !in helpers + {DOWNGRADE} {
      if x != UPGRADE {
        var s :| s in body && x in Starts(s, helpers);
        assert s.Function? && s.name in closure ==> KeptBy(s, closure) == s.decoratorRefs;
        assert IsDowngrade(s) || x in KeptBy(s, closure);
        assert x in KeptBy(s, closure) ==> x in Outside(body, closure);
      }
    }
    EntriesDecide(body);
  }

  // ---------------------------------------------------------------- three failures

  const SHARED := [
    Function("upgrade", false, {"g"}, {}), Function("downgrade", false, {"g"}, {}),
    Function("g", false, {"f"}, {}), Function("f", false, {}, {})]

  lemma FunctionsSnoc(body: seq<Stmt>, s: Stmt)
    requires s.Function?
    ensures Functions(body + [s]) == Functions(body)[s.name := s]
  {
    assert (body + [s])[..|body|] == body;
  }

  /** What `downgrade` reaches never includes `downgrade`. */
  lemma DowngradeOutside(fs: map<string, Stmt>)
    ensures !Reached(fs, DOWNGRADE)
  {
    forall p | FromDowngrade(fs, p) ensures p[|p| - 1] != DOWNGRADE {
      if |p| > 1 {
        assert p[|p| - 1] in Callees(fs, p[|p| - 2]);
      }
    }
  }

  lemma NoFunctions()
    ensures Functions([]) == map[]
  {
  }

  lemma SharedFunctions()
    ensures Functions(SHARED) == map["upgrade" := SHARED[0], "downgrade" := SHARED[1], "g" := SHARED[2], "f" := SHARED[3]]
  {
    hide Functions;
    var a, b, c, d := SHARED[0], SHARED[1], SHARED[2], SHARED[3];
    NoFunctions();
    FunctionsSnoc([], a);
    FunctionsSnoc([a], b);
    FunctionsSnoc([a, b], c);
    FunctionsSnoc([a, b, c], d);
    assert [] + [a] == [a] && [a] + [b] == [a, b] && [a, b] + [c] == [a, b, c] && [a, b, c] + [d] == SHARED;
  }

  lemma SharedClosure()
    ensures "g" in Closure(Functions(SHARED)) && "f" in Closure(Functions(SHARED)) && "upgrade" !in Closure(Functions(SHARED))
  {
    hide Functions;
    var fs := Functions(SHARED);
    SharedFunctions();
    assert FromDowngrade(fs, ["g"]) && FromDowngrade(fs, ["g", "f"]);
    UpgradeNotReached(SHARED);
  }

  /** Both directions call g and g calls f: the scan leaves out f, which `upgrade` reaches. */
  lemma SharedHelperMissed()
    ensures "f" in Helpers(SHARED) && Live(SHARED, Helpers(SHARED), "f")
  {
    hide Functions, Closure;
    SharedFunctions();
    SharedClosure();
    var closure := Closure(Functions(SHARED));
    assert "f" !in Outside(SHARED, closure);
    assert SHARED[0] in SHARED && Starts(SHARED[0], Helpers(SHARED)) == {"g"};
    assert "g" in EntryNames(SHARED, Helpers(SHARED));
    assert FromEntry(SHARED, Helpers(SHARED), ["g", "f"]);
  }

  /** Nothing in the example names `upgrade`. */
  lemma UpgradeNotReached(body: seq<Stmt>)
    requires forall s :: s in body ==> "upgrade" !in s.refs
    ensures !Reached(Functions(body), "upgrade")
  {
    var fs := Functions(body);
    forall p | FromDowngrade(fs, p) ensures p[|p| - 1] != "upgrade" {
      if |p| > 1 {
        assert p[|p| - 1] in Callees(fs, p[|p| - 2]);
      }
    }
  }

  const CALLS_UPGRADE := [Function("upgrade", false, {"f"}, {}), Function("downgrade", false, {"upgrade"}, {}), Function("f", false, {}, {})]

  /** When `downgrade` calls `upgrade` and nothing else names it, the scan leaves out `upgrade` itself. */
  lemma UpgradeExcluded()
    ensures UPGRADE in Helpers(CALLS_UPGRADE) && Live(CALLS_UPGRADE, Helpers(CALLS_UPGRADE), UPGRADE)
  {
    var body := CALLS_UPGRADE;
    assert body[..2][..1] == body[..1];
    assert Functions(body[..1]) == map["upgrade" := body[0]];
    var fs := Functions(body);
    assert FromDowngrade(fs, ["upgrade"]);
    assert "upgrade" in Closure(fs) && "upgrade" !in Outside(body, Closure(fs));
    assert FromEntry(body, Helpers(body), ["upgrade"]);
  }

  const DECORATED := [Function("f", false, {}, {}), Function("downgrade", false, {"f"}, {"f"})]

  /** A decorator of `downgrade` runs when the module is imported; the scan leaves it out. */
  lemma DowngradeDecoratorMissed()
    ensures "f" in Helpers(DECORATED) && Live(DECORATED, Helpers(DECORATED), "f")
  {
    var body := DECORATED;
    assert Functions(body[..1]) == map["f" := body[0]];
    var fs := Functions(body);
    assert FromDowngrade(fs, ["f"]);
    DowngradeOutside(fs);
    assert "f" in Closure(fs) && "f" !in Outside(body, Closure(fs));
    assert body[1] in body && "f" in Starts(body[1], Helpers(body));
    assert FromEntry(body, Helpers(body), ["f"]);
  }
}
