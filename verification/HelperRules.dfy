/** Which functions are taken for helpers of `downgrade`, said of the statements of the module alone. */
module HelperRules {
  import opened DowngradeClosure

  /** `s` is the last definition of the name. */
  ghost predicate Defines(body: seq<Stmt>, name: string, s: Stmt) {
    s.Function? && s.name == name
    && exists i :: 0 <= i < |body| && body[i] == s && forall j :: i < j < |body| && body[j].Function? ==> body[j].name != name
  }

  ghost predicate IsDefined(body: seq<Stmt>, name: string) { exists s :: Defines(body, name, s) }

  /** The last definition of `f` names `g`, a function of the module other than `downgrade`. */
  ghost predicate Names(body: seq<Stmt>, f: string, g: string) {
    g != "downgrade" && IsDefined(body, g) && exists s :: Defines(body, f, s) && g in s.refs
  }

  /** Starting from `downgrade`, each function names the next. */
  ghost predicate NameChain(body: seq<Stmt>, p: seq<string>) {
    |p| > 1 && p[0] == "downgrade"
    && forall i, j :: 0 <= i < j < |p| && j == i + 1 ==> Names(body, p[i], p[j])
  }

  ghost predicate NamedFromDowngrade(body: seq<Stmt>, f: string) {
    exists p :: NameChain(body, p) && p[|p| - 1] == f
  }

  /** The statement names `h` where the upgrade path may run. */
  ghost predicate Keeps(body: seq<Stmt>, s: Stmt, h: string) {
    if s.Function? && NamedFromDowngrade(body, s.name) then h in s.decoratorRefs
    else h in s.refs && !(s.Function? && !s.isAsync && s.name == "downgrade")
  }

  /** The dictionary of functions holds the last definition of each name. */
  lemma {:induction false} FunctionsExactly(body: seq<Stmt>, name: string, s: Stmt)
    ensures name in Functions(body) && Functions(body)[name] == s <==> Defines(body, name, s)
  {
    if body != [] {
      var n := |body| - 1;
      var front, last := body[..n], body[n];
      FunctionsExactly(front, name, s);
      DefinesStep(body, name, s);
    }
  }

  lemma DefinesStep(body: seq<Stmt>, name: string, s: Stmt)
    requires body != []
    ensures var front, last := body[..|body| - 1], body[|body| - 1];
      Defines(body, name, s) <==> if last.Function? && last.name == name then s == last else Defines(front, name, s)
  {
    var n := |body| - 1;
    var front := body[..n];
    if Defines(body, name, s) {
      var i :| 0 <= i < |body| && body[i] == s && forall j :: i < j < |body| && body[j].Function? ==> body[j].name != name;
      assert i < n ==> front[i] == s;
    }
    if Defines(front, name, s) {
      var i :| 0 <= i < |front| && front[i] == s && forall j :: i < j < |front| && front[j].Function? ==> front[j].name != name;
      assert body[i] == s;
      forall j | i < j < n && body[j].Function? ensures body[j].name != name {
        assert front[j] == body[j];
      }
    }
  }

  lemma DefinedIs(body: seq<Stmt>, name: string)
    ensures name in Functions(body) <==> IsDefined(body, name)
    ensures name in Functions(body) ==> Defines(body, name, Functions(body)[name])
  {
    hide Functions, Defines;
    if name in Functions(body) {
      FunctionsExactly(body, name, Functions(body)[name]);
    }
    forall s ensures name in Functions(body) && Functions(body)[name] == s <==> Defines(body, name, s) {
      FunctionsExactly(body, name, s);
    }
  }

  lemma NamesIs(body: seq<Stmt>, f: string, g: string)
    ensures Names(body, f, g) <==> f in Functions(body) && g in Callees(Functions(body), f)
  {
    hide Functions, Defines;
    DefinedIs(body, f);
    DefinedIs(body, g);
    if s :| Defines(body, f, s) && g in s.refs {
      FunctionsExactly(body, f, s);
    }
  }

  lemma ReachedExactly(body: seq<Stmt>, f: string)
    ensures Reached(Functions(body), f) <==> NamedFromDowngrade(body, f)
  {
    hide Functions, Names, Callees;
    var fs := Functions(body);
    forall a, b ensures Names(body, a, b) <==> a in fs && b in Callees(fs, a) {
      NamesIs(body, a, b);
    }
    if Reached(fs, f) {
      var p :| FromDowngrade(fs, p) && p[|p| - 1] == f;
      var q := ["downgrade"] + p;
      forall i, j | 0 <= i < j < |q| && j == i + 1 ensures Names(body, q[i], q[j]) {
        assert q[j] == p[i];
        assert i > 0 ==> q[i] == p[i - 1];
      }
      assert NameChain(body, q) && q[|q| - 1] == f;
    }
    if NamedFromDowngrade(body, f) {
      var q :| NameChain(body, q) && q[|q| - 1] == f;
      ChainFollowed(body, q);
      assert q[1..][|q| - 2] == f;
    }
  }

  lemma ChainFollowed(body: seq<Stmt>, q: seq<string>)
    requires NameChain(body, q)
    ensures FromDowngrade(Functions(body), q[1..])
  {
    hide Functions, Names, Callees;
    var fs, p := Functions(body), q[1..];
    forall i, j | 0 <= i < j < |q| && j == i + 1 ensures q[i] in fs && q[j] in Callees(fs, q[i]) {
      assert Names(body, q[i], q[j]);
      NamesIs(body, q[i], q[j]);
    }
    forall j | 0 < j < |q| ensures q[j] in fs {
      assert Names(body, q[j - 1], q[j]);
      NamesIs(body, q[j - 1], q[j]);
      CalleesKnown(fs, q[j - 1]);
    }
    forall i, j | 0 <= i < j < |p| && j == i + 1 ensures p[j] in Callees(fs, p[i]) {
      assert p[i] == q[j] && p[j] == q[j + 1];
    }
    assert p[0] == q[1] && q[0] == DOWNGRADE;
  }

  /**
   A helper is exactly a function that a chain of names from `downgrade` leads to and
   that no statement names on the upgrade path: all statements count but `downgrade`
   and the functions so led to, and of those the decorators do.
   */
  lemma HelpersExactly(body: seq<Stmt>, h: string)
    ensures h in Helpers(body) <==> NamedFromDowngrade(body, h) && forall s :: s in body ==> !Keeps(body, s, h)
  {
    hide Functions, NamedFromDowngrade, Reached;
    var fs := Functions(body);
    ReachedExactly(body, h);
    ReachedKnown(fs, h);
    forall s | s in body ensures h in KeptBy(s, Closure(fs)) <==> Keeps(body, s, h) {
      if s.Function? {
        ReachedExactly(body, s.name);
        ReachedKnown(fs, s.name);
        DowngradeOutside(fs);
      }
    }
  }

  lemma ReachedKnown(fs: map<string, Stmt>, f: string)
    ensures f in Closure(fs) <==> Reached(fs, f)
  {
    if Reached(fs, f) {
      var p :| FromDowngrade(fs, p) && p[|p| - 1] == f;
    }
  }
}
