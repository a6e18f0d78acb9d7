/** Where the free-name analysis agrees with Python's scope rules, and where it does not. */
module ScopeAgreement {
  import opened PythonScopes
  import opened FreeNames

  // ------------------------------------------------------------- the programs

  predicate DeclaresNothing(e: Effect) { e.globals == {} && e.nonlocals == {} }

  /**
   What Python rejects is left out: `global` and `nonlocal` statements inside
   expressions, and a parameter declared nonlocal in the body of its function.
   */
  ghost predicate Grammatical(n: Node)
    decreases n
  {
    match n
    case Name(_, _) => true
    case Def(_, decorators, params, result, body) =>
      GrammaticalAll(decorators) && GrammaticalAll(params.defaults) && GrammaticalAll(params.annotations)
      && GrammaticalAll(result) && GrammaticalAll(body)
      && DeclaresNothing(DoAll(params.annotations)) && DeclaresNothing(DoAll(result))
      && Elements(params.names) !! DoAll(body).nonlocals
    case Lambda(params, value) =>
      GrammaticalAll(params.defaults) && Grammatical(value)
      && DeclaresNothing(DoAll(params.defaults)) && DeclaresNothing(Does(value))
    case Class(_, decorators, bases, keywords, body) =>
      GrammaticalAll(decorators) && GrammaticalAll(bases) && GrammaticalAll(keywords) && GrammaticalAll(body)
    case Comp(gens, elements) => GrammaticalGens(gens) && GrammaticalAll(elements) && DeclaresNothing(DoAll(elements))
    case Global(_) => true
    case Nonlocal(_) => true
    case Binder(_, children) => GrammaticalAll(children)
    case Annotated(annotation, value, target) => Grammatical(annotation) && GrammaticalAll(value) && Grammatical(target)
    case Str(parsed) => GrammaticalAll(parsed) && DeclaredGlobalAll(parsed) == {}
    case Other(children) => GrammaticalAll(children)
    case Choice(arms) => GrammaticalAll(arms)
    case Loop(body) => GrammaticalAll(body)
    case Augmented(_, operand) => Grammatical(operand)
  }

  ghost predicate GrammaticalAll(ns: seq<Node>)
    decreases ns
  {
    ns == [] || (Grammatical(ns[0]) && GrammaticalAll(ns[1..]))
  }

  ghost predicate GrammaticalGens(gens: seq<Gen>)
    decreases gens
  {
    gens == [] || (Grammatical(gens[0].iter) && GrammaticalAll(gens[0].ifs) && GrammaticalGens(gens[1..]))
  }

  /** What is tucked away binds names at most. */
  ghost predicate Tucks(whole: Effect, plain: Effect) {
    plain.bound <= whole.bound && plain.globals == whole.globals && plain.nonlocals == whole.nonlocals
  }

  lemma {:induction false} PlainDoes(n: Node)
    requires Grammatical(n)
    ensures Tucks(Does(n), Plain(n))
    decreases n
  {
    match n
    case Def(_, decorators, params, _, _) =>
      PlainDoesAll(decorators);
      PlainDoesAll(params.defaults);
    case Class(_, decorators, bases, keywords, _) =>
      PlainDoesAll(decorators);
      PlainDoesAll(bases);
      PlainDoesAll(keywords);
    case Comp(gens, _) => PlainDoesGens(gens);
    case Binder(_, children) => PlainDoesAll(children);
    case Annotated(annotation, value, target) =>
      PlainDoes(annotation);
      PlainDoesAll(value);
      PlainDoes(target);
    case Other(children) => PlainDoesAll(children);
    case Choice(arms) => PlainDoesAll(arms);
    case Loop(body) => PlainDoesAll(body);
    case Augmented(_, operand) => PlainDoes(operand);
    case _ =>
  }

  lemma {:induction false} PlainDoesAll(ns: seq<Node>)
    requires GrammaticalAll(ns)
    ensures Tucks(DoAll(ns), PlainAll(ns))
    decreases ns
  {
    if ns != [] {
      PlainDoes(ns[0]);
      PlainDoesAll(ns[1..]);
    }
  }

  lemma {:induction false} PlainDoesGens(gens: seq<Gen>)
    requires GrammaticalGens(gens)
    ensures Tucks(DoGens(gens), PlainGens(gens))
    decreases gens
  {
    if gens != [] {
      PlainDoes(gens[0].iter);
      PlainDoesAll(gens[0].ifs);
      PlainDoesGens(gens[1..]);
    }
  }

  // ------------------------------------------- the worklist finds the bindings

  lemma {:induction false} PlainConcat(a: seq<Node>, b: seq<Node>)
    ensures PlainAll(a + b) == PlainAll(a).Plus(PlainAll(b))
  {
    if a == [] {
      assert a + b == b;
    } else {
      PlainConcat(a[1..], b);
      assert (a + b)[1..] == a[1..] + b;
    }
  }

  lemma PlainOne(n: Node)
    ensures PlainAll([n]) == Plain(n)
  {
    hide Plain;
    assert PlainAll([n]) == Plain(n).Plus(PlainAll([]));
  }

  lemma {:induction false} PlainGenParts(gens: seq<Gen>)
    ensures PlainAll(GenParts(gens)) == PlainGens(gens)
  {
    if gens != [] {
      PlainGenParts(gens[1..]);
      PlainConcat([gens[0].iter] + gens[0].ifs, GenParts(gens[1..]));
      PlainConcat([gens[0].iter], gens[0].ifs);
      PlainOne(gens[0].iter);
    }
  }

  /** `whole` is what `own` names bound and `outer` names declared add to `part`. */
  ghost predicate Adds(whole: Effect, bound: set<string>, outer: set<string>, part: Effect) {
    whole.bound == bound + part.bound
    && whole.globals + whole.nonlocals == outer + (part.globals + part.nonlocals)
  }

  /** What a node plainly does is what it does itself and what the nodes it pushes do. */
  lemma PushedDo(n: Node)
    ensures Adds(Plain(n), OwnBound(n), OwnOuter(n), PlainAll(Pushed(n)))
  {
    match n
    case Def(_, _, _, _, _) => PushedDoDef(n);
    case Class(_, _, _, _, _) => PushedDoClass(n);
    case Comp(gens, _) => PlainGenParts(gens);
    case Annotated(_, _, _) => PushedDoAnnotated(n);
    case Augmented(_, operand) => PlainOne(operand);
    case _ =>
  }

  lemma PushedDoDef(n: Node)
    requires n.Def?
    ensures Adds(Plain(n), OwnBound(n), OwnOuter(n), PlainAll(Pushed(n)))
  {
    PlainConcat(n.decorators, n.params.defaults);
    hide PlainAll;
  }

  lemma PushedDoClass(n: Node)
    requires n.Class?
    ensures Adds(Plain(n), OwnBound(n), OwnOuter(n), PlainAll(Pushed(n)))
  {
    PlainConcat(n.decorators + n.bases, n.keywords);
    PlainConcat(n.decorators, n.bases);
    hide PlainAll;
  }

  lemma PushedDoAnnotated(n: Node)
    requires n.Annotated?
    ensures Adds(Plain(n), OwnBound(n), OwnOuter(n), PlainAll(Pushed(n)))
  {
    PlainConcat([n.annotation] + n.value, [n.target]);
    PlainConcat([n.annotation], n.value);
    PlainOne(n.annotation);
    PlainOne(n.target);
    PlainAnnotated(n);
    hide PlainAll, Plain;
  }

  lemma PlainAnnotated(n: Node)
    requires n.Annotated?
    ensures Plain(n) == Plain(n.annotation).Plus(PlainAll(n.value)).Plus(Plain(n.target))
  {
    hide PlainAll;
  }

  /** The worklist finds exactly what is plainly bound and declared, in every program. */
  lemma {:induction false} DrainedIs(todo: seq<Node>)
    ensures Drained(todo).0 == PlainAll(todo).bound
    ensures Drained(todo).1 == PlainAll(todo).globals + PlainAll(todo).nonlocals
    decreases SizeAll(todo)
  {
    if todo != [] {
      var n, rest := todo[|todo| - 1], todo[..|todo| - 1];
      assert rest + [n] == todo;
      PlainConcat(rest, [n]);
      PlainOne(n);
      PushedDo(n);
      PlainConcat(rest, Pushed(n));
      DrainSize(todo);
      DrainStep(todo);
      hide *;
      DrainedIs(rest + Pushed(n));
      AddsUp(PlainAll(todo), PlainAll(rest), Plain(n), OwnBound(n), OwnOuter(n), PlainAll(Pushed(n)));
    }
  }

  lemma DrainStep(todo: seq<Node>)
    requires todo != []
    ensures var n, rest := todo[|todo| - 1], todo[..|todo| - 1];
      Drained(todo) == (OwnBound(n) + Drained(rest + Pushed(n)).0, OwnOuter(n) + Drained(rest + Pushed(n)).1)
  {
    hide OwnBound, OwnOuter, Pushed;
  }

  lemma AddsUp(whole: Effect, rest: Effect, one: Effect, bound: set<string>, outer: set<string>, part: Effect)
    requires whole == rest.Plus(one) && Adds(one, bound, outer, part)
    ensures whole.bound == bound + rest.Plus(part).bound
    ensures whole.globals + whole.nonlocals == outer + (rest.Plus(part).globals + rest.Plus(part).nonlocals)
  {
  }

  // --------------------------------------------------------------- name lookup

  /** The scope that the analysis keeps for a block. */
  function ScopeOf(block: Block): Scope { Scope(block.locals - block.tucked + block.targetReads, block.kind.ClassBlock?) }

  function NonClass(chain: Chain): seq<Scope> {
    if chain == [] then []
    else
      var block := chain[|chain| - 1];
      NonClass(chain[..|chain| - 1]) + (if block.kind.ClassBlock? then [] else [ScopeOf(block)])
  }

  /** The scopes the analysis keeps while it stands inside the blocks of `chain`. */
  function View(chain: Chain): seq<Scope> {
    if chain == [] then [] else NonClass(chain[..|chain| - 1]) + [ScopeOf(chain[|chain| - 1])]
  }

  lemma {:induction false} EnclosingNonClass(chain: Chain)
    ensures Enclosing(NonClass(chain)) == NonClass(chain)
  {
    if chain != [] {
      var outer, scope := NonClass(chain[..|chain| - 1]), ScopeOf(chain[|chain| - 1]);
      EnclosingNonClass(chain[..|chain| - 1]);
      assert (outer + [scope])[..|outer|] == outer && outer + [] == outer;
    }
  }

  lemma ViewExtend(chain: Chain, block: Block)
    ensures View(chain + [block]) == Enclosing(View(chain)) + [ScopeOf(block)]
  {
    assert (chain + [block])[..|chain|] == chain;
    if chain != [] {
      EnclosingNonClass(chain[..|chain| - 1]);
      assert View(chain)[..|View(chain)| - 1] == NonClass(chain[..|chain| - 1]);
    }
  }

  /** The block is the innermost one, or one that nested blocks see. */
  predicate Visible(chain: Chain, i: int) {
    0 <= i < |chain| && (i == |chain| - 1 || !chain[i].kind.ClassBlock?)
  }

  /** A target of a comprehension around the occurrence reads the name. */
  ghost predicate Masked(x: string, chain: Chain) { exists i :: Visible(chain, i) && x in chain[i].targetReads }

  /** A visible block binds the name, other than by a tucked-away walrus. */
  ghost predicate PlainlyLocal(x: string, chain: Chain) { exists i :: Visible(chain, i) && x in chain[i].locals - chain[i].tucked }

  ghost predicate Held(x: string, chain: Chain) { Masked(x, chain) || PlainlyLocal(x, chain) }

  lemma FoundConcat(x: string, a: seq<Scope>, b: seq<Scope>)
    ensures Found(x, a + b) <==> Found(x, a) || Found(x, b)
  {
    if Found(x, a) {
      var i :| 0 <= i < |a| && x in a[i].names;
      assert (a + b)[i] == a[i];
    }
    if Found(x, b) {
      var i :| 0 <= i < |b| && x in b[i].names;
      assert (a + b)[|a| + i] == b[i];
    }
  }

  lemma FoundOne(x: string, block: Block)
    ensures Found(x, [ScopeOf(block)]) <==> x in ScopeOf(block).names
  {
    assert [ScopeOf(block)][0] == ScopeOf(block);
  }

  lemma {:induction false} FoundInside(x: string, chain: Chain)
    ensures Found(x, NonClass(chain)) <==> exists i :: 0 <= i < |chain| && !chain[i].kind.ClassBlock? && x in ScopeOf(chain[i]).names
  {
    if chain != [] {
      var block, outer := chain[|chain| - 1], chain[..|chain| - 1];
      FoundInside(x, outer);
      FoundConcat(x, NonClass(outer), if block.kind.ClassBlock? then [] else [ScopeOf(block)]);
      FoundOne(x, block);
      forall i | 0 <= i < |outer| ensures outer[i] == chain[i] {
      }
    }
  }

  /** The scopes that are kept hold the name exactly when a visible block does, as far as they can tell. */
  lemma LookupAgrees(x: string, chain: Chain)
    ensures Found(x, View(chain)) <==> Held(x, chain)
  {
    if chain != [] {
      var n := |chain| - 1;
      var block, outer := chain[n], chain[..n];
      FoundInside(x, outer);
      FoundConcat(x, NonClass(outer), [ScopeOf(block)]);
      FoundOne(x, block);
      hide NonClass, Found, ScopeOf;
      ScopeHolds(x, chain);
    }
  }

  lemma ScopeHolds(x: string, chain: Chain)
    requires chain != []
    ensures var n := |chain| - 1;
      Held(x, chain)
      <==> (x in ScopeOf(chain[n]).names
            || exists i :: 0 <= i < n && !chain[..n][i].kind.ClassBlock? && x in ScopeOf(chain[..n][i]).names)
  {
    var n := |chain| - 1;
    var outer := chain[..n];
    if Held(x, chain) {
      var i :| Visible(chain, i) && (x in chain[i].targetReads || x in chain[i].locals - chain[i].tucked);
      assert i == n || outer[i] == chain[i];
    }
    if x in ScopeOf(chain[n]).names {
      assert Visible(chain, n);
    }
    if i :| 0 <= i < n && !outer[i].kind.ClassBlock? && x in ScopeOf(outer[i]).names {
      assert Visible(chain, i);
    }
  }

  /** What a class body has bound by now does not matter to the analysis. */
  lemma SettledUnseen(x: string, chain: Chain, settled: set<string>)
    ensures View(WithSettled(chain, settled)) == View(chain)
    ensures Held(x, WithSettled(chain, settled)) <==> Held(x, chain)
  {
    var after := WithSettled(chain, settled);
    if InClassBody(chain) {
      assert after[..|after| - 1] == chain[..|chain| - 1];
      assert ScopeOf(after[|after| - 1]) == ScopeOf(chain[|chain| - 1]);
    }
    LookupAgrees(x, chain);
    LookupAgrees(x, after);
  }

  // ------------------------------------------- what the rules say of such names

  /** `x` is not declared global in a block, and is not both local and nonlocal. */
  ghost predicate Undeclared(x: string, chain: Chain) {
    forall i :: 0 <= i < |chain| ==> x !in chain[i].globals && !(x in chain[i].locals && x in chain[i].nonlocals)
  }

  lemma {:induction false} InsideLocal(x: string, chain: Chain)
    requires Undeclared(x, chain)
    ensures FromInside(x, chain) <==> forall i :: 0 <= i < |chain| && !chain[i].kind.ClassBlock? ==> x !in chain[i].locals
  {
    if chain != [] {
      var outer := chain[..|chain| - 1];
      InsideLocal(x, outer);
      assert forall i :: 0 <= i < |outer| ==> outer[i] == chain[i];
    }
  }

  /**
   A name of the module that the analysis takes for a local one: a comprehension
   target reads it, or a class body does before binding it.
   */
  lemma HeldInModule(x: string, r: Read)
    requires r.id == x && Undeclared(x, r.chain) && InModule(x, r.chain)
    ensures Held(x, r.chain) <==> Masked(x, r.chain) || (ReadsEarly(r) && PlainlyLocal(x, r.chain))
  {
    var chain := r.chain;
    if chain != [] {
      var outer := chain[..|chain| - 1];
      InsideLocal(x, outer);
      assert forall i :: 0 <= i < |outer| ==> outer[i] == chain[i];
    }
  }

  /** A local name that the analysis takes for one of the module: only a tucked-away walrus binds it. */
  lemma UnheldLocal(x: string, chain: Chain)
    requires Undeclared(x, chain) && !InModule(x, chain) && !Held(x, chain)
    ensures exists i :: Visible(chain, i) && x in chain[i].locals * chain[i].tucked
  {
    var n := |chain| - 1;
    var outer := chain[..n];
    InsideLocal(x, outer);
    if x in chain[n].locals {
      assert Visible(chain, n);
    } else {
      var i :| 0 <= i < |outer| && !outer[i].kind.ClassBlock? && x in outer[i].locals;
      assert Visible(chain, i) && outer[i] == chain[i];
    }
  }

  // -------------------------------------------------------- the walks agree

  /** The analysis reports an occurrence. */
  ghost predicate Reported(x: string, found: set<Read>) {
    exists r :: r in found && r.id == x && !r.augments && !Held(x, r.chain)
  }

  lemma ReportedUnion(x: string, a: set<Read>, b: set<Read>)
    ensures Reported(x, a + b) <==> Reported(x, a) || Reported(x, b)
  {
  }

  lemma ReportedMore(x: string, a: set<Read>, b: set<Read>, c: set<Read>)
    ensures Reported(x, a + b + c) <==> Reported(x, a) || Reported(x, b) || Reported(x, c)
  {
    ReportedUnion(x, a + b, c);
    ReportedUnion(x, a, b);
  }

  lemma {:induction false} Agree(x: string, n: Node, chain: Chain)
    requires Grammatical(n) && x !in DeclaredGlobal(n)
    ensures x in Free(n, View(chain)) <==> Reported(x, Reads(n, chain))
    decreases n, 1
  {
    match n
    case Name(id, ctx) => AgreeName(x, n, chain);
    case Def(_, _, _, _, _) => AgreeDef(x, n, chain);
    case Lambda(params, value) =>
      var block := FunctionOf(params, Does(value), NOTHING);
      LambdaScope(params, value);
      ViewExtend(chain, block);
      AgreeAll(x, params.defaults, chain);
      Agree(x, value, chain + [block]);
      ReportedUnion(x, ReadAll(params.defaults, chain), Reads(value, chain + [block]));
    case Class(_, _, _, _, _) => AgreeClass(x, n, chain);
    case Comp(gens, elements) =>
      var block := ComprehensionOf(gens);
      CompScope(gens);
      ViewExtend(chain, block);
      ComprehensionHolds(x, chain, gens);
      AgreeGens(x, gens, chain, chain + [block]);
      AgreeAll(x, elements, chain + [block]);
      ReportedUnion(x, ReadGens(gens, chain, chain + [block]), ReadAll(elements, chain + [block]));
    case Global(_) =>
    case Nonlocal(_) =>
    case Binder(_, children) => AgreeAll(x, children, chain);
    case Annotated(_, _, _) => AgreeAnnotated(x, n, chain);
    case Str(_) =>
    case Other(children) => AgreeAll(x, children, chain);
    case Choice(arms) => AgreeAny(x, arms, chain);
    case Loop(body) =>
      SettledUnseen(x, chain, Settled(chain) * AfterAll(body, Settled(chain)));
      AgreeAll(x, body, WithSettled(chain, Settled(chain) * AfterAll(body, Settled(chain))));
    case Augmented(id, operand) =>
      Agree(x, operand, chain);
      ReportedUnion(x, {Read(id, chain, true)}, Reads(operand, chain));
  }

  lemma AgreeName(x: string, n: Node, chain: Chain)
    requires n.Name?
    ensures x in Free(n, View(chain)) <==> Reported(x, Reads(n, chain))
  {
    if !n.ctx.Store? && n.id == x {
      LookupAgrees(x, chain);
      var at := if n.ctx.Del? then WithSettled(chain, Settled(chain) + {x}) else chain;
      SettledUnseen(x, chain, Settled(chain) + {x});
      assert Reads(n, chain) == {Read(x, at, false)};
      assert Read(x, at, false) in Reads(n, chain);
    }
  }

  lemma LambdaScope(params: Params, value: Node)
    requires DeclaresNothing(Does(value))
    ensures ScopeOf(FunctionOf(params, Does(value), NOTHING)) == Scope(Elements(params.names), false)
  {
  }

  lemma CompScope(gens: seq<Gen>)
    ensures ScopeOf(ComprehensionOf(gens)) == Scope(CompNames(gens), false)
  {
    CompTargets(gens);
  }

  lemma {:induction false} CompTargets(gens: seq<Gen>)
    ensures CompNames(gens) == Targets(gens) + TargetReads(gens)
  {
    if gens != [] {
      CompTargets(gens[1..]);
    }
  }

  lemma BodyScope(body: seq<Node>, params: Params)
    requires GrammaticalAll(body)
    ensures ScopeOf(FunctionOf(params, DoAll(body), PlainAll(body))) == Scope(Elements(params.names) + LocallyBound(body), false)
    ensures ScopeOf(ClassOf(DoAll(body), PlainAll(body))) == Scope(LocallyBound(body), true)
  {
    DrainedIs(body);
    PlainDoesAll(body);
    hide DoAll, PlainAll, Grammatical, GrammaticalAll, Drained;
    EffectScope(params, DoAll(body), PlainAll(body));
  }

  lemma EffectScope(params: Params, whole: Effect, plain: Effect)
    requires Tucks(whole, plain)
    ensures ScopeOf(FunctionOf(params, whole, plain))
         == Scope(Elements(params.names) + (plain.bound - (plain.globals + plain.nonlocals)), false)
    ensures ScopeOf(ClassOf(whole, plain)) == Scope(plain.bound - (plain.globals + plain.nonlocals), true)
  {
  }

  lemma {:induction false} AgreeDef(x: string, n: Node, chain: Chain)
    requires n.Def? && Grammatical(n) && x !in DeclaredGlobal(n)
    ensures x in Free(n, View(chain)) <==> Reported(x, Reads(n, chain))
    decreases n, 0
  {
    var Def(_, decorators, params, result, body) := n;
    var block := FunctionOf(params, DoAll(body), PlainAll(body));
    var c1 := Past(chain, decorators);
    var c2 := Past(c1, params.defaults);
    var c3 := Past(c2, params.annotations);
    BodyScope(body, params);
    ViewExtend(chain, block);
    SettledUnseen(x, chain, AfterAll(decorators, Settled(chain)));
    SettledUnseen(x, c1, AfterAll(params.defaults, Settled(c1)));
    SettledUnseen(x, c2, AfterAll(params.annotations, Settled(c2)));
    AgreeAll(x, decorators, chain);
    AgreeAll(x, params.defaults, c1);
    AgreeAnnotations(x, params.annotations, c2);
    AgreeAnnotations(x, result, c3);
    AgreeAll(x, body, chain + [block]);
    var a, b, c, d := ReadAll(decorators, chain), ReadAll(params.defaults, c1), ReadAnnotations(params.annotations, c2), ReadAnnotations(result, c3);
    ReportedUnion(x, a + b + c + d, ReadAll(body, chain + [block]));
    ReportedUnion(x, a + b + c, d);
    ReportedMore(x, a, b, c);
  }

  lemma {:induction false} AgreeClass(x: string, n: Node, chain: Chain)
    requires n.Class? && Grammatical(n) && x !in DeclaredGlobal(n)
    ensures x in Free(n, View(chain)) <==> Reported(x, Reads(n, chain))
    decreases n, 0
  {
    var Class(_, decorators, bases, keywords, body) := n;
    var block := ClassOf(DoAll(body), PlainAll(body));
    var c1 := Past(chain, decorators);
    var c2 := Past(c1, bases);
    BodyScope(body, Params([], [], []));
    ViewExtend(chain, block);
    SettledUnseen(x, chain, AfterAll(decorators, Settled(chain)));
    SettledUnseen(x, c1, AfterAll(bases, Settled(c1)));
    AgreeAll(x, decorators, chain);
    AgreeAll(x, bases, c1);
    AgreeAll(x, keywords, c2);
    AgreeAll(x, body, chain + [block]);
    var a, b, c := ReadAll(decorators, chain), ReadAll(bases, c1), ReadAll(keywords, c2);
    ReportedUnion(x, a + b + c, ReadAll(body, chain + [block]));
    ReportedMore(x, a, b, c);
  }

  lemma {:induction false} AgreeAnnotated(x: string, n: Node, chain: Chain)
    requires n.Annotated? && Grammatical(n) && x !in DeclaredGlobal(n)
    ensures x in Free(n, View(chain)) <==> Reported(x, Reads(n, chain))
    decreases n, 0
  {
    var Annotated(annotation, value, target) := n;
    var c1 := Past(chain, value);
    var c2 := if value == [] then chain else Past(c1, [target]);
    SettledUnseen(x, chain, AfterAll(value, Settled(chain)));
    SettledUnseen(x, c1, AfterAll([target], Settled(c1)));
    AgreeAll(x, value, chain);
    Agree(x, target, c1);
    AgreeAnnotation(x, annotation, c2);
    ReportedMore(x, ReadAll(value, chain), Reads(target, c1), ReadAnnotation(annotation, c2));
  }

  lemma {:induction false} AgreeAll(x: string, ns: seq<Node>, chain: Chain)
    requires GrammaticalAll(ns) && x !in DeclaredGlobalAll(ns)
    ensures x in FreeAll(ns, View(chain)) <==> Reported(x, ReadAll(ns, chain))
    decreases ns
  {
    if ns != [] {
      var past := Past(chain, [ns[0]]);
      SettledUnseen(x, chain, AfterAll([ns[0]], Settled(chain)));
      Agree(x, ns[0], chain);
      AgreeAll(x, ns[1..], past);
      ReportedUnion(x, Reads(ns[0], chain), ReadAll(ns[1..], past));
    }
  }

  lemma {:induction false} AgreeAny(x: string, arms: seq<Node>, chain: Chain)
    requires GrammaticalAll(arms) && x !in DeclaredGlobalAll(arms)
    ensures x in FreeAll(arms, View(chain)) <==> Reported(x, ReadAny(arms, chain))
    decreases arms
  {
    if arms != [] {
      Agree(x, arms[0], chain);
      AgreeAny(x, arms[1..], chain);
      ReportedUnion(x, Reads(arms[0], chain), ReadAny(arms[1..], chain));
    }
  }

  lemma {:induction false} AgreeAnnotation(x: string, n: Node, chain: Chain)
    requires Grammatical(n) && x !in DeclaredGlobal(n)
    ensures x in FreeAnnotation(n, View(chain)) <==> Reported(x, ReadAnnotation(n, chain))
    decreases n, 2
  {
    if n.Str? {
      AgreeAll(x, n.parsed, chain);
    } else {
      Agree(x, n, chain);
    }
  }

  lemma {:induction false} AgreeAnnotations(x: string, ns: seq<Node>, chain: Chain)
    requires GrammaticalAll(ns) && x !in DeclaredGlobalAll(ns)
    ensures x in FreeAnnotations(ns, View(chain)) <==> Reported(x, ReadAnnotations(ns, chain))
    decreases ns
  {
    if ns != [] {
      var past := Past(chain, [ns[0]]);
      SettledUnseen(x, chain, AfterAll([ns[0]], Settled(chain)));
      AgreeAnnotation(x, ns[0], chain);
      AgreeAnnotations(x, ns[1..], past);
      ReportedUnion(x, ReadAnnotation(ns[0], chain), ReadAnnotations(ns[1..], past));
    }
  }

  /** A name that a target of the comprehension reads is held inside it. */
  lemma ComprehensionHolds(x: string, chain: Chain, gens: seq<Gen>)
    ensures x in TargetReads(gens) ==> Held(x, chain + [ComprehensionOf(gens)])
  {
    if x in TargetReads(gens) {
      var inner := chain + [ComprehensionOf(gens)];
      assert Visible(inner, |chain|) && x in inner[|chain|].targetReads;
    }
  }

  lemma {:induction false} AgreeGens(x: string, gens: seq<Gen>, first: Chain, inner: Chain)
    requires GrammaticalGens(gens) && x !in DeclaredGlobalGens(gens) && (x in TargetReads(gens) ==> Held(x, inner))
    ensures x in FreeGens(gens, View(first), View(inner)) <==> Reported(x, ReadGens(gens, first, inner))
    decreases gens
  {
    if gens != [] {
      Agree(x, gens[0].iter, first);
      AgreeAll(x, gens[0].ifs, inner);
      AgreeGens(x, gens[1..], inner, inner);
      var a, b := Reads(gens[0].iter, first), ReadAll(gens[0].ifs, inner);
      var c := set id | id in gens[0].loads :: Read(id, inner, false);
      assert !Reported(x, c);
      ReportedMore(x, a, b, c);
      ReportedUnion(x, a + b + c, ReadGens(gens[1..], inner, inner));
    }
  }

  // ------------------------------------------- the blocks of a program

  lemma BlockExtends(x: string, chain: Chain, block: Block)
    requires Undeclared(x, chain) && x !in block.globals && !(x in block.locals && x in block.nonlocals)
    ensures Undeclared(x, chain + [block])
  {
  }

  lemma SettledUndeclared(x: string, chain: Chain, settled: set<string>)
    requires Undeclared(x, chain)
    ensures Undeclared(x, WithSettled(chain, settled))
  {
  }

  /** A block's own global declarations are among those declared anywhere in it. */
  lemma {:induction false} GlobalsDeclared(ns: seq<Node>)
    ensures DoAll(ns).globals <= DeclaredGlobalAll(ns)
    decreases ns
  {
    if ns != [] {
      NodeGlobalsDeclared(ns[0]);
      GlobalsDeclared(ns[1..]);
    }
  }

  lemma {:induction false} NodeGlobalsDeclared(n: Node)
    ensures Does(n).globals <= DeclaredGlobal(n)
    decreases n
  {
    match n
    case Def(_, decorators, params, result, _) =>
      GlobalsDeclared(decorators);
      GlobalsDeclared(params.defaults);
      GlobalsDeclared(params.annotations);
      GlobalsDeclared(result);
    case Lambda(params, _) => GlobalsDeclared(params.defaults);
    case Class(_, decorators, bases, keywords, _) =>
      GlobalsDeclared(decorators);
      GlobalsDeclared(bases);
      GlobalsDeclared(keywords);
    case Comp(gens, elements) =>
      GensGlobalsDeclared(gens);
      GlobalsDeclared(elements);
    case Binder(_, children) => GlobalsDeclared(children);
    case Annotated(annotation, value, target) =>
      NodeGlobalsDeclared(annotation);
      GlobalsDeclared(value);
      NodeGlobalsDeclared(target);
    case Other(children) => GlobalsDeclared(children);
    case Choice(arms) => GlobalsDeclared(arms);
    case Loop(body) => GlobalsDeclared(body);
    case Augmented(_, operand) => NodeGlobalsDeclared(operand);
    case _ =>
  }

  lemma {:induction false} GensGlobalsDeclared(gens: seq<Gen>)
    ensures DoGens(gens).globals <= DeclaredGlobalGens(gens)
    decreases gens
  {
    if gens != [] {
      NodeGlobalsDeclared(gens[0].iter);
      GlobalsDeclared(gens[0].ifs);
      GensGlobalsDeclared(gens[1..]);
    }
  }

  /** Around every occurrence in a node, `x` is undeclared if it is so around the node and in it. */
  lemma {:induction false} ReadsUndeclared(x: string, n: Node, chain: Chain)
    requires Grammatical(n) && x !in DeclaredGlobal(n) && Undeclared(x, chain)
    ensures AllUndeclared(x, Reads(n, chain))
    decreases n, 1
  {
    match n
    case Name(_, _) => SettledUndeclared(x, chain, Settled(chain) + {n.id});
    case Def(_, _, _, _, _) => ReadsUndeclaredDef(x, n, chain);
    case Lambda(params, value) =>
      BlockExtends(x, chain, FunctionOf(params, Does(value), NOTHING));
      ReadsUndeclaredAll(x, params.defaults, chain);
      ReadsUndeclared(x, value, chain + [FunctionOf(params, Does(value), NOTHING)]);
    case Class(_, _, _, _, _) => ReadsUndeclaredClass(x, n, chain);
    case Comp(gens, elements) =>
      BlockExtends(x, chain, ComprehensionOf(gens));
      ReadsUndeclaredGens(x, gens, chain, chain + [ComprehensionOf(gens)]);
      ReadsUndeclaredAll(x, elements, chain + [ComprehensionOf(gens)]);
    case Binder(_, children) => ReadsUndeclaredAll(x, children, chain);
    case Annotated(_, _, _) => ReadsUndeclaredAnnotated(x, n, chain);
    case Other(children) => ReadsUndeclaredAll(x, children, chain);
    case Choice(arms) => ReadsUndeclaredAny(x, arms, chain);
    case Loop(body) =>
      SettledUndeclared(x, chain, Settled(chain) * AfterAll(body, Settled(chain)));
      ReadsUndeclaredAll(x, body, WithSettled(chain, Settled(chain) * AfterAll(body, Settled(chain))));
    case Augmented(_, operand) => ReadsUndeclared(x, operand, chain);
    case _ =>
  }

  lemma {:induction false} ReadsUndeclaredDef(x: string, n: Node, chain: Chain)
    requires n.Def? && Grammatical(n) && x !in DeclaredGlobal(n) && Undeclared(x, chain)
    ensures AllUndeclared(x, Reads(n, chain))
    decreases n, 0
  {
    var Def(_, decorators, params, result, body) := n;
    var c1 := Past(chain, decorators);
    var c2 := Past(c1, params.defaults);
    SettledUndeclared(x, chain, AfterAll(decorators, Settled(chain)));
    SettledUndeclared(x, c1, AfterAll(params.defaults, Settled(c1)));
    SettledUndeclared(x, c2, AfterAll(params.annotations, Settled(c2)));
    GlobalsDeclared(body);
    BlockExtends(x, chain, FunctionOf(params, DoAll(body), PlainAll(body)));
    ReadsUndeclaredAll(x, decorators, chain);
    ReadsUndeclaredAll(x, params.defaults, c1);
    ReadsUndeclaredAnnotations(x, params.annotations, c2);
    ReadsUndeclaredAnnotations(x, result, Past(c2, params.annotations));
    ReadsUndeclaredAll(x, body, chain + [FunctionOf(params, DoAll(body), PlainAll(body))]);
  }

  lemma {:induction false} ReadsUndeclaredClass(x: string, n: Node, chain: Chain)
    requires n.Class? && Grammatical(n) && x !in DeclaredGlobal(n) && Undeclared(x, chain)
    ensures AllUndeclared(x, Reads(n, chain))
    decreases n, 0
  {
    var Class(_, decorators, bases, keywords, body) := n;
    var c1 := Past(chain, decorators);
    SettledUndeclared(x, chain, AfterAll(decorators, Settled(chain)));
    SettledUndeclared(x, c1, AfterAll(bases, Settled(c1)));
    GlobalsDeclared(body);
    BlockExtends(x, chain, ClassOf(DoAll(body), PlainAll(body)));
    ReadsUndeclaredAll(x, decorators, chain);
    ReadsUndeclaredAll(x, bases, c1);
    ReadsUndeclaredAll(x, keywords, Past(c1, bases));
    ReadsUndeclaredAll(x, body, chain + [ClassOf(DoAll(body), PlainAll(body))]);
  }

  lemma {:induction false} ReadsUndeclaredAnnotated(x: string, n: Node, chain: Chain)
    requires n.Annotated? && Grammatical(n) && x !in DeclaredGlobal(n) && Undeclared(x, chain)
    ensures AllUndeclared(x, Reads(n, chain))
    decreases n, 0
  {
    var Annotated(annotation, value, target) := n;
    var c1 := Past(chain, value);
    SettledUndeclared(x, chain, AfterAll(value, Settled(chain)));
    SettledUndeclared(x, c1, AfterAll([target], Settled(c1)));
    ReadsUndeclaredAll(x, value, chain);
    ReadsUndeclared(x, target, c1);
    ReadsUndeclaredAnnotation(x, annotation, if value == [] then chain else Past(c1, [target]));
  }

  lemma {:induction false} ReadsUndeclaredAll(x: string, ns: seq<Node>, chain: Chain)
    requires GrammaticalAll(ns) && x !in DeclaredGlobalAll(ns) && Undeclared(x, chain)
    ensures AllUndeclared(x, ReadAll(ns, chain))
    decreases ns
  {
    if ns != [] {
      SettledUndeclared(x, chain, AfterAll([ns[0]], Settled(chain)));
      ReadsUndeclared(x, ns[0], chain);
      ReadsUndeclaredAll(x, ns[1..], Past(chain, [ns[0]]));
    }
  }

  lemma {:induction false} ReadsUndeclaredAny(x: string, arms: seq<Node>, chain: Chain)
    requires GrammaticalAll(arms) && x !in DeclaredGlobalAll(arms) && Undeclared(x, chain)
    ensures AllUndeclared(x, ReadAny(arms, chain))
    decreases arms
  {
    if arms != [] {
      ReadsUndeclared(x, arms[0], chain);
      ReadsUndeclaredAny(x, arms[1..], chain);
    }
  }

  lemma {:induction false} ReadsUndeclaredAnnotation(x: string, n: Node, chain: Chain)
    requires Grammatical(n) && x !in DeclaredGlobal(n) && Undeclared(x, chain)
    ensures AllUndeclared(x, ReadAnnotation(n, chain))
    decreases n, 2
  {
    if n.Str? {
      ReadsUndeclaredAll(x, n.parsed, chain);
    } else {
      ReadsUndeclared(x, n, chain);
    }
  }

  lemma {:induction false} ReadsUndeclaredAnnotations(x: string, ns: seq<Node>, chain: Chain)
    requires GrammaticalAll(ns) && x !in DeclaredGlobalAll(ns) && Undeclared(x, chain)
    ensures AllUndeclared(x, ReadAnnotations(ns, chain))
    decreases ns
  {
    if ns != [] {
      SettledUndeclared(x, chain, AfterAll([ns[0]], Settled(chain)));
      ReadsUndeclaredAnnotation(x, ns[0], chain);
      ReadsUndeclaredAnnotations(x, ns[1..], Past(chain, [ns[0]]));
    }
  }

  lemma {:induction false} ReadsUndeclaredGens(x: string, gens: seq<Gen>, first: Chain, inner: Chain)
    requires GrammaticalGens(gens) && x !in DeclaredGlobalGens(gens) && Undeclared(x, first) && Undeclared(x, inner)
    ensures AllUndeclared(x, ReadGens(gens, first, inner))
    decreases gens
  {
    if gens != [] {
      ReadsUndeclared(x, gens[0].iter, first);
      ReadsUndeclaredAll(x, gens[0].ifs, inner);
      ReadsUndeclaredGens(x, gens[1..], inner, inner);
    }
  }

  // ------------------------------------------- declared names are collected

  lemma {:induction false} DeclaredCollected(n: Node, scopes: seq<Scope>)
    requires Grammatical(n)
    ensures DeclaredGlobal(n) <= Free(n, scopes)
    decreases n, 0
  {
    match n
    case Def(_, decorators, params, result, body) =>
      DeclaredAllCollected(params.defaults, scopes);
      DeclaredAllCollected(decorators, scopes);
      DeclaredAnnotationsCollected(params.annotations, scopes);
      DeclaredAnnotationsCollected(result, scopes);
      DeclaredAllCollected(body, Enclosing(scopes) + [Scope(Elements(params.names) + LocallyBound(body), false)]);
    case Lambda(params, value) =>
      DeclaredAllCollected(params.defaults, scopes);
      DeclaredCollected(value, Enclosing(scopes) + [Scope(Elements(params.names), false)]);
    case Class(_, decorators, bases, keywords, body) =>
      DeclaredAllCollected(decorators, scopes);
      DeclaredAllCollected(bases, scopes);
      DeclaredAllCollected(keywords, scopes);
      DeclaredAllCollected(body, Enclosing(scopes) + [Scope(LocallyBound(body), true)]);
    case Comp(gens, elements) =>
      var inner := Enclosing(scopes) + [Scope(CompNames(gens), false)];
      DeclaredGensCollected(gens, scopes, inner);
      DeclaredAllCollected(elements, inner);
    case Binder(_, children) => DeclaredAllCollected(children, scopes);
    case Annotated(annotation, value, target) =>
      DeclaredCollected(annotation, scopes);
      DeclaredAllCollected(value, scopes);
      DeclaredCollected(target, scopes);
    case Other(children) => DeclaredAllCollected(children, scopes);
    case Choice(arms) => DeclaredAllCollected(arms, scopes);
    case Loop(body) => DeclaredAllCollected(body, scopes);
    case Augmented(_, operand) => DeclaredCollected(operand, scopes);
    case _ =>
  }

  lemma {:induction false} DeclaredAllCollected(ns: seq<Node>, scopes: seq<Scope>)
    requires GrammaticalAll(ns)
    ensures DeclaredGlobalAll(ns) <= FreeAll(ns, scopes)
    decreases ns
  {
    if ns != [] {
      DeclaredCollected(ns[0], scopes);
      DeclaredAllCollected(ns[1..], scopes);
    }
  }

  lemma {:induction false} DeclaredAnnotationsCollected(ns: seq<Node>, scopes: seq<Scope>)
    requires GrammaticalAll(ns)
    ensures DeclaredGlobalAll(ns) <= FreeAnnotations(ns, scopes)
    decreases ns
  {
    if ns != [] {
      DeclaredCollected(ns[0], scopes);
      DeclaredAnnotationsCollected(ns[1..], scopes);
    }
  }

  lemma {:induction false} DeclaredGensCollected(gens: seq<Gen>, first: seq<Scope>, inner: seq<Scope>)
    requires GrammaticalGens(gens)
    ensures DeclaredGlobalGens(gens) <= FreeGens(gens, first, inner)
    decreases gens
  {
    if gens != [] {
      DeclaredCollected(gens[0].iter, first);
      DeclaredAllCollected(gens[0].ifs, inner);
      DeclaredGensCollected(gens[1..], inner, inner);
    }
  }

  // ------------------------------------------------------------- main results

  /**
   What the analysis reports: the names declared global, and those with an
   occurrence that no visible block plainly binds and no comprehension target reads.
   */
  lemma FreeNamesExactly(stmts: seq<Node>, x: string)
    requires GrammaticalAll(stmts)
    ensures x in FreeAll(stmts, []) <==> x in DeclaredGlobalAll(stmts) || Reported(x, ReadAll(stmts, []))
  {
    if x in DeclaredGlobalAll(stmts) {
      DeclaredAllCollected(stmts, []);
    } else {
      AgreeAll(x, stmts, []);
    }
  }

  // Why an occurrence is taken wrongly.

  /**
   The analysis overlooks a module's name: an augmented assignment reads it, a
   comprehension target does, or a class body does before binding it.
   */
  ghost predicate Overlooked(r: Read) {
    r.augments || Masked(r.id, r.chain) || (ReadsEarly(r) && PlainlyLocal(r.id, r.chain))
  }

  /** Of the visible blocks only such have the name as local that bind it by a tucked-away walrus alone. */
  ghost predicate OnlyTucked(r: Read) {
    !r.augments && !Masked(r.id, r.chain) && !PlainlyLocal(r.id, r.chain)
    && exists i :: Visible(r.chain, i) && r.id in r.chain[i].locals * r.chain[i].tucked
  }

  /** An occurrence resolves to the module, with nothing to hide it. */
  ghost predicate PlainHit(x: string, found: set<Read>) {
    exists r :: r in found && r.id == x && InModule(x, r.chain) && !Overlooked(r)
  }

  /** An occurrence resolves to the module and is overlooked. */
  ghost predicate HiddenHit(x: string, found: set<Read>) {
    exists r :: r in found && r.id == x && InModule(x, r.chain) && Overlooked(r)
  }

  /** An occurrence belongs to a block that binds the name by a tucked-away walrus alone. */
  ghost predicate TuckedRead(x: string, found: set<Read>) {
    exists r :: r in found && r.id == x && !InModule(x, r.chain) && OnlyTucked(r)
  }

  /** The causes are right, occurrence by occurrence. */
  lemma CausesOf(x: string, r: Read)
    requires r.id == x && Undeclared(x, r.chain)
    ensures InModule(x, r.chain) ==> (Overlooked(r) <==> r.augments || Held(x, r.chain))
    ensures !InModule(x, r.chain) ==> (OnlyTucked(r) <==> !r.augments && !Held(x, r.chain))
  {
    hide Masked, PlainlyLocal, Visible, InModule, ReadsEarly, Undeclared;
    if InModule(x, r.chain) {
      HeldInModule(x, r);
    } else if !Held(x, r.chain) {
      UnheldLocal(x, r.chain);
    }
  }

  /**
   The analysis agrees with the scope rules on `x`, reporting it exactly when it is
   declared global somewhere or some occurrence of it resolves to the module, if
   and only if `x` is declared global or some occurrence plainly resolves to the
   module, or of the occurrences that are overlooked, and those that only a
   tucked-away walrus binds, there are both or neither.
   */
  lemma FreeNamesAgree(stmts: seq<Node>, x: string)
    requires GrammaticalAll(stmts)
    ensures var found := ReadAll(stmts, []);
      (x in FreeAll(stmts, []) <==> x in DeclaredGlobalAll(stmts) || Hits(x, found))
      <==> x in DeclaredGlobalAll(stmts) || PlainHit(x, found) || (HiddenHit(x, found) <==> TuckedRead(x, found))
  {
    FreeNamesExactly(stmts, x);
    hide *;
    if x !in DeclaredGlobalAll(stmts) {
      ReadsUndeclaredAll(x, stmts, []);
      CausesSplit(x, ReadAll(stmts, []));
    }
  }

  ghost predicate AllUndeclared(x: string, found: set<Read>) {
    forall r :: r in found ==> Undeclared(x, r.chain)
  }

  lemma CausesSplit(x: string, found: set<Read>)
    requires AllUndeclared(x, found)
    ensures Hits(x, found) <==> PlainHit(x, found) || HiddenHit(x, found)
    ensures Reported(x, found) <==> PlainHit(x, found) || TuckedRead(x, found)
  {
    hide InModule, Overlooked, OnlyTucked, Held, Undeclared;
    forall r | r in found && r.id == x
      ensures InModule(x, r.chain) ==> (Overlooked(r) <==> r.augments || Held(x, r.chain))
      ensures !InModule(x, r.chain) ==> (OnlyTucked(r) <==> !r.augments && !Held(x, r.chain))
    {
      CausesOf(x, r);
    }
  }

  /**
   So on a program in which nothing of `x` is overlooked or tucked away, `x` is
   reported exactly when it is declared global somewhere or some occurrence of it
   resolves to the module.
   */
  lemma FreeNamesPlainly(stmts: seq<Node>, x: string)
    requires GrammaticalAll(stmts)
    requires forall r :: r in ReadAll(stmts, []) && r.id == x ==> !Overlooked(r) && !OnlyTucked(r)
    ensures x in FreeAll(stmts, []) <==> x in DeclaredGlobalAll(stmts) || Hits(x, ReadAll(stmts, []))
  {
    FreeNamesAgree(stmts, x);
    hide FreeAll, ReadAll, DeclaredGlobalAll, Overlooked, OnlyTucked, InModule;
  }

  /** Occurrences as in a program without walruses, reading targets, augmented assignments and early reads. */
  ghost predicate Ordinary(r: Read) {
    !r.augments && !ReadsEarly(r) && forall i :: 0 <= i < |r.chain| ==> r.chain[i].tucked == r.chain[i].targetReads == {}
  }

  /** In particular on such a program, for every name. */
  lemma FreeNamesOrdinary(stmts: seq<Node>, x: string)
    requires GrammaticalAll(stmts) && forall r :: r in ReadAll(stmts, []) ==> Ordinary(r)
    ensures x in FreeAll(stmts, []) <==> x in DeclaredGlobalAll(stmts) || Hits(x, ReadAll(stmts, []))
  {
    forall r | r in ReadAll(stmts, []) ensures !Overlooked(r) && !OnlyTucked(r) {
      OrdinaryFine(r);
    }
    hide *;
    FreeNamesPlainly(stmts, x);
  }

  lemma OrdinaryFine(r: Read)
    requires Ordinary(r)
    ensures !Overlooked(r) && !OnlyTucked(r)
  {
  }
}
