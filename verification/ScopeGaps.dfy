/** Programs on which the free-name analysis and the scope rules part, and one on which they seem to. */
module ScopeGaps {
  import opened PythonScopes
  import opened FreeNames
  import opened ScopeAgreement

  const NO_PARAMS := Params([], [], [])

  lemma NothingRead(chain: Chain)
    ensures ReadAll([], chain) == {} && ReadAnnotations([], chain) == {}
  {
  }

  lemma DoTwo(a: Node, b: Node)
    ensures DoAll([a]) == Does(a) && DoAll([b]) == Does(b) && DoAll([a, b]) == Does(a).Plus(Does(b))
    ensures PlainAll([a]) == Plain(a) && PlainAll([b]) == Plain(b) && PlainAll([a, b]) == Plain(a).Plus(Plain(b))
  {
    hide Does, Plain;
    DoOne(a);
    DoOne(b);
    assert [a, b][1..] == [b];
  }

  lemma DoOne(a: Node)
    ensures DoAll([a]) == Does(a) && PlainAll([a]) == Plain(a)
  {
    hide Does, Plain;
    assert [a][1..] == [] && DoAll([]) == PlainAll([]) == NOTHING;
    assert DoAll([a]) == Does(a).Plus(NOTHING) && PlainAll([a]) == Plain(a).Plus(NOTHING);
  }

  lemma ReadTwo(a: Node, b: Node, chain: Chain)
    ensures ReadAll([a], chain) == Reads(a, chain) && AfterAll([a], Settled(chain)) == After(a, Settled(chain))
    ensures ReadAll([a, b], chain) == Reads(a, chain) + Reads(b, WithSettled(chain, After(a, Settled(chain))))
  {
    hide Reads, After;
    var past := Past(chain, [a]);
    assert [a][1..] == [] && [b][1..] == [] && [a, b][1..] == [b];
    assert ReadAll([b], past) == Reads(b, past) + ReadAll([], Past(past, [b]));
  }

  lemma AllGrammatical(a: Node, b: Node)
    ensures GrammaticalAll([a]) <==> Grammatical(a)
    ensures GrammaticalAll([a, b]) <==> Grammatical(a) && Grammatical(b)
    ensures DeclaredGlobalAll([a]) == DeclaredGlobal(a)
    ensures DeclaredGlobalAll([a, b]) == DeclaredGlobal(a) + DeclaredGlobal(b)
  {
    hide Grammatical, DeclaredGlobal;
    assert [a][1..] == [] && [b][1..] == [] && [a, b][1..] == [b];
    assert DeclaredGlobalAll([b]) == DeclaredGlobal(b) + DeclaredGlobalAll([]);
  }

  // -------------------------------------------------------- class C: y = x; x = 1

  const FIRST := Other([Name("x", Load), Name("y", Store)])
  const SECOND := Other([Name("x", Store)])
  const EARLY := Class("C", [], [], [], [FIRST, SECOND])

  lemma EarlyEffect()
    ensures DoAll([FIRST, SECOND]) == PlainAll([FIRST, SECOND]) == Effect({"x", "y"}, {}, {})
  {
    DoTwo(Name("x", Load), Name("y", Store));
    DoTwo(Name("x", Store), Name("x", Store));
    DoTwo(FIRST, SECOND);
    hide DoAll, PlainAll;
  }

  lemma EarlyGrammatical()
    ensures GrammaticalAll([EARLY]) && DeclaredGlobalAll([EARLY]) == {}
  {
    AllGrammatical(Name("x", Load), Name("y", Store));
    AllGrammatical(Name("x", Store), Name("x", Store));
    AllGrammatical(FIRST, SECOND);
    AllGrammatical(EARLY, EARLY);
    assert GrammaticalAll([]) && DeclaredGlobalAll([]) == {};
    hide GrammaticalAll, DeclaredGlobalAll;
  }

  function ClassChain(settled: set<string>): Chain {
    [Block(ClassBlock, {"x", "y"}, {}, {}, settled, {}, {})]
  }

  lemma ClassChainIs(body: seq<Node>)
    requires DoAll(body) == PlainAll(body) == Effect({"x", "y"}, {}, {})
    ensures [] + [ClassOf(DoAll(body), PlainAll(body))] == ClassChain({})
  {
    hide DoAll, PlainAll;
    var names := {"x", "y"};
    assert names - {} - {} == names && names - names == {};
  }

  /** All that is read is `x`, when nothing is bound yet. */
  lemma EarlyReads()
    ensures ReadAll([EARLY], []) == {Read("x", ClassChain({}), false)}
  {
    EarlyEffect();
    hide DoAll, PlainAll;
    ClassChainIs([FIRST, SECOND]);
    var chain := ClassChain({});
    ReadTwo(EARLY, EARLY, []);
    ReadTwo(FIRST, SECOND, chain);
    ReadTwo(Name("x", Load), Name("y", Store), chain);
    ReadTwo(Name("x", Store), Name("x", Store), WithSettled(chain, After(FIRST, {})));
    NothingRead([]);
    hide ReadAll, After, AfterAll;
    assert Reads(FIRST, chain) == {Read("x", chain, false)};
  }

  /** The early read finds the module's `x`, and the analysis does not report it. */
  lemma EarlyClassReadMissed()
    ensures GrammaticalAll([EARLY]) && Hits("x", ReadAll([EARLY], [])) && "x" !in FreeAll([EARLY], [])
  {
    EarlyGrammatical();
    EarlyReads();
    FreeNamesExactly([EARLY], "x");
    hide ReadAll, FreeAll, GrammaticalAll, DeclaredGlobalAll;
    var r := Read("x", ClassChain({}), false);
    assert r in ReadAll([EARLY], []);
    assert Visible(r.chain, 0) && "x" in r.chain[0].locals - r.chain[0].tucked;
  }

  // ------------------------------------------- class C: for x in y: x (and y = 0 before)

  const BIND := Other([Name("y", Store)])
  const ROUND := [Name("x", Store), Name("x", Load)]
  const LOOP := Other([Name("y", Load), Loop(ROUND)])
  const LOOPING := Class("C", [], [], [], [BIND, LOOP])

  lemma LoopEffect()
    ensures DoAll([BIND, LOOP]) == PlainAll([BIND, LOOP]) == Effect({"x", "y"}, {}, {})
  {
    DoOne(Name("y", Store));
    DoTwo(Name("x", Store), Name("x", Load));
    DoTwo(Name("y", Load), Loop(ROUND));
    DoTwo(BIND, LOOP);
    hide DoAll, PlainAll;
    assert Does(LOOP) == Plain(LOOP) == Effect({"x"}, {}, {});
  }

  lemma RoundReads(chain: Chain)
    requires chain == ClassChain({"y"})
    ensures Reads(Loop(ROUND), chain) == {Read("x", ClassChain({"x", "y"}), false)}
  {
    var head := {"y"} * AfterAll(ROUND, {"y"});
    AfterTwo(Name("x", Store), Name("x", Load), {"y"});
    assert head == {"y"} && WithSettled(chain, head) == chain;
    ReadTwo(Name("x", Store), Name("x", Load), chain);
    assert {"y"} + {"x"} == {"x", "y"};
    assert WithSettled(chain, {"x", "y"}) == ClassChain({"x", "y"});
    hide ReadAll, AfterAll;
  }

  lemma AfterTwo(a: Node, b: Node, settled: set<string>)
    ensures AfterAll([a, b], settled) == After(b, After(a, settled))
  {
    hide After;
    var first := After(a, settled);
    assert [a, b][1..] == [b] && [b][1..] == [];
    assert AfterAll([b], first) == AfterAll([], After(b, first));
  }

  lemma LoopReads()
    ensures ReadAll([LOOPING], []) == {Read("y", ClassChain({"y"}), false), Read("x", ClassChain({"x", "y"}), false)}
  {
    LoopEffect();
    hide DoAll, PlainAll;
    ClassChainIs([BIND, LOOP]);
    var chain := ClassChain({});
    var bound := WithSettled(chain, {"y"});
    assert bound == ClassChain({"y"});
    ReadTwo(LOOPING, LOOPING, []);
    ReadTwo(BIND, LOOP, chain);
    ReadTwo(Name("y", Store), Name("y", Store), chain);
    assert After(BIND, {}) == {"y"};
    ReadTwo(Name("y", Load), Loop(ROUND), bound);
    assert WithSettled(bound, {"y"}) == bound;
    RoundReads(bound);
    NothingRead([]);
    hide ReadAll, After, AfterAll;
  }

  /** A loop target is bound before the loop body reads it: neither name is the module's, and neither is reported. */
  lemma LoopTargetFound(x: string)
    ensures !Hits(x, ReadAll([LOOPING], [])) && x !in FreeAll([LOOPING], [])
  {
    LoopReads();
    LoopGrammatical();
    FreeNamesExactly([LOOPING], x);
    hide ReadAll, FreeAll, GrammaticalAll, DeclaredGlobalAll;
    forall r | r in ReadAll([LOOPING], []) ensures !InModule(r.id, r.chain) && Held(r.id, r.chain) {
      assert Visible(r.chain, 0) && r.id in r.chain[0].locals - r.chain[0].tucked;
    }
  }

  lemma LoopGrammatical()
    ensures GrammaticalAll([LOOPING]) && DeclaredGlobalAll([LOOPING]) == {}
  {
    AllGrammatical(Name("x", Store), Name("x", Load));
    AllGrammatical(Name("y", Store), Name("y", Store));
    AllGrammatical(Name("y", Load), Loop(ROUND));
    AllGrammatical(BIND, LOOP);
    AllGrammatical(LOOPING, LOOPING);
    assert GrammaticalAll([]) && DeclaredGlobalAll([]) == {};
    hide GrammaticalAll, DeclaredGlobalAll;
  }

  // ------------------------------------------- class C: x = y = 0; while ...: x; del x

  const BOTH := Other([Name("x", Store), Name("y", Store)])
  const DELETING := [Name("x", Load), Name("x", Del)]
  const AGAIN := Class("C", [], [], [], [BOTH, Loop(DELETING)])

  lemma DeletingEffect()
    ensures DoAll([BOTH, Loop(DELETING)]) == PlainAll([BOTH, Loop(DELETING)]) == Effect({"x", "y"}, {}, {})
  {
    DoTwo(Name("x", Store), Name("y", Store));
    DoTwo(Name("x", Load), Name("x", Del));
    DoTwo(BOTH, Loop(DELETING));
    hide DoAll, PlainAll;
    assert Does(BOTH) == Plain(BOTH) == Effect({"x", "y"}, {}, {});
  }

  lemma DeletingReads(chain: Chain)
    requires chain == ClassChain({"x", "y"})
    ensures Reads(Loop(DELETING), chain) == {Read("x", ClassChain({"y"}), false), Read("x", ClassChain({"x", "y"}), false)}
  {
    AfterTwo(Name("x", Load), Name("x", Del), {"x", "y"});
    assert {"x", "y"} - {"x"} == {"y"} && {"y"} + {"x"} == {"x", "y"};
    var head := {"x", "y"} * AfterAll(DELETING, {"x", "y"});
    assert head == {"y"} && WithSettled(chain, head) == ClassChain({"y"});
    ReadTwo(Name("x", Load), Name("x", Del), ClassChain({"y"}));
    assert WithSettled(ClassChain({"y"}), {"y"}) == ClassChain({"y"});
    assert WithSettled(ClassChain({"y"}), {"x", "y"}) == ClassChain({"x", "y"});
    hide ReadAll, AfterAll;
  }

  /** On the second round of the loop `x` is the module's, and the analysis does not report it. */
  lemma DeletedInLoopMissed()
    ensures GrammaticalAll([AGAIN]) && Hits("x", ReadAll([AGAIN], [])) && "x" !in FreeAll([AGAIN], [])
  {
    AgainGrammatical();
    FreeNamesExactly([AGAIN], "x");
    AgainReads();
    hide FreeAll, GrammaticalAll, DeclaredGlobalAll, ReadAll;
    forall r | r in ReadAll([AGAIN], []) ensures Held("x", r.chain) {
      HeldHere(r);
    }
    assert Read("x", ClassChain({"y"}), false) in ReadAll([AGAIN], []);
  }

  lemma AgainReads()
    ensures ReadAll([AGAIN], []) == {Read("x", ClassChain({"y"}), false), Read("x", ClassChain({"x", "y"}), false)}
  {
    DeletingEffect();
    ClassChainIs([BOTH, Loop(DELETING)]);
    hide DoAll, PlainAll;
    var chain := ClassChain({});
    ReadTwo(AGAIN, AGAIN, []);
    ReadTwo(BOTH, Loop(DELETING), chain);
    ReadTwo(Name("x", Store), Name("y", Store), chain);
    AfterTwo(Name("x", Store), Name("y", Store), {});
    assert After(BOTH, {}) == {"x", "y"};
    assert WithSettled(chain, {"x", "y"}) == ClassChain({"x", "y"});
    NothingRead([]);
    hide ReadAll, After, AfterAll;
    DeletingReads(ClassChain({"x", "y"}));
  }

  lemma HeldHere(r: Read)
    requires |r.chain| == 1 && "x" in r.chain[0].locals && r.chain[0].tucked == {}
    ensures Held("x", r.chain)
  {
    assert Visible(r.chain, 0) && "x" in r.chain[0].locals - r.chain[0].tucked;
  }

  lemma AgainGrammatical()
    ensures GrammaticalAll([AGAIN]) && DeclaredGlobalAll([AGAIN]) == {}
  {
    AllGrammatical(Name("x", Store), Name("y", Store));
    AllGrammatical(Name("x", Load), Name("x", Del));
    AllGrammatical(BOTH, Loop(DELETING));
    AllGrammatical(AGAIN, AGAIN);
    assert GrammaticalAll([]) && DeclaredGlobalAll([]) == {};
    hide GrammaticalAll, DeclaredGlobalAll;
  }

  // ------------------------------------------------------------------ count += 1

  const COUNTING := Augmented("count", Other([]))

  /** At the top level an augmented assignment reads the module's name, and the analysis takes it for a store. */
  lemma AugmentedMissed()
    ensures GrammaticalAll([COUNTING]) && DeclaredGlobalAll([COUNTING]) == {}
    ensures ReadAll([COUNTING], []) == {Read("count", [], true)} && Hits("count", ReadAll([COUNTING], []))
    ensures FreeAll([COUNTING], []) == {}
  {
    AllGrammatical(COUNTING, COUNTING);
    assert GrammaticalAll([]) && DeclaredGlobalAll([]) == {};
    NothingRead([]);
    ReadTwo(COUNTING, COUNTING, []);
    assert FreeAll([], []) == {} && [COUNTING][1..] == [];
    assert Read("count", [], true) in ReadAll([COUNTING], []);
  }

  // ----------------------------------------------------------- [0 for a[0] in xs]

  const TARGETS := [Gen([], ["a"], Name("xs", Load), [])]
  const MASKING := Comp(TARGETS, [Other([])])

  /** A comprehension target that reads a name of the module: the analysis does not report it. */
  lemma TargetReadMissed()
    ensures GrammaticalAll([MASKING]) && Hits("a", ReadAll([MASKING], [])) && "a" !in FreeAll([MASKING], [])
  {
    AllGrammatical(MASKING, MASKING);
    AllGrammatical(Other([]), Other([]));
    assert DoAll([Other([])]) == NOTHING by { DoTwo(Other([]), Other([])); }
    FreeNamesExactly([MASKING], "a");
    hide GrammaticalAll, DoAll, FreeAll;
    MaskedReads();
    hide ReadAll;
    var inner := [ComprehensionOf(TARGETS)];
    assert Read("a", inner, false) in ReadAll([MASKING], []);
    assert FromInside("a", inner[..0]) && "a" !in Targets(TARGETS);
    assert Visible(inner, 0) && "a" in inner[0].targetReads;
  }

  lemma MaskedReads()
    ensures ReadAll([MASKING], []) == {Read("xs", [], false), Read("a", [ComprehensionOf(TARGETS)], false)}
  {
    var inner := [] + [ComprehensionOf(TARGETS)];
    assert inner == [ComprehensionOf(TARGETS)];
    ReadTwo(MASKING, MASKING, []);
    ReadTwo(Other([]), Other([]), inner);
    NothingRead(inner);
    assert TARGETS[1..] == [] && ReadGens([], inner, inner) == {};
    assert ReadGens(TARGETS, [], inner) == {Read("xs", [], false)} + {Read("a", inner, false)};
  }

  // -------------------------------------- def f(): [(y := ...) for x in ...]; y

  const ELEMENT := Other([Name("y", Store)])
  const CLAUSES := [Gen(["x"], [], Str([]), [])]
  const COMPREHENSION := Comp(CLAUSES, [ELEMENT])
  const BODY := [COMPREHENSION, Name("y", Load)]
  const TUCKING := Def("f", [], NO_PARAMS, [], BODY)

  function TuckedChain(): Chain { [Block(FunctionBlock, {"y"}, {}, {}, {}, {"y"}, {})] }

  lemma ElementEffect()
    ensures DoAll([ELEMENT]) == DoAll(BODY) == Effect({"y"}, {}, {}) && PlainAll(BODY) == NOTHING
  {
    DoTwo(Name("y", Store), Name("y", Store));
    DoTwo(ELEMENT, ELEMENT);
    DoTwo(COMPREHENSION, Name("y", Load));
    assert CLAUSES[1..] == [] && DoAll([]) == PlainAll([]) == NOTHING;
    hide DoAll, PlainAll;
    assert DoGens(CLAUSES) == PlainGens(CLAUSES) == NOTHING;
  }

  lemma ElementReads()
    ensures ReadAll([TUCKING], []) == {Read("y", TuckedChain(), false)}
  {
    ElementEffect();
    hide DoAll, PlainAll;
    var chain := TuckedChain();
    TuckedChainIs();
    ReadTwo(TUCKING, TUCKING, []);
    ReadTwo(COMPREHENSION, Name("y", Load), chain);
    NothingRead([]);
    NoElementReads(chain);
    hide ReadAll, ReadGens;
  }

  lemma TuckedChainIs()
    ensures [] + [FunctionOf(NO_PARAMS, DoAll(BODY), PlainAll(BODY))] == TuckedChain()
  {
    ElementEffect();
    hide DoAll, PlainAll;
    var names := {"y"};
    assert Elements(NO_PARAMS.names) == {};
    assert {} + (names - {} - {}) == names && names - {} - {} == names;
  }

  lemma NoElementReads(chain: Chain)
    requires chain == TuckedChain()
    ensures Reads(COMPREHENSION, chain) == {} && WithSettled(chain, After(COMPREHENSION, Settled(chain))) == chain
  {
    var inner := chain + [ComprehensionOf(CLAUSES)];
    ReadTwo(ELEMENT, ELEMENT, inner);
    ReadTwo(Name("y", Store), Name("y", Store), inner);
    NothingRead(inner);
    assert CLAUSES[1..] == [] && ReadGens([], inner, inner) == {};
    assert Reads(Str([]), chain) == {};
    hide ReadAll;
    assert ReadGens(CLAUSES, chain, inner) == {} by { NothingRead(inner); }
  }

  lemma ElementGrammatical()
    ensures GrammaticalAll([TUCKING])
  {
    ElementEffect();
    AllGrammatical(Name("y", Store), Name("y", Store));
    AllGrammatical(ELEMENT, ELEMENT);
    AllGrammatical(COMPREHENSION, Name("y", Load));
    AllGrammatical(TUCKING, TUCKING);
    assert GrammaticalAll([]) && DeclaredGlobalAll([]) == {} && DoAll([]) == NOTHING;
    hide GrammaticalAll, DoAll, DeclaredGlobalAll;
    assert CLAUSES[1..] == [] && GrammaticalGens([]);
    assert GrammaticalGens(CLAUSES);
  }

  /**
   A walrus in the element of a comprehension binds in the function around it; the
   analysis does not see it, and reports the local name.
   */
  lemma ElementWalrusReported()
    ensures GrammaticalAll([TUCKING]) && !Hits("y", ReadAll([TUCKING], [])) && "y" in FreeAll([TUCKING], [])
  {
    ElementReads();
    ElementGrammatical();
    FreeNamesExactly([TUCKING], "y");
    hide ReadAll, FreeAll, GrammaticalAll, DeclaredGlobalAll;
    var r := Read("y", TuckedChain(), false);
    assert r in ReadAll([TUCKING], []);
    assert !Held("y", r.chain);
  }
}
