/**
 A small Python syntax tree, and the scope rules of section 4.2 of the Python
 Language Reference: which block a name occurrence belongs to, and which of its
 reads resolve to the module.
 */
module PythonScopes {

  datatype Context = Load | Store | Del

  /**
   The nodes that scoping distinguishes. `Other` is any node that evaluates its
   children in turn, which stand in that order: of an assignment the value and then
   the targets, of an `except` handler the type, the binding and the body. `Choice`
   evaluates one of its arms, for `if` and `try` statements, and `Loop` its body any
   number of times. A walrus stores a name; `Augmented` reads a name, evaluates a
   value and stores the name. A `Binder` binds its names behind its children. A
   string constant carries the expression it parses to, if any.
   */
  datatype Node =
    | Name(id: string, ctx: Context)
    | Def(name: string, decorators: seq<Node>, params: Params, result: seq<Node>, body: seq<Node>)
    | Lambda(params: Params, lambdaBody: Node)
    | Class(name: string, decorators: seq<Node>, bases: seq<Node>, keywords: seq<Node>, body: seq<Node>)
    | Comp(gens: seq<Gen>, elements: seq<Node>)
    | Global(names: seq<string>)
    | Nonlocal(names: seq<string>)
    | Binder(names: seq<string>, children: seq<Node>)
    | Annotated(annotation: Node, value: seq<Node>, target: Node)
    | Str(parsed: seq<Node>)
    | Other(children: seq<Node>)
    | Choice(arms: seq<Node>)
    | Loop(body: seq<Node>)
    | Augmented(id: string, operand: Node)

  datatype Params = Params(names: seq<string>, defaults: seq<Node>, annotations: seq<Node>)

  /** One `for` clause: the names it stores, the names its target reads, the rest. */
  datatype Gen = Gen(targets: seq<string>, loads: seq<string>, iter: Node, ifs: seq<Node>)

  function Elements(s: seq<string>): set<string> { set x | x in s }

  // ---------------------------------------------- what a block's own code does

  /** The names bound, declared global and declared nonlocal. */
  datatype Effect = Effect(bound: set<string>, globals: set<string>, nonlocals: set<string>) {
    function Plus(other: Effect): Effect {
      Effect(bound + other.bound, globals + other.globals, nonlocals + other.nonlocals)
    }
  }

  const NOTHING := Effect({}, {}, {})

  function Binding(names: set<string>): Effect { Effect(names, {}, {}) }

  /**
   What a node does to the block it stands in. Bodies of functions, lambdas and
   classes are blocks of their own; decorators, defaults, annotations and bases
   belong here, and so does everything in a comprehension but its targets.
   */
  function Does(n: Node): Effect
    decreases n
  {
    match n
    case Name(id, ctx) => if ctx.Load? then NOTHING else Binding({id})
    case Def(name, decorators, params, result, _) =>
      Binding({name}).Plus(DoAll(decorators)).Plus(DoAll(params.defaults))
        .Plus(DoAll(params.annotations)).Plus(DoAll(result))
    case Lambda(params, _) => DoAll(params.defaults)
    case Class(name, decorators, bases, keywords, _) =>
      Binding({name}).Plus(DoAll(decorators)).Plus(DoAll(bases)).Plus(DoAll(keywords))
    case Comp(gens, elements) => DoGens(gens).Plus(DoAll(elements))
    case Global(names) => Effect({}, Elements(names), {})
    case Nonlocal(names) => Effect({}, {}, Elements(names))
    case Binder(names, children) => Binding(Elements(names)).Plus(DoAll(children))
    case Annotated(annotation, value, target) => Does(annotation).Plus(DoAll(value)).Plus(Does(target))
    case Str(_) => NOTHING
    case Other(children) => DoAll(children)
    case Choice(arms) => DoAll(arms)
    case Loop(body) => DoAll(body)
    case Augmented(id, operand) => Does(operand).Plus(Binding({id}))
  }

  function DoAll(ns: seq<Node>): Effect
    decreases ns
  {
    if ns == [] then NOTHING else Does(ns[0]).Plus(DoAll(ns[1..]))
  }

  function DoGens(gens: seq<Gen>): Effect
    decreases gens
  {
    if gens == [] then NOTHING
    else Does(gens[0].iter).Plus(DoAll(gens[0].ifs)).Plus(DoGens(gens[1..]))
  }

  /**
   The same without what is tucked away: the walruses in the annotations of a
   function, in a lambda, and in the elements of a comprehension.
   */
  function Plain(n: Node): Effect
    decreases n
  {
    match n
    case Name(id, ctx) => if ctx.Load? then NOTHING else Binding({id})
    case Def(name, decorators, params, _, _) => Binding({name}).Plus(PlainAll(decorators)).Plus(PlainAll(params.defaults))
    case Lambda(_, _) => NOTHING
    case Class(name, decorators, bases, keywords, _) =>
      Binding({name}).Plus(PlainAll(decorators)).Plus(PlainAll(bases)).Plus(PlainAll(keywords))
    case Comp(gens, _) => PlainGens(gens)
    case Global(names) => Effect({}, Elements(names), {})
    case Nonlocal(names) => Effect({}, {}, Elements(names))
    case Binder(names, children) => Binding(Elements(names)).Plus(PlainAll(children))
    case Annotated(annotation, value, target) => Plain(annotation).Plus(PlainAll(value)).Plus(Plain(target))
    case Str(_) => NOTHING
    case Other(children) => PlainAll(children)
    case Choice(arms) => PlainAll(arms)
    case Loop(body) => PlainAll(body)
    case Augmented(id, operand) => Plain(operand).Plus(Binding({id}))
  }

  function PlainAll(ns: seq<Node>): Effect
    decreases ns
  {
    if ns == [] then NOTHING else Plain(ns[0]).Plus(PlainAll(ns[1..]))
  }

  function PlainGens(gens: seq<Gen>): Effect
    decreases gens
  {
    if gens == [] then NOTHING
    else Plain(gens[0].iter).Plus(PlainAll(gens[0].ifs)).Plus(PlainGens(gens[1..]))
  }

  // ------------------------------------------------------- the order of a class body

  /**
   The names of a class body that are surely bound once `n` is evaluated, when those
   in `settled` were before. A bare annotation binds nothing.
   */
  function After(n: Node, settled: set<string>): set<string>
    decreases n
  {
    match n
    case Name(id, ctx) => if ctx.Load? then settled else if ctx.Store? then settled + {id} else settled - {id}
    case Def(name, decorators, params, result, _) =>
      AfterAll(result, AfterAll(params.annotations, AfterAll(params.defaults, AfterAll(decorators, settled)))) + {name}
    case Lambda(params, _) => AfterAll(params.defaults, settled)
    case Class(name, decorators, bases, keywords, _) =>
      AfterAll(keywords, AfterAll(bases, AfterAll(decorators, settled))) + {name}
    case Binder(names, children) => AfterAll(children, settled) + Elements(names)
    case Annotated(annotation, value, target) =>
      After(annotation, if value == [] then settled else After(target, AfterAll(value, settled)))
    case Other(children) => AfterAll(children, settled)
    case Choice(arms) => if arms == [] then settled else AfterAny(arms, settled)
    case Loop(body) => settled * AfterAll(body, settled)
    case Augmented(id, operand) => After(operand, settled) + {id}
    case _ => settled
  }

  function AfterAll(ns: seq<Node>, settled: set<string>): set<string>
    decreases ns
  {
    if ns == [] then settled else AfterAll(ns[1..], After(ns[0], settled))
  }

  /** Bound whichever of the arms was evaluated. */
  function AfterAny(arms: seq<Node>, settled: set<string>): set<string>
    requires arms != []
    decreases arms
  {
    if |arms| == 1 then After(arms[0], settled) else After(arms[0], settled) * AfterAny(arms[1..], settled)
  }

  lemma {:induction false} AfterPointwise(x: string, n: Node, s: set<string>, t: set<string>)
    requires x in s ==> x in t
    ensures x in After(n, s) ==> x in After(n, t)
    decreases n
  {
    match n
    case Def(name, decorators, params, result, _) =>
      var s1, t1 := AfterAll(decorators, s), AfterAll(decorators, t);
      var s2, t2 := AfterAll(params.defaults, s1), AfterAll(params.defaults, t1);
      AfterAllPointwise(x, decorators, s, t);
      AfterAllPointwise(x, params.defaults, s1, t1);
      AfterAllPointwise(x, params.annotations, s2, t2);
      AfterAllPointwise(x, result, AfterAll(params.annotations, s2), AfterAll(params.annotations, t2));
    case Lambda(params, _) => AfterAllPointwise(x, params.defaults, s, t);
    case Class(name, decorators, bases, keywords, _) =>
      var s1, t1 := AfterAll(decorators, s), AfterAll(decorators, t);
      AfterAllPointwise(x, decorators, s, t);
      AfterAllPointwise(x, bases, s1, t1);
      AfterAllPointwise(x, keywords, AfterAll(bases, s1), AfterAll(bases, t1));
    case Binder(_, children) => AfterAllPointwise(x, children, s, t);
    case Annotated(annotation, value, target) =>
      AfterAllPointwise(x, value, s, t);
      AfterPointwise(x, target, AfterAll(value, s), AfterAll(value, t));
      var s1 := if value == [] then s else After(target, AfterAll(value, s));
      var t1 := if value == [] then t else After(target, AfterAll(value, t));
      AfterPointwise(x, annotation, s1, t1);
    case Other(children) => AfterAllPointwise(x, children, s, t);
    case Choice(arms) =>
      if arms != [] {
        AfterAnyPointwise(x, arms, s, t);
      }
    case Loop(body) => AfterAllPointwise(x, body, s, t);
    case Augmented(_, operand) => AfterPointwise(x, operand, s, t);
    case _ =>
  }

  lemma {:induction false} AfterAllPointwise(x: string, ns: seq<Node>, s: set<string>, t: set<string>)
    requires x in s ==> x in t
    ensures x in AfterAll(ns, s) ==> x in AfterAll(ns, t)
    decreases ns
  {
    if ns != [] {
      AfterPointwise(x, ns[0], s, t);
      AfterAllPointwise(x, ns[1..], After(ns[0], s), After(ns[0], t));
    }
  }

  lemma {:induction false} AfterAnyPointwise(x: string, arms: seq<Node>, s: set<string>, t: set<string>)
    requires arms != [] && (x in s ==> x in t)
    ensures x in AfterAny(arms, s) ==> x in AfterAny(arms, t)
    decreases arms
  {
    AfterPointwise(x, arms[0], s, t);
    if |arms| > 1 {
      AfterAnyPointwise(x, arms[1..], s, t);
    }
  }

  /** What is surely bound whenever a loop body begins: it holds at first, and again after each round. */
  lemma LoopStable(body: seq<Node>, settled: set<string>)
    ensures var head := settled * AfterAll(body, settled);
      settled * AfterAll(body, head) == head
  {
    var head := settled * AfterAll(body, settled);
    forall x ensures x in settled * AfterAll(body, head) <==> x in head {
      AfterAllPointwise(x, body, head, settled);
      if x in head {
        AfterAllPointwise(x, body, settled, head);
      }
    }
  }

  // ------------------------------------------------------------------- blocks

  datatype Kind = FunctionBlock | ClassBlock | ComprehensionBlock

  /**
   A block: the names that are local to it, its declarations and, for a class
   body, the names surely bound by now. Of the locals, `tucked` are those that only
   a tucked-away walrus binds; `targetReads` are the names that the targets of a
   comprehension read.
   */
  datatype Block = Block(
    kind: Kind, locals: set<string>, globals: set<string>, nonlocals: set<string>, settled: set<string>,
    tucked: set<string>, targetReads: set<string>)

  /** The enclosing blocks of an occurrence, outermost first. */
  type Chain = seq<Block>

  function FunctionOf(params: Params, effect: Effect, plain: Effect): Block {
    Block(FunctionBlock, Elements(params.names) + (effect.bound - effect.globals - effect.nonlocals),
          effect.globals, effect.nonlocals, {}, effect.bound - plain.bound - Elements(params.names), {})
  }

  function ClassOf(effect: Effect, plain: Effect): Block {
    Block(ClassBlock, effect.bound - effect.globals - effect.nonlocals, effect.globals, effect.nonlocals, {},
          effect.bound - plain.bound, {})
  }

  function ComprehensionOf(gens: seq<Gen>): Block {
    Block(ComprehensionBlock, Targets(gens), {}, {}, {}, {}, TargetReads(gens))
  }

  function Targets(gens: seq<Gen>): set<string> {
    if gens == [] then {} else Elements(gens[0].targets) + Targets(gens[1..])
  }

  function TargetReads(gens: seq<Gen>): set<string> {
    if gens == [] then {} else Elements(gens[0].loads) + TargetReads(gens[1..])
  }

  predicate InClassBody(chain: Chain) { chain != [] && chain[|chain| - 1].kind.ClassBlock? }

  /** What is surely bound in the class body that is being evaluated, if one is. */
  function Settled(chain: Chain): set<string> {
    if InClassBody(chain) then chain[|chain| - 1].settled else {}
  }

  function WithSettled(chain: Chain, settled: set<string>): Chain {
    if InClassBody(chain) then chain[|chain| - 1 := chain[|chain| - 1].(settled := settled)] else chain
  }

  /** The chain once the nodes have been evaluated in it. */
  function Past(chain: Chain, ns: seq<Node>): Chain { WithSettled(chain, AfterAll(ns, Settled(chain))) }

  // --------------------------------------------------------------- occurrences

  /** A name read (or deleted, or augmented) somewhere, with the blocks around it. */
  datatype Read = Read(id: string, chain: Chain, augments: bool)

  /**
   Every read in `n`, where `n` stands inside the blocks of `chain`. Deleting a name
   of a class body never reaches past that body.
   */
  function Reads(n: Node, chain: Chain): set<Read>
    decreases n, 0
  {
    match n
    case Name(id, ctx) =>
      if ctx.Store? then {} else {Read(id, if ctx.Del? then WithSettled(chain, Settled(chain) + {id}) else chain, false)}
    case Def(_, decorators, params, result, body) =>
      var c1 := Past(chain, decorators);
      var c2 := Past(c1, params.defaults);
      var c3 := Past(c2, params.annotations);
      ReadAll(decorators, chain) + ReadAll(params.defaults, c1)
      + ReadAnnotations(params.annotations, c2) + ReadAnnotations(result, c3)
      + ReadAll(body, chain + [FunctionOf(params, DoAll(body), PlainAll(body))])
    case Lambda(params, value) =>
      ReadAll(params.defaults, chain) + Reads(value, chain + [FunctionOf(params, Does(value), NOTHING)])
    case Class(_, decorators, bases, keywords, body) =>
      var c1 := Past(chain, decorators);
      var c2 := Past(c1, bases);
      ReadAll(decorators, chain) + ReadAll(bases, c1) + ReadAll(keywords, c2)
      + ReadAll(body, chain + [ClassOf(DoAll(body), PlainAll(body))])
    case Comp(gens, elements) =>
      var inner := chain + [ComprehensionOf(gens)];
      ReadGens(gens, chain, inner) + ReadAll(elements, inner)
    case Global(_) => {}
    case Nonlocal(_) => {}
    case Binder(_, children) => ReadAll(children, chain)
    case Annotated(annotation, value, target) =>
      var c1 := Past(chain, value);
      var c2 := if value == [] then chain else Past(c1, [target]);
      ReadAll(value, chain) + Reads(target, c1) + ReadAnnotation(annotation, c2)
    case Str(_) => {}
    case Other(children) => ReadAll(children, chain)
    case Choice(arms) => ReadAny(arms, chain)
    case Loop(body) => ReadAll(body, WithSettled(chain, Settled(chain) * AfterAll(body, Settled(chain))))
    case Augmented(id, operand) => {Read(id, chain, true)} + Reads(operand, chain)
  }

  /** The nodes are evaluated in turn. */
  function ReadAll(ns: seq<Node>, chain: Chain): set<Read>
    decreases ns
  {
    if ns == [] then {} else Reads(ns[0], chain) + ReadAll(ns[1..], Past(chain, [ns[0]]))
  }

  /** One of the nodes is evaluated. */
  function ReadAny(arms: seq<Node>, chain: Chain): set<Read>
    decreases arms
  {
    if arms == [] then {} else Reads(arms[0], chain) + ReadAny(arms[1..], chain)
  }

  /** A string in annotation position is the expression it spells. */
  function ReadAnnotation(n: Node, chain: Chain): set<Read>
    decreases n, 1
  {
    if n.Str? then ReadAll(n.parsed, chain) else Reads(n, chain)
  }

  function ReadAnnotations(ns: seq<Node>, chain: Chain): set<Read>
    decreases ns
  {
    if ns == [] then {} else ReadAnnotation(ns[0], chain) + ReadAnnotations(ns[1..], Past(chain, [ns[0]]))
  }

  /** Only the first iterable of a comprehension is evaluated in the enclosing block. */
  function ReadGens(gens: seq<Gen>, first: Chain, inner: Chain): set<Read>
    decreases gens
  {
    if gens == [] then {}
    else
      Reads(gens[0].iter, first) + ReadAll(gens[0].ifs, inner)
      + (set id | id in gens[0].loads :: Read(id, inner, false))
      + ReadGens(gens[1..], inner, inner)
  }

  // ---------------------------------------------------------------- resolution

  /** The name resolves to the module when looked up from a block nested in `chain`. */
  predicate FromInside(id: string, chain: Chain) {
    chain == []
    || (var block, outer := chain[|chain| - 1], chain[..|chain| - 1];
        if block.kind.ClassBlock? then FromInside(id, outer)
        else if id in block.globals then true
        else if id in block.nonlocals then FromInside(id, outer)
        else id !in block.locals && FromInside(id, outer))
  }

  /**
   The name resolves to the module when read directly in the innermost block. A
   class body that has not bound the name yet falls through to the module.
   */
  predicate InModule(id: string, chain: Chain) {
    chain == []
    || (var block, outer := chain[|chain| - 1], chain[..|chain| - 1];
        if id in block.globals then true
        else if id in block.nonlocals then FromInside(id, outer)
        else if id in block.locals then block.kind.ClassBlock? && id !in block.settled
        else FromInside(id, outer))
  }

  /** A class body reads one of its own names that it may not have bound yet. */
  predicate ReadsEarly(r: Read) {
    r.chain != []
    && (var block := r.chain[|r.chain| - 1];
        block.kind.ClassBlock? && r.id in block.locals - block.settled)
  }

  /** Some occurrence of `id` among `found` resolves to the module. */
  ghost predicate Hits(id: string, found: set<Read>) {
    exists r :: r in found && r.id == id && InModule(id, r.chain)
  }

  // ------------------------------------------------------- global declarations

  /** The names declared `global` anywhere, nested blocks included. */
  function DeclaredGlobal(n: Node): set<string>
    decreases n
  {
    match n
    case Name(_, _) => {}
    case Def(_, decorators, params, result, body) =>
      DeclaredGlobalAll(decorators) + DeclaredGlobalAll(params.defaults)
      + DeclaredGlobalAll(params.annotations) + DeclaredGlobalAll(result) + DeclaredGlobalAll(body)
    case Lambda(params, value) => DeclaredGlobalAll(params.defaults) + DeclaredGlobal(value)
    case Class(_, decorators, bases, keywords, body) =>
      DeclaredGlobalAll(decorators) + DeclaredGlobalAll(bases) + DeclaredGlobalAll(keywords) + DeclaredGlobalAll(body)
    case Comp(gens, elements) => DeclaredGlobalGens(gens) + DeclaredGlobalAll(elements)
    case Global(names) => Elements(names)
    case Nonlocal(_) => {}
    case Binder(_, children) => DeclaredGlobalAll(children)
    case Annotated(annotation, value, target) =>
      DeclaredGlobal(annotation) + DeclaredGlobalAll(value) + DeclaredGlobal(target)
    case Str(parsed) => DeclaredGlobalAll(parsed)
    case Other(children) => DeclaredGlobalAll(children)
    case Choice(arms) => DeclaredGlobalAll(arms)
    case Loop(body) => DeclaredGlobalAll(body)
    case Augmented(_, operand) => DeclaredGlobal(operand)
  }

  function DeclaredGlobalAll(ns: seq<Node>): set<string>
    decreases ns
  {
    if ns == [] then {} else DeclaredGlobal(ns[0]) + DeclaredGlobalAll(ns[1..])
  }

  function DeclaredGlobalGens(gens: seq<Gen>): set<string>
    decreases gens
  {
    if gens == [] then {}
    else DeclaredGlobal(gens[0].iter) + DeclaredGlobalAll(gens[0].ifs) + DeclaredGlobalGens(gens[1..])
  }
}
