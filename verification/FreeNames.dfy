/** The free-name analysis of the module-splitting transform. */
module FreeNames {
  import opened PythonScopes

  // ------------------------------------------------ names bound in a body

  /** The nodes that draining `n` from the worklist puts on it. */
  function Pushed(n: Node): seq<Node> {
    match n
    case Name(_, _) => []
    case Def(_, decorators, params, _, _) => decorators + params.defaults
    case Lambda(_, _) => []
    case Class(_, decorators, bases, keywords, _) => decorators + bases + keywords
    case Comp(gens, _) => GenParts(gens)
    case Global(_) => []
    case Nonlocal(_) => []
    case Binder(_, children) => children
    case Annotated(annotation, value, target) => [annotation] + value + [target]
    case Str(_) => []
    case Other(children) => children
    case Choice(arms) => arms
    case Loop(body) => body
    case Augmented(_, operand) => [operand]
  }

  function GenParts(gens: seq<Gen>): seq<Node> {
    if gens == [] then [] else [gens[0].iter] + gens[0].ifs + GenParts(gens[1..])
  }

  /** The names that `n` itself binds. */
  function OwnBound(n: Node): set<string> {
    match n
    case Name(id, ctx) => if ctx.Load? then {} else {id}
    case Def(name, _, _, _, _) => {name}
    case Class(name, _, _, _, _) => {name}
    case Binder(names, _) => Elements(names)
    case Augmented(id, _) => {id}
    case _ => {}
  }

  /** The names that `n` itself declares to live in an outer block. */
  function OwnOuter(n: Node): set<string> {
    match n
    case Global(names) => Elements(names)
    case Nonlocal(names) => Elements(names)
    case _ => {}
  }

  // The size of a tree, which bounds the worklist.

  function Size(n: Node): nat
    decreases n
  {
    1 + match n
        case Def(_, decorators, params, _, _) => SizeAll(decorators) + SizeAll(params.defaults)
        case Class(_, decorators, bases, keywords, _) => SizeAll(decorators) + SizeAll(bases) + SizeAll(keywords)
        case Comp(gens, _) => SizeGens(gens)
        case Binder(_, children) => SizeAll(children)
        case Annotated(annotation, value, target) => Size(annotation) + SizeAll(value) + Size(target)
        case Other(children) => SizeAll(children)
        case Choice(arms) => SizeAll(arms)
        case Loop(body) => SizeAll(body)
        case Augmented(_, operand) => Size(operand)
        case _ => 0
  }

  function SizeAll(ns: seq<Node>): nat
    decreases ns
  {
    if ns == [] then 0 else Size(ns[0]) + SizeAll(ns[1..])
  }

  function SizeGens(gens: seq<Gen>): nat
    decreases gens
  {
    if gens == [] then 0 else Size(gens[0].iter) + SizeAll(gens[0].ifs) + SizeGens(gens[1..])
  }

  lemma {:induction false} SizeConcat(a: seq<Node>, b: seq<Node>)
    ensures SizeAll(a + b) == SizeAll(a) + SizeAll(b)
  {
    if a == [] {
      assert a + b == b;
    } else {
      SizeConcat(a[1..], b);
      assert (a + b)[1..] == a[1..] + b;
    }
  }

  lemma {:induction false} SizeGenParts(gens: seq<Gen>)
    ensures SizeAll(GenParts(gens)) == SizeGens(gens)
  {
    if gens != [] {
      SizeGenParts(gens[1..]);
      SizeConcat([gens[0].iter] + gens[0].ifs, GenParts(gens[1..]));
      SizeConcat([gens[0].iter], gens[0].ifs);
    }
  }

  lemma PushedSize(n: Node)
    ensures SizeAll(Pushed(n)) < Size(n)
  {
    match n
    case Def(_, decorators, params, _, _) => SizeConcat(decorators, params.defaults);
    case Class(_, decorators, bases, keywords, _) =>
      SizeConcat(decorators + bases, keywords);
      SizeConcat(decorators, bases);
    case Comp(gens, _) => SizeGenParts(gens);
    case Annotated(annotation, value, target) =>
      SizeConcat([annotation] + value, [target]);
      SizeConcat([annotation], value);
    case _ =>
  }

  /** The names found bound, and those found declared, while draining `todo`. */
  function Drained(todo: seq<Node>): (set<string>, set<string>)
    decreases SizeAll(todo)
  {
    if todo == [] then ({}, {})
    else
      var n, rest := todo[|todo| - 1], todo[..|todo| - 1];
      assert SizeAll(rest + Pushed(n)) < SizeAll(todo) by { DrainSize(todo); }
      var (bound, outer) := Drained(rest + Pushed(n));
      (OwnBound(n) + bound, OwnOuter(n) + outer)
  }

  lemma DrainSize(todo: seq<Node>)
    requires todo != []
    ensures var n, rest := todo[|todo| - 1], todo[..|todo| - 1];
      SizeAll(rest + Pushed(n)) < SizeAll(todo)
  {
    var n, rest := todo[|todo| - 1], todo[..|todo| - 1];
    PushedSize(n);
    SizeConcat(rest, Pushed(n));
    SizeConcat(rest, [n]);
    assert rest + [n] == todo;
  }

  /** The names a body binds locally. */
  function LocallyBound(stmts: seq<Node>): set<string> {
    Drained(stmts).0 - Drained(stmts).1
  }

  method BoundInBody(stmts: seq<Node>) returns (names: set<string>)
    ensures names == LocallyBound(stmts)
  {
    var bound: set<string> := {};
    var declaredOuter: set<string> := {};
    var todo := stmts;
    while todo != []
      invariant bound + Drained(todo).0 == Drained(stmts).0
      invariant declaredOuter + Drained(todo).1 == Drained(stmts).1
      decreases SizeAll(todo)
    {
      DrainSize(todo);
      var n := todo[|todo| - 1];
      todo := todo[..|todo| - 1] + Pushed(n);
      bound := bound + OwnBound(n);
      declaredOuter := declaredOuter + OwnOuter(n);
    }
    names := bound - declaredOuter;
  }

  // ------------------------------------------------------------- the collector

  datatype Scope = Scope(names: set<string>, isClass: bool)

  /** The chain a nested scope sees: class scopes are dropped. */
  function Enclosing(scopes: seq<Scope>): seq<Scope> {
    if scopes == [] then []
    else
      Enclosing(scopes[..|scopes| - 1])
      + (if scopes[|scopes| - 1].isClass then [] else [scopes[|scopes| - 1]])
  }

  predicate Found(id: string, scopes: seq<Scope>) {
    exists i :: 0 <= i < |scopes| && id in scopes[i].names
  }

  function CompNames(gens: seq<Gen>): set<string> {
    if gens == [] then {}
    else Elements(gens[0].targets) + Elements(gens[0].loads) + CompNames(gens[1..])
  }

  /** The names that visiting `n` adds to the collection. */
  function Free(n: Node, scopes: seq<Scope>): set<string>
    decreases n, 0
  {
    match n
    case Name(id, ctx) => if ctx.Store? || Found(id, scopes) then {} else {id}
    case Def(_, decorators, params, result, body) =>
      FreeAll(params.defaults, scopes) + FreeAll(decorators, scopes)
      + FreeAnnotations(params.annotations, scopes) + FreeAnnotations(result, scopes)
      + FreeAll(body, Enclosing(scopes) + [Scope(Elements(params.names) + LocallyBound(body), false)])
    case Lambda(params, value) =>
      FreeAll(params.defaults, scopes) + Free(value, Enclosing(scopes) + [Scope(Elements(params.names), false)])
    case Class(_, decorators, bases, keywords, body) =>
      FreeAll(decorators, scopes) + FreeAll(bases, scopes) + FreeAll(keywords, scopes)
      + FreeAll(body, Enclosing(scopes) + [Scope(LocallyBound(body), true)])
    case Comp(gens, elements) =>
      var inner := Enclosing(scopes) + [Scope(CompNames(gens), false)];
      FreeGens(gens, scopes, inner) + FreeAll(elements, inner)
    case Global(names) => Elements(names)
    case Nonlocal(_) => {}
    case Binder(_, children) => FreeAll(children, scopes)
    case Annotated(annotation, value, target) =>
      FreeAnnotation(annotation, scopes) + FreeAll(value, scopes) + Free(target, scopes)
    case Str(_) => {}
    case Other(children) => FreeAll(children, scopes)
    case Choice(arms) => FreeAll(arms, scopes)
    case Loop(body) => FreeAll(body, scopes)
    case Augmented(_, operand) => Free(operand, scopes)
  }

  function FreeAll(ns: seq<Node>, scopes: seq<Scope>): set<string>
    decreases ns
  {
    if ns == [] then {} else Free(ns[0], scopes) + FreeAll(ns[1..], scopes)
  }

  function FreeAnnotation(n: Node, scopes: seq<Scope>): set<string>
    decreases n, 1
  {
    if n.Str? then FreeAll(n.parsed, scopes) else Free(n, scopes)
  }

  function FreeAnnotations(ns: seq<Node>, scopes: seq<Scope>): set<string>
    decreases ns
  {
    if ns == [] then {} else FreeAnnotation(ns[0], scopes) + FreeAnnotations(ns[1..], scopes)
  }

  function FreeGens(gens: seq<Gen>, first: seq<Scope>, inner: seq<Scope>): set<string>
    decreases gens
  {
    if gens == [] then {}
    else Free(gens[0].iter, first) + FreeAll(gens[0].ifs, inner) + FreeGens(gens[1..], inner, inner)
  }

  /** The collector object: visiting adds to `free`. */
  class Collector {
    var free: set<string>

    constructor ()
      ensures free == {}
    {
      free := {};
    }

    method Lookup(id: string, scopes: seq<Scope>)
      modifies this
      ensures free == old(free) + (if Found(id, scopes) then {} else {id})
    {
      if !Found(id, scopes) {
        free := free + {id};
      }
    }

    method VisitAnnotation(n: Node, scopes: seq<Scope>)
      modifies this
      ensures free == old(free) + FreeAnnotation(n, scopes)
      decreases n, 1
    {
      if n.Str? {
        VisitAll(n.parsed, scopes);
      } else {
        Visit(n, scopes);
      }
    }

    method VisitAnnotations(ns: seq<Node>, scopes: seq<Scope>)
      modifies this
      ensures free == old(free) + FreeAnnotations(ns, scopes)
      decreases ns
    {
      if ns != [] {
        VisitAnnotation(ns[0], scopes);
        VisitAnnotations(ns[1..], scopes);
      }
    }

    method VisitAll(ns: seq<Node>, scopes: seq<Scope>)
      modifies this
      ensures free == old(free) + FreeAll(ns, scopes)
      decreases ns
    {
      if ns != [] {
        Visit(ns[0], scopes);
        VisitAll(ns[1..], scopes);
      }
    }

    method VisitGens(gens: seq<Gen>, first: seq<Scope>, inner: seq<Scope>)
      modifies this
      ensures free == old(free) + FreeGens(gens, first, inner)
      decreases gens
    {
      if gens != [] {
        Visit(gens[0].iter, first);
        VisitAll(gens[0].ifs, inner);
        VisitGens(gens[1..], inner, inner);
      }
    }

    method Visit(n: Node, scopes: seq<Scope>)
      modifies this
      ensures free == old(free) + Free(n, scopes)
      decreases n, 0
    {
      match n
      case Name(id, ctx) =>
        if !ctx.Store? {
          Lookup(id, scopes);
        }
      case Def(_, decorators, params, result, body) =>
        VisitAll(params.defaults, scopes);
        VisitAll(decorators, scopes);
        VisitAnnotations(params.annotations, scopes);
        VisitAnnotations(result, scopes);
        var bound := BoundInBody(body);
        VisitAll(body, Enclosing(scopes) + [Scope(Elements(params.names) + bound, false)]);
      case Lambda(params, value) =>
        VisitAll(params.defaults, scopes);
        Visit(value, Enclosing(scopes) + [Scope(Elements(params.names), false)]);
      case Class(_, decorators, bases, keywords, body) =>
        VisitAll(decorators, scopes);
        VisitAll(bases, scopes);
        VisitAll(keywords, scopes);
        var bound := BoundInBody(body);
        VisitAll(body, Enclosing(scopes) + [Scope(bound, true)]);
      case Comp(gens, elements) =>
        var inner := Enclosing(scopes) + [Scope(CompNames(gens), false)];
        VisitGens(gens, scopes, inner);
        VisitAll(elements, inner);
      case Global(names) => free := free + Elements(names);
      case Nonlocal(_) =>
      case Binder(_, children) => VisitAll(children, scopes);
      case Annotated(annotation, value, target) =>
        VisitAnnotation(annotation, scopes);
        VisitAll(value, scopes);
        Visit(target, scopes);
      case Str(_) =>
      case Other(children) => VisitAll(children, scopes);
      case Choice(arms) => VisitAll(arms, scopes);
      case Loop(body) => VisitAll(body, scopes);
      case Augmented(_, operand) => Visit(operand, scopes);
    }
  }

  /** The names the statements take from module scope, built-in ones left out. */
  method CollectFreeNames(stmts: seq<Node>, builtins: set<string>) returns (names: set<string>)
    ensures names == FreeAll(stmts, []) - builtins
  {
    var collector := new Collector();
    collector.VisitAll(stmts, []);
    names := collector.free - builtins;
  }
}
