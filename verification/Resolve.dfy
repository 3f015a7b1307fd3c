/** Name resolution: which declarations every identifier and type name refers to, and which function
    every function is nested in. */
module Resolve {
  import opened Options
  import opened NameMaps

  datatype Variable = Variable(name: string, id: nat, isFunction: bool)

  datatype TypeName = TypeName(id: nat, name: string)

  datatype Generic = Generic(name: string, id: nat)

  /** A declaration a block or module offers: of a function or of a struct. */
  datatype Offer = OfferFn(v: Variable) | OfferType(name: string, def: nat)

  /** A syntax tree node with the type names in it; an import carries what the module offers. */
  datatype Node =
    | Ident(types: seq<TypeName>, id: nat, name: string)
    | Block(types: seq<TypeName>, body: Nodes)
    | For(types: seq<TypeName>, v: Variable, index: Option<Variable>, e: Node, body1: Node)
    | FnDecl(types: seq<TypeName>, v: Variable, tyargs: seq<Generic>, args: seq<Variable>, fnBody: Option<Node>)
    | TyDecl(types: seq<TypeName>, name: string, def: nat, tyargs: seq<Generic>, inner: Nodes)
    | VarDecl(types: seq<TypeName>, v: Variable, e: Node)
    | Import(types: seq<TypeName>, offers: seq<Offer>)
    | Other(types: seq<TypeName>, inner: Nodes)

  datatype Nodes = Nil | Cons(head: Node, tail: Nodes)

  /** What is written into the tree, in order. */
  datatype Effect =
    | Targets(id: nat, vars: seq<Variable>)
    | TypeIs(id: nat, def: Option<nat>, generic: Option<nat>)
    | Parent(fn: Variable, parent: Option<Variable>)

  /** What is in scope, as plain stacks, and the functions around. */
  datatype Env = Env(variables: Stack<Variable>, typedefs: Stack<nat>, generics: Stack<nat>, functions: seq<Variable>)

  datatype Resolved = Resolved(env: Env, log: seq<Effect>)

  // ---------------------------------------------------------------- as a function on plain stacks

  /** When the newest binding is a function, all functions of the name; otherwise that binding alone. */
  function Visible(all: seq<Variable>): seq<Variable> {
    if all == [] then [] else if !all[0].isFunction then [all[0]] else Functions(all)
  }

  function Functions(all: seq<Variable>): seq<Variable> {
    if all == [] then [] else (if all[0].isFunction then [all[0]] else []) + Functions(all[1..])
  }

  function TypeEffect(t: TypeName, env: Env): Effect {
    match Newest(env.typedefs, t.name)
    case Some(d) => TypeIs(t.id, Some(d), None)
    case None => TypeIs(t.id, None, Newest(env.generics, t.name))
  }

  function TypeEffects(ts: seq<TypeName>, env: Env): seq<Effect> {
    if ts == [] then [] else [TypeEffect(ts[0], env)] + TypeEffects(ts[1..], env)
  }

  function Declare(n: Node, env: Env): Env {
    match n
    case FnDecl(_, v, _, _, _) => env.(variables := env.variables + [(v.name, v)])
    case TyDecl(_, name, def, _, _) => env.(typedefs := env.typedefs + [(name, def)])
    case _ => env
  }

  function DeclareAll(ns: Nodes, env: Env): Env {
    if ns.Nil? then env else DeclareAll(ns.tail, Declare(ns.head, env))
  }

  function TakeOffers(offers: seq<Offer>, env: Env): Env {
    if offers == [] then env
    else
      match offers[0]
      case OfferFn(v) => TakeOffers(offers[1..], env.(variables := env.variables + [(v.name, v)]))
      case OfferType(name, def) => TakeOffers(offers[1..], env.(typedefs := env.typedefs + [(name, def)]))
  }

  function BindVars(vs: seq<Variable>, env: Env): Env {
    if vs == [] then env else BindVars(vs[1..], env.(variables := env.variables + [(vs[0].name, vs[0])]))
  }

  function BindGenerics(gs: seq<Generic>, env: Env): Env {
    if gs == [] then env else BindGenerics(gs[1..], env.(generics := env.generics + [(gs[0].name, gs[0].id)]))
  }

  /** The environment and the effects of resolving a node; scopes end by restoring the environment. */
  function Names(n: Node, env: Env): Resolved
    decreases n
  {
    var t := TypeEffects(n.types, env);
    match n
    case Ident(_, id, name) => Resolved(env, t + [Targets(id, Visible(All(env.variables, name)))])
    case Block(_, body) => Resolved(env, t + NamesAll(body, DeclareAll(body, env)).log)
    case For(_, v, index, e, body) =>
      var r := Names(e, env);
      var inner := BindVars([v] + (if index.Some? then [index.value] else []), r.env);
      Resolved(env, t + r.log + Names(body, inner).log)
    case FnDecl(types, v, tyargs, args, fnBody) =>
      var parent := if env.functions == [] then None else Some(env.functions[|env.functions| - 1]);
      var inner := BindGenerics(tyargs, env);
      var log := [Parent(v, parent)] + TypeEffects(types, inner);
      if fnBody.None? then Resolved(env, log)
      else
        var within := BindVars(args, inner);
        Resolved(env, log + Names(fnBody.value, within.(functions := within.functions + [v])).log)
    case TyDecl(types, _, _, tyargs, inner) =>
      var env' := BindGenerics(tyargs, env);
      Resolved(env, TypeEffects(types, env') + NamesAll(inner, env').log)
    case VarDecl(_, v, e) =>
      var r := Names(e, env);
      Resolved(BindVars([v], r.env), t + r.log)
    case Import(_, offers) => Resolved(TakeOffers(offers, env), t)
    case Other(_, inner) =>
      var r := NamesAll(inner, env);
      Resolved(r.env, t + r.log)
  }

  function NamesAll(ns: Nodes, env: Env): Resolved
    decreases ns
  {
    if ns.Nil? then Resolved(env, [])
    else
      var r := Names(ns.head, env);
      var r' := NamesAll(ns.tail, r.env);
      Resolved(r'.env, r.log + r'.log)
  }

  // ---------------------------------------------------------------- what resolving does to the environment

  /** b has all of a's bindings, and perhaps newer ones, and is inside the same functions. */
  predicate Extends(a: Env, b: Env) {
    a.variables <= b.variables && a.typedefs <= b.typedefs && a.generics <= b.generics && a.functions == b.functions
  }

  lemma {:induction false} DeclareExtends(ns: Nodes, env: Env)
    ensures Extends(env, DeclareAll(ns, env))
    decreases ns
  {
    if ns.Cons? { DeclareExtends(ns.tail, Declare(ns.head, env)); }
  }

  lemma {:induction false} OffersExtend(offers: seq<Offer>, env: Env)
    ensures Extends(env, TakeOffers(offers, env))
    decreases |offers|
  {
    if offers != [] {
      match offers[0]
      case OfferFn(v) => OffersExtend(offers[1..], env.(variables := env.variables + [(v.name, v)]));
      case OfferType(name, def) => OffersExtend(offers[1..], env.(typedefs := env.typedefs + [(name, def)]));
    }
  }

  lemma {:induction false} BindVarsExtends(vs: seq<Variable>, env: Env)
    ensures Extends(env, BindVars(vs, env))
    decreases |vs|
  {
    if vs != [] { BindVarsExtends(vs[1..], env.(variables := env.variables + [(vs[0].name, vs[0])])); }
  }

  lemma {:induction false} BindGenericsExtends(gs: seq<Generic>, env: Env)
    ensures Extends(env, BindGenerics(gs, env))
    decreases |gs|
  {
    if gs != [] { BindGenericsExtends(gs[1..], env.(generics := env.generics + [(gs[0].name, gs[0].id)])); }
  }

  /** Resolving adds bindings at most: none of those in scope is lost or changed. */
  lemma {:induction false} NamesExtend(n: Node, env: Env)
    ensures Extends(env, Names(n, env).env)
    decreases n
  {
    match n
    case VarDecl(_, v, e) =>
      NamesExtend(e, env);
      BindVarsExtends([v], Names(e, env).env);
    case Import(_, offers) => OffersExtend(offers, env);
    case Other(_, inner) => AllExtend(inner, env);
    case _ =>
  }

  lemma {:induction false} AllExtend(ns: Nodes, env: Env)
    ensures Extends(env, NamesAll(ns, env).env)
    decreases ns
  {
    if ns.Cons? {
      NamesExtend(ns.head, env);
      AllExtend(ns.tail, Names(ns.head, env).env);
    }
  }

  predicate OpensScope(n: Node) { n.Block? || n.For? || n.FnDecl? || n.TyDecl? }

  // ---------------------------------------------------------------- on symbol tables

  /** Resolution with the three symbol tables, whose scopes end by undoing bindings. */
  class Resolver {
    const variables: NameMap<Variable>
    const typedefs: NameMap<nat>
    const generics: NameMap<nat>
    var functions: seq<Variable>
    var log: seq<Effect>

    ghost predicate Valid()
      reads this, variables, typedefs, generics
    {
      variables.Valid() && typedefs.Valid() && generics.Valid() && typedefs != generics
    }

    ghost function State(): Env
      reads this, variables, typedefs, generics
    {
      Env(variables.Bindings(), typedefs.Bindings(), generics.Bindings(), functions)
    }

    constructor ()
      ensures Valid() && State() == Env([], [], [], []) && log == []
      ensures fresh(variables) && fresh(typedefs) && fresh(generics)
    {
      variables := new NameMap();
      typedefs := new NameMap();
      generics := new NameMap();
      functions, log := [], [];
    }

    lemma TypesFrom(ts: seq<TypeName>, i: nat, env: Env)
      requires i < |ts|
      ensures TypeEffects(ts[i..], env) == [TypeEffect(ts[i], env)] + TypeEffects(ts[i + 1..], env)
    {
      assert ts[i..][1..] == ts[i + 1..];
    }

    method ResolveTypes(ts: seq<TypeName>)
      requires Valid()
      modifies `log
      ensures log == old(log) + TypeEffects(ts, State())
    {
      var i := 0;
      assert ts[0..] == ts;
      while i < |ts|
        invariant 0 <= i <= |ts|
        invariant log + TypeEffects(ts[i..], State()) == old(log) + TypeEffects(ts, State())
      {
        var def := typedefs.Find(ts[i].name);
        var generic := None;
        if def.None? {
          generic := generics.Find(ts[i].name);
        }
        var effect := TypeIs(ts[i].id, def, generic);
        assert effect == TypeEffect(ts[i], State());
        TypesFrom(ts, i, State());
        Cat(log, [effect], TypeEffects(ts[i + 1..], State()));
        log := log + [effect];
        i := i + 1;
      }
    }

    /** The targets of an identifier among all variables of the name. */
    method ResolveBindings(targets: seq<Variable>) returns (r: seq<Variable>)
      ensures r == Visible(targets)
    {
      if targets == [] {
        return [];
      }
      if !targets[0].isFunction {
        return [targets[0]];
      }
      r := [];
      var i := 0;
      assert targets[0..] == targets;
      while i < |targets|
        invariant 0 <= i <= |targets|
        invariant r + Functions(targets[i..]) == Functions(targets)
      {
        assert targets[i..][1..] == targets[i + 1..];
        if targets[i].isFunction {
          assert r + ([targets[i]] + Functions(targets[i + 1..])) == r + [targets[i]] + Functions(targets[i + 1..]);
          r := r + [targets[i]];
        }
        i := i + 1;
      }
    }

    method DeclareNodes(ns: Nodes)
      requires Valid()
      modifies variables, typedefs
      ensures Valid() && State() == DeclareAll(ns, old(State()))
    {
      var rest := ns;
      while rest.Cons?
        invariant Valid() && DeclareAll(rest, State()) == DeclareAll(ns, old(State()))
        decreases rest
      {
        match rest.head {
          case FnDecl(_, v, _, _, _) => variables.Push(v.name, v);
          case TyDecl(_, name, def, _, _) => typedefs.Push(name, def);
          case _ =>
        }
        rest := rest.tail;
      }
    }

    method ResolveImport(offers: seq<Offer>)
      requires Valid()
      modifies variables, typedefs
      ensures Valid() && State() == TakeOffers(offers, old(State()))
    {
      var i := 0;
      assert offers[0..] == offers;
      while i < |offers|
        invariant 0 <= i <= |offers| && Valid()
        invariant TakeOffers(offers[i..], State()) == TakeOffers(offers, old(State()))
      {
        assert offers[i..][1..] == offers[i + 1..];
        match offers[i] {
          case OfferFn(v) => variables.Push(v.name, v);
          case OfferType(name, def) => typedefs.Push(name, def);
        }
        i := i + 1;
      }
    }

    method PushVars(vs: seq<Variable>)
      requires Valid()
      modifies variables
      ensures Valid() && State() == BindVars(vs, old(State()))
    {
      var i := 0;
      assert vs[0..] == vs;
      while i < |vs|
        invariant 0 <= i <= |vs| && Valid()
        invariant BindVars(vs[i..], State()) == BindVars(vs, old(State()))
      {
        assert vs[i..][1..] == vs[i + 1..];
        variables.Push(vs[i].name, vs[i]);
        i := i + 1;
      }
    }

    method PushGenerics(gs: seq<Generic>)
      requires Valid()
      modifies generics
      ensures Valid() && State() == BindGenerics(gs, old(State()))
    {
      var i := 0;
      assert gs[0..] == gs;
      while i < |gs|
        invariant 0 <= i <= |gs| && Valid()
        invariant BindGenerics(gs[i..], State()) == BindGenerics(gs, old(State()))
      {
        assert gs[i..][1..] == gs[i + 1..];
        generics.Push(gs[i].name, gs[i].id);
        i := i + 1;
      }
    }

    /** Ends a scope: undoes the bindings made since `scope`. */
    method Leave(v: nat, t: nat, g: nat, ghost scope: Env)
      requires Valid() && Extends(scope, State())
      requires v == |scope.variables| && t == |scope.typedefs| && g == |scope.generics|
      modifies variables, typedefs, generics
      ensures Valid() && State() == scope
    {
      variables.Pop(v);
      typedefs.Pop(t);
      generics.Pop(g);
    }

    lemma Cat(a: seq<Effect>, b: seq<Effect>, c: seq<Effect>)
      ensures a + b + c == a + (b + c)
    {
    }

    /** Resolves a node; blocks, loops, functions and structs leave the environment as they found it. */
    method ResolveNode(n: Node)
      requires Valid()
      modifies this, variables, typedefs, generics
      ensures Valid() && State() == Names(n, old(State())).env && log == old(log) + Names(n, old(State())).log
      ensures OpensScope(n) ==> State() == old(State())
      decreases n, 1
    {
      hide NamesAll;
      match n
      case Ident(types, id, name) =>
        ResolveTypes(types);
        var all := variables.FindAll(name);
        var targets := ResolveBindings(all);
        Cat(old(log), TypeEffects(types, State()), [Targets(id, targets)]);
        log := log + [Targets(id, targets)];
      case Block(_, _) => ResolveBlock(n);
      case For(_, _, _, _, _) => ResolveFor(n);
      case FnDecl(_, _, _, _, _) => ResolveFn(n);
      case TyDecl(_, _, _, _, _) => ResolveTy(n);
      case VarDecl(types, v, e) =>
        ResolveTypes(types);
        Cat(old(log), TypeEffects(types, State()), Names(e, State()).log);
        ResolveNode(e);
        PushVars([v]);
      case Import(types, offers) =>
        ResolveTypes(types);
        ResolveImport(offers);
      case Other(types, inner) =>
        ResolveTypes(types);
        Cat(old(log), TypeEffects(types, State()), NamesAll(inner, State()).log);
        ResolveNodes(inner);
    }

    method ResolveNodes(ns: Nodes)
      requires Valid()
      modifies this, variables, typedefs, generics
      ensures Valid() && State() == NamesAll(ns, old(State())).env && log == old(log) + NamesAll(ns, old(State())).log
      decreases ns, 0
    {
      hide Names;
      var rest := ns;
      while rest.Cons?
        invariant Valid() && (rest == ns || rest < ns)
        invariant NamesAll(rest, State()).env == NamesAll(ns, old(State())).env
        invariant log + NamesAll(rest, State()).log == old(log) + NamesAll(ns, old(State())).log
        decreases rest
      {
        ghost var r := Names(rest.head, State());
        Cat(log, r.log, NamesAll(rest.tail, r.env).log);
        ResolveNode(rest.head);
        rest := rest.tail;
      }
    }

    method ResolveBlock(n: Node)
      requires Valid() && n.Block?
      modifies this, variables, typedefs, generics
      ensures Valid() && State() == old(State()) && log == old(log) + Names(n, old(State())).log
      decreases n, 0
    {
      hide NamesAll, Extends;
      ResolveTypes(n.types);
      var v, t, g := variables.Top(), typedefs.Top(), generics.Top();
      DeclareNodes(n.body);
      DeclareExtends(n.body, old(State()));
      ghost var inner := State();
      Cat(old(log), TypeEffects(n.types, old(State())), NamesAll(n.body, inner).log);
      ResolveNodes(n.body);
      AllExtend(n.body, inner);
      ExtendsTwice(old(State()), inner, State());
      Leave(v, t, g, old(State()));
    }

    method ResolveFor(n: Node)
      requires Valid() && n.For?
      modifies this, variables, typedefs, generics
      ensures Valid() && State() == old(State()) && log == old(log) + Names(n, old(State())).log
      decreases n, 0
    {
      hide NamesAll, Extends;
      ghost var s0 := State();
      ResolveTypes(n.types);
      var v, t, g := variables.Top(), typedefs.Top(), generics.Top();
      ResolveNode(n.e);
      ghost var s1 := State();
      NamesExtend(n.e, s0);
      PushVars([n.v] + if n.index.Some? then [n.index.value] else []);
      ghost var s2 := State();
      BindVarsExtends([n.v] + (if n.index.Some? then [n.index.value] else []), s1);
      ExtendsTwice(s0, s1, s2);
      Cat(old(log), TypeEffects(n.types, s0), Names(n.e, s0).log);
      Cat(old(log), TypeEffects(n.types, s0) + Names(n.e, s0).log, Names(n.body1, s2).log);
      ResolveNode(n.body1);
      NamesExtend(n.body1, s2);
      ExtendsTwice(s0, s2, State());
      Leave(v, t, g, s0);
    }

    method ResolveFn(n: Node)
      requires Valid() && n.FnDecl?
      modifies this, variables, typedefs, generics
      ensures Valid() && State() == old(State()) && log == old(log) + Names(n, old(State())).log
      decreases n, 0
    {
      hide Names, NamesAll, Extends, TypeEffects, BindVars, BindGenerics;
      ghost var s0 := State();
      var parent := if functions == [] then None else Some(functions[|functions| - 1]);
      log := log + [Parent(n.v, parent)];
      var v, t, g := variables.Top(), typedefs.Top(), generics.Top();
      PushGenerics(n.tyargs);
      BindGenericsExtends(n.tyargs, s0);
      ResolveTypes(n.types);
      FnLog(n, s0, parent, old(log));
      if n.fnBody.Some? {
        ResolveFnBody(n, n.fnBody.value, s0);
      }
      Leave(v, t, g, s0);
    }

    /** The effects of a function declaration, in order. */
    lemma FnLog(n: Node, s0: Env, parent: Option<Variable>, before: seq<Effect>)
      requires n.FnDecl? && parent == if s0.functions == [] then None else Some(s0.functions[|s0.functions| - 1])
      ensures var inner := BindGenerics(n.tyargs, s0);
              var head := before + [Parent(n.v, parent)] + TypeEffects(n.types, inner);
              before + Names(n, s0).log == if n.fnBody.None? then head
                else var within := BindVars(n.args, inner);
                     head + Names(n.fnBody.value, within.(functions := within.functions + [n.v])).log
    {
      var inner := BindGenerics(n.tyargs, s0);
      var p, e := [Parent(n.v, parent)], TypeEffects(n.types, inner);
      Cat(before, p, e);
      if n.fnBody.Some? {
        var within := BindVars(n.args, inner);
        Cat(before, p + e, Names(n.fnBody.value, within.(functions := within.functions + [n.v])).log);
      }
    }

    /** The parameters and the body, inside the function. */
    method ResolveFnBody(n: Node, body: Node, ghost s0: Env)
      requires Valid() && n.FnDecl? && n.fnBody == Some(body) && Extends(s0, State())
      modifies this, variables, typedefs, generics
      ensures Valid() && Extends(s0, State())
      ensures var within := BindVars(n.args, old(State()));
              log == old(log) + Names(body, within.(functions := within.functions + [n.v])).log
      decreases n, 0, 0
    {
      hide Names, Extends, BindVars;
      ghost var s1 := State();
      PushVars(n.args);
      ghost var s2 := State();
      BindVarsExtends(n.args, s1);
      ExtendsTwice(s0, s1, s2);
      functions := functions + [n.v];
      ghost var s3 := State();
      ResolveNode(body);
      NamesExtend(body, s3);
      ExtendsWithin(s0, s2, s3, State(), n.v);
      functions := functions[..|functions| - 1];
    }

    method ResolveTy(n: Node)
      requires Valid() && n.TyDecl?
      modifies this, variables, typedefs, generics
      ensures Valid() && State() == old(State()) && log == old(log) + Names(n, old(State())).log
      decreases n, 0
    {
      hide NamesAll, Extends, TypeEffects;
      ghost var s0 := State();
      var v, t, g := variables.Top(), typedefs.Top(), generics.Top();
      PushGenerics(n.tyargs);
      ghost var s1 := State();
      BindGenericsExtends(n.tyargs, s0);
      ResolveTypes(n.types);
      Cat(old(log), TypeEffects(n.types, s1), NamesAll(n.inner, s1).log);
      ResolveNodes(n.inner);
      AllExtend(n.inner, s1);
      ExtendsTwice(s0, s1, State());
      Leave(v, t, g, s0);
    }
  }

  lemma ExtendsTwice(a: Env, b: Env, c: Env)
    requires Extends(a, b) && Extends(b, c)
    ensures Extends(a, c)
  {
  }

  /** Leaving a function's body takes the function off the list of those around. */
  lemma ExtendsWithin(a: Env, b: Env, c: Env, d: Env, v: Variable)
    requires Extends(a, b) && c == b.(functions := b.functions + [v]) && Extends(c, d)
    ensures d.functions != [] && Extends(a, d.(functions := d.functions[..|d.functions| - 1]))
  {
  }
}
