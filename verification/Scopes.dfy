/** What resolution writes, said from the way to each place in the tree: which bindings the nodes on
    that way bring, and which of them an identifier or type name there refers to. */
module Scopes {
  import opened Options
  import opened NameMaps
  import opened Resolve

  // ---------------------------------------------------------------- the nodes inside a node, and ways to them

  function NodesOf(ns: Nodes): seq<Node> {
    if ns.Nil? then [] else [ns.head] + NodesOf(ns.tail)
  }

  function Kids(n: Node): seq<Node> {
    match n
    case Block(_, body) => NodesOf(body)
    case For(_, _, _, e, body) => [e, body]
    case FnDecl(_, _, _, _, fnBody) => if fnBody.Some? then [fnBody.value] else []
    case TyDecl(_, _, _, _, inner) => NodesOf(inner)
    case VarDecl(_, _, e) => [e]
    case Other(_, inner) => NodesOf(inner)
    case _ => []
  }

  predicate IsWay(n: Node, way: seq<nat>)
    decreases |way|
  {
    way == [] || (way[0] < |Kids(n)| && IsWay(Kids(n)[way[0]], way[1..]))
  }

  function NodeAt(n: Node, way: seq<nat>): Node
    requires IsWay(n, way)
    decreases |way|
  {
    if way == [] then n else NodeAt(Kids(n)[way[0]], way[1..])
  }

  // ---------------------------------------------------------------- bindings

  datatype Bind = VarB(v: Variable) | TypeB(name: string, def: nat) | GenB(g: Generic)

  function VarBinds(vs: seq<Variable>): seq<Bind> {
    seq(|vs|, i requires 0 <= i < |vs| => VarB(vs[i]))
  }

  function GenBinds(gs: seq<Generic>): seq<Bind> {
    seq(|gs|, i requires 0 <= i < |gs| => GenB(gs[i]))
  }

  function OfferBinds(offers: seq<Offer>): seq<Bind> {
    seq(|offers|, i requires 0 <= i < |offers| =>
      match offers[i] case OfferFn(v) => VarB(v) case OfferType(name, def) => TypeB(name, def))
  }

  /** The functions and structs among the nodes. */
  function Declared(ns: seq<Node>): seq<Bind> {
    if ns == [] then []
    else
      (match ns[0]
       case FnDecl(_, v, _, _, _) => [VarB(v)]
       case TyDecl(_, name, def, _, _) => [TypeB(name, def)]
       case _ => []) + Declared(ns[1..])
  }

  /** What a node leaves behind for what comes after it: nothing when it is a scope of its own. */
  function Left(n: Node): seq<Bind>
    decreases n
  {
    match n
    case VarDecl(_, v, e) => Left(e) + [VarB(v)]
    case Import(_, offers) => OfferBinds(offers)
    case Other(_, inner) => LeftAll(inner)
    case _ => []
  }

  function LeftAll(ns: Nodes): seq<Bind>
    decreases ns
  {
    if ns.Nil? then [] else Left(ns.head) + LeftAll(ns.tail)
  }

  function LeftBefore(ns: seq<Node>, i: nat): seq<Bind>
    requires i <= |ns|
  {
    if i == 0 then [] else Left(ns[0]) + LeftBefore(ns[1..], i - 1)
  }

  /** What node n brings into scope for its i-th part, oldest first. */
  function Brings(n: Node, i: nat): seq<Bind>
    requires i < |Kids(n)|
  {
    match n
    case Block(_, body) => Declared(NodesOf(body)) + LeftBefore(NodesOf(body), i)
    case For(_, v, index, e, _) => if i == 0 then [] else Left(e) + [VarB(v)] + (if index.Some? then [VarB(index.value)] else [])
    case FnDecl(_, _, tyargs, args, _) => GenBinds(tyargs) + VarBinds(args)
    case TyDecl(_, _, _, tyargs, inner) => GenBinds(tyargs) + LeftBefore(NodesOf(inner), i)
    case Other(_, inner) => LeftBefore(NodesOf(inner), i)
    case _ => []
  }

  /** All that is brought into scope on a way, oldest first. */
  function Scope(n: Node, way: seq<nat>): seq<Bind>
    requires IsWay(n, way)
    decreases |way|
  {
    if way == [] then [] else Brings(n, way[0]) + Scope(Kids(n)[way[0]], way[1..])
  }

  /** The functions whose bodies the way goes into, outermost first. */
  function Around(n: Node, way: seq<nat>): seq<Variable>
    requires IsWay(n, way)
    decreases |way|
  {
    if way == [] then [] else (if n.FnDecl? then [n.v] else []) + Around(Kids(n)[way[0]], way[1..])
  }

  // ---------------------------------------------------------------- environments with more bindings

  function With1(env: Env, b: Bind): Env {
    match b
    case VarB(v) => env.(variables := env.variables + [(v.name, v)])
    case TypeB(name, def) => env.(typedefs := env.typedefs + [(name, def)])
    case GenB(g) => env.(generics := env.generics + [(g.name, g.id)])
  }

  function With(env: Env, bs: seq<Bind>): (r: Env)
    ensures r.functions == env.functions
    decreases |bs|
  {
    if bs == [] then env else With(With1(env, bs[0]), bs[1..])
  }

  function Inside(env: Env, fs: seq<Variable>): Env { env.(functions := env.functions + fs) }

  lemma {:induction false} WithTwo(env: Env, a: seq<Bind>, b: seq<Bind>)
    ensures With(env, a + b) == With(With(env, a), b)
    decreases |a|
  {
    if a == [] {
      assert a + b == b;
    } else {
      assert (a + b)[1..] == a[1..] + b;
      WithTwo(With1(env, a[0]), a[1..], b);
    }
  }

  lemma WithOne(env: Env, b: Bind)
    ensures With(env, [b]) == With1(env, b)
  {
    assert [b][1..] == [];
  }

  lemma {:induction false} WithInside(env: Env, fs: seq<Variable>, bs: seq<Bind>)
    ensures With(Inside(env, fs), bs) == Inside(With(env, bs), fs)
    decreases |bs|
  {
    if bs != [] {
      assert With1(Inside(env, fs), bs[0]) == Inside(With1(env, bs[0]), fs);
      WithInside(With1(env, bs[0]), fs, bs[1..]);
    }
  }

  lemma {:induction false} DeclaredIs(ns: Nodes, env: Env)
    ensures DeclareAll(ns, env) == With(env, Declared(NodesOf(ns)))
    decreases ns
  {
    if ns.Cons? {
      var all := NodesOf(ns);
      assert all[1..] == NodesOf(ns.tail);
      DeclaredIs(ns.tail, Declare(ns.head, env));
      var first := match ns.head case FnDecl(_, v, _, _, _) => [VarB(v)] case TyDecl(_, name, def, _, _) => [TypeB(name, def)] case _ => [];
      WithTwo(env, first, Declared(all[1..]));
      if first != [] { WithOne(env, first[0]); }
    }
  }

  lemma {:induction false} OffersAre(offers: seq<Offer>, env: Env)
    ensures TakeOffers(offers, env) == With(env, OfferBinds(offers))
    decreases |offers|
  {
    if offers != [] {
      var b := OfferBinds(offers);
      assert b[1..] == OfferBinds(offers[1..]);
      OffersAre(offers[1..], With1(env, b[0]));
    }
  }

  lemma {:induction false} VarsAre(vs: seq<Variable>, env: Env)
    ensures BindVars(vs, env) == With(env, VarBinds(vs))
    decreases |vs|
  {
    if vs != [] {
      assert VarBinds(vs)[1..] == VarBinds(vs[1..]);
      VarsAre(vs[1..], With1(env, VarB(vs[0])));
    }
  }

  lemma {:induction false} GenericsAre(gs: seq<Generic>, env: Env)
    ensures BindGenerics(gs, env) == With(env, GenBinds(gs))
    decreases |gs|
  {
    if gs != [] {
      assert GenBinds(gs)[1..] == GenBinds(gs[1..]);
      GenericsAre(gs[1..], With1(env, GenB(gs[0])));
    }
  }

  /** What resolving a node leaves in the environment is what the node leaves behind. */
  lemma {:induction false} LeftIs(n: Node, env: Env)
    ensures Names(n, env).env == With(env, Left(n))
    decreases n
  {
    hide With1;
    match n
    case VarDecl(_, v, e) =>
      LeftIs(e, env);
      var r := Names(e, env);
      VarsAre([v], r.env);
      assert VarBinds([v]) == [VarB(v)];
      WithTwo(env, Left(e), [VarB(v)]);
    case Import(_, offers) => OffersAre(offers, env);
    case Other(_, inner) => LeftAllIs(inner, env);
    case _ =>
  }

  lemma {:induction false} LeftAllIs(ns: Nodes, env: Env)
    ensures NamesAll(ns, env).env == With(env, LeftAll(ns))
    decreases ns
  {
    hide Names, With1;
    if ns.Cons? {
      LeftIs(ns.head, env);
      LeftAllIs(ns.tail, Names(ns.head, env).env);
      WithTwo(env, Left(ns.head), LeftAll(ns.tail));
    }
  }

  // ---------------------------------------------------------------- what is written

  /** The function whose body is entered last. */
  function Innermost(fs: seq<Variable>): Option<Variable> {
    if fs == [] then None else Some(fs[|fs| - 1])
  }

  /** What is written for the node itself, in the environment it stands in. */
  ghost predicate Own(n: Node, env: Env, e: Effect) {
    || (n.Ident? && e == Targets(n.id, Visible(All(env.variables, n.name))))
    || (n.FnDecl? && e == Parent(n.v, Innermost(env.functions)))
    || exists t :: t in n.types && e == TypeEffect(t, if n.FnDecl? || n.TyDecl? then With(env, GenBinds(n.tyargs)) else env)
  }

  /** The environment at the end of a way. */
  function EnvAt(n: Node, way: seq<nat>, env: Env): Env
    requires IsWay(n, way)
  {
    Inside(With(env, Scope(n, way)), Around(n, way))
  }

  /** The environment of the i-th part of a node. */
  function EnvInto(n: Node, i: nat, env: Env): Env
    requires i < |Kids(n)|
  {
    Inside(With(env, Brings(n, i)), if n.FnDecl? then [n.v] else [])
  }

  lemma {:induction false} TypesWritten(ts: seq<TypeName>, env: Env, e: Effect)
    ensures e in TypeEffects(ts, env) <==> exists t :: t in ts && e == TypeEffect(t, env)
    decreases |ts|
  {
    hide TypeEffect;
    if ts != [] {
      TypesWritten(ts[1..], env, e);
      assert ts == [ts[0]] + ts[1..];
    }
  }

  ghost predicate SomeKid(n: Node, env: Env, e: Effect) {
    exists i :: 0 <= i < |Kids(n)| && e in Names(Kids(n)[i], EnvInto(n, i, env)).log
  }

  ghost predicate SomeNode(ns: seq<Node>, env: Env, e: Effect) {
    exists i :: 0 <= i < |ns| && e in Names(ns[i], With(env, LeftBefore(ns, i))).log
  }

  lemma {:induction false} ListWritten(ns: Nodes, env: Env, e: Effect)
    ensures e in NamesAll(ns, env).log <==> SomeNode(NodesOf(ns), env, e)
    decreases ns
  {
    hide Names, With1;
    if ns.Cons? {
      var all := NodesOf(ns);
      var rest := NodesOf(ns.tail);
      var env' := With(env, Left(ns.head));
      assert all[1..] == rest;
      LeftIs(ns.head, env);
      ListWritten(ns.tail, env', e);
      assert With(env, LeftBefore(all, 0)) == env;
      forall i | 0 <= i < |rest|
        ensures With(env, LeftBefore(all, i + 1)) == With(env', LeftBefore(rest, i)) && all[i + 1] == rest[i]
      {
        WithTwo(env, Left(ns.head), LeftBefore(rest, i));
      }
      if e in Names(ns.head, env).log { assert SomeNode(all, env, e); }
      if i :| 0 <= i < |rest| && e in Names(rest[i], With(env', LeftBefore(rest, i))).log {
        assert e in Names(all[i + 1], With(env, LeftBefore(all, i + 1))).log;
      }
      if i :| 0 <= i < |all| && e in Names(all[i], With(env, LeftBefore(all, i))).log {
        if i > 0 { assert e in Names(rest[i - 1], With(env', LeftBefore(rest, i - 1))).log; }
      }
    }
  }

  lemma BlockWritten(n: Node, env: Env, e: Effect)
    requires n.Block? || n.Other? || n.TyDecl?
    ensures e in Names(n, env).log <==> Own(n, env, e) || SomeKid(n, env, e)
  {
    hide NamesAll, With1, TypeEffect, TypeEffects, Declared, Left, LeftBefore, NodesOf, With;
    match n
    case Block(types, body) =>
      DeclaredIs(body, env);
      TypesWritten(types, env, e);
      ListWritten(body, With(env, Declared(NodesOf(body))), e);
      ListKids(n, env, Declared(NodesOf(body)), NodesOf(body), e);
    case Other(types, inner) =>
      TypesWritten(types, env, e);
      ListWritten(inner, env, e);
      ListKids(n, env, [], NodesOf(inner), e);
      WithNone(env);
    case TyDecl(types, _, _, tyargs, inner) =>
      GenericsAre(tyargs, env);
      TypesWritten(types, BindGenerics(tyargs, env), e);
      ListWritten(inner, BindGenerics(tyargs, env), e);
      ListKids(n, env, GenBinds(tyargs), NodesOf(inner), e);
  }

  lemma WithNone(env: Env)
    ensures With(env, []) == env && Inside(env, []) == env
  {
  }

  /** The parts of a node whose scopes begin with the same bindings. */
  lemma ListKids(n: Node, env: Env, first: seq<Bind>, ns: seq<Node>, e: Effect)
    requires Kids(n) == ns && !n.FnDecl? && forall i | 0 <= i < |ns| :: Brings(n, i) == first + LeftBefore(ns, i)
    ensures SomeKid(n, env, e) <==> SomeNode(ns, With(env, first), e)
  {
    hide Names, With1, Kids, Brings, LeftBefore, With;
    forall i | 0 <= i < |ns|
      ensures EnvInto(n, i, env) == With(With(env, first), LeftBefore(ns, i))
    {
      WithTwo(env, first, LeftBefore(ns, i));
      WithNone(With(env, Brings(n, i)));
    }
    if i :| 0 <= i < |ns| && e in Names(ns[i], With(With(env, first), LeftBefore(ns, i))).log {
      assert e in Names(Kids(n)[i], EnvInto(n, i, env)).log;
    }
    if i :| 0 <= i < |Kids(n)| && e in Names(Kids(n)[i], EnvInto(n, i, env)).log {
      assert e in Names(ns[i], With(With(env, first), LeftBefore(ns, i))).log;
    }
  }

  lemma ForWritten(n: Node, env: Env, e: Effect)
    requires n.For?
    ensures e in Names(n, env).log <==> Own(n, env, e) || SomeKid(n, env, e)
  {
    hide With1, TypeEffect, TypeEffects, Left, With;
    TypesWritten(n.types, env, e);
    var vs := [n.v] + (if n.index.Some? then [n.index.value] else []);
    LeftIs(n.e, env);
    VarsAre(vs, With(env, Left(n.e)));
    WithTwo(env, Left(n.e), VarBinds(vs));
    assert Left(n.e) + VarBinds(vs) == Brings(n, 1);
    WithNone(env);
    WithNone(With(env, Brings(n, 1)));
    assert EnvInto(n, 0, env) == env && EnvInto(n, 1, env) == BindVars(vs, Names(n.e, env).env);
    assert Kids(n)[0] == n.e && Kids(n)[1] == n.body1;
    if e in Names(n.e, env).log { assert e in Names(Kids(n)[0], EnvInto(n, 0, env)).log; }
    if e in Names(n.body1, EnvInto(n, 1, env)).log { assert e in Names(Kids(n)[1], EnvInto(n, 1, env)).log; }
  }

  lemma FnWritten(n: Node, env: Env, e: Effect)
    requires n.FnDecl?
    ensures e in Names(n, env).log <==> Own(n, env, e) || SomeKid(n, env, e)
  {
    hide With1, TypeEffect, TypeEffects, With;
    GenericsAre(n.tyargs, env);
    TypesWritten(n.types, BindGenerics(n.tyargs, env), e);
    if n.fnBody.Some? {
      VarsAre(n.args, BindGenerics(n.tyargs, env));
      WithTwo(env, GenBinds(n.tyargs), VarBinds(n.args));
      var within := BindVars(n.args, BindGenerics(n.tyargs, env));
      assert EnvInto(n, 0, env) == within.(functions := within.functions + [n.v]);
      assert Kids(n)[0] == n.fnBody.value;
    }
  }

  /** What resolving a node writes is what is written for the node itself, and for its parts, each in
      the environment with what the node brings into scope for it. */
  lemma KidsWritten(n: Node, env: Env, e: Effect)
    ensures e in Names(n, env).log <==> Own(n, env, e) || SomeKid(n, env, e)
  {
    match n
    case Block(_, _) => BlockWritten(n, env, e);
    case Other(_, _) => BlockWritten(n, env, e);
    case TyDecl(_, _, _, _, _) => BlockWritten(n, env, e);
    case For(_, _, _, _, _) => ForWritten(n, env, e);
    case FnDecl(_, _, _, _, _) => FnWritten(n, env, e);
    case VarDecl(types, _, e1) =>
      TypesWritten(types, env, e);
      WithNone(env);
      assert EnvInto(n, 0, env) == env && Kids(n) == [e1];
    case Ident(types, _, _) => TypesWritten(types, env, e);
    case Import(types, _) => TypesWritten(types, env, e);
  }

  /** e is written for the node at the end of some way. */
  ghost predicate SomeWay(n: Node, env: Env, e: Effect) {
    exists way :: IsWay(n, way) && Own(NodeAt(n, way), EnvAt(n, way, env), e)
  }

  lemma WayIn(n: Node, i: nat, way: seq<nat>, env: Env)
    requires i < |Kids(n)| && IsWay(Kids(n)[i], way)
    ensures IsWay(n, [i] + way) && NodeAt(n, [i] + way) == NodeAt(Kids(n)[i], way)
    ensures EnvAt(n, [i] + way, env) == EnvAt(Kids(n)[i], way, EnvInto(n, i, env))
  {
    hide Kids, Brings, With1;
    assert ([i] + way)[1..] == way;
    var fs := if n.FnDecl? then [n.v] else [];
    WithTwo(env, Brings(n, i), Scope(Kids(n)[i], way));
    WithInside(With(env, Brings(n, i)), fs, Scope(Kids(n)[i], way));
    assert env.functions + (fs + Around(Kids(n)[i], way)) == env.functions + fs + Around(Kids(n)[i], way);
  }

  /** Resolution writes exactly this: for every place in the tree what stands there, resolved among the
      bindings that the nodes on the way to it bring into scope. */
  lemma {:induction false} WrittenExactly(n: Node, env: Env, e: Effect)
    ensures e in Names(n, env).log <==> SomeWay(n, env, e)
    decreases n
  {
    hide Names, Own, Brings, With1, Kids, EnvInto;
    KidsWritten(n, env, e);
    if Own(n, env, e) {
      NoWay(n, env);
      assert Own(NodeAt(n, []), EnvAt(n, [], env), e);
    }
    if i :| 0 <= i < |Kids(n)| && e in Names(Kids(n)[i], EnvInto(n, i, env)).log {
      KidSmaller(n, i);
      WrittenExactly(Kids(n)[i], EnvInto(n, i, env), e);
      var way :| IsWay(Kids(n)[i], way) && Own(NodeAt(Kids(n)[i], way), EnvAt(Kids(n)[i], way, EnvInto(n, i, env)), e);
      WayIn(n, i, way, env);
    }
    if way :| IsWay(n, way) && Own(NodeAt(n, way), EnvAt(n, way, env), e) {
      if way == [] {
        NoWay(n, env);
      } else {
        var i := way[0];
        assert way == [i] + way[1..];
        WayIn(n, i, way[1..], env);
        KidSmaller(n, i);
        WrittenExactly(Kids(n)[i], EnvInto(n, i, env), e);
      }
    }
  }

  lemma NoWay(n: Node, env: Env)
    ensures IsWay(n, []) && NodeAt(n, []) == n && EnvAt(n, [], env) == env
  {
  }

  lemma KidSmaller(n: Node, i: nat)
    requires i < |Kids(n)|
    ensures Kids(n)[i] < n
  {
    match n
    case Block(_, body) => NodeSmaller(body, i);
    case TyDecl(_, _, _, _, inner) => NodeSmaller(inner, i);
    case Other(_, inner) => NodeSmaller(inner, i);
    case _ =>
  }

  lemma {:induction false} NodeSmaller(ns: Nodes, i: nat)
    requires i < |NodesOf(ns)|
    ensures NodesOf(ns)[i] < ns
    decreases ns
  {
    if i > 0 { NodeSmaller(ns.tail, i - 1); }
  }

  // ---------------------------------------------------------------- identifiers

  const NOTHING := Env([], [], [], [])

  /** The variables bound to a name, newest first. */
  function VarsNamed(bs: seq<Bind>, name: string): seq<Variable> {
    if bs == [] then []
    else
      var b := bs[|bs| - 1];
      (if b.VarB? && b.v.name == name then [b.v] else []) + VarsNamed(bs[..|bs| - 1], name)
  }

  lemma {:induction false} AllNamed(env: Env, bs: seq<Bind>, name: string)
    ensures All(With(env, bs).variables, name) == VarsNamed(bs, name) + All(env.variables, name)
    decreases |bs|
  {
    if bs != [] {
      var m := |bs| - 1;
      assert bs == bs[..m] + [bs[m]];
      WithTwo(env, bs[..m], [bs[m]]);
      WithOne(With(env, bs[..m]), bs[m]);
      AllNamed(env, bs[..m], name);
      AllOne(With(env, bs[..m]), bs[m], name);
    }
  }

  lemma AllOne(env: Env, b: Bind, name: string)
    ensures All(With1(env, b).variables, name) == (if b.VarB? && b.v.name == name then [b.v] else []) + All(env.variables, name)
  {
    if b.VarB? {
      var s := env.variables + [(b.v.name, b.v)];
      assert s[..|s| - 1] == env.variables;
    }
  }

  /** What is written for an identifier: the visible ones among the variables of its name that the
      nodes on the way to it bring into scope. */
  lemma IdentExactly(n: Node, way: seq<nat>)
    requires IsWay(n, way) && NodeAt(n, way).Ident?
    ensures var m := NodeAt(n, way); Targets(m.id, Visible(VarsNamed(Scope(n, way), m.name))) in Names(n, NOTHING).log
  {
    hide Names, Visible, VarsNamed, With, Scope;
    var m := NodeAt(n, way);
    AllNamed(NOTHING, Scope(n, way), m.name);
    var e := Targets(m.id, Visible(VarsNamed(Scope(n, way), m.name)));
    NothingNamed(Scope(n, way), m.name);
    assert Own(m, EnvAt(n, way, NOTHING), e);
    WrittenExactly(n, NOTHING, e);
  }

  /** And nothing else is written for identifiers. */
  lemma IdentOnly(n: Node, id: nat, vs: seq<Variable>) returns (way: seq<nat>)
    requires Targets(id, vs) in Names(n, NOTHING).log
    ensures IsWay(n, way) && NodeAt(n, way).Ident? && NodeAt(n, way).id == id
    ensures vs == Visible(VarsNamed(Scope(n, way), NodeAt(n, way).name))
  {
    hide Names, Visible, VarsNamed, With, Scope;
    WrittenExactly(n, NOTHING, Targets(id, vs));
    way :| IsWay(n, way) && Own(NodeAt(n, way), EnvAt(n, way, NOTHING), Targets(id, vs));
    var m := NodeAt(n, way);
    AllNamed(NOTHING, Scope(n, way), m.name);
    NothingNamed(Scope(n, way), m.name);
  }

  lemma NothingNamed(bs: seq<Bind>, name: string)
    ensures VarsNamed(bs, name) + All(NOTHING.variables, name) == VarsNamed(bs, name)
  {
  }

  /** Later bindings come first, and a binding counts if it is of a variable of the name. */
  lemma {:induction false} NamedTwo(a: seq<Bind>, b: seq<Bind>, name: string)
    ensures VarsNamed(a + b, name) == VarsNamed(b, name) + VarsNamed(a, name)
    decreases |b|
  {
    if b == [] {
      assert a + b == a;
    } else {
      var m := |b| - 1;
      assert (a + b)[..|a + b| - 1] == a + b[..m];
      NamedTwo(a, b[..m], name);
    }
  }

  lemma NamedOne(b: Bind, name: string)
    ensures VarsNamed([b], name) == if b.VarB? && b.v.name == name then [b.v] else []
  {
    assert [b][..0] == [];
  }

  lemma {:induction false} NamedAre(bs: seq<Bind>, name: string, v: Variable)
    ensures v in VarsNamed(bs, name) <==> VarB(v) in bs && v.name == name
    decreases |bs|
  {
    if bs != [] {
      NamedAre(bs[..|bs| - 1], name, v);
      assert bs == bs[..|bs| - 1] + [bs[|bs| - 1]];
    }
  }

  /** The newest binding alone if it is no function, and otherwise the functions among the bindings of
      the name, all of them, in their order. */
  lemma VisibleExactly(all: seq<Variable>)
    ensures all == [] ==> Visible(all) == []
    ensures all != [] && !all[0].isFunction ==> Visible(all) == [all[0]]
    ensures all != [] && all[0].isFunction ==> Visible(all) == Functions(all)
  {
  }

  lemma {:induction false} FunctionsTwo(a: seq<Variable>, b: seq<Variable>)
    ensures Functions(a + b) == Functions(a) + Functions(b)
    decreases |a|
  {
    if a == [] {
      assert a + b == b;
    } else {
      assert (a + b)[1..] == a[1..] + b;
      FunctionsTwo(a[1..], b);
      var first := if a[0].isFunction then [a[0]] else [];
      assert first + (Functions(a[1..]) + Functions(b)) == first + Functions(a[1..]) + Functions(b);
    }
  }

  lemma FunctionsOne(v: Variable)
    ensures Functions([v]) == if v.isFunction then [v] else []
  {
    assert [v][1..] == [];
  }

  lemma {:induction false} FunctionsAre(all: seq<Variable>, v: Variable)
    ensures v in Functions(all) <==> v in all && v.isFunction
    decreases |all|
  {
    if all != [] {
      FunctionsAre(all[1..], v);
      assert all == [all[0]] + all[1..];
    }
  }

  // ---------------------------------------------------------------- blocks, loops, functions and structs

  /** A function that a block declares is brought into scope for every part of the block, before its
      declaration too. */
  lemma BlockDeclares(n: Node, i: nat, j: nat)
    requires n.Block? && i < |Kids(n)| && j < |Kids(n)|
    ensures Kids(n)[j].FnDecl? ==> VarB(Kids(n)[j].v) in Declared(Kids(n)) && VarB(Kids(n)[j].v) in Brings(n, i)
    ensures Kids(n)[j].TyDecl? ==> TypeB(Kids(n)[j].name, Kids(n)[j].def) in Brings(n, i)
  {
    DeclaredHas(Kids(n), j);
  }

  lemma {:induction false} DeclaredHas(ns: seq<Node>, j: nat)
    requires j < |ns|
    ensures ns[j].FnDecl? ==> VarB(ns[j].v) in Declared(ns)
    ensures ns[j].TyDecl? ==> TypeB(ns[j].name, ns[j].def) in Declared(ns)
    decreases |ns|
  {
    if j > 0 { DeclaredHas(ns[1..], j - 1); }
  }

  /** What is nearer to the end of a way than the declarations of the block at its k-th node. */
  function Nearer(n: Node, way: seq<nat>, k: nat): seq<Bind>
    requires IsWay(n, way) && k < |way|
  {
    WaySplits(n, way, k);
    var b := NodeAt(n, way[..k]);
    LeftBefore(Kids(b), way[k]) + Scope(Kids(b)[way[k]], way[k + 1..])
  }

  /** So it is a target of every identifier of its name anywhere in the block, if the bindings of the
      name nearer to the identifier than the block's declarations are functions. */
  lemma BlockFunctionSeen(n: Node, way: seq<nat>, k: nat, j: nat)
    requires IsWay(n, way) && NodeAt(n, way).Ident? && k < |way| && IsWay(n, way[..k]) && NodeAt(n, way[..k]).Block?
    requires var b := NodeAt(n, way[..k]);
             && j < |Kids(b)| && Kids(b)[j].FnDecl? && Kids(b)[j].v.name == NodeAt(n, way).name
             && (forall c | VarB(c) in Declared(Kids(b)) :: c.isFunction)
             && forall c | VarB(c) in Nearer(n, way, k) && c.name == NodeAt(n, way).name :: c.isFunction
    ensures var v := Kids(NodeAt(n, way[..k]))[j].v;
            exists vs :: Targets(NodeAt(n, way).id, vs) in Names(n, NOTHING).log && v in vs
  {
    hide Names, Visible, VarsNamed, Kids, Declared, Scope, Brings, LeftBefore;
    var b, name := NodeAt(n, way[..k]), NodeAt(n, way).name;
    var v := Kids(b)[j].v;
    WaySplits(n, way, k);
    BlockBrings(b, way[k]);
    DeclaredHas(Kids(b), j);
    var before, ds, near := Scope(n, way[..k]), Declared(Kids(b)), Nearer(n, way, k);
    assert Scope(n, way) == before + (ds + near);
    IdentExactly(n, way);
    FunctionSeen(before, ds + near, name, v);
  }

  /** When all bindings of a name from some point on are functions, and there are some, they are all visible. */
  lemma FunctionSeen(before: seq<Bind>, near: seq<Bind>, name: string, v: Variable)
    requires VarB(v) in near && v.name == name && forall c | VarB(c) in near && c.name == name :: c.isFunction
    ensures v in Visible(VarsNamed(before + near, name))
  {
    hide VarsNamed, Visible, Functions;
    NamedTwo(before, near, name);
    NamedAre(near, name, v);
    var first := VarsNamed(near, name);
    NamedAre(near, name, first[0]);
    var all := VarsNamed(before + near, name);
    VisibleExactly(all);
    FunctionsAre(all, v);
  }

  lemma BlockBrings(n: Node, i: nat)
    requires n.Block? && i < |Kids(n)|
    ensures Brings(n, i) == Declared(Kids(n)) + LeftBefore(Kids(n), i)
  {
  }

  /** A way up to some node, that node, and the rest of the way. */
  lemma {:induction false} WaySplits(n: Node, way: seq<nat>, k: nat)
    requires IsWay(n, way) && k < |way|
    ensures IsWay(n, way[..k]) && way[k] < |Kids(NodeAt(n, way[..k]))|
    ensures var m := NodeAt(n, way[..k]);
            && IsWay(Kids(m)[way[k]], way[k + 1..])
            && Scope(n, way) == Scope(n, way[..k]) + (Brings(m, way[k]) + Scope(Kids(m)[way[k]], way[k + 1..]))
            && Around(n, way) == Around(n, way[..k]) + ((if m.FnDecl? then [m.v] else []) + Around(Kids(m)[way[k]], way[k + 1..]))
    decreases k
  {
    hide Kids, Brings;
    if k > 0 {
      var kid := Kids(n)[way[0]];
      assert way[..k][1..] == way[1..][..k - 1] && way[..k][0] == way[0] && way[1..][k..] == way[k + 1..] && way[1..][k - 1] == way[k];
      WaySplits(kid, way[1..], k - 1);
    } else {
      assert way[..0] == [];
    }
  }

  /** Whatever is in scope has been brought by a node on the way. */
  lemma {:induction false} ScopeComesFrom(n: Node, way: seq<nat>, b: Bind) returns (k: nat)
    requires IsWay(n, way) && b in Scope(n, way)
    ensures k < |way| && IsWay(n, way[..k]) && way[k] < |Kids(NodeAt(n, way[..k]))| && b in Brings(NodeAt(n, way[..k]), way[k])
    decreases |way|
  {
    hide Kids, Brings;
    if b in Brings(n, way[0]) {
      k := 0;
      assert way[..0] == [];
    } else {
      var k' := ScopeComesFrom(Kids(n)[way[0]], way[1..], b);
      k := k' + 1;
      assert way[..k][1..] == way[1..][..k'] && way[..k][0] == way[0];
    }
  }

  /** Blocks, loops, functions and structs leave nothing behind, and identifiers bind nothing. */
  lemma ScopesClosed(n: Node)
    requires n.Block? || n.For? || n.FnDecl? || n.TyDecl? || n.Ident?
    ensures Left(n) == []
  {
  }

  /** The array expression of a for loop does not see the loop's variables, the body does; they are the
      newest there. */
  lemma ForSees(n: Node)
    requires n.For?
    ensures Brings(n, 0) == []
    ensures var bs := Brings(n, 1);
            if n.index.None? then |bs| >= 1 && bs[|bs| - 1] == VarB(n.v)
            else |bs| >= 2 && bs[|bs| - 1] == VarB(n.index.value) && bs[|bs| - 2] == VarB(n.v)
  {
  }

  /** A function's parameters are in scope in its body, and its generic parameters; a struct's generic
      parameters in the struct. */
  lemma FunctionSees(n: Node)
    ensures n.FnDecl? && n.fnBody.Some? ==>
              && (forall a | a in n.args :: VarB(a) in Brings(n, 0)) && (forall g | g in n.tyargs :: GenB(g) in Brings(n, 0))
              && forall b | b in Brings(n, 0) :: (b.VarB? && b.v in n.args) || (b.GenB? && b.g in n.tyargs)
    ensures n.TyDecl? ==> forall i, g | 0 <= i < |Kids(n)| && g in n.tyargs :: GenB(g) in Brings(n, i)
  {
    if n.FnDecl? && n.fnBody.Some? {
      VarBindsHave(n.args);
      GenBindsHave(n.tyargs);
    }
    if n.TyDecl? { GenBindsHave(n.tyargs); }
  }

  lemma VarBindsHave(vs: seq<Variable>)
    ensures forall v | v in vs :: VarB(v) in VarBinds(vs)
    ensures forall b | b in VarBinds(vs) :: b.VarB? && b.v in vs
  {
    forall v | v in vs ensures VarB(v) in VarBinds(vs) {
      var i :| 0 <= i < |vs| && vs[i] == v;
      assert VarBinds(vs)[i] == VarB(v);
    }
  }

  lemma GenBindsHave(gs: seq<Generic>)
    ensures forall g | g in gs :: GenB(g) in GenBinds(gs)
    ensures forall b | b in GenBinds(gs) :: b.GenB? && b.g in gs
  {
    forall g | g in gs ensures GenB(g) in GenBinds(gs) {
      var i :| 0 <= i < |gs| && gs[i] == g;
      assert GenBinds(gs)[i] == GenB(g);
    }
  }

  // ---------------------------------------------------------------- parents and types

  /** The parent written for a function is the innermost one whose body the way to it goes into. */
  lemma ParentExactly(n: Node, way: seq<nat>)
    requires IsWay(n, way) && NodeAt(n, way).FnDecl?
    ensures var m := NodeAt(n, way); Parent(m.v, Innermost(Around(n, way))) in Names(n, NOTHING).log
  {
    hide Names, With, Scope, Around;
    var m := NodeAt(n, way);
    var e := Parent(m.v, Innermost(Around(n, way)));
    assert NOTHING.functions + Around(n, way) == Around(n, way);
    assert Own(m, EnvAt(n, way, NOTHING), e);
    WrittenExactly(n, NOTHING, e);
  }

  /** The k-th node of a way is its innermost function if it is a function and none comes after it. */
  lemma InnermostIs(n: Node, way: seq<nat>, k: nat)
    requires IsWay(n, way) && k < |way| && IsWay(n, way[..k]) && NodeAt(n, way[..k]).FnDecl?
    requires forall j | k < j < |way| && IsWay(n, way[..j]) :: !NodeAt(n, way[..j]).FnDecl?
    ensures Innermost(Around(n, way)) == Some(NodeAt(n, way[..k]).v)
  {
    hide Kids, Brings, Scope;
    WaySplits(n, way, k);
    var kid, rest := Kids(NodeAt(n, way[..k]))[way[k]], way[k + 1..];
    forall j | 0 <= j < |rest| && IsWay(kid, rest[..j])
      ensures !NodeAt(kid, rest[..j]).FnDecl?
    {
      WayOn(n, way, k, j);
    }
    NoneAround(kid, rest);
  }

  lemma {:induction false} WayOn(n: Node, way: seq<nat>, k: nat, j: nat)
    requires IsWay(n, way) && k < |way| && k + 1 + j <= |way|
    ensures IsWay(n, way[..k]) && way[k] < |Kids(NodeAt(n, way[..k]))|
    ensures var kid := Kids(NodeAt(n, way[..k]))[way[k]];
            IsWay(n, way[..k + 1 + j]) && IsWay(kid, way[k + 1..][..j]) && NodeAt(n, way[..k + 1 + j]) == NodeAt(kid, way[k + 1..][..j])
    decreases k
  {
    hide Kids;
    WayCut(n, way, k + 1 + j);
    WayCut(n, way, k);
    if k > 0 {
      var tail := way[1..];
      assert way[..k][1..] == tail[..k - 1] && way[..k + 1 + j][1..] == tail[..k + j] && tail[k..] == way[k + 1..] && tail[k - 1] == way[k];
      WayOn(Kids(n)[way[0]], tail, k - 1, j);
    } else {
      assert way[..0] == [] && way[..1 + j][1..] == way[1..][..j];
    }
  }

  lemma {:induction false} WayCut(n: Node, way: seq<nat>, k: nat)
    requires IsWay(n, way) && k <= |way|
    ensures IsWay(n, way[..k])
    decreases k
  {
    hide Kids;
    if k > 0 {
      assert way[..k][1..] == way[1..][..k - 1];
      WayCut(Kids(n)[way[0]], way[1..], k - 1);
    }
  }

  lemma {:induction false} NoneAround(n: Node, way: seq<nat>)
    requires IsWay(n, way) && forall j | 0 <= j < |way| && IsWay(n, way[..j]) :: !NodeAt(n, way[..j]).FnDecl?
    ensures Around(n, way) == []
    decreases |way|
  {
    hide Kids;
    if way != [] {
      assert way[..0] == [];
      assert !NodeAt(n, way[..0]).FnDecl?;
      var kid, rest := Kids(n)[way[0]], way[1..];
      forall j | 0 <= j < |rest| && IsWay(kid, rest[..j])
        ensures !NodeAt(kid, rest[..j]).FnDecl?
      {
        assert way[..j + 1][1..] == rest[..j] && way[..j + 1][0] == way[0];
      }
      NoneAround(kid, rest);
    }
  }

  /** The newest struct of the name, if there is one. */
  function DefNamed(bs: seq<Bind>, name: string): Option<nat> {
    if bs == [] then None
    else
      var b := bs[|bs| - 1];
      if b.TypeB? && b.name == name then Some(b.def) else DefNamed(bs[..|bs| - 1], name)
  }

  /** The newest generic parameter of the name, if there is one. */
  function GenericNamed(bs: seq<Bind>, name: string): Option<nat> {
    if bs == [] then None
    else
      var b := bs[|bs| - 1];
      if b.GenB? && b.g.name == name then Some(b.g.id) else GenericNamed(bs[..|bs| - 1], name)
  }

  lemma {:induction false} NewestNamed(bs: seq<Bind>, name: string)
    ensures Newest(With(NOTHING, bs).typedefs, name) == DefNamed(bs, name)
    ensures Newest(With(NOTHING, bs).generics, name) == GenericNamed(bs, name)
    decreases |bs|
  {
    if bs != [] {
      var m := |bs| - 1;
      assert bs == bs[..m] + [bs[m]];
      WithTwo(NOTHING, bs[..m], [bs[m]]);
      WithOne(With(NOTHING, bs[..m]), bs[m]);
      NewestNamed(bs[..m], name);
      NewestOne(With(NOTHING, bs[..m]), bs[m], name);
    }
  }

  lemma NewestOne(env: Env, b: Bind, name: string)
    ensures Newest(With1(env, b).typedefs, name) == if b.TypeB? && b.name == name then Some(b.def) else Newest(env.typedefs, name)
    ensures Newest(With1(env, b).generics, name) == if b.GenB? && b.g.name == name then Some(b.g.id) else Newest(env.generics, name)
  {
    if b.TypeB? { var s := env.typedefs + [(b.name, b.def)]; assert s[..|s| - 1] == env.typedefs; }
    if b.GenB? { var s := env.generics + [(b.g.name, b.g.id)]; assert s[..|s| - 1] == env.generics; }
  }

  /** A type name in a node gives the newest struct of the name in scope there and, only when there is
      none, the newest generic parameter; a function's and a struct's own generic parameters count. */
  lemma TypeExactly(n: Node, way: seq<nat>, t: TypeName)
    requires IsWay(n, way) && t in NodeAt(n, way).types
    ensures var m := NodeAt(n, way);
            var bs := Scope(n, way) + if m.FnDecl? || m.TyDecl? then GenBinds(m.tyargs) else [];
            var def := DefNamed(bs, t.name);
            TypeIs(t.id, def, if def.Some? then None else GenericNamed(bs, t.name)) in Names(n, NOTHING).log
  {
    hide Names, With, Scope, Around, DefNamed, GenericNamed;
    var m := NodeAt(n, way);
    var own := if m.FnDecl? || m.TyDecl? then GenBinds(m.tyargs) else [];
    var bs := Scope(n, way) + own;
    NewestNamed(bs, t.name);
    WithTwo(NOTHING, Scope(n, way), own);
    WithInside(With(NOTHING, Scope(n, way)), Around(n, way), own);
    WithNone(EnvAt(n, way, NOTHING));
    var e := TypeEffect(t, With(EnvAt(n, way, NOTHING), own));
    assert Own(m, EnvAt(n, way, NOTHING), e);
    WrittenExactly(n, NOTHING, e);
  }

  /** The newest struct of a name stands at the last place where one does. */
  lemma {:induction false} DefPlace(bs: seq<Bind>, name: string, i: nat)
    requires i < |bs| && bs[i].TypeB? && bs[i].name == name
    requires forall j | i < j < |bs| :: !(bs[j].TypeB? && bs[j].name == name)
    ensures DefNamed(bs, name) == Some(bs[i].def)
    decreases |bs|
  {
    if i < |bs| - 1 {
      assert forall j | i < j < |bs| - 1 :: bs[..|bs| - 1][j] == bs[j];
      DefPlace(bs[..|bs| - 1], name, i);
    }
  }

  lemma {:induction false} NoDef(bs: seq<Bind>, name: string)
    requires forall j | 0 <= j < |bs| :: !(bs[j].TypeB? && bs[j].name == name)
    ensures DefNamed(bs, name) == None
    decreases |bs|
  {
    if bs != [] { NoDef(bs[..|bs| - 1], name); }
  }

  /** And so with generic parameters. */
  lemma {:induction false} GenericPlace(bs: seq<Bind>, name: string, i: nat)
    requires i < |bs| && bs[i].GenB? && bs[i].g.name == name
    requires forall j | i < j < |bs| :: !(bs[j].GenB? && bs[j].g.name == name)
    ensures GenericNamed(bs, name) == Some(bs[i].g.id)
    decreases |bs|
  {
    if i < |bs| - 1 {
      assert forall j | i < j < |bs| - 1 :: bs[..|bs| - 1][j] == bs[j];
      GenericPlace(bs[..|bs| - 1], name, i);
    }
  }

  lemma {:induction false} NoGeneric(bs: seq<Bind>, name: string)
    requires forall j | 0 <= j < |bs| :: !(bs[j].GenB? && bs[j].g.name == name)
    ensures GenericNamed(bs, name) == None
    decreases |bs|
  {
    if bs != [] { NoGeneric(bs[..|bs| - 1], name); }
  }
}
