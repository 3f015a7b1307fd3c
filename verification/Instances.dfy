/** Instances of generic functions: found by their mangled name, made once each. */
module FunctionInstances {
  import opened Options
  import opened Types
  import opened Mangle

  /** A function declaration, with the function around it and the module it is in; unnamed functions
      are told apart by a number. */
  datatype FnDecl = FnDecl(name: string, unnamed: nat, params: seq<Decl>, ftype: Ty, parent: Option<FnDecl>, unit: Option<string>)

  /** An instance: its mangled name, its declaration, the instance it is nested in, and what its
      generic parameters stand for. */
  datatype FnInstance = FnInstance(key: string, decl: FnDecl, parent: Option<FnInstance>, generics: seq<(Decl, Ty)>)

  /** The first pair for d. */
  function FindIn(generics: seq<(Decl, Ty)>, d: Decl): Option<Ty> {
    if generics == [] then None
    else if generics[0].0 == d then Some(generics[0].1)
    else FindIn(generics[1..], d)
  }

  /** What d stands for in fn: looked up there, then in the instances around it. */
  function Lookup(fn: Option<FnInstance>, d: Decl): Option<Ty> {
    if fn.None? then None
    else
      match FindIn(fn.value.generics, d)
      case Some(t) => Some(t)
      case None => Lookup(fn.value.parent, d)
  }

  function InstancesOf(fn: Option<FnInstance>): Instances {
    d => Lookup(fn, d)
  }

  /** The instance of decl around fn, if there is one. */
  function Enclosing(fn: Option<FnInstance>, decl: Option<FnDecl>): Option<FnInstance> {
    if fn.None? then None
    else if Some(fn.value.decl) == decl then fn
    else Enclosing(fn.value.parent, decl)
  }

  /** An instance and those around it, innermost first. */
  function Outwards(fn: Option<FnInstance>): seq<FnInstance> {
    if fn.None? then [] else [fn.value] + Outwards(fn.value.parent)
  }

  /** Some pair of the instance is for d. */
  predicate Gives(f: FnInstance, d: Decl) {
    exists i :: 0 <= i < |f.generics| && f.generics[i].0 == d
  }

  lemma {:induction false} FindFirst(generics: seq<(Decl, Ty)>, d: Decl)
    ensures FindIn(generics, d).None? <==> forall i | 0 <= i < |generics| :: generics[i].0 != d
    ensures forall i | 0 <= i < |generics| && generics[i].0 == d && (forall j | 0 <= j < i :: generics[j].0 != d) ::
              FindIn(generics, d) == Some(generics[i].1)
    decreases |generics|
  {
    if generics != [] && generics[0].0 != d {
      FindFirst(generics[1..], d);
      assert forall i | 0 < i < |generics| :: generics[i] == generics[1..][i - 1];
      forall i | 0 <= i < |generics| && generics[i].0 == d && (forall j | 0 <= j < i :: generics[j].0 != d)
        ensures FindIn(generics, d) == Some(generics[i].1)
      {
        assert i > 0 && forall j | 0 <= j < i - 1 :: generics[1..][j].0 == generics[j + 1].0;
        assert generics[1..][i - 1].0 == d;
      }
    }
  }

  /** A parameter stands for what the nearest instance on the way out that has a pair for it says, */
  lemma {:induction false} LookupNearest(fn: Option<FnInstance>, d: Decl, k: nat)
    requires k < |Outwards(fn)| && Gives(Outwards(fn)[k], d) && forall j | 0 <= j < k :: !Gives(Outwards(fn)[j], d)
    ensures Lookup(fn, d).Some? && Lookup(fn, d) == FindIn(Outwards(fn)[k].generics, d)
    decreases k
  {
    hide Gives;
    GivesMeans(fn.value, d);
    if k > 0 {
      OutwardsOn(fn);
      LookupNearest(fn.value.parent, d, k - 1);
    }
  }

  /** and for nothing if there is none. */
  lemma {:induction false} LookupNone(fn: Option<FnInstance>, d: Decl)
    requires forall j | 0 <= j < |Outwards(fn)| :: !Gives(Outwards(fn)[j], d)
    ensures Lookup(fn, d) == None
    decreases fn
  {
    hide Gives;
    if fn.Some? {
      GivesMeans(fn.value, d);
      OutwardsOn(fn);
      LookupNone(fn.value.parent, d);
    }
  }

  lemma GivesMeans(f: FnInstance, d: Decl)
    ensures Gives(f, d) <==> FindIn(f.generics, d).Some?
  {
    FindFirst(f.generics, d);
  }

  lemma OutwardsOn(fn: Option<FnInstance>)
    requires fn.Some?
    ensures Outwards(fn) != [] && Outwards(fn)[0] == fn.value && Outwards(fn)[1..] == Outwards(fn.value.parent)
    ensures forall k | 0 <= k < |Outwards(fn.value.parent)| :: Outwards(fn)[k + 1] == Outwards(fn.value.parent)[k]
  {
  }

  /** The instance of a declaration is the nearest one on the way out, */
  lemma {:induction false} EnclosingNearest(fn: Option<FnInstance>, decl: FnDecl, k: nat)
    requires k < |Outwards(fn)| && Outwards(fn)[k].decl == decl && forall j | 0 <= j < k :: Outwards(fn)[j].decl != decl
    ensures Enclosing(fn, Some(decl)) == Some(Outwards(fn)[k])
    decreases k
  {
    if k > 0 {
      OutwardsOn(fn);
      EnclosingNearest(fn.value.parent, decl, k - 1);
    }
  }

  /** and there is none for a function outside of all, or when there is no instance of it. */
  lemma {:induction false} EnclosingNone(fn: Option<FnInstance>, decl: Option<FnDecl>)
    requires decl.Some? ==> forall j | 0 <= j < |Outwards(fn)| :: Outwards(fn)[j].decl != decl.value
    ensures Enclosing(fn, decl) == None
    decreases fn
  {
    if fn.Some? {
      OutwardsOn(fn);
      EnclosingNone(fn.value.parent, decl);
    }
  }

  method GetGenericInstance(current: Option<FnInstance>, d: Decl) returns (r: Option<Ty>)
    ensures r == Lookup(current, d)
  {
    var fn := current;
    while fn.Some?
      invariant Lookup(fn, d) == Lookup(current, d)
      decreases fn
    {
      var i := 0;
      while i < |fn.value.generics|
        invariant 0 <= i <= |fn.value.generics|
        invariant FindIn(fn.value.generics[i..], d) == FindIn(fn.value.generics, d)
      {
        if fn.value.generics[i].0 == d {
          return Some(fn.value.generics[i].1);
        }
        assert fn.value.generics[i..][1..] == fn.value.generics[i + 1..];
        i := i + 1;
      }
      fn := fn.value.parent;
    }
    return None;
  }

  method GetFunctionInstance(current: Option<FnInstance>, decl: Option<FnDecl>) returns (r: Option<FnInstance>)
    ensures r == Enclosing(current, decl)
  {
    var fn := current;
    while fn.Some?
      invariant Enclosing(fn, decl) == Enclosing(current, decl)
      decreases fn
    {
      if Some(fn.value.decl) == decl {
        return fn;
      }
      fn := fn.value.parent;
    }
    return None;
  }

  // ---------------------------------------------------------------- mangled function names

  function BaseName(decl: FnDecl): string {
    if decl.name != "" then MangleName(decl.name) else "Ut" + Decimal(decl.unnamed) + "_"
  }

  /** What comes before and after the function's own name. */
  function Before(parent: string): string {
    if parent == "" then "_Z"
    else if |parent| > 2 && parent[0] == '_' && parent[1] == 'Z' then "_Z" + ("Z" + parent[2..] + "E")
    else "_Z" + ("N" + parent)
  }

  function After(parent: string): string {
    if parent == "" || (|parent| > 2 && parent[0] == '_' && parent[1] == 'Z') then "" else "E"
  }

  function Parameters(t: Ty): string
    requires t.Function?
  {
    if t.args.Nil? && !t.varargs then "v" else MangleAllClosed(t.args) + (if t.varargs then "z" else "")
  }

  function TemplateArgs(tyargs: Tys): string {
    if tyargs.Cons? then "I" + MangleAllClosed(tyargs) + "E" else ""
  }

  /** The mangled name of a function, from its final type and final type arguments. */
  function MangleFn(decl: FnDecl, t: Ty, tyargs: Tys, parent: string): string
    requires t.Function?
  {
    Before(parent) + BaseName(decl) + TemplateArgs(tyargs) + After(parent)
    + (if tyargs.Cons? then MangleClosed(t.ret) else "") + Parameters(t)
  }

  /** Appends a function's own name and its template arguments. */
  method MangleFnName(m: Mangler, decl: FnDecl, tyargs: Tys, inst: Instances)
    requires CoversAll(inst, tyargs)
    modifies m
    ensures m.buffer == old(m.buffer) + BaseName(decl) + TemplateArgs(InstantiateAll(tyargs, inst))
  {
    hide MangleAllClosed, MangleName, Decimal, CoversAll, InstantiateAll;
    SameShape(tyargs, inst);
    if decl.name != "" {
      m.Append(MangleName(decl.name));
    } else {
      m.Append("Ut" + Decimal(decl.unnamed) + "_");
    }
    ghost var b := m.buffer;
    if tyargs.Cons? {
      m.Append("I");
      m.MangleList(tyargs, inst);
      m.Append("E");
      Joined(b, "I", MangleAllClosed(InstantiateAll(tyargs, inst)), "E");
    } else {
      JoinedNone(b);
    }
  }

  /** Appends the parameter types. */
  method MangleParameters(m: Mangler, t: Ty, inst: Instances)
    requires t.Function? && CoversAll(inst, t.args)
    modifies m
    ensures Instantiate(t, inst).Function? && m.buffer == old(m.buffer) + Parameters(Instantiate(t, inst))
  {
    hide MangleAllClosed, CoversAll;
    SameShape(t.args, inst);
    ghost var a := MangleAllClosed(InstantiateAll(t.args, inst));
    if t.args.Nil? && !t.varargs {
      m.Append("v");
    } else {
      m.MangleList(t.args, inst);
      if t.varargs {
        m.Append("z");
        Joined(old(m.buffer), a, "z", "");
      } else {
        JoinedNone(a);
      }
    }
  }

  /** Mangling a function name as it is done: piece by piece into a buffer. */
  method MangleFunctionName(decl: FnDecl, t: Ty, tyargs: Tys, inst: Instances, parent: string) returns (result: string)
    requires t.Function? && Covers(inst, t) && CoversAll(inst, tyargs)
    ensures result == MangleFn(decl, Instantiate(t, inst), InstantiateAll(tyargs, inst), parent)
  {
    hide MangleClosed, MangleAllClosed, BaseName, Covers, CoversAll, Parameters;
    CoversParts(t, inst);
    SameShape(tyargs, inst);
    var m := new Mangler();
    m.Append("_Z");
    var local := |parent| > 2 && parent[0] == '_' && parent[1] == 'Z';
    if parent != "" {
      m.Append(if local then "Z" + parent[2..] + "E" else "N" + parent);
    }
    assert m.buffer == Before(parent);
    MangleFnName(m, decl, tyargs, inst);
    m.Append(if parent != "" && !local then "E" else "");
    if tyargs.Cons? {
      m.MangleType(t.ret, inst);
    } else {
      JoinedNone(m.buffer);
    }
    MangleParameters(m, t, inst);
    result := m.buffer;
  }

  lemma CoversParts(t: Ty, inst: Instances)
    requires t.Function? && Covers(inst, t)
    ensures CoversAll(inst, t.args) && Covers(inst, t.ret)
  {
  }

  // ---------------------------------------------------------------- names and instances

  /** Instantiations that agree by name on every parameter used give the same type by name. */
  lemma {:induction false} PlainAgree(t: Ty, f: Instances, g: Instances)
    requires forall x | x in Uses(t) :: Plain(Instantiate(x, f)) == Plain(Instantiate(x, g))
    ensures Plain(Instantiate(t, f)) == Plain(Instantiate(t, g))
    decreases t
  {
    match t
    case Tuple(fields) => PlainAgreeAll(fields, f, g);
    case Array(e) => PlainAgree(e, f, g);
    case Pointer(e) => PlainAgree(e, f, g);
    case Function(args, ret, _) =>
      assert forall x | x in UsesOf(args) + Uses(ret) :: x in Uses(t);
      PlainAgreeAll(args, f, g);
      PlainAgree(ret, f, g);
    case Instance(decl, tyargs) =>
      if decl.Param? { assert t in Uses(t); } else { PlainAgreeAll(tyargs, f, g); }
    case _ =>
  }

  lemma {:induction false} PlainAgreeAll(ts: Tys, f: Instances, g: Instances)
    requires forall x | x in UsesOf(ts) :: Plain(Instantiate(x, f)) == Plain(Instantiate(x, g))
    ensures PlainAll(InstantiateAll(ts, f)) == PlainAll(InstantiateAll(ts, g))
    decreases ts
  {
    if ts.Cons? {
      assert forall x | x in Uses(ts.head) + UsesOf(ts.tail) :: x in UsesOf(ts);
      PlainAgree(ts.head, f, g);
      PlainAgreeAll(ts.tail, f, g);
    }
  }

  /** A request for an instance: the type and type arguments as written, and what the generic
      parameters around it stand for. */
  datatype Request = Request(t: Ty, tyargs: Tys, inst: Instances) {
    function FinalType(): Ty { Instantiate(t, inst) }
    function FinalArgs(): Tys { InstantiateAll(tyargs, inst) }
  }

  function ArgumentsOf(decl: FnDecl, tyargs: Tys): Instances {
    d => if |decl.params| == Length(tyargs) then Argument(decl.params, tyargs, d) else None
  }

  /** The type asked for is the declared type at these arguments, and everything is closed in the end. */
  ghost predicate WellTyped(decl: FnDecl, r: Request) {
    && decl.ftype.Function? && |decl.params| == Length(r.tyargs)
    && r.t == Instantiate(decl.ftype, ArgumentsOf(decl, r.tyargs))
    && Closed(r.FinalType()) && AllClosed(r.FinalArgs()) && AllGoodNames(r.FinalArgs())
  }

  /** Two requests for one function agree on the parameters of the functions around it. */
  ghost predicate SameOuter(decl: FnDecl, a: Request, b: Request) {
    forall x | x in Uses(decl.ftype) && x.Instance? && x.decl !in decl.params :: Instantiate(x, a.inst) == Instantiate(x, b.inst)
  }

  lemma {:induction false} SameArguments(params: seq<Decl>, s: Tys, t: Tys, d: Decl)
    requires |params| == Length(s) == Length(t) && PlainAll(s) == PlainAll(t)
    ensures Argument(params, s, d).Some? <==> Argument(params, t, d).Some?
    ensures Argument(params, s, d).Some? ==> Plain(Argument(params, s, d).value) == Plain(Argument(params, t, d).value)
    decreases params
  {
    if params != [] && params[0] != d {
      SameArguments(params[1..], s.tail, t.tail, d);
    }
  }

  /** Equal final arguments give equal final types, by name. */
  lemma SameTypes(decl: FnDecl, a: Request, b: Request)
    requires WellTyped(decl, a) && WellTyped(decl, b) && SameOuter(decl, a, b)
    requires PlainAll(a.FinalArgs()) == PlainAll(b.FinalArgs())
    ensures Plain(a.FinalType()) == Plain(b.FinalType())
  {
    var fa, fb := ArgumentsOf(decl, a.tyargs), ArgumentsOf(decl, b.tyargs);
    InstantiateTwice(decl.ftype, fa, a.inst);
    InstantiateTwice(decl.ftype, fb, b.inst);
    UsesAreParams(decl.ftype);
    forall x | x in Uses(decl.ftype)
      ensures Plain(Instantiate(x, Then(fa, a.inst))) == Plain(Instantiate(x, Then(fb, b.inst)))
    {
      ArgumentInstantiated(decl.params, a.tyargs, x.decl, a.inst);
      ArgumentInstantiated(decl.params, b.tyargs, x.decl, b.inst);
      SameArguments(decl.params, a.FinalArgs(), b.FinalArgs(), x.decl);
    }
    PlainAgree(decl.ftype, Then(fa, a.inst), Then(fb, b.inst));
  }

  /** The name as a common part, the type arguments, and the rest. */
  function RestOfName(t: Ty, parent: string): string
    requires t.Function?
  {
    "E" + (After(parent) + MangleClosed(t.ret) + Parameters(t))
  }

  lemma NameParts(decl: FnDecl, t: Ty, tyargs: Tys, parent: string)
    requires t.Function? && tyargs.Cons?
    ensures MangleFn(decl, t, tyargs, parent)
         == (Before(parent) + BaseName(decl) + "I") + (MangleAllClosed(tyargs) + RestOfName(t, parent))
    ensures Stops(RestOfName(t, parent))
  {
    hide Before, BaseName, MangleAllClosed, MangleClosed, Parameters, After;
    NameCut(Before(parent) + BaseName(decl), "I", MangleAllClosed(tyargs), "E", After(parent), MangleClosed(t.ret), Parameters(t));
  }

  lemma NameCut(a: string, i: string, l: string, e: string, f: string, r: string, p: string)
    ensures a + (i + l + e) + f + r + p == (a + i) + (l + (e + (f + r + p)))
  {
  }

  /** Two requests for one function under one parent share a mangled name exactly when their final
      type arguments agree by name. */
  lemma SharedName(decl: FnDecl, parent: string, a: Request, b: Request)
    requires WellTyped(decl, a) && WellTyped(decl, b) && SameOuter(decl, a, b)
    ensures MangleFn(decl, a.FinalType(), a.FinalArgs(), parent) == MangleFn(decl, b.FinalType(), b.FinalArgs(), parent)
       <==> PlainAll(a.FinalArgs()) == PlainAll(b.FinalArgs())
  {
    hide WellTyped;
    var s, t := a.FinalArgs(), b.FinalArgs();
    var u, v := a.FinalType(), b.FinalType();
    RequestFacts(decl, a);
    RequestFacts(decl, b);
    if PlainAll(s) == PlainAll(t) {
      SameTypes(decl, a, b);
      SameText(decl, parent, u, s, v, t);
    }
    if s.Cons? && MangleFn(decl, u, s, parent) == MangleFn(decl, v, t, parent) {
      NameParts(decl, u, s, parent);
      NameParts(decl, v, t, parent);
      SplitAt(Before(parent) + BaseName(decl) + "I", MangleAllClosed(s) + RestOfName(u, parent),
              Before(parent) + BaseName(decl) + "I", MangleAllClosed(t) + RestOfName(v, parent));
      ListUnique(s, RestOfName(u, parent), t, RestOfName(v, parent));
    }
  }

  lemma RequestFacts(decl: FnDecl, r: Request)
    requires WellTyped(decl, r)
    ensures r.FinalType().Function? && Closed(r.FinalType()) && AllClosed(r.FinalArgs()) && AllGoodNames(r.FinalArgs())
    ensures Length(r.FinalArgs()) == |decl.params|
  {
  }

  lemma SameText(decl: FnDecl, parent: string, u: Ty, s: Tys, v: Ty, t: Tys)
    requires u.Function? && v.Function? && Closed(u) && Closed(v) && AllClosed(s) && AllClosed(t)
    requires PlainAll(s) == PlainAll(t) && Plain(u) == Plain(v)
    ensures MangleFn(decl, u, s, parent) == MangleFn(decl, v, t, parent)
  {
    hide MangleClosed, Before, BaseName, After;
    MangledAllByName(s);
    MangledAllByName(t);
    MangledAllByName(u.args);
    MangledAllByName(v.args);
    MangledByName(u.ret);
    MangledByName(v.ret);
  }

  // ---------------------------------------------------------------- when two names are the same

  /** The names of the two functions, or their numbers when they have none. */
  predicate SameName(c: FnDecl, d: FnDecl) {
    c.name == d.name && (c.name == "" ==> c.unnamed == d.unnamed)
  }

  /** The parameters as they are written: none at all counts as one of type void. */
  function Written(t: Ty): Tys
    requires t.Function?
  {
    if t.args.Nil? && !t.varargs then Cons(Void, Nil) else t.args
  }

  predicate SameParameters(u: Ty, v: Ty)
    requires u.Function? && v.Function?
  {
    PlainAll(Written(u)) == PlainAll(Written(v)) && u.varargs == v.varargs
  }

  ghost predicate GoodFunction(d: FnDecl, t: Ty, tyargs: Tys) {
    && t.Function? && Closed(t) && GoodNames(t) && AllClosed(tyargs) && AllGoodNames(tyargs)
    && (d.name != "" ==> GoodName(d.name))
  }

  /** What follows a function's own name. */
  function Following(t: Ty, tyargs: Tys, parent: string): string
    requires t.Function?
  {
    if tyargs.Cons? then "I" + (MangleAllClosed(tyargs) + RestOfName(t, parent)) else After(parent) + Parameters(t)
  }

  lemma MangleFnParts(d: FnDecl, t: Ty, tyargs: Tys, parent: string)
    requires t.Function?
    ensures MangleFn(d, t, tyargs, parent) == Before(parent) + (BaseName(d) + Following(t, tyargs, parent))
  {
    hide Before, BaseName, MangleAllClosed, MangleClosed, Parameters, After;
    if tyargs.Cons? {
      NameParts(d, t, tyargs, parent);
      Cut3(Before(parent), BaseName(d), "I", MangleAllClosed(tyargs) + RestOfName(t, parent));
    } else {
      Cut4(Before(parent), BaseName(d), After(parent), Parameters(t));
    }
  }

  lemma Cut3(a: string, b: string, c: string, d: string)
    ensures (a + b + c) + d == a + (b + (c + d))
  {
  }

  lemma Cut4(a: string, b: string, c: string, d: string)
    ensures a + b + "" + c + "" + d == a + (b + (c + d))
  {
  }

  lemma ParametersIs(t: Ty)
    requires t.Function? && Closed(t)
    ensures Parameters(t) + "E" == MangleAllClosed(Written(t)) + (if t.varargs then "zE" else "E")
    ensures AllClosed(Written(t)) && (GoodNames(t) ==> AllGoodNames(Written(t)))
    ensures Parameters(t) != "" && !IsDigit(Parameters(t)[0]) && Parameters(t)[0] != 'I' && Parameters(t)[0] != 'E'
  {
    if t.args.Nil? {
      assert MangleAllClosed(Cons(Void, Nil)) == "v" + "" == "v";
    } else {
      Tagged(t.args.head);
      assert MangleAllClosed(t.args) == MangleClosed(t.args.head) + MangleAllClosed(t.args.tail);
    }
    if t.varargs { assert (MangleAllClosed(t.args) + "z") + "E" == MangleAllClosed(t.args) + "zE"; }
  }

  /** The parameters can be read off the front of what follows, up to its first E, but for void. */
  lemma ParametersUnique(u: Ty, r: string, v: Ty, r': string)
    requires u.Function? && v.Function? && Closed(u) && Closed(v) && GoodNames(u) && GoodNames(v)
    requires Parameters(u) + ("E" + r) == Parameters(v) + ("E" + r')
    ensures SameParameters(u, v) && r == r'
  {
    hide Parameters, Written, MangleAllClosed;
    ParametersText(u, r);
    ParametersText(v, r');
    var s, t := (if u.varargs then "zE" else "E") + r, (if v.varargs then "zE" else "E") + r';
    ListUnique(Written(u), s, Written(v), t);
    assert s[0] == t[0];
    SplitAt(if u.varargs then "zE" else "E", r, if v.varargs then "zE" else "E", r');
  }

  lemma ParametersText(t: Ty, r: string)
    requires t.Function? && Closed(t) && GoodNames(t)
    ensures Parameters(t) + ("E" + r) == MangleAllClosed(Written(t)) + ((if t.varargs then "zE" else "E") + r)
    ensures AllClosed(Written(t)) && AllGoodNames(Written(t))
  {
    hide Parameters, Written, MangleAllClosed;
    ParametersIs(t);
    assert Parameters(t) + ("E" + r) == (Parameters(t) + "E") + r;
  }

  /** The parameters can be read off the end of a name, but for void. */
  lemma ParametersExactly(u: Ty, v: Ty)
    requires u.Function? && v.Function? && Closed(u) && Closed(v) && GoodNames(u) && GoodNames(v)
    ensures Parameters(u) == Parameters(v) <==> SameParameters(u, v)
  {
    hide Parameters, Written, MangleAllClosed;
    ParametersIs(u);
    ParametersIs(v);
    if Parameters(u) == Parameters(v) { ParametersUnique(u, "", v, ""); }
    if SameParameters(u, v) {
      MangledAllByName(Written(u));
      MangledAllByName(Written(v));
      SplitAt(Parameters(u), "E", Parameters(v), "E");
    }
  }

  lemma FollowingStarts(t: Ty, tyargs: Tys, parent: string)
    requires t.Function? && Closed(t)
    ensures var f := Following(t, tyargs, parent);
            f != "" && !IsDigit(f[0]) && (f[0] == 'I' <==> tyargs.Cons?)
  {
    hide Parameters;
    ParametersIs(t);
  }

  /** A function's own name can be read off the front. */
  lemma BaseNameUnique(c: FnDecl, s: string, d: FnDecl, t: string)
    requires (c.name != "" ==> GoodName(c.name)) && (d.name != "" ==> GoodName(d.name))
    requires BaseName(c) + s == BaseName(d) + t
    ensures SameName(c, d) && s == t
  {
    hide Decimal, NoDigit;
    if c.name != "" && d.name != "" {
      NameUnique(c.name, s, d.name, t);
    } else if c.name == "" && d.name == "" {
      Unnamed(c, s);
      Unnamed(d, t);
      assert NoDigit("_" + s) && NoDigit("_" + t) by { UnderscoreNoDigit(s); UnderscoreNoDigit(t); }
      SplitAt("Ut", Decimal(c.unnamed) + ("_" + s), "Ut", Decimal(d.unnamed) + ("_" + t));
      DigitsUnique(Decimal(c.unnamed), "_" + s, Decimal(d.unnamed), "_" + t);
      DecimalValue(c.unnamed);
      DecimalValue(d.unnamed);
      SplitAt("_", s, "_", t);
    } else {
      FirstOfName(c, s);
      FirstOfName(d, t);
    }
  }

  lemma Unnamed(d: FnDecl, s: string)
    requires d.name == ""
    ensures BaseName(d) + s == "Ut" + (Decimal(d.unnamed) + ("_" + s))
  {
  }

  lemma UnderscoreNoDigit(s: string)
    ensures NoDigit("_" + s)
  {
  }

  lemma FirstOfName(d: FnDecl, s: string)
    ensures BaseName(d) + s != "" && (IsDigit((BaseName(d) + s)[0]) <==> d.name != "")
  {
  }

  /** Under one parent two functions have the same mangled name if and only if they have the same own
      name, type arguments and parameters, and, if they are generic, the same result type; no
      parameters and one of type void are written alike, and the result of a function that is not
      generic is not written at all. */
  lemma NamesExactly(c: FnDecl, u: Ty, s: Tys, d: FnDecl, v: Ty, t: Tys, parent: string)
    requires GoodFunction(c, u, s) && GoodFunction(d, v, t)
    ensures MangleFn(c, u, s, parent) == MangleFn(d, v, t, parent)
       <==> SameName(c, d) && PlainAll(s) == PlainAll(t) && SameParameters(u, v) && (s.Cons? ==> Plain(u.ret) == Plain(v.ret))
  {
    hide MangleFn, BaseName, Before, After, SameParameters, Parameters, MangleAllClosed, MangleClosed, RestOfName;
    MangleFnParts(c, u, s, parent);
    MangleFnParts(d, v, t, parent);
    FollowingStarts(u, s, parent);
    FollowingStarts(v, t, parent);
    if MangleFn(c, u, s, parent) == MangleFn(d, v, t, parent) {
      SplitAt(Before(parent), BaseName(c) + Following(u, s, parent), Before(parent), BaseName(d) + Following(v, t, parent));
      BaseNameUnique(c, Following(u, s, parent), d, Following(v, t, parent));
      FollowingExactly(u, s, v, t, parent);
    } else if SameName(c, d) && PlainAll(s) == PlainAll(t) && SameParameters(u, v) && (s.Cons? ==> Plain(u.ret) == Plain(v.ret)) {
      FollowingExactly(u, s, v, t, parent);
      SameBaseName(c, d);
      assert false;
    }
  }

  lemma SameBaseName(c: FnDecl, d: FnDecl)
    requires SameName(c, d)
    ensures BaseName(c) == BaseName(d)
  {
  }

  lemma FollowingExactly(u: Ty, s: Tys, v: Ty, t: Tys, parent: string)
    requires u.Function? && v.Function? && Closed(u) && Closed(v) && GoodNames(u) && GoodNames(v)
    requires AllClosed(s) && AllClosed(t) && AllGoodNames(s) && AllGoodNames(t)
    ensures Following(u, s, parent) == Following(v, t, parent)
       <==> PlainAll(s) == PlainAll(t) && SameParameters(u, v) && (s.Cons? ==> Plain(u.ret) == Plain(v.ret))
  {
    hide After, SameParameters, Parameters, MangleAllClosed, MangleClosed;
    if Following(u, s, parent) == Following(v, t, parent) { FollowingUnique(u, s, "", v, t, "", parent); }
    ParametersExactly(u, v);
    if PlainAll(s) == PlainAll(t) && SameParameters(u, v) && (s.Cons? ==> Plain(u.ret) == Plain(v.ret)) {
      MangledAllByName(s);
      MangledAllByName(t);
      MangledByName(u.ret);
      MangledByName(v.ret);
    }
  }

  /** What follows a function's own name can be read off the front, up to the first E after it. */
  lemma FollowingUnique(u: Ty, s: Tys, r: string, v: Ty, t: Tys, r': string, parent: string)
    requires u.Function? && v.Function? && Closed(u) && Closed(v) && GoodNames(u) && GoodNames(v)
    requires AllClosed(s) && AllClosed(t) && AllGoodNames(s) && AllGoodNames(t)
    requires Following(u, s, parent) + ("E" + r) == Following(v, t, parent) + ("E" + r')
    ensures PlainAll(s) == PlainAll(t) && SameParameters(u, v) && (s.Cons? ==> Plain(u.ret) == Plain(v.ret)) && r == r'
  {
    hide After, SameParameters, Parameters, MangleAllClosed, MangleClosed, Following;
    FollowingStarts(u, s, parent);
    FollowingStarts(v, t, parent);
    assert (Following(u, s, parent) + ("E" + r))[0] == (Following(v, t, parent) + ("E" + r'))[0];
    FollowingText(u, s, parent, r);
    FollowingText(v, t, parent, r');
    if s.Cons? {
      GenericUnique(s, u.ret, Parameters(u) + ("E" + r), t, v.ret, Parameters(v) + ("E" + r'), After(parent));
    } else {
      SplitAt(After(parent), Parameters(u) + ("E" + r), After(parent), Parameters(v) + ("E" + r'));
    }
    ParametersUnique(u, r, v, r');
  }

  /** Type arguments and result type can be read off the front. */
  lemma GenericUnique(s: Tys, ret: Ty, x: string, t: Tys, ret': Ty, y: string, after: string)
    requires AllClosed(s) && AllClosed(t) && AllGoodNames(s) && AllGoodNames(t)
    requires Closed(ret) && Closed(ret') && GoodNames(ret) && GoodNames(ret')
    requires "I" + (MangleAllClosed(s) + ("E" + (after + (MangleClosed(ret) + x)))) == "I" + (MangleAllClosed(t) + ("E" + (after + (MangleClosed(ret') + y))))
    ensures PlainAll(s) == PlainAll(t) && Plain(ret) == Plain(ret') && x == y
  {
    hide *;
    var a, b := MangleClosed(ret) + x, MangleClosed(ret') + y;
    SplitAt("I", MangleAllClosed(s) + ("E" + (after + a)), "I", MangleAllClosed(t) + ("E" + (after + b)));
    EStops(after + a);
    EStops(after + b);
    ListUnique(s, "E" + (after + a), t, "E" + (after + b));
    SplitAt("E", after + a, "E", after + b);
    SplitAt(after, a, after, b);
    TypeUnique(ret, x, ret', y);
  }

  lemma EStops(s: string)
    ensures Stops("E" + s)
  {
  }

  lemma FollowingText(t: Ty, tyargs: Tys, parent: string, r: string)
    requires t.Function?
    ensures Following(t, tyargs, parent) + ("E" + r)
         == if tyargs.Cons? then "I" + (MangleAllClosed(tyargs) + ("E" + (After(parent) + (MangleClosed(t.ret) + (Parameters(t) + ("E" + r))))))
            else After(parent) + (Parameters(t) + ("E" + r))
  {
    hide After, Parameters, MangleAllClosed, MangleClosed;
    if tyargs.Cons? {
      Cut6("I", MangleAllClosed(tyargs), "E", After(parent), MangleClosed(t.ret), Parameters(t), "E" + r);
    } else {
      assert (After(parent) + Parameters(t)) + ("E" + r) == After(parent) + (Parameters(t) + ("E" + r));
    }
  }

  lemma Cut6(a: string, b: string, c: string, d: string, e: string, f: string, g: string)
    ensures (a + (b + (c + (d + e + f)))) + g == a + (b + (c + (d + (e + (f + g)))))
  {
  }

  // ---------------------------------------------------------------- names all the way up

  type FnTy = t: Ty | t.Function? witness Function(Nil, Void, false)

  /** What a function is made for: its declaration, final type and type arguments, and what it is in. */
  datatype Named = Named(decl: FnDecl, t: FnTy, tyargs: Tys, parent: Parent)

  /** Nothing, a module, a function, or a function not named by mangling (as a module's entry). */
  datatype Parent = TopLevel | InModule(name: string) | InFunction(f: Named) | Outside(key: string)

  function KeyOf(k: Named): string {
    MangleFn(k.decl, k.t, k.tyargs, ParentText(k.parent))
  }

  function ParentText(p: Parent): string {
    match p
    case TopLevel => ""
    case InModule(name) => MangleName(name)
    case InFunction(f) => KeyOf(f)
    case Outside(key) => key
  }

  /** Closed types, and names as identifiers are, all the way up. */
  ghost predicate GoodKey(k: Named) {
    GoodFunction(k.decl, k.t, k.tyargs) && GoodParent(k.parent)
  }

  ghost predicate GoodParent(p: Parent) {
    match p
    case TopLevel => true
    case InModule(name) => GoodName(name)
    case InFunction(f) => GoodKey(f)
    case Outside(_) => false
  }

  /** The functions, and those around them, differ at most in what their names do not show. */
  predicate SameKey(k: Named, l: Named) {
    && SameName(k.decl, l.decl) && PlainAll(k.tyargs) == PlainAll(l.tyargs) && SameParameters(k.t, l.t)
    && (k.tyargs.Cons? ==> Plain(k.t.ret) == Plain(l.t.ret)) && SameParent(k.parent, l.parent)
  }

  predicate SameParent(p: Parent, q: Parent) {
    match p
    case InFunction(f) => q.InFunction? && SameKey(f, q.f)
    case _ => p == q
  }

  /** What a name begins with: the name of the parent. */
  function Opening(p: Parent): string {
    match p
    case TopLevel => ""
    case InModule(name) => "N" + MangleName(name)
    case InFunction(f) => "Z" + Tail2(KeyOf(f)) + "E"
    case Outside(_) => ""
  }

  function Tail2(s: string): string {
    if |s| < 2 then "" else s[2..]
  }

  /** A name, followed by E and anything, without the first two characters. */
  function KeyRest(k: Named, r: string): string {
    BaseName(k.decl) + (Following(k.t, k.tyargs, ParentText(k.parent)) + ("E" + r))
  }

  lemma KeyStarts(k: Named)
    ensures |KeyOf(k)| > 2 && KeyOf(k)[0] == '_' && KeyOf(k)[1] == 'Z'
  {
    hide Following, MangleName, Decimal;
    MangleFnParts(k.decl, k.t, k.tyargs, ParentText(k.parent));
    FirstOfName(k.decl, Following(k.t, k.tyargs, ParentText(k.parent)));
  }

  lemma ModuleStarts(name: string)
    ensures MangleName(name) != "" && IsDigit(MangleName(name)[0])
  {
  }

  lemma ParentIs(p: Parent)
    requires !p.Outside?
    ensures Before(ParentText(p)) == "_Z" + Opening(p) && After(ParentText(p)) == if p.InModule? then "E" else ""
  {
    hide KeyOf, MangleName;
    match p
    case TopLevel =>
    case InModule(name) => ModuleStarts(name);
    case InFunction(f) => KeyStarts(f);
  }

  lemma KeyText(k: Named, r: string)
    requires !k.parent.Outside?
    ensures Tail2(KeyOf(k)) + ("E" + r) == Opening(k.parent) + KeyRest(k, r)
  {
    hide Before, BaseName, Following, Opening, ParentText;
    var parent := ParentText(k.parent);
    MangleFnParts(k.decl, k.t, k.tyargs, parent);
    ParentIs(k.parent);
    Cut2("_Z", Opening(k.parent), BaseName(k.decl), Following(k.t, k.tyargs, parent), "E" + r);
  }

  lemma Cut2(z: string, a: string, b: string, c: string, d: string)
    requires |z| == 2
    ensures Tail2((z + a) + (b + c)) + d == a + (b + (c + d))
  {
    assert (z + a) + (b + c) == z + (a + (b + c));
    assert (a + (b + c)) + d == a + (b + (c + d));
  }

  /** A name can be read off the front of what follows, up to an E that is not part of it. */
  lemma {:induction false} KeyUnique(k: Named, r: string, l: Named, r': string)
    requires GoodKey(k) && GoodKey(l) && Tail2(KeyOf(k)) + ("E" + r) == Tail2(KeyOf(l)) + ("E" + r')
    ensures SameKey(k, l) && r == r'
    decreases k, 1
  {
    hide KeyOf, KeyRest, GoodFunction, SameName, SameParameters, Following, BaseName, Opening;
    KeyText(k, r);
    KeyText(l, r');
    RestStarts(k, r);
    RestStarts(l, r');
    OpeningUnique(k.parent, KeyRest(k, r), l.parent, KeyRest(l, r'));
    ParentIs(k.parent);
    ParentIs(l.parent);
    RestUnique(k, r, l, r');
  }

  lemma {:induction false} OpeningUnique(p: Parent, s: string, q: Parent, s': string)
    requires GoodParent(p) && GoodParent(q) && Opening(p) + s == Opening(q) + s'
    requires s != "" && s' != "" && s[0] != 'N' && s'[0] != 'N' && s[0] != 'Z' && s'[0] != 'Z'
    ensures SameParent(p, q) && s == s'
    decreases p, 0
  {
    hide KeyOf, KeyRest, GoodFunction, SameName, SameParameters, MangleName;
    OpeningStarts(p, s);
    OpeningStarts(q, s');
    match p
    case TopLevel => assert "" + s == s && "" + s' == s';
    case InModule(name) =>
      SplitAt("N", MangleName(name) + s, "N", MangleName(q.name) + s');
      NameUnique(name, s, q.name, s');
    case InFunction(f) =>
      SplitAt("Z", Tail2(KeyOf(f)) + ("E" + s), "Z", Tail2(KeyOf(q.f)) + ("E" + s'));
      KeyUnique(f, s, q.f, s');
  }

  lemma OpeningStarts(p: Parent, s: string)
    requires !p.Outside? && s != "" && s[0] != 'N' && s[0] != 'Z'
    ensures Opening(p) + s != "" && ((Opening(p) + s)[0] == 'N' <==> p.InModule?) && ((Opening(p) + s)[0] == 'Z' <==> p.InFunction?)
    ensures p.InModule? ==> Opening(p) + s == "N" + (MangleName(p.name) + s)
    ensures p.InFunction? ==> Opening(p) + s == "Z" + (Tail2(KeyOf(p.f)) + ("E" + s))
  {
    hide KeyOf, MangleName;
    if p.InFunction? { assert ("Z" + Tail2(KeyOf(p.f)) + "E") + s == "Z" + (Tail2(KeyOf(p.f)) + ("E" + s)); }
    if p.InModule? { assert ("N" + MangleName(p.name)) + s == "N" + (MangleName(p.name) + s); }
  }

  lemma RestStarts(k: Named, r: string)
    ensures KeyRest(k, r) != "" && KeyRest(k, r)[0] != 'N' && KeyRest(k, r)[0] != 'Z'
  {
    hide Following, Decimal;
  }

  lemma RestUnique(k: Named, r: string, l: Named, r': string)
    requires GoodKey(k) && GoodKey(l) && KeyRest(k, r) == KeyRest(l, r') && After(ParentText(k.parent)) == After(ParentText(l.parent))
    ensures SameName(k.decl, l.decl) && PlainAll(k.tyargs) == PlainAll(l.tyargs) && SameParameters(k.t, l.t)
    ensures (k.tyargs.Cons? ==> Plain(k.t.ret) == Plain(l.t.ret)) && r == r'
  {
    hide MangleAllClosed, MangleClosed, Parameters, SameParameters, ParentText, After, GoodParent, BaseName, SameName, Plain, PlainAll;
    var p, q := ParentText(k.parent), ParentText(l.parent);
    assert Following(l.t, l.tyargs, q) == Following(l.t, l.tyargs, p);
    hide Following;
    BaseNameUnique(k.decl, Following(k.t, k.tyargs, p) + ("E" + r), l.decl, Following(l.t, l.tyargs, p) + ("E" + r'));
    FollowingUnique(k.t, k.tyargs, r, l.t, l.tyargs, r', p);
  }

  /** Two functions have the same mangled name if and only if they, and the functions around them up
      to the module, are the same in all that their names show. */
  lemma KeysExactly(k: Named, l: Named)
    requires GoodKey(k) && GoodKey(l)
    ensures KeyOf(k) == KeyOf(l) <==> SameKey(k, l)
  {
    hide KeyOf, SameKey, GoodKey;
    if KeyOf(k) == KeyOf(l) { KeyUnique(k, "", l, ""); }
    if SameKey(k, l) { SameKeyText(k, l); }
  }

  lemma {:induction false} SameKeyText(k: Named, l: Named)
    requires GoodKey(k) && GoodKey(l) && SameKey(k, l)
    ensures KeyOf(k) == KeyOf(l)
    decreases k
  {
    hide MangleFn, GoodFunction, SameName, SameParameters, Plain, PlainAll;
    if k.parent.InFunction? { SameKeyText(k.parent.f, l.parent.f); }
    assert ParentText(k.parent) == ParentText(l.parent);
    NamesExactly(k.decl, k.t, k.tyargs, l.decl, l.t, l.tyargs, ParentText(k.parent));
  }

  function Fn(name: string, unnamed: nat): FnDecl { FnDecl(name, unnamed, [], Function(Nil, Void, false), None, None) }

  const TwoNumbers: FnTy := Function(Cons(Integer, Cons(Integer, Nil)), Bool, false)
  const NoParams: FnTy := Function(Nil, Void, false)

  lemma FormParts()
    ensures MangleAllClosed(Cons(Integer, Nil)) == "i" && MangleAllClosed(Cons(Integer, Cons(Integer, Nil))) == "ii"
    ensures MangleName("add") == "3add" && MangleName("f") == "1f" && MangleName("g") == "1g" && MangleName("id") == "2id" && MangleName("m") == "1m"
    ensures Decimal(7) == "7"
  {
    assert Decimal(1) == "1" && Decimal(2) == "2" && Decimal(3) == "3";
  }

  /** The names of a function with two numbers, of one without parameters, of one without a name, */
  lemma PlainNames()
    ensures KeyOf(Named(Fn("add", 0), TwoNumbers, Nil, TopLevel)) == "_Z3addii"
    ensures KeyOf(Named(Fn("f", 0), NoParams, Nil, TopLevel)) == "_Z1fv"
    ensures KeyOf(Named(Fn("", 7), NoParams, Nil, TopLevel)) == "_ZUt7_v"
  {
    hide MangleName, Decimal, MangleAllClosed;
    FormParts();
    assert "Ut" + "7" + "_" == "Ut7_";
  }

  /** of one in a module, of one in a function, and of an instance of a generic one. */
  lemma NestedNames()
    ensures KeyOf(Named(Fn("add", 0), TwoNumbers, Nil, InModule("m"))) == "_ZN1m3addEii"
    ensures KeyOf(Named(Fn("g", 0), NoParams, Nil, InFunction(Named(Fn("f", 0), NoParams, Nil, TopLevel)))) == "_ZZ1fvE1gv"
    ensures KeyOf(Named(Fn("id", 0), Function(Cons(Integer, Nil), Bool, false), Cons(Integer, Nil), TopLevel)) == "_Z2idIiEbi"
  {
    hide MangleName, Decimal, MangleAllClosed;
    FormParts();
    PlainNames();
    assert Before("_Z1fv") == "_ZZ1fvE" && Before("1m") == "_ZN1m";
  }

  // ---------------------------------------------------------------- making instances

  function Zip(params: seq<Decl>, args: Tys): seq<(Decl, Ty)>
    requires |params| == Length(args)
    decreases params
  {
    if params == [] then [] else [(params[0], args.head)] + Zip(params[1..], args.tail)
  }

  /** Looking a parameter up among the pairs gives the argument for it. */
  lemma {:induction false} ZipFinds(params: seq<Decl>, args: Tys, d: Decl)
    requires |params| == Length(args)
    ensures FindIn(Zip(params, args), d) == Argument(params, args, d)
    decreases params
  {
    if params != [] {
      assert Zip(params, args)[1..] == Zip(params[1..], args.tail);
      ZipFinds(params[1..], args.tail, d);
    }
  }

  /** Each parameter with its final type argument. */
  method PairUp(params: seq<Decl>, tyargs: Tys, inst: Instances) returns (generics: seq<(Decl, Ty)>)
    requires |params| == Length(tyargs)
    ensures generics == Zip(params, InstantiateAll(tyargs, inst))
  {
    generics := [];
    var rest := tyargs;
    var i := 0;
    while i < |params|
      invariant 0 <= i <= |params| && Length(rest) == |params| - i
      invariant generics + Zip(params[i..], InstantiateAll(rest, inst)) == Zip(params, InstantiateAll(tyargs, inst))
    {
      assert params[i..][1..] == params[i + 1..];
      var pair := (params[i], Instantiate(rest.head, inst));
      assert generics + ([pair] + Zip(params[i + 1..], InstantiateAll(rest.tail, inst))) == generics + [pair] + Zip(params[i + 1..], InstantiateAll(rest.tail, inst));
      generics := generics + [pair];
      rest := rest.tail;
      i := i + 1;
    }
  }

  ghost predicate MadeFor(fun: FnInstance, m: Named) {
    fun.key == KeyOf(m) && fun.decl == m.decl
  }

  lemma FunctionStays(t: Ty, inst: Instances)
    requires t.Function?
    ensures Instantiate(t, inst).Function?
  {
  }

  /** The functions made so far, by name, and the instances whose bodies are still to be generated. */
  class Codegen {
    var functions: map<string, FnInstance>
    var pending: seq<FnInstance>
    ghost var generated: set<string>
    ghost var made: map<string, Named>

    /** Every function is pending once or generated, never both. */
    ghost predicate Valid()
      reads this
    {
      && made.Keys == functions.Keys && (forall n | n in functions :: functions[n].key == n && MadeFor(functions[n], made[n]))
      && (forall x | x in pending :: x.key in functions && functions[x.key] == x && x.key !in generated)
      && (forall i, j | 0 <= i < j < |pending| :: pending[i].key != pending[j].key)
      && (forall n | n in functions :: n in generated || functions[n] in pending)
      && (forall n | n in generated :: n in functions)
    }

    constructor ()
      ensures Valid() && functions == map[] && pending == []
    {
      functions, pending, generated, made := map[], [], {}, map[];
    }

    /** What a declaration is in when its name is asked for from the current instance. */
    ghost function ParentOf(decl: FnDecl, current: Option<FnInstance>): Parent
      reads this
    {
      match Enclosing(current, decl.parent)
      case Some(p) => if p.key in made then InFunction(made[p.key]) else Outside(p.key)
      case None => if decl.unit.Some? then InModule(decl.unit.value) else TopLevel
    }

    ghost function Asked(decl: FnDecl, t: Ty, tyargs: Tys, current: Option<FnInstance>): Named
      requires t.Function?
      reads this
    {
      FunctionStays(t, InstancesOf(current));
      Named(decl, Instantiate(t, InstancesOf(current)), InstantiateAll(tyargs, InstancesOf(current)), ParentOf(decl, current))
    }

    /** The function for a declaration at some type arguments, made when its name is new.  A known name
        gives the function made first under it, which is the same in all that the name shows. */
    method FunctionDecl(decl: FnDecl, t: Ty, tyargs: Tys, current: Option<FnInstance>) returns (fun: FnInstance)
      requires Valid() && |decl.params| == Length(tyargs)
      requires t.Function? && Covers(InstancesOf(current), t) && CoversAll(InstancesOf(current), tyargs)
      modifies this
      ensures Valid() && fun.key in functions && functions[fun.key] == fun
      ensures fun.key == KeyOf(old(Asked(decl, t, tyargs, current)))
      ensures MadeFor(fun, made[fun.key])
      ensures var asked := old(Asked(decl, t, tyargs, current));
              GoodKey(asked) && GoodKey(made[fun.key]) ==> SameKey(made[fun.key], asked)
      ensures fun.key in old(functions) ==>
                functions == old(functions) && pending == old(pending) && made == old(made) && fun == old(functions)[fun.key]
      ensures fun.key !in old(functions) ==>
                && functions == old(functions)[fun.key := fun] && pending == old(pending) + [fun]
                && fun.decl == decl && fun.parent == Enclosing(current, decl.parent)
                && fun.generics == Zip(decl.params, InstantiateAll(tyargs, InstancesOf(current)))
                && made == old(made)[fun.key := old(Asked(decl, t, tyargs, current))]
      ensures generated == old(generated)
    {
      hide MangleFn, Instantiate, InstantiateAll, Zip, Lookup, InstancesOf, Enclosing, Covers, CoversAll, KeyOf, GoodKey, SameKey;
      var inst := InstancesOf(current);
      ghost var asked := Asked(decl, t, tyargs, current);
      var parent := GetFunctionInstance(current, decl.parent);
      var parentName := if parent.Some? then parent.value.key else if decl.unit.Some? then MangleName(decl.unit.value) else "";
      var name := MangleFunctionName(decl, t, tyargs, inst, parentName);
      assert name == KeyOf(asked) by { AskedText(decl, t, tyargs, current); }
      if name in functions {
        fun := functions[name];
      } else {
        var generics := PairUp(decl.params, tyargs, inst);
        fun := FnInstance(name, decl, parent, generics);
        Enter(fun, asked);
      }
      if GoodKey(asked) && GoodKey(made[fun.key]) { KeysExactly(made[fun.key], asked); }
    }

    lemma AskedText(decl: FnDecl, t: Ty, tyargs: Tys, current: Option<FnInstance>)
      requires Valid() && t.Function? && Instantiate(t, InstancesOf(current)).Function?
      ensures var parent := Enclosing(current, decl.parent);
              var text := if parent.Some? then parent.value.key else if decl.unit.Some? then MangleName(decl.unit.value) else "";
              var name := MangleFn(decl, Instantiate(t, InstancesOf(current)), InstantiateAll(tyargs, InstancesOf(current)), text);
              KeyOf(Asked(decl, t, tyargs, current)) == name
    {
      hide MangleFn, Instantiate, InstantiateAll, Enclosing, InstancesOf;
    }

    /** Enters a new function and queues it. */
    method Enter(fun: FnInstance, ghost m: Named)
      requires Valid() && fun.key !in functions && MadeFor(fun, m)
      modifies this
      ensures Valid() && functions == old(functions)[fun.key := fun] && pending == old(pending) + [fun]
      ensures made == old(made)[fun.key := m] && generated == old(generated)
    {
      hide MadeFor;
      assert forall x | x in pending :: x.key != fun.key;
      functions := functions[fun.key := fun];
      pending := pending + [fun];
      made := made[fun.key := m];
    }

    /** Takes the last pending instance to generate its body. */
    method NextPending() returns (fun: FnInstance)
      requires Valid() && pending != []
      modifies this
      ensures Valid() && functions == old(functions) && made == old(made) && pending == old(pending)[..|old(pending)| - 1]
      ensures fun == old(pending)[|old(pending)| - 1] && fun.key !in old(generated) && generated == old(generated) + {fun.key}
    {
      hide MadeFor;
      fun := pending[|pending| - 1];
      pending := pending[..|pending| - 1];
      generated := generated + {fun.key};
    }
  }
}
