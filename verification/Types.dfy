/** Types of the checked language and the recursive functions on them. */
module Types {
  import opened Options

  /** A declared struct, or a generic parameter; two declarations may share a name. */
  datatype Decl = Struct(name: string, id: nat) | Param(name: string, id: nat)

  datatype Ty =
    | Unknown(u: nat)
    | Void | Bool | Integer | Float | String
    | Tuple(fields: Tys)
    | Array(element: Ty)
    | Pointer(element: Ty)
    | Function(args: Tys, ret: Ty, varargs: bool)
    | Instance(decl: Decl, tyargs: Tys)

  datatype Tys = Nil | Cons(head: Ty, tail: Tys)

  function Length(ts: Tys): nat {
    if ts.Nil? then 0 else 1 + Length(ts.tail)
  }

  /** The unknowns of a type. */
  function Unknowns(t: Ty): set<nat> {
    match t
    case Unknown(u) => {u}
    case Tuple(fields) => UnknownsOf(fields)
    case Array(e) => Unknowns(e)
    case Pointer(e) => Unknowns(e)
    case Function(args, ret, _) => UnknownsOf(args) + Unknowns(ret)
    case Instance(_, tyargs) => UnknownsOf(tyargs)
    case _ => {}
  }

  function UnknownsOf(ts: Tys): set<nat> {
    match ts
    case Nil => {}
    case Cons(t, rest) => Unknowns(t) + UnknownsOf(rest)
  }

  predicate Occurs(t: Ty, x: Ty) {
    t == x ||
    match t
    case Tuple(fields) => OccursIn(fields, x)
    case Array(e) => Occurs(e, x)
    case Pointer(e) => Occurs(e, x)
    case Function(args, ret, _) => OccursIn(args, x) || Occurs(ret, x)
    case Instance(_, tyargs) => OccursIn(tyargs, x)
    case _ => false
  }

  predicate OccursIn(ts: Tys, x: Ty) {
    ts.Cons? && (Occurs(ts.head, x) || OccursIn(ts.tail, x))
  }

  predicate Known(t: Ty) {
    match t
    case Unknown(_) => false
    case Tuple(fields) => AllKnown(fields)
    case Array(e) => Known(e)
    case Pointer(e) => Known(e)
    case Function(args, ret, _) => AllKnown(args) && Known(ret)
    case Instance(_, tyargs) => AllKnown(tyargs)
    case _ => true
  }

  predicate AllKnown(ts: Tys) {
    ts.Cons? ==> Known(ts.head) && AllKnown(ts.tail)
  }

  /** Comparison without a table: any two unknowns count as equal. */
  predicate Equals(l: Ty, r: Ty) {
    match l
    case Unknown(_) => r.Unknown?
    case Tuple(ls) => r.Tuple? && Length(ls) == Length(r.fields) && AllEqual(ls, r.fields)
    case Array(e) => r.Array? && Equals(e, r.element)
    case Pointer(e) => r.Pointer? && Equals(e, r.element)
    case Function(args, ret, varargs) =>
      r.Function? && Length(args) == Length(r.args) && varargs == r.varargs && AllEqual(args, r.args) && Equals(ret, r.ret)
    case Instance(decl, tyargs) => r.Instance? && decl == r.decl && Length(tyargs) == Length(r.tyargs) && AllEqual(tyargs, r.tyargs)
    case _ => l == r
  }

  predicate AllEqual(ls: Tys, rs: Tys)
    requires Length(ls) == Length(rs)
  {
    ls.Cons? ==> Equals(ls.head, rs.head) && AllEqual(ls.tail, rs.tail)
  }

  lemma {:induction false} OccursUnknown(t: Ty, u: nat)
    ensures Occurs(t, Unknown(u)) <==> u in Unknowns(t)
    decreases t
  {
    match t
    case Tuple(fields) => OccursUnknownIn(fields, u);
    case Array(e) => OccursUnknown(e, u);
    case Pointer(e) => OccursUnknown(e, u);
    case Function(args, ret, _) =>
      OccursUnknownIn(args, u);
      OccursUnknown(ret, u);
    case Instance(_, tyargs) => OccursUnknownIn(tyargs, u);
    case _ =>
  }

  lemma {:induction false} OccursUnknownIn(ts: Tys, u: nat)
    ensures OccursIn(ts, Unknown(u)) <==> u in UnknownsOf(ts)
    decreases ts
  {
    if ts.Cons? {
      OccursUnknown(ts.head, u);
      OccursUnknownIn(ts.tail, u);
    }
  }

  /** A type is known exactly when it has no unknowns. */
  lemma {:induction false} KnownMeans(t: Ty)
    ensures Known(t) <==> Unknowns(t) == {}
    decreases t
  {
    match t
    case Tuple(fields) => AllKnownMeans(fields);
    case Array(e) => KnownMeans(e);
    case Pointer(e) => KnownMeans(e);
    case Function(args, ret, _) =>
      AllKnownMeans(args);
      KnownMeans(ret);
    case Instance(_, tyargs) => AllKnownMeans(tyargs);
    case _ =>
  }

  lemma {:induction false} AllKnownMeans(ts: Tys)
    ensures AllKnown(ts) <==> UnknownsOf(ts) == {}
    decreases ts
  {
    if ts.Cons? {
      KnownMeans(ts.head);
      AllKnownMeans(ts.tail);
    }
  }

  /** Comparison with a known type is equality. */
  lemma {:induction false} EqualsKnown(l: Ty, r: Ty)
    requires Known(l) || Known(r)
    ensures Equals(l, r) <==> l == r
    decreases l
  {
    match l
    case Tuple(ls) => if r.Tuple? && Length(ls) == Length(r.fields) { AllEqualKnown(ls, r.fields); }
    case Array(e) => if r.Array? { EqualsKnown(e, r.element); }
    case Pointer(e) => if r.Pointer? { EqualsKnown(e, r.element); }
    case Function(args, ret, _) =>
      if r.Function? && Length(args) == Length(r.args) {
        AllEqualKnown(args, r.args);
        EqualsKnown(ret, r.ret);
      }
    case Instance(_, tyargs) => if r.Instance? && Length(tyargs) == Length(r.tyargs) { AllEqualKnown(tyargs, r.tyargs); }
    case _ =>
  }

  lemma {:induction false} AllEqualKnown(ls: Tys, rs: Tys)
    requires Length(ls) == Length(rs) && (AllKnown(ls) || AllKnown(rs))
    ensures AllEqual(ls, rs) <==> ls == rs
    decreases ls
  {
    if ls.Cons? {
      EqualsKnown(ls.head, rs.head);
      AllEqualKnown(ls.tail, rs.tail);
    }
  }

  // ---------------------------------------------------------------- assignments of types to unknowns

  type Assignment = nat -> Ty

  function Apply(s: Assignment, t: Ty): Ty {
    match t
    case Unknown(u) => s(u)
    case Tuple(fields) => Tuple(ApplyAll(s, fields))
    case Array(e) => Array(Apply(s, e))
    case Pointer(e) => Pointer(Apply(s, e))
    case Function(args, ret, varargs) => Function(ApplyAll(s, args), Apply(s, ret), varargs)
    case Instance(decl, tyargs) => Instance(decl, ApplyAll(s, tyargs))
    case _ => t
  }

  function ApplyAll(s: Assignment, ts: Tys): (r: Tys)
    ensures Length(r) == Length(ts)
  {
    match ts
    case Nil => Nil
    case Cons(t, rest) => Cons(Apply(s, t), ApplyAll(s, rest))
  }

  // ---------------------------------------------------------------- generic instantiation

  /** What generic parameters stand for; a parameter may stand for nothing. */
  type Instances = Decl -> Option<Ty>

  /** Replaces every generic parameter that stands for something; the replacement is not searched. */
  function Instantiate(t: Ty, inst: Instances): Ty {
    match t
    case Tuple(fields) => Tuple(InstantiateAll(fields, inst))
    case Array(e) => Array(Instantiate(e, inst))
    case Pointer(e) => Pointer(Instantiate(e, inst))
    case Function(args, ret, varargs) => Function(InstantiateAll(args, inst), Instantiate(ret, inst), varargs)
    case Instance(decl, tyargs) =>
      if decl.Param? then inst(decl).Extract(t) else Instance(decl, InstantiateAll(tyargs, inst))
    case _ => t
  }

  function InstantiateAll(ts: Tys, inst: Instances): (r: Tys)
    ensures Length(r) == Length(ts)
  {
    match ts
    case Nil => Nil
    case Cons(t, rest) => Cons(Instantiate(t, inst), InstantiateAll(rest, inst))
  }

  /** The uses of generic parameters in a type. */
  function Uses(t: Ty): set<Ty> {
    match t
    case Tuple(fields) => UsesOf(fields)
    case Array(e) => Uses(e)
    case Pointer(e) => Uses(e)
    case Function(args, ret, _) => UsesOf(args) + Uses(ret)
    case Instance(decl, tyargs) => if decl.Param? then {t} else UsesOf(tyargs)
    case _ => {}
  }

  function UsesOf(ts: Tys): set<Ty> {
    match ts
    case Nil => {}
    case Cons(t, rest) => Uses(t) + UsesOf(rest)
  }

  /** Two instantiations of a type agree exactly when they agree on every parameter used in it. */
  lemma {:induction false} InstantiateAgree(t: Ty, f: Instances, g: Instances)
    ensures Instantiate(t, f) == Instantiate(t, g) <==> forall x | x in Uses(t) :: Instantiate(x, f) == Instantiate(x, g)
    decreases t
  {
    match t
    case Tuple(fields) => InstantiateAgreeAll(fields, f, g);
    case Array(e) => InstantiateAgree(e, f, g);
    case Pointer(e) => InstantiateAgree(e, f, g);
    case Function(args, ret, _) =>
      InstantiateAgreeAll(args, f, g);
      InstantiateAgree(ret, f, g);
    case Instance(decl, tyargs) =>
      if !decl.Param? { InstantiateAgreeAll(tyargs, f, g); }
    case _ =>
  }

  lemma {:induction false} InstantiateAgreeAll(ts: Tys, f: Instances, g: Instances)
    ensures InstantiateAll(ts, f) == InstantiateAll(ts, g) <==> forall x | x in UsesOf(ts) :: Instantiate(x, f) == Instantiate(x, g)
    decreases ts
  {
    if ts.Cons? {
      InstantiateAgree(ts.head, f, g);
      InstantiateAgreeAll(ts.tail, f, g);
    }
  }

  /** First one, then the other. */
  function Then(f: Instances, g: Instances): Instances {
    d => match f(d)
         case Some(t) => Some(Instantiate(t, g))
         case None => g(d)
  }

  /** Instantiating twice is instantiating with the composition. */
  lemma {:induction false} InstantiateTwice(t: Ty, f: Instances, g: Instances)
    ensures Instantiate(Instantiate(t, f), g) == Instantiate(t, Then(f, g))
    decreases t
  {
    match t
    case Tuple(fields) => InstantiateTwiceAll(fields, f, g);
    case Array(e) => InstantiateTwice(e, f, g);
    case Pointer(e) => InstantiateTwice(e, f, g);
    case Function(args, ret, _) =>
      InstantiateTwiceAll(args, f, g);
      InstantiateTwice(ret, f, g);
    case Instance(decl, tyargs) =>
      if !decl.Param? { InstantiateTwiceAll(tyargs, f, g); }
    case _ =>
  }

  lemma {:induction false} InstantiateTwiceAll(ts: Tys, f: Instances, g: Instances)
    ensures InstantiateAll(InstantiateAll(ts, f), g) == InstantiateAll(ts, Then(f, g))
    decreases ts
  {
    if ts.Cons? {
      InstantiateTwice(ts.head, f, g);
      InstantiateTwiceAll(ts.tail, f, g);
    }
  }

  // ---------------------------------------------------------------- members

  /** A struct declaration: its parameters and the types of its fields. */
  datatype Def = Def(params: seq<Decl>, fields: seq<Ty>)

  /** The argument given for the first parameter equal to d. */
  function Argument(params: seq<Decl>, tyargs: Tys, d: Decl): Option<Ty>
    requires |params| == Length(tyargs)
    decreases params
  {
    if params == [] then None
    else if params[0] == d then Some(tyargs.head)
    else Argument(params[1..], tyargs.tail, d)
  }

  function FieldOf(fields: Tys, index: nat): Ty
    requires index < Length(fields)
  {
    if index == 0 then fields.head else FieldOf(fields.tail, index - 1)
  }

  function Listed(ts: Tys): seq<Ty> {
    if ts.Nil? then [] else [ts.head] + Listed(ts.tail)
  }

  lemma {:induction false} FieldPlace(fields: Tys, index: nat)
    requires index < Length(fields)
    ensures index < |Listed(fields)| && FieldOf(fields, index) == Listed(fields)[index]
    decreases fields
  {
    if index > 0 { FieldPlace(fields.tail, index - 1); }
  }

  /** A parameter's argument is the one at its first place in the list of parameters. */
  lemma {:induction false} ArgumentPlace(params: seq<Decl>, tyargs: Tys, d: Decl, i: nat)
    requires |params| == Length(tyargs) && i < |params| && params[i] == d && d !in params[..i]
    ensures i < |Listed(tyargs)| && Argument(params, tyargs, d) == Some(Listed(tyargs)[i])
    decreases params
  {
    if i > 0 {
      assert params[..i][0] == params[0] && params[1..][..i - 1] == params[..i][1..];
      ArgumentPlace(params[1..], tyargs.tail, d, i - 1);
    }
  }

  /** A member of a tuple is the field at its place; one of a struct with a parameter for its type, the
      argument given for that parameter. */
  lemma MemberMeans(t: Ty, def: Def, index: nat, i: nat)
    requires HasMember(t, def, index)
    ensures t.Tuple? ==> index < |Listed(t.fields)| && Member(t, def, index) == Listed(t.fields)[index]
    ensures t.Instance? && i < |def.params| && def.params[i].Param? && def.fields[index] == Instance(def.params[i], Nil) && def.params[i] !in def.params[..i] ==>
              i < |Listed(t.tyargs)| && Member(t, def, index) == Listed(t.tyargs)[i]
    ensures t.Instance? && Uses(def.fields[index]) == {} ==> Member(t, def, index) == def.fields[index]
  {
    if t.Tuple? {
      FieldPlace(t.fields, index);
    } else {
      var inst := (d: Decl) => if |def.params| == Length(t.tyargs) then Argument(def.params, t.tyargs, d) else None;
      if i < |def.params| && def.params[i] !in def.params[..i] { ArgumentPlace(def.params, t.tyargs, def.params[i], i); }
      Unparameterized(def.fields[index], inst);
    }
  }

  /** A parameter is replaced by what it stands for, and a type without parameters stays as it is. */
  lemma {:induction false} Unparameterized(t: Ty, inst: Instances)
    ensures t.Instance? && t.decl.Param? ==> Instantiate(t, inst) == match inst(t.decl) case Some(u) => u case None => t
    ensures Uses(t) == {} ==> Instantiate(t, inst) == t
    decreases t
  {
    InstantiateAgree(t, inst, d => None);
    NoInstances(t);
  }

  lemma {:induction false} NoInstances(t: Ty)
    ensures Instantiate(t, d => None) == t
    decreases t
  {
    match t
    case Tuple(fields) => NoInstancesAll(fields);
    case Array(e) => NoInstances(e);
    case Pointer(e) => NoInstances(e);
    case Function(args, ret, _) =>
      NoInstancesAll(args);
      NoInstances(ret);
    case Instance(decl, tyargs) => if !decl.Param? { NoInstancesAll(tyargs); }
    case _ =>
  }

  lemma {:induction false} NoInstancesAll(ts: Tys)
    ensures InstantiateAll(ts, d => None) == ts
    decreases ts
  {
    if ts.Cons? {
      NoInstances(ts.head);
      NoInstancesAll(ts.tail);
    }
  }

  /** A type whose member `index` may be asked for. */
  predicate HasMember(t: Ty, def: Def, index: nat) {
    match t
    case Tuple(fields) => index < Length(fields)
    case Instance(decl, tyargs) => decl.Struct? && index < |def.fields| && |def.params| == Length(tyargs)
    case _ => false
  }

  /** The type of a member: of a tuple directly, of a struct with its parameters instantiated. */
  function Member(t: Ty, def: Def, index: nat): Ty
    requires HasMember(t, def, index)
  {
    if t.Tuple? then FieldOf(t.fields, index)
    else Instantiate(def.fields[index], d => if |def.params| == Length(t.tyargs) then Argument(def.params, t.tyargs, d) else None)
  }

  lemma {:induction false} ArgumentInstantiated(params: seq<Decl>, tyargs: Tys, d: Decl, inst: Instances)
    requires |params| == Length(tyargs)
    ensures Argument(params, InstantiateAll(tyargs, inst), d) == match Argument(params, tyargs, d)
                                                                 case Some(t) => Some(Instantiate(t, inst))
                                                                 case None => None
    ensures Argument(params, tyargs, d).Some? <==> d in params
    decreases params
  {
    if params != [] && params[0] != d {
      ArgumentInstantiated(params[1..], tyargs.tail, d, inst);
    }
  }

  lemma {:induction false} FieldInstantiated(fields: Tys, index: nat, inst: Instances)
    requires index < Length(fields)
    ensures FieldOf(InstantiateAll(fields, inst), index) == Instantiate(FieldOf(fields, index), inst)
    decreases fields
  {
    if index > 0 { FieldInstantiated(fields.tail, index - 1, inst); }
  }

  /** Taking a member commutes with instantiating exactly when instantiating leaves alone every
      parameter in the field's type that is not the struct's own. */
  lemma MemberInstantiated(t: Ty, def: Def, index: nat, inst: Instances)
    requires HasMember(t, def, index)
    ensures HasMember(Instantiate(t, inst), def, index)
    ensures Member(Instantiate(t, inst), def, index) == Instantiate(Member(t, def, index), inst)
       <==> t.Tuple? || forall x | x in Uses(def.fields[index]) && x.Instance? && x.decl !in def.params :: Instantiate(x, inst) == x
  {
    if t.Tuple? {
      FieldInstantiated(t.fields, index, inst);
    } else {
      var f := (d: Decl) => if |def.params| == Length(t.tyargs) then Argument(def.params, t.tyargs, d) else None;
      var t' := InstantiateAll(t.tyargs, inst);
      var f' := (d: Decl) => if |def.params| == Length(t') then Argument(def.params, t', d) else None;
      var field := def.fields[index];
      InstantiateTwice(field, f, inst);
      InstantiateAgree(field, f', Then(f, inst));
      UsesAreParams(field);
      assert Member(t, def, index) == Instantiate(field, f);
      assert Member(Instantiate(t, inst), def, index) == Instantiate(field, f');
      forall x | x in Uses(field)
        ensures Instantiate(x, f') == Instantiate(x, Then(f, inst)) <==> x.decl in def.params || Instantiate(x, inst) == x
      {
        ArgumentInstantiated(def.params, t.tyargs, x.decl, inst);
      }
    }
  }

  lemma {:induction false} UsesAreParams(t: Ty)
    ensures forall x | x in Uses(t) :: x.Instance? && x.decl.Param?
    decreases t
  {
    match t
    case Tuple(fields) => UsesOfAreParams(fields);
    case Array(e) => UsesAreParams(e);
    case Pointer(e) => UsesAreParams(e);
    case Function(args, ret, _) =>
      UsesOfAreParams(args);
      UsesAreParams(ret);
    case Instance(decl, tyargs) => if !decl.Param? { UsesOfAreParams(tyargs); }
    case _ =>
  }

  lemma {:induction false} UsesOfAreParams(ts: Tys)
    ensures forall x | x in UsesOf(ts) :: x.Instance? && x.decl.Param?
    decreases ts
  {
    if ts.Cons? {
      UsesAreParams(ts.head);
      UsesOfAreParams(ts.tail);
    }
  }
}
