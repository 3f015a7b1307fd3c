/** When unification succeeds. */
module Solvable {
  import opened Options
  import opened Types
  import opened Unify

  // ---------------------------------------------------------------- two unknowns, or an unknown and another type

  /** Two different unknowns are unified if and only if at most one has an entry, and that entry is not
      the other one.  So unknowns that are the same already, by an entry, are refused. */
  lemma UnknownsExactly(u: nat, v: nat, data: Table)
    requires u != v
    ensures Unified(Unknown(u), Unknown(v), data).ok
       <==> !(u in data && v in data) && (u in data ==> data[u] != Unknown(v)) && (v in data ==> data[v] != Unknown(u))
  {
  }

  /** An unknown and a type that is none are unified if and only if the entry of the unknown compares
      equal to the type or, when it has none, the type does not contain it. */
  lemma UnknownExactly(u: nat, t: Ty, data: Table)
    requires !t.Unknown?
    ensures Unified(Unknown(u), t, data).ok <==> if u in data then SameButUnknowns(data[u], t) else u !in Unknowns(t)
    ensures Unified(t, Unknown(u), data) == Unified(Unknown(u), t, data)
  {
    hide Equals, Occurs;
    OccursUnknown(t, u);
    if u in data { EqualsExactly(data[u], t); }
  }

  /** The same type once all unknowns are made one. */
  ghost predicate SameButUnknowns(l: Ty, r: Ty) {
    Apply((u: nat) => Unknown(0), l) == Apply((u: nat) => Unknown(0), r)
  }

  lemma {:induction false} EqualsExactly(l: Ty, r: Ty)
    ensures Equals(l, r) <==> SameButUnknowns(l, r)
    decreases l
  {
    match l
    case Tuple(ls) => if r.Tuple? { AllEqualExactly(ls, r.fields); }
    case Array(e) => if r.Array? { EqualsExactly(e, r.element); }
    case Pointer(e) => if r.Pointer? { EqualsExactly(e, r.element); }
    case Function(args, ret, _) =>
      if r.Function? {
        AllEqualExactly(args, r.args);
        EqualsExactly(ret, r.ret);
      }
    case Instance(_, tyargs) => if r.Instance? { AllEqualExactly(tyargs, r.tyargs); }
    case _ =>
  }

  lemma {:induction false} AllEqualExactly(ls: Tys, rs: Tys)
    ensures Length(ls) == Length(rs) && AllEqual(ls, rs) <==> ApplyAll((u: nat) => Unknown(0), ls) == ApplyAll((u: nat) => Unknown(0), rs)
    decreases ls
  {
    if ls.Cons? && rs.Cons? {
      EqualsExactly(ls.head, rs.head);
      AllEqualExactly(ls.tail, rs.tail);
    }
  }

  // ---------------------------------------------------------------- types without repeated unknowns

  /** No unknown occurs twice. */
  predicate Linear(t: Ty) {
    match t
    case Tuple(fields) => LinearAll(fields)
    case Array(e) => Linear(e)
    case Pointer(e) => Linear(e)
    case Function(args, ret, _) => LinearAll(args) && Linear(ret) && UnknownsOf(args) !! Unknowns(ret)
    case Instance(_, tyargs) => LinearAll(tyargs)
    case _ => true
  }

  predicate LinearAll(ts: Tys) {
    ts.Cons? ==> Linear(ts.head) && LinearAll(ts.tail) && Unknowns(ts.head) !! UnknownsOf(ts.tail)
  }

  /** Some assignment makes the two types the same. */
  ghost predicate Unifiable(l: Ty, r: Ty) {
    exists s: Assignment :: Apply(s, l) == Apply(s, r)
  }

  /** The two types differ only where one has an unknown. */
  predicate Fits(l: Ty, r: Ty) {
    if l.Unknown? || r.Unknown? then true
    else
      match l
      case Tuple(ls) => r.Tuple? && AllFit(ls, r.fields)
      case Array(e) => r.Array? && Fits(e, r.element)
      case Pointer(e) => r.Pointer? && Fits(e, r.element)
      case Function(args, ret, varargs) => r.Function? && varargs == r.varargs && AllFit(args, r.args) && Fits(ret, r.ret)
      case Instance(decl, tyargs) => r.Instance? && decl == r.decl && AllFit(tyargs, r.tyargs)
      case _ => l == r
  }

  predicate AllFit(ls: Tys, rs: Tys) {
    if ls.Nil? then rs.Nil? else rs.Cons? && Fits(ls.head, rs.head) && AllFit(ls.tail, rs.tail)
  }

  lemma {:induction false} FitItself(t: Ty)
    ensures Fits(t, t)
    decreases t
  {
    match t
    case Tuple(fields) => AllFitThemselves(fields);
    case Array(e) => FitItself(e);
    case Pointer(e) => FitItself(e);
    case Function(args, ret, _) =>
      AllFitThemselves(args);
      FitItself(ret);
    case Instance(_, tyargs) => AllFitThemselves(tyargs);
    case _ =>
  }

  lemma {:induction false} AllFitThemselves(ts: Tys)
    ensures AllFit(ts, ts)
    decreases ts
  {
    if ts.Cons? {
      FitItself(ts.head);
      AllFitThemselves(ts.tail);
    }
  }

  lemma {:induction false} AllFitLength(ls: Tys, rs: Tys)
    requires AllFit(ls, rs)
    ensures Length(ls) == Length(rs)
    decreases ls
  {
    if ls.Cons? { AllFitLength(ls.tail, rs.tail); }
  }

  // ---------------------------------------------------------------- fitting is having a unifier

  lemma {:induction false} UnifiedFit(l: Ty, r: Ty, s: Assignment)
    requires Apply(s, l) == Apply(s, r)
    ensures Fits(l, r)
    decreases l
  {
    if !l.Unknown? && !r.Unknown? {
      match l
      case Tuple(ls) => AllUnifiedFit(ls, r.fields, s);
      case Array(e) => UnifiedFit(e, r.element, s);
      case Pointer(e) => UnifiedFit(e, r.element, s);
      case Function(args, ret, _) =>
        AllUnifiedFit(args, r.args, s);
        UnifiedFit(ret, r.ret, s);
      case Instance(_, tyargs) => AllUnifiedFit(tyargs, r.tyargs, s);
      case _ =>
    }
  }

  lemma {:induction false} AllUnifiedFit(ls: Tys, rs: Tys, s: Assignment)
    requires ApplyAll(s, ls) == ApplyAll(s, rs)
    ensures AllFit(ls, rs)
    decreases ls
  {
    if ls.Cons? {
      UnifiedFit(ls.head, rs.head, s);
      AllUnifiedFit(ls.tail, rs.tail, s);
    }
  }

  /** Applying an assignment looks at the unknowns of the type only. */
  lemma {:induction false} ApplySame(t: Ty, s: Assignment, s': Assignment)
    requires forall u | u in Unknowns(t) :: s(u) == s'(u)
    ensures Apply(s, t) == Apply(s', t)
    decreases t
  {
    match t
    case Tuple(fields) => ApplyAllSame(fields, s, s');
    case Array(e) => ApplySame(e, s, s');
    case Pointer(e) => ApplySame(e, s, s');
    case Function(args, ret, _) =>
      assert forall u | u in UnknownsOf(args) + Unknowns(ret) :: u in Unknowns(t);
      ApplyAllSame(args, s, s');
      ApplySame(ret, s, s');
    case Instance(_, tyargs) => ApplyAllSame(tyargs, s, s');
    case _ =>
  }

  lemma {:induction false} ApplyAllSame(ts: Tys, s: Assignment, s': Assignment)
    requires forall u | u in UnknownsOf(ts) :: s(u) == s'(u)
    ensures ApplyAll(s, ts) == ApplyAll(s', ts)
    decreases ts
  {
    if ts.Cons? {
      assert forall u | u in Unknowns(ts.head) + UnknownsOf(ts.tail) :: u in UnknownsOf(ts);
      ApplySame(ts.head, s, s');
      ApplyAllSame(ts.tail, s, s');
    }
  }

  lemma {:induction false} ApplyNothing(t: Ty)
    ensures Apply((u: nat) => Unknown(u), t) == t
    decreases t
  {
    match t
    case Tuple(fields) => ApplyNothingAll(fields);
    case Array(e) => ApplyNothing(e);
    case Pointer(e) => ApplyNothing(e);
    case Function(args, ret, _) =>
      ApplyNothingAll(args);
      ApplyNothing(ret);
    case Instance(_, tyargs) => ApplyNothingAll(tyargs);
    case _ =>
  }

  lemma {:induction false} ApplyNothingAll(ts: Tys)
    ensures ApplyAll((u: nat) => Unknown(u), ts) == ts
    decreases ts
  {
    if ts.Cons? {
      ApplyNothing(ts.head);
      ApplyNothingAll(ts.tail);
    }
  }

  function Merged(us: set<nat>, s: Assignment, s': Assignment): Assignment {
    (u: nat) => if u in us then s(u) else s'(u)
  }

  lemma OneUnknown(u: nat, t: Ty) returns (s: Assignment)
    requires u !in Unknowns(t)
    ensures s(u) == t && Apply(s, t) == t
  {
    s := (v: nat) => if v == u then t else Unknown(v);
    ApplySame(t, s, (v: nat) => Unknown(v));
    ApplyNothing(t);
  }

  lemma {:induction false} FitUnified(l: Ty, r: Ty) returns (s: Assignment)
    requires Fits(l, r) && Linear(l) && Linear(r) && Unknowns(l) !! Unknowns(r)
    ensures Apply(s, l) == Apply(s, r)
    decreases l
  {
    if l.Unknown? {
      s := OneUnknown(l.u, r);
    } else if r.Unknown? {
      s := OneUnknown(r.u, l);
    } else {
      match l
      case Tuple(ls) => s := AllFitUnified(ls, r.fields);
      case Array(e) => s := FitUnified(e, r.element);
      case Pointer(e) => s := FitUnified(e, r.element);
      case Function(args, ret, _) => s := FunctionsUnified(l, r);
      case Instance(_, tyargs) => s := AllFitUnified(tyargs, r.tyargs);
      case _ => s := (u: nat) => Void;
    }
  }

  lemma {:induction false} FunctionsUnified(l: Ty, r: Ty) returns (s: Assignment)
    requires l.Function? && r.Function? && Fits(l, r) && Linear(l) && Linear(r) && Unknowns(l) !! Unknowns(r)
    ensures Apply(s, l) == Apply(s, r)
    decreases l, 0
  {
    assert forall u | u in UnknownsOf(l.args) + Unknowns(l.ret) :: u in Unknowns(l);
    assert forall u | u in UnknownsOf(r.args) + Unknowns(r.ret) :: u in Unknowns(r);
    var s1 := AllFitUnified(l.args, r.args);
    var s2 := FitUnified(l.ret, r.ret);
    s := Merged(UnknownsOf(l.args) + UnknownsOf(r.args), s1, s2);
    ApplyAllSame(l.args, s, s1);
    ApplyAllSame(r.args, s, s1);
    ApplySame(l.ret, s, s2);
    ApplySame(r.ret, s, s2);
  }

  lemma {:induction false} AllFitUnified(ls: Tys, rs: Tys) returns (s: Assignment)
    requires AllFit(ls, rs) && LinearAll(ls) && LinearAll(rs) && UnknownsOf(ls) !! UnknownsOf(rs)
    ensures ApplyAll(s, ls) == ApplyAll(s, rs)
    decreases ls
  {
    if ls.Nil? {
      s := (u: nat) => Void;
    } else {
      assert forall u | u in Unknowns(ls.head) + UnknownsOf(ls.tail) :: u in UnknownsOf(ls);
      assert forall u | u in Unknowns(rs.head) + UnknownsOf(rs.tail) :: u in UnknownsOf(rs);
      var s1 := FitUnified(ls.head, rs.head);
      var s2 := AllFitUnified(ls.tail, rs.tail);
      s := Merged(Unknowns(ls.head) + Unknowns(rs.head), s1, s2);
      ApplySame(ls.head, s, s1);
      ApplySame(rs.head, s, s1);
      ApplyAllSame(ls.tail, s, s2);
      ApplyAllSame(rs.tail, s, s2);
    }
  }

  // ---------------------------------------------------------------- unification of such types

  /** Entries are made for unknowns of the two types only. */
  lemma {:induction false} UnifyKeys(l: Ty, r: Ty, data: Table)
    ensures Unified(l, r, data).data.Keys <= data.Keys + Unknowns(l) + Unknowns(r)
    decreases l
  {
    if l != r && !l.Unknown? && !r.Unknown? {
      match l
      case Tuple(ls) => if r.Tuple? { UnifyAllKeys(ls, r.fields, data); }
      case Array(e) => if r.Array? { UnifyKeys(e, r.element, data); }
      case Pointer(e) => if r.Pointer? { UnifyKeys(e, r.element, data); }
      case Function(args, ret, varargs) =>
        if r.Function? {
          UnifyAllKeys(args, r.args, data);
          UnifyKeys(ret, r.ret, UnifiedAll(args, r.args, data).data);
        }
      case Instance(decl, tyargs) => if r.Instance? { UnifyAllKeys(tyargs, r.tyargs, data); }
      case _ =>
    }
  }

  lemma {:induction false} UnifyAllKeys(ls: Tys, rs: Tys, data: Table)
    ensures UnifiedAll(ls, rs, data).data.Keys <= data.Keys + UnknownsOf(ls) + UnknownsOf(rs)
    decreases ls
  {
    hide Unified;
    if Length(ls) == Length(rs) && ls.Cons? {
      UnifyKeys(ls.head, rs.head, data);
      UnifyAllKeys(ls.tail, rs.tail, Unified(ls.head, rs.head, data).data);
    }
  }

  ghost predicate Free(us: set<nat>, data: Table) {
    us !! data.Keys
  }

  lemma {:induction false} UnifyFits(l: Ty, r: Ty, data: Table)
    requires Linear(l) && Linear(r) && Unknowns(l) !! Unknowns(r) && Free(Unknowns(l) + Unknowns(r), data)
    ensures Unified(l, r, data).ok <==> Fits(l, r)
    decreases l
  {
    if l == r {
      FitItself(l);
    } else if l.Unknown? {
      assert l.u in Unknowns(l);
      if r.Unknown? { assert r.u in Unknowns(r); } else { UnknownExactly(l.u, r, data); }
    } else if r.Unknown? {
      assert r.u in Unknowns(r);
      UnknownExactly(r.u, l, data);
    } else {
      match l
      case Tuple(ls) => if r.Tuple? { UnifyAllFit(ls, r.fields, data); }
      case Array(e) => if r.Array? { UnifyFits(e, r.element, data); }
      case Pointer(e) => if r.Pointer? { UnifyFits(e, r.element, data); }
      case Function(args, ret, varargs) => if r.Function? { FunctionsFit(l, r, data); }
      case Instance(decl, tyargs) => if r.Instance? { UnifyAllFit(tyargs, r.tyargs, data); }
      case _ =>
    }
  }

  lemma {:induction false} FunctionsFit(l: Ty, r: Ty, data: Table)
    requires l.Function? && r.Function? && l != r
    requires Linear(l) && Linear(r) && Unknowns(l) !! Unknowns(r) && Free(Unknowns(l) + Unknowns(r), data)
    ensures Unified(l, r, data).ok <==> Fits(l, r)
    decreases l, 0
  {
    assert forall u | u in UnknownsOf(l.args) + Unknowns(l.ret) :: u in Unknowns(l);
    assert forall u | u in UnknownsOf(r.args) + Unknowns(r.ret) :: u in Unknowns(r);
    UnifyAllFit(l.args, r.args, data);
    UnifyAllKeys(l.args, r.args, data);
    UnifyFits(l.ret, r.ret, UnifiedAll(l.args, r.args, data).data);
    if AllFit(l.args, r.args) { AllFitLength(l.args, r.args); }
  }

  lemma {:induction false} UnifyAllFit(ls: Tys, rs: Tys, data: Table)
    requires LinearAll(ls) && LinearAll(rs) && UnknownsOf(ls) !! UnknownsOf(rs) && Free(UnknownsOf(ls) + UnknownsOf(rs), data)
    ensures UnifiedAll(ls, rs, data).ok <==> AllFit(ls, rs)
    decreases ls
  {
    hide Unified, Fits;
    if AllFit(ls, rs) { AllFitLength(ls, rs); }
    if Length(ls) == Length(rs) && ls.Cons? {
      assert forall u | u in Unknowns(ls.head) + UnknownsOf(ls.tail) :: u in UnknownsOf(ls);
      assert forall u | u in Unknowns(rs.head) + UnknownsOf(rs.tail) :: u in UnknownsOf(rs);
      UnifyFits(ls.head, rs.head, data);
      UnifyKeys(ls.head, rs.head, data);
      UnifyAllFit(ls.tail, rs.tail, Unified(ls.head, rs.head, data).data);
    }
  }

  /** Two types that share no unknown, repeat none, and whose unknowns have no entries are unified if
      and only if some assignment makes them the same. */
  lemma LinearExactly(l: Ty, r: Ty, data: Table)
    requires Linear(l) && Linear(r) && Unknowns(l) !! Unknowns(r) && Free(Unknowns(l) + Unknowns(r), data)
    ensures Unified(l, r, data).ok <==> Unifiable(l, r)
  {
    hide Unified, Fits, Linear, Apply;
    UnifyFits(l, r, data);
    if Fits(l, r) {
      var s := FitUnified(l, r);
    }
    if s: Assignment :| Apply(s, l) == Apply(s, r) {
      UnifiedFit(l, r, s);
    }
  }
}
