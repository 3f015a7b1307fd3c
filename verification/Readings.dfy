/** What stopping at a for loop changes about evaluation. */
module Readings {
  import opened Options
  import opened IR
  import opened Source

  /** An evaluation that stops at such loops, l, and one that does not, s: they are the same unless l
      has stopped at one, which it never does when there is none. */
  predicate Agree(l: Outcome, s: Outcome, plain: bool) {
    l == s || (l.Broken? && !plain)
  }

  predicate AgreeAll(l: Outcomes, s: Outcomes, plain: bool) {
    l == s || (l.BrokenAll? && !plain)
  }

  lemma {:induction false} Read(e: Expr, ref: bool, env: Env, w: World, ext: External, fuel: nat)
    ensures Agree(Eval(e, ref, env, w, ext, AsLowered, fuel), Eval(e, ref, env, w, ext, AsWritten, fuel), PlainFors(e))
    decreases fuel, e, 3
  {
    hide *;
    if e.NotE? || e.Deref? || e.New? || e.VarDecl? {
      ReadUnary(e, ref, env, w, ext, fuel);
    } else {
      ReadOther(e, ref, env, w, ext, fuel);
    }
  }

  lemma {:induction false} ReadUnary(e: Expr, ref: bool, env: Env, w: World, ext: External, fuel: nat)
    requires e.NotE? || e.Deref? || e.New? || e.VarDecl?
    ensures Agree(Eval(e, ref, env, w, ext, AsLowered, fuel), Eval(e, ref, env, w, ext, AsWritten, fuel), PlainFors(e))
    decreases fuel, e, 2
  {
    Read(e.e, false, env, w, ext, fuel);
  }

  lemma {:induction false} ReadOther(e: Expr, ref: bool, env: Env, w: World, ext: External, fuel: nat)
    requires !(e.NotE? || e.Deref? || e.New? || e.VarDecl?)
    ensures Agree(Eval(e, ref, env, w, ext, AsLowered, fuel), Eval(e, ref, env, w, ext, AsWritten, fuel), PlainFors(e))
    decreases fuel, e, 2
  {
    hide EvalAndOr, EvalBody, EvalCall, EvalIndex, EvalAssign, EvalIf, EvalIfThen, EvalFor, EvalWhile, Opens, Agree;
    match e
    case And(l, r) => ReadAndOr(e, l, r, true, env, w, ext, fuel);
    case Or(l, r) => ReadAndOr(e, l, r, false, env, w, ext, fuel);
    case BlockE(es) => ReadBody(es, VVoid, env, w, ext, fuel);
    case CallE(f, args, isVoid) => ReadCall(f, args, isVoid, env, w, ext, fuel);
    case Index(a, i) => ReadIndex(a, i, ref, env, w, ext, fuel);
    case Assign(l, r) => ReadAssign(l, r, env, w, ext, fuel);
    case If(c, t, e1) => ReadIf(c, t, e1, env, w, ext, fuel);
    case IfThen(c, t) => ReadIfThen(c, t, env, w, ext, fuel);
    case For(x, ix, a, body) => ReadLoop(x, ix, a, body, ref, env, w, ext, fuel);
    case While(c, body) => ReadWhile(c, body, env, w, ext, fuel);
    case _ => SameAgree(Eval(e, ref, env, w, ext, AsLowered, fuel), PlainFors(e));
  }

  lemma SameAgree(l: Outcome, plain: bool)
    ensures Agree(l, l, plain)
  {
  }

  lemma {:induction false} ReadLoop(x: Variable, ix: Option<Variable>, a: Expr, body: Expr, ref: bool, env: Env, w: World, ext: External, fuel: nat)
    ensures Agree(Eval(For(x, ix, a, body), ref, env, w, ext, AsLowered, fuel), Eval(For(x, ix, a, body), ref, env, w, ext, AsWritten, fuel), PlainFors(For(x, ix, a, body)))
    decreases fuel, For(x, ix, a, body), 1
  {
    hide EvalFor, Opens;
    Read(a, false, env, w, ext, fuel);
    var out := Eval(a, false, env, w, ext, AsLowered, fuel);
    if out.Done? { ReadFor(x, ix, out.v, 0, body, env, out.w, ext, fuel); }
  }

  lemma {:induction false} ReadAndOr(whole: Expr, l: Expr, r: Expr, isAnd: bool, env: Env, w: World, ext: External, fuel: nat)
    requires whole == if isAnd then And(l, r) else Or(l, r)
    ensures Agree(EvalAndOr(l, r, isAnd, env, w, ext, AsLowered, fuel), EvalAndOr(l, r, isAnd, env, w, ext, AsWritten, fuel), PlainFors(l) && PlainFors(r))
    decreases fuel, whole, 1
  {
    hide Eval, PlainFors;
    Read(l, false, env, w, ext, fuel);
    var out := Eval(l, false, env, w, ext, AsLowered, fuel);
    if out.Done? { Read(r, false, env, out.w, ext, fuel); }
  }

  lemma {:induction false} ReadCall(f: Expr, args: Exprs, isVoid: bool, env: Env, w: World, ext: External, fuel: nat)
    ensures Agree(EvalCall(f, args, isVoid, env, w, ext, AsLowered, fuel), EvalCall(f, args, isVoid, env, w, ext, AsWritten, fuel), PlainFors(f) && PlainForsAll(args))
    decreases fuel, CallE(f, args, isVoid), 1
  {
    hide Eval, EvalArgs, PlainFors, PlainForsAll, DoCall;
    Read(f, false, env, w, ext, fuel);
    var out := Eval(f, false, env, w, ext, AsLowered, fuel);
    if out.Done? { ReadArgs(args, env, out.w, ext, fuel); }
  }

  lemma {:induction false} ReadIndex(a: Expr, i: Expr, ref: bool, env: Env, w: World, ext: External, fuel: nat)
    ensures Agree(EvalIndex(a, i, ref, env, w, ext, AsLowered, fuel), EvalIndex(a, i, ref, env, w, ext, AsWritten, fuel), PlainFors(a) && PlainFors(i))
    decreases fuel, Index(a, i), 1
  {
    hide Eval, PlainFors, IndexInto;
    Read(a, false, env, w, ext, fuel);
    var out := Eval(a, false, env, w, ext, AsLowered, fuel);
    if out.Done? { Read(i, false, env, out.w, ext, fuel); }
  }

  lemma {:induction false} ReadAssign(l: Expr, r: Expr, env: Env, w: World, ext: External, fuel: nat)
    ensures Agree(EvalAssign(l, r, env, w, ext, AsLowered, fuel), EvalAssign(l, r, env, w, ext, AsWritten, fuel), PlainFors(l) && PlainFors(r))
    decreases fuel, Assign(l, r), 1
  {
    hide Eval, PlainFors;
    Read(l, true, env, w, ext, fuel);
    var out := Eval(l, true, env, w, ext, AsLowered, fuel);
    if out.Done? { Read(r, false, env, out.w, ext, fuel); }
  }

  lemma {:induction false} ReadIf(c: Expr, t: Expr, e: Expr, env: Env, w: World, ext: External, fuel: nat)
    ensures Agree(EvalIf(c, t, e, env, w, ext, AsLowered, fuel), EvalIf(c, t, e, env, w, ext, AsWritten, fuel), PlainFors(c) && PlainFors(t) && PlainFors(e))
    decreases fuel, If(c, t, e), 1
  {
    hide Eval, PlainFors;
    Read(c, false, env, w, ext, fuel);
    var out := Eval(c, false, env, w, ext, AsLowered, fuel);
    if out.Done? { Read(if AsBool(out.v) then t else e, false, env, out.w, ext, fuel); }
  }

  lemma {:induction false} ReadIfThen(c: Expr, t: Expr, env: Env, w: World, ext: External, fuel: nat)
    ensures Agree(EvalIfThen(c, t, env, w, ext, AsLowered, fuel), EvalIfThen(c, t, env, w, ext, AsWritten, fuel), PlainFors(c) && PlainFors(t))
    decreases fuel, IfThen(c, t), 1
  {
    hide Eval, PlainFors;
    Read(c, false, env, w, ext, fuel);
    var out := Eval(c, false, env, w, ext, AsLowered, fuel);
    if out.Done? { Read(t, false, env, out.w, ext, fuel); }
  }

  lemma {:induction false} ReadWhile(c: Expr, body: Expr, env: Env, w: World, ext: External, fuel: nat)
    ensures Agree(EvalWhile(c, body, env, w, ext, AsLowered, fuel), EvalWhile(c, body, env, w, ext, AsWritten, fuel), PlainFors(c) && PlainFors(body))
    decreases fuel, While(c, body), 1
  {
    hide Eval, PlainFors;
    if fuel > 0 {
      Read(c, false, env, w, ext, fuel);
      var out := Eval(c, false, env, w, ext, AsLowered, fuel);
      if out.Done? && AsBool(out.v) {
        Read(body, false, env, out.w, ext, fuel);
        var o := Eval(body, false, env, out.w, ext, AsLowered, fuel);
        if o.Done? { ReadWhile(c, body, env, o.w, ext, fuel - 1); }
      }
    }
  }

  lemma {:induction false} ReadBody(es: Exprs, last: Value, env: Env, w: World, ext: External, fuel: nat)
    ensures Agree(EvalBody(es, last, env, w, ext, AsLowered, fuel), EvalBody(es, last, env, w, ext, AsWritten, fuel), PlainForsAll(es))
    decreases fuel, es, 0
  {
    hide Eval, PlainFors;
    match es
    case Nil =>
    case Cons(e, rest) =>
      Read(e, false, env, w, ext, fuel);
      var out := Eval(e, false, env, w, ext, AsLowered, fuel);
      if out.Done? { ReadBody(rest, out.v, env, out.w, ext, fuel); }
  }

  lemma {:induction false} ReadArgs(es: Exprs, env: Env, w: World, ext: External, fuel: nat)
    ensures AgreeAll(EvalArgs(es, env, w, ext, AsLowered, fuel), EvalArgs(es, env, w, ext, AsWritten, fuel), PlainForsAll(es))
    decreases fuel, es, 0
  {
    hide Eval, PlainFors;
    match es
    case Nil =>
    case Cons(e, rest) =>
      Read(e, false, env, w, ext, fuel);
      var out := Eval(e, false, env, w, ext, AsLowered, fuel);
      if out.Done? { ReadArgs(rest, env, out.w, ext, fuel); }
  }

  lemma {:induction false} ReadFor(x: Variable, ix: Option<Variable>, arr: Value, i: nat, body: Expr, env: Env, w: World, ext: External, fuel: nat)
    ensures Agree(EvalFor(x, ix, arr, i, body, env, w, ext, AsLowered, fuel), EvalFor(x, ix, arr, i, body, env, w, ext, AsWritten, fuel), PlainFors(body))
    decreases fuel, body, (if i < ArraySize(arr) then ArraySize(arr) - i else 0) + 4
  {
    hide Eval, PlainFors;
    if i < ArraySize(arr) {
      Read(body, false, LoopEnv(env, x, ix, arr, i), w, ext, fuel);
      var out := Eval(body, false, LoopEnv(env, x, ix, arr, i), w, ext, AsLowered, fuel);
      if out.Done? { ReadFor(x, ix, arr, i + 1, body, env, out.w, ext, fuel); }
    }
  }
}
