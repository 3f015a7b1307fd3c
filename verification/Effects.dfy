/** What evaluation does, said without it: calls in the order they are written, which parts of
    control flow are evaluated, and how often. */
module Effects {
  import opened Options
  import opened IR
  import opened Source
  import opened CodeTheorem

  // ---------------------------------------------------------------- calls in the order written

  /** No control flow, and every function called by its name. */
  predicate Straight(e: Expr) {
    match e
    case NotE(e1) => Straight(e1)
    case Deref(e1) => Straight(e1)
    case New(e1) => Straight(e1)
    case VarDecl(_, e1) => Straight(e1)
    case Assign(l, r) => Straight(l) && Straight(r)
    case Index(a, i) => Straight(a) && Straight(i)
    case BlockE(es) => StraightAll(es)
    case CallE(f, args, _) => f.FnRef? && StraightAll(args)
    case And(_, _) => false
    case Or(_, _) => false
    case If(_, _, _) => false
    case IfThen(_, _) => false
    case For(_, _, _, _) => false
    case While(_, _) => false
    case _ => true
  }

  predicate StraightAll(es: Exprs) {
    es.Cons? ==> Straight(es.head) && StraightAll(es.tail)
  }

  /** The functions called, from left to right, each after those called in its arguments. */
  function Called(e: Expr): seq<string>
    requires Straight(e)
  {
    match e
    case NotE(e1) => Called(e1)
    case Deref(e1) => Called(e1)
    case New(e1) => Called(e1)
    case VarDecl(_, e1) => Called(e1)
    case Assign(l, r) => Called(l) + Called(r)
    case Index(a, i) => Called(a) + Called(i)
    case BlockE(es) => CalledAll(es)
    case CallE(f, args, _) => CalledAll(args) + [f.name]
    case _ => []
  }

  function CalledAll(es: Exprs): seq<string>
    requires StraightAll(es)
  {
    if es.Nil? then [] else Called(es.head) + CalledAll(es.tail)
  }

  /** The events since t, one for each name. */
  predicate Follows(t: seq<Event>, t': seq<Event>, names: seq<string>) {
    && |t'| == |t| + |names| && t'[..|t|] == t
    && forall i | 0 <= i < |names| :: t'[|t| + i].f == VFn(names[i])
  }

  lemma FollowsNone(t: seq<Event>)
    ensures Follows(t, t, [])
  {
  }

  lemma FollowsThen(t: seq<Event>, t1: seq<Event>, t2: seq<Event>, a: seq<string>, b: seq<string>)
    requires Follows(t, t1, a) && Follows(t1, t2, b)
    ensures Follows(t, t2, a + b)
  {
    assert t2[..|t|] == t2[..|t1|][..|t|];
    forall i | 0 <= i < |a + b| ensures t2[|t| + i].f == VFn((a + b)[i]) {
      if i < |a| { assert t2[..|t1|][|t| + i] == t1[|t| + i]; } else { assert t2[|t1| + (i - |a|)] == t2[|t| + i]; }
    }
  }

  /** Straight code that is evaluated to its end has made exactly the calls written in it, in order. */
  lemma {:induction false} CallsInOrder(e: Expr, ref: bool, env: Env, w: World, ext: External, loops: Loops, fuel: nat)
    requires Straight(e) && Eval(e, ref, env, w, ext, loops, fuel).Done?
    ensures Follows(w.trace, Eval(e, ref, env, w, ext, loops, fuel).w.trace, Called(e))
    decreases e, 1
  {
    hide Follows;
    FollowsNone(w.trace);
    match e
    case NotE(e1) => CallsInOrder(e1, false, env, w, ext, loops, fuel);
    case Deref(e1) => CallsInOrder(e1, false, env, w, ext, loops, fuel);
    case New(e1) => CallsInOrder(e1, false, env, w, ext, loops, fuel);
    case VarDecl(x, e1) => CallsInOrder(e1, false, env, w, ext, loops, fuel);
    case Assign(l, r) => TwoInOrder(e, l, true, r, env, w, ext, loops, fuel);
    case Index(a, i) => TwoInOrder(e, a, false, i, env, w, ext, loops, fuel);
    case BlockE(es) => BodyInOrder(es, VVoid, env, w, ext, loops, fuel);
    case CallE(f, args, isVoid) => CallInOrder(f, args, isVoid, env, w, ext, loops, fuel);
    case _ =>
  }

  lemma {:induction false} TwoInOrder(whole: Expr, l: Expr, ref: bool, r: Expr, env: Env, w: World, ext: External, loops: Loops, fuel: nat)
    requires whole == Assign(l, r) || whole == Index(l, r)
    requires Straight(l) && Straight(r) && Eval(l, ref, env, w, ext, loops, fuel).Done?
    requires Eval(r, false, env, Eval(l, ref, env, w, ext, loops, fuel).w, ext, loops, fuel).Done?
    ensures Follows(w.trace, Eval(r, false, env, Eval(l, ref, env, w, ext, loops, fuel).w, ext, loops, fuel).w.trace, Called(l) + Called(r))
    decreases whole, 0
  {
    hide Follows, Eval;
    CallsInOrder(l, ref, env, w, ext, loops, fuel);
    var w1 := Eval(l, ref, env, w, ext, loops, fuel).w;
    CallsInOrder(r, false, env, w1, ext, loops, fuel);
    FollowsThen(w.trace, w1.trace, Eval(r, false, env, w1, ext, loops, fuel).w.trace, Called(l), Called(r));
  }

  lemma {:induction false} BodyInOrder(es: Exprs, last: Value, env: Env, w: World, ext: External, loops: Loops, fuel: nat)
    requires StraightAll(es) && EvalBody(es, last, env, w, ext, loops, fuel).Done?
    ensures Follows(w.trace, EvalBody(es, last, env, w, ext, loops, fuel).w.trace, CalledAll(es))
    decreases es, 0
  {
    hide Follows, Eval;
    match es
    case Nil => FollowsNone(w.trace);
    case Cons(e, rest) =>
      CallsInOrder(e, false, env, w, ext, loops, fuel);
      var out := Eval(e, false, env, w, ext, loops, fuel);
      BodyInOrder(rest, out.v, env, out.w, ext, loops, fuel);
      FollowsThen(w.trace, out.w.trace, EvalBody(rest, out.v, env, out.w, ext, loops, fuel).w.trace, Called(e), CalledAll(rest));
  }

  lemma {:induction false} ArgsInOrder(es: Exprs, env: Env, w: World, ext: External, loops: Loops, fuel: nat)
    requires StraightAll(es) && EvalArgs(es, env, w, ext, loops, fuel).DoneAll?
    ensures Follows(w.trace, EvalArgs(es, env, w, ext, loops, fuel).w.trace, CalledAll(es))
    decreases es, 0
  {
    hide Follows, Eval;
    match es
    case Nil => FollowsNone(w.trace);
    case Cons(e, rest) =>
      CallsInOrder(e, false, env, w, ext, loops, fuel);
      var out := Eval(e, false, env, w, ext, loops, fuel);
      ArgsInOrder(rest, env, out.w, ext, loops, fuel);
      FollowsThen(w.trace, out.w.trace, EvalArgs(rest, env, out.w, ext, loops, fuel).w.trace, Called(e), CalledAll(rest));
  }

  lemma {:induction false} CallInOrder(f: Expr, args: Exprs, isVoid: bool, env: Env, w: World, ext: External, loops: Loops, fuel: nat)
    requires f.FnRef? && StraightAll(args) && EvalCall(f, args, isVoid, env, w, ext, loops, fuel).Done?
    ensures Follows(w.trace, EvalCall(f, args, isVoid, env, w, ext, loops, fuel).w.trace, CalledAll(args) + [f.name])
    decreases CallE(f, args, isVoid), 0
  {
    hide Follows, EvalArgs;
    ArgsInOrder(args, env, w, ext, loops, fuel);
    var out := EvalArgs(args, env, w, ext, loops, fuel);
    FollowsOne(out.w.trace, Call(VFn(f.name), out.vs), f.name);
    FollowsThen(w.trace, out.w.trace, out.w.trace + [Call(VFn(f.name), out.vs)], CalledAll(args), [f.name]);
  }

  lemma FollowsOne(t: seq<Event>, e: Event, name: string)
    requires e.f == VFn(name)
    ensures Follows(t, t + [e], [name])
  {
  }

  /** So a lowered function with a straight body that returns has made exactly the calls written in it,
      in that order. */
  lemma FunctionCallsInOrder(params: seq<Variable>, body: Expr, args: seq<Value>, w: World, ext: External, n: nat)
    requires FunctionOk(params, body) && Straight(body) && |args| == |params|
    requires Run(CompileFunction(params, body), n, Initial(args, w), ext).status.Returned?
    ensures Follows(w.trace, Run(CompileFunction(params, body), n, Initial(args, w), ext).w.trace, Called(body))
  {
    hide Eval, CompileFunction, Run, FunctionOk, Follows, Straight, Called;
    StopsOnlyAsLowered(params, body, args, w, ext, n);
    CallsInOrder(body, false, ParamEnv(params, args), w, ext, AsLowered, n + 1);
  }

  // ---------------------------------------------------------------- what is evaluated, and how often

  /** The right side of and/or is evaluated only when the left side leaves it open. */
  lemma ShortCircuit(l: Expr, r: Expr, env: Env, w: World, ext: External, loops: Loops, fuel: nat, w1: World)
    ensures Eval(l, false, env, w, ext, loops, fuel) == Done(VBool(false), w1) ==>
              && Eval(And(l, r), false, env, w, ext, loops, fuel) == Done(VBool(false), w1)
              && Eval(Or(l, r), false, env, w, ext, loops, fuel) == Eval(r, false, env, w1, ext, loops, fuel)
    ensures Eval(l, false, env, w, ext, loops, fuel) == Done(VBool(true), w1) ==>
              && Eval(Or(l, r), false, env, w, ext, loops, fuel) == Done(VBool(true), w1)
              && Eval(And(l, r), false, env, w, ext, loops, fuel) == Eval(r, false, env, w1, ext, loops, fuel)
  {
  }

  /** One branch of an if is evaluated, the first when the condition is true. */
  lemma OneBranch(c: Expr, t: Expr, e: Expr, env: Env, w: World, ext: External, loops: Loops, fuel: nat, b: bool, w1: World)
    requires Eval(c, false, env, w, ext, loops, fuel) == Done(VBool(b), w1)
    ensures Eval(If(c, t, e), false, env, w, ext, loops, fuel) == Eval(if b then t else e, false, env, w1, ext, loops, fuel)
    ensures !b ==> Eval(IfThen(c, t), false, env, w, ext, loops, fuel) == Done(VVoid, w1)
    ensures Eval(NotE(c), false, env, w, ext, loops, fuel) == Done(VBool(!b), w1)
  {
  }

  /** One iteration, for element i of arr, goes from w to w'. */
  ghost predicate Iteration(x: Variable, ix: Option<Variable>, arr: Value, i: nat, body: Expr, env: Env, ext: External, loops: Loops, fuel: nat, w: World, w': World) {
    var out := Eval(body, false, LoopEnv(env, x, ix, arr, i), w, ext, loops, fuel);
    out.Done? && out.w == w'
  }

  /** A for loop over arr that is gone through to its end has gone through one iteration for each
      element, in order; ws are the worlds before, between and after them. */
  lemma {:induction false} ForRuns(x: Variable, ix: Option<Variable>, arr: Value, i: nat, body: Expr, env: Env, w: World, ext: External, loops: Loops, fuel: nat) returns (ws: seq<World>)
    requires i <= ArraySize(arr) && EvalFor(x, ix, arr, i, body, env, w, ext, loops, fuel).Done?
    ensures |ws| == ArraySize(arr) - i + 1 && ws[0] == w
    ensures forall j | 0 <= j < |ws| - 1 :: Iteration(x, ix, arr, i + j, body, env, ext, loops, fuel, ws[j], ws[j + 1])
    ensures EvalFor(x, ix, arr, i, body, env, w, ext, loops, fuel) == Done(VVoid, ws[|ws| - 1])
    decreases ArraySize(arr) - i
  {
    hide Eval, LoopEnv;
    if i >= ArraySize(arr) {
      ws := [w];
    } else {
      var out := Eval(body, false, LoopEnv(env, x, ix, arr, i), w, ext, loops, fuel);
      var rest := ForRuns(x, ix, arr, i + 1, body, env, out.w, ext, loops, fuel);
      ws := [w] + rest;
      forall j | 0 <= j < |ws| - 1
        ensures Iteration(x, ix, arr, i + j, body, env, ext, loops, fuel, ws[j], ws[j + 1])
      {
        if j > 0 { assert ws[j] == rest[j - 1] && ws[j + 1] == rest[j - 1 + 1] && i + 1 + (j - 1) == i + j; }
      }
    }
  }

  /** The body sees the element's cell and number, and otherwise what is around the loop. */
  lemma LoopVariables(env: Env, x: Variable, ix: Option<Variable>, b: nat, base: int, n: int, i: int, y: Variable)
    requires -2147483648 <= i < 2147483648 && (ix.Some? ==> ix.value != x)
    ensures var env' := LoopEnv(env, x, ix, VArr(Cell(b, base), n), i);
            && env'[x] == VPtr(Cell(b, base + i)) && (ix.Some? ==> env'[ix.value] == VInt(i))
            && (y != x && ix != Some(y) ==> (y in env' <==> y in env) && (y in env ==> env'[y] == env[y]))
  {
  }

  /** The condition is true at w, and the body goes on to w'. */
  ghost predicate Again(c: Expr, body: Expr, env: Env, ext: External, loops: Loops, fuel: nat, w: World, w': World) {
    var test := Eval(c, false, env, w, ext, loops, fuel);
    test.Done? && test.v == VBool(true)
    && var o := Eval(body, false, env, test.w, ext, loops, fuel); o.Done? && o.w == w'
  }

  /** A while loop that is gone through to its end has tested its condition at the worlds ws: it was
      true at all of them but the last, and the body led from each to the next. */
  lemma {:induction false} WhileRuns(c: Expr, body: Expr, env: Env, w: World, ext: External, loops: Loops, fuel: nat) returns (ws: seq<World>)
    requires EvalWhile(c, body, env, w, ext, loops, fuel).Done?
    ensures 0 < |ws| <= fuel && ws[0] == w
    ensures forall j | 0 <= j < |ws| - 1 :: Again(c, body, env, ext, loops, fuel - j, ws[j], ws[j + 1])
    ensures var test := Eval(c, false, env, ws[|ws| - 1], ext, loops, fuel - |ws| + 1);
            test.Done? && test.v != VBool(true) && EvalWhile(c, body, env, w, ext, loops, fuel) == Done(VVoid, test.w)
    decreases fuel
  {
    hide Eval, EvalWhile, Again;
    if fuel == 0 {
      NoRounds(c, body, env, w, ext, loops);
      assert false;
    }
    WhileMeans(c, body, env, w, ext, loops, fuel);
    var test := Eval(c, false, env, w, ext, loops, fuel);
    if !AsBool(test.v) {
      ws := [w];
    } else {
      var o := Eval(body, false, env, test.w, ext, loops, fuel);
      var rest := WhileRuns(c, body, env, o.w, ext, loops, fuel - 1);
      ws := [w] + rest;
      AgainMeans(c, body, env, ext, loops, fuel, w, o.w);
      forall j | 0 <= j < |ws| - 1
        ensures Again(c, body, env, ext, loops, fuel - j, ws[j], ws[j + 1])
      {
        if j > 0 { assert ws[j] == rest[j - 1] && ws[j + 1] == rest[j - 1 + 1] && fuel - 1 - (j - 1) == fuel - j; }
      }
      assert ws[|ws| - 1] == rest[|rest| - 1] && fuel - 1 - |rest| + 1 == fuel - |ws| + 1;
    }
  }

  lemma NoRounds(c: Expr, body: Expr, env: Env, w: World, ext: External, loops: Loops)
    ensures EvalWhile(c, body, env, w, ext, loops, 0) == Timeout
  {
  }

  lemma AgainMeans(c: Expr, body: Expr, env: Env, ext: External, loops: Loops, fuel: nat, w: World, w': World)
    requires var test := Eval(c, false, env, w, ext, loops, fuel);
             test.Done? && test.v == VBool(true)
             && var o := Eval(body, false, env, test.w, ext, loops, fuel); o.Done? && o.w == w'
    ensures Again(c, body, env, ext, loops, fuel, w, w')
  {
  }

  // ---------------------------------------------------------------- variables, cells and calls

  /** A declared variable is what is in its slot, a loop's element what is in the element's cell, and an
      index or argument is a value; asked for by reference, slot and cell themselves. */
  lemma VariablesMean(x: Variable, p: Addr, env: Env, w: World, ext: External, loops: Loops, fuel: nat)
    ensures x.kind.Declared? && Local(x) in w.mem ==> Eval(Var(x), false, env, w, ext, loops, fuel) == Done(w.mem[Local(x)], w)
    ensures x.kind.Declared? ==> Eval(Var(x), true, env, w, ext, loops, fuel) == Done(VPtr(Local(x)), w)
    ensures x.kind.ForElement? && x in env && env[x] == VPtr(p) && p in w.mem ==>
              Eval(Var(x), false, env, w, ext, loops, fuel) == Done(w.mem[p], w) && Eval(Var(x), true, env, w, ext, loops, fuel) == Done(VPtr(p), w)
    ensures (x.kind.ForIndex? || x.kind.Argument?) && x in env ==> forall ref :: Eval(Var(x), ref, env, w, ext, loops, fuel) == Done(env[x], w)
  {
  }

  function Two(a: Expr, b: Expr): Expr { BlockE(Cons(a, Cons(b, Nil))) }

  /** A variable that has been declared with a value, or assigned one, has that value; other variables
      keep theirs. */
  lemma StoreThenRead(x: Variable, e: Expr, y: Variable, env: Env, w: World, ext: External, loops: Loops, fuel: nat)
    requires x.kind.Declared? && y.kind.Declared? && y != x && Eval(e, false, env, w, ext, loops, fuel).Done?
    ensures var out := Eval(e, false, env, w, ext, loops, fuel);
            var decl, asgn := Eval(Two(VarDecl(x, e), Var(x)), false, env, w, ext, loops, fuel), Eval(Two(Assign(Var(x), e), Var(x)), false, env, w, ext, loops, fuel);
            && decl.Done? && decl.v == out.v && asgn.Done? && asgn.v == out.v
            && (Local(y) in out.w.mem ==> Local(y) in asgn.w.mem && asgn.w.mem[Local(y)] == out.w.mem[Local(y)])
            && (Local(y) in out.w.mem ==> Local(y) in decl.w.mem && decl.w.mem[Local(y)] == out.w.mem[Local(y)])
            && asgn.w.trace == out.w.trace && decl.w.trace == out.w.trace
  {
    hide Eval, EvalBody;
    var out := Eval(e, false, env, w, ext, loops, fuel);
    var stored := out.w.(mem := out.w.mem[Local(x) := out.v]);
    assert Eval(Var(x), true, env, w, ext, loops, fuel) == Done(VPtr(Local(x)), w) by { VariablesMean(x, Local(x), env, w, ext, loops, fuel); }
    StoresDone(x, e, env, w, ext, loops, fuel);
    VariablesMean(x, Local(x), env, stored, ext, loops, fuel);
    TwoDone(VarDecl(x, e), Var(x), env, w, ext, loops, fuel, stored);
    TwoDone(Assign(Var(x), e), Var(x), env, w, ext, loops, fuel, stored);
  }

  lemma StoresDone(x: Variable, e: Expr, env: Env, w: World, ext: External, loops: Loops, fuel: nat)
    requires x.kind.Declared? && Eval(e, false, env, w, ext, loops, fuel).Done?
    requires Eval(Var(x), true, env, w, ext, loops, fuel) == Done(VPtr(Local(x)), w)
    ensures var out := Eval(e, false, env, w, ext, loops, fuel);
            var stored := out.w.(mem := out.w.mem[Local(x) := out.v]);
            && Eval(VarDecl(x, e), false, env, w, ext, loops, fuel) == Done(VVoid, stored)
            && Eval(Assign(Var(x), e), false, env, w, ext, loops, fuel) == Done(VVoid, stored)
  {
  }

  lemma TwoDone(a: Expr, b: Expr, env: Env, w: World, ext: External, loops: Loops, fuel: nat, w1: World)
    requires Eval(a, false, env, w, ext, loops, fuel) == Done(VVoid, w1) && Eval(b, false, env, w1, ext, loops, fuel).Done?
    ensures Eval(Two(a, b), false, env, w, ext, loops, fuel) == Eval(b, false, env, w1, ext, loops, fuel)
  {
    var es := Cons(a, Cons(b, Nil));
    assert EvalBody(es, VVoid, env, w, ext, loops, fuel) == EvalBody(Cons(b, Nil), VVoid, env, w1, ext, loops, fuel);
    var out := Eval(b, false, env, w1, ext, loops, fuel);
    assert EvalBody(Nil, out.v, env, out.w, ext, loops, fuel) == out;
  }

  /** What is behind a new pointer is the value it was made with. */
  lemma NewThenDeref(e: Expr, env: Env, w: World, ext: External, loops: Loops, fuel: nat)
    requires Eval(e, false, env, w, ext, loops, fuel).Done?
    ensures var out := Eval(Deref(New(e)), false, env, w, ext, loops, fuel);
            out.Done? && out.v == Eval(e, false, env, w, ext, loops, fuel).v
  {
    hide Eval;
    var v := Eval(e, false, env, w, ext, loops, fuel);
    var made := EvalNew(e, env, w, ext, loops, fuel);
    assert made.Done? && made.v == VPtr(Cell(v.w.next, 0)) && LoadFrom(made.w.mem, made.v) == v.v;
    NewIs(e, env, w, ext, loops, fuel);
    assert EvalDeref(New(e), false, env, w, ext, loops, fuel).v == v.v;
    DerefIs(New(e), env, w, ext, loops, fuel);
  }

  lemma NewIs(e: Expr, env: Env, w: World, ext: External, loops: Loops, fuel: nat)
    ensures Eval(New(e), false, env, w, ext, loops, fuel) == EvalNew(e, env, w, ext, loops, fuel)
  {
    hide EvalNew;
  }

  lemma DerefIs(e: Expr, env: Env, w: World, ext: External, loops: Loops, fuel: nat)
    ensures Eval(Deref(e), false, env, w, ext, loops, fuel) == EvalDeref(e, false, env, w, ext, loops, fuel)
  {
    hide EvalDeref;
  }

  function Nth(es: Exprs, k: nat): Expr
    requires k < Count(es)
  {
    if k == 0 then es.head else Nth(es.tail, k - 1)
  }

  function Count(es: Exprs): nat { if es.Nil? then 0 else 1 + Count(es.tail) }

  /** Argument k is evaluated k-th, each from where the one before ended, and its value is the k-th. */
  lemma {:induction false} ArgsRun(es: Exprs, env: Env, w: World, ext: External, loops: Loops, fuel: nat) returns (ws: seq<World>)
    requires EvalArgs(es, env, w, ext, loops, fuel).DoneAll?
    ensures var out := EvalArgs(es, env, w, ext, loops, fuel);
            && |out.vs| == Count(es) && |ws| == Count(es) + 1 && ws[0] == w && ws[Count(es)] == out.w
            && forall k | 0 <= k < Count(es) :: Eval(Nth(es, k), false, env, ws[k], ext, loops, fuel) == Done(out.vs[k], ws[k + 1])
    decreases es
  {
    hide Eval;
    if es.Nil? {
      ws := [w];
    } else {
      var out := EvalArgs(es, env, w, ext, loops, fuel);
      var first := Eval(es.head, false, env, w, ext, loops, fuel);
      var tail := EvalArgs(es.tail, env, first.w, ext, loops, fuel);
      var rest := ArgsRun(es.tail, env, first.w, ext, loops, fuel);
      ws := [w] + rest;
      forall k | 0 <= k < Count(es)
        ensures Eval(Nth(es, k), false, env, ws[k], ext, loops, fuel) == Done(out.vs[k], ws[k + 1])
      {
        if k > 0 { assert Nth(es, k) == Nth(es.tail, k - 1) && ws[k] == rest[k - 1] && ws[k + 1] == rest[k] && out.vs[k] == tail.vs[k - 1]; }
      }
    }
  }

  /** A call is recorded with the function and exactly these values, and gives what the function
      returns, or void. */
  lemma CallMeans(name: string, args: Exprs, isVoid: bool, env: Env, w: World, ext: External, loops: Loops, fuel: nat, v: Value, mem: Mem, next: nat)
    requires var a := EvalArgs(args, env, w, ext, loops, fuel); a.DoneAll? && ext(VFn(name), a.vs, a.w.mem, a.w.next) == CallReturns(v, mem, next)
    ensures var a := EvalArgs(args, env, w, ext, loops, fuel);
            var done := Done(if isVoid then VVoid else v, World(mem, next, a.w.trace + [Call(VFn(name), a.vs)]));
            Eval(CallE(FnRef(name), args, isVoid), false, env, w, ext, loops, fuel) == done
  {
    hide EvalArgs;
    assert Eval(FnRef(name), false, env, w, ext, loops, fuel) == Done(VFn(name), w);
    CallIsEval(FnRef(name), args, isVoid, env, w, ext, loops, fuel);
  }

  lemma CallIsEval(f: Expr, args: Exprs, isVoid: bool, env: Env, w: World, ext: External, loops: Loops, fuel: nat)
    ensures Eval(CallE(f, args, isVoid), false, env, w, ext, loops, fuel) == EvalCall(f, args, isVoid, env, w, ext, loops, fuel)
  {
    hide EvalCall;
  }
}
