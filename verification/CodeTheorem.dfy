/** Whole functions: the lowered program stops exactly when, and exactly as, direct evaluation does. */
module CodeTheorem {
  import opened Options
  import opened IR
  import opened Source
  import opened Lowering
  import opened LoweringFrame
  import opened CodeScope
  import opened CodeStep
  import opened CodeLoops
  import opened CodeSim
  import opened Readings

  function ParamSet(params: seq<Variable>): set<Variable> {
    set x | x in params
  }

  /** Arguments arrive in the first registers. */
  function ParamVars(params: seq<Variable>): map<Variable, Operand> {
    if params == [] then map[]
    else ParamVars(params[..|params| - 1])[params[|params| - 1] := Reg(|params| - 1)]
  }

  function ParamEnv(params: seq<Variable>, args: seq<Value>): Env
    requires |args| == |params|
  {
    if params == [] then map[]
    else ParamEnv(params[..|params| - 1], args[..|params| - 1])[params[|params| - 1] := args[|params| - 1]]
  }

  function ParamRegs(args: seq<Value>): Regs {
    map r: nat | 0 <= r < |args| :: args[r]
  }

  function Entry(params: seq<Variable>): CG {
    CG(Program([FreshBlock], map[]), 0, |params|, ParamVars(params))
  }

  function CompileFunction(params: seq<Variable>, body: Expr): Program {
    var g := Compile(body, false, Entry(params));
    g.cg.CloseAt(Ret(g.op), g.cg.cur).p
  }

  function Initial(args: seq<Value>, w: World): Config {
    Config(Going, 0, 0, 0, ParamRegs(args), w)
  }

  ghost predicate FunctionOk(params: seq<Variable>, body: Expr) {
    && (forall i | 0 <= i < |params| :: params[i].kind.Argument?)
    && (forall i, j | 0 <= i < j < |params| :: params[i] != params[j])
    && Formed(body, ParamSet(params))
  }

  lemma {:induction false} ParamsBound(params: seq<Variable>, args: seq<Value>, all: seq<Value>)
    requires |args| == |params| && args <= all
    requires forall i | 0 <= i < |params| :: params[i].kind.Argument?
    requires forall i, j | 0 <= i < j < |params| :: params[i] != params[j]
    ensures Bound(ParamSet(params), ParamVars(params), ParamEnv(params, args), ParamRegs(all))
    ensures forall x | x in ParamVars(params) :: x in params && Below(ParamVars(params)[x], |params|)
  {
    if params != [] {
      var n := |params| - 1;
      ParamsBound(params[..n], args[..n], all);
      assert params == params[..n] + [params[n]];
      assert args[n] == all[n];
    }
  }

  /** How a finished evaluation shows on the machine. */
  ghost predicate HaltsAs(c: Config, out: Outcome) {
    match out
    case Done(v, w) => c.status == Returned(v) && c.w == w
    case Trap(w) => c.status == Trapped && c.w == w
    case Timeout => false
    case Broken => c.status.Stuck?
  }

  /** Forward: a finished evaluation is reproduced, an unfinished one keeps the machine running for at
      least as many steps as it had fuel, and where evaluation breaks off at a for loop the machine is
      stuck. */
  lemma RunsAsLowered(params: seq<Variable>, body: Expr, args: seq<Value>, w: World, ext: External, fuel: nat) returns (n: nat)
    requires FunctionOk(params, body) && |args| == |params|
    ensures var out := Eval(body, false, ParamEnv(params, args), w, ext, AsLowered, fuel);
            var c := Run(CompileFunction(params, body), n, Initial(args, w), ext);
            if out.Timeout? then n >= fuel && c.status.Going? else HaltsAs(c, out)
  {
    hide Compile, Eval, TwoWay, Formed, Ext, Run, CG.CloseAt, CG.Update, ParamVars, ParamEnv, ParamRegs, Bound, Within, Simulates;
    var cg := Entry(params);
    var env := ParamEnv(params, args);
    ParamsBound(params, args, args);
    var c := Initial(args, w);
    FrameOf(body, false, cg);
    var g := Compile(body, false, cg);
    var q := CompileFunction(params, body);
    var k := Ctx(q, ext, env, fuel);
    WithinSelf(q);
    WithinClose(g.cg, Ret(g.op), g.cg.cur, q);
    FunctionTwoWay(params, body);
    n := Sim(k, body, false, cg, ParamSet(params), c);
    var out := Eval(body, false, env, w, ext, AsLowered, fuel);
    if out.Done? {
      SimulatesDone(k, c, n, out, g, cg.nextReg);
      StepClose(g.cg, Ret(g.op), g.cg.cur, q, Run(q, n, c, ext), ext);
      RunPlus(q, n, 1, c, ext);
      n := n + 1;
    } else {
      NotDone(k, c, n, out, g, cg.nextReg);
    }
  }

  lemma NotDone(k: Ctx, c: Config, n: nat, out: Outcome, g: Gen, below: nat)
    requires Simulates(k, c, n, out, g, below) && !out.Done?
    ensures var c' := Run(k.q, n, c, k.ext);
            if out.Trap? then Traps(c', out.w) else if out.Broken? then c'.status.Stuck? else n >= k.fuel && c'.status.Going?
  {
  }

  lemma WithinSelf(q: Program)
    ensures Within(q, q)
  {
  }

  /** No phi of a lowered function has more than two edges. */
  lemma FunctionTwoWay(params: seq<Variable>, body: Expr)
    requires FunctionOk(params, body)
    ensures TwoWay(CompileFunction(params, body))
  {
    hide Compile, Formed, CG.CloseAt, CG.Update, ParamVars, Bound, ParamRegs, ParamEnv;
    var none := seq(|params|, _ => VVoid);
    ParamsBound(params, none, none);
    FrameOf(body, false, Entry(params));
  }

  /** Backward: however the machine stops, some amount of fuel lets evaluation end that way. */
  lemma StopsOnlyAsLowered(params: seq<Variable>, body: Expr, args: seq<Value>, w: World, ext: External, n: nat)
    requires FunctionOk(params, body) && |args| == |params|
    requires !Run(CompileFunction(params, body), n, Initial(args, w), ext).status.Going?
    ensures HaltsAs(Run(CompileFunction(params, body), n, Initial(args, w), ext),
                    Eval(body, false, ParamEnv(params, args), w, ext, AsLowered, n + 1))
  {
    hide Eval, CompileFunction, Run, Formed;
    var q := CompileFunction(params, body);
    var c := Initial(args, w);
    var m := RunsAsLowered(params, body, args, w, ext, n + 1);
    if Eval(body, false, ParamEnv(params, args), w, ext, AsLowered, n + 1).Timeout? {
      RunPlus(q, n, m - n, c, ext);
      StoppedStays(q, m - n, Run(q, n, c, ext), ext);
    } else {
      StopsOnce(q, m, n, c, ext);
    }
  }

  ghost predicate Halts(params: seq<Variable>, body: Expr, args: seq<Value>, w: World, ext: External, out: Outcome) {
    exists n: nat :: HaltsAs(Run(CompileFunction(params, body), n, Initial(args, w), ext), out)
  }

  ghost predicate Evaluates(params: seq<Variable>, body: Expr, args: seq<Value>, w: World, ext: External, loops: Loops, out: Outcome)
    requires |args| == |params|
  {
    exists fuel: nat :: Eval(body, false, ParamEnv(params, args), w, ext, loops, fuel) == out
  }

  /** Both directions together, for every function and every way of stopping. */
  lemma StopsExactlyAsLowered(params: seq<Variable>, body: Expr, args: seq<Value>, w: World, ext: External, out: Outcome)
    requires FunctionOk(params, body) && |args| == |params| && !out.Timeout?
    ensures Halts(params, body, args, w, ext, out) <==> Evaluates(params, body, args, w, ext, AsLowered, out)
  {
    hide Eval, CompileFunction, Run, Formed;
    if n: nat :| HaltsAs(Run(CompileFunction(params, body), n, Initial(args, w), ext), out) {
      StopsOnlyAsLowered(params, body, args, w, ext, n);
      assert Eval(body, false, ParamEnv(params, args), w, ext, AsLowered, n + 1) == out;
    }
    if fuel: nat :| Eval(body, false, ParamEnv(params, args), w, ext, AsLowered, fuel) == out {
      var m := RunsAsLowered(params, body, args, w, ext, fuel);
    }
  }

  ghost predicate GetsStuck(params: seq<Variable>, body: Expr, args: seq<Value>, w: World, ext: External) {
    exists n: nat :: Run(CompileFunction(params, body), n, Initial(args, w), ext).status.Stuck?
  }

  /** A lowered function gets stuck if and only if evaluation comes to a for loop whose array has
      elements and whose array expression spans more than one block. */
  lemma StuckExactly(params: seq<Variable>, body: Expr, args: seq<Value>, w: World, ext: External)
    requires FunctionOk(params, body) && |args| == |params|
    ensures GetsStuck(params, body, args, w, ext) <==> Evaluates(params, body, args, w, ext, AsLowered, Broken)
  {
    hide Eval, CompileFunction, Run, FunctionOk, Evaluates;
    StopsExactlyAsLowered(params, body, args, w, ext, Broken);
    if n: nat :| Run(CompileFunction(params, body), n, Initial(args, w), ext).status.Stuck? {
      assert HaltsAs(Run(CompileFunction(params, body), n, Initial(args, w), ext), Broken);
    }
    if n: nat :| HaltsAs(Run(CompileFunction(params, body), n, Initial(args, w), ext), Broken) {
      assert Run(CompileFunction(params, body), n, Initial(args, w), ext).status.Stuck?;
    }
  }

  /** If evaluation does not come to such a loop, the lowered function stops exactly as direct
      evaluation of its body does. */
  lemma StopsUnlessBroken(params: seq<Variable>, body: Expr, args: seq<Value>, w: World, ext: External, out: Outcome)
    requires FunctionOk(params, body) && |args| == |params| && !out.Timeout?
    requires !Evaluates(params, body, args, w, ext, AsLowered, Broken)
    ensures Halts(params, body, args, w, ext, out) <==> Evaluates(params, body, args, w, ext, AsWritten, out)
  {
    hide Eval, CompileFunction, Run, FunctionOk, Halts, HaltsAs;
    StopsExactlyAsLowered(params, body, args, w, ext, out);
    var env := ParamEnv(params, args);
    forall fuel: nat ensures Eval(body, false, env, w, ext, AsLowered, fuel) == Eval(body, false, env, w, ext, AsWritten, fuel) {
      Read(body, false, env, w, ext, fuel);
    }
    if fuel: nat :| Eval(body, false, env, w, ext, AsLowered, fuel) == out {
      assert Eval(body, false, env, w, ext, AsWritten, fuel) == out;
    }
    if fuel: nat :| Eval(body, false, env, w, ext, AsWritten, fuel) == out {
      assert Eval(body, false, env, w, ext, AsLowered, fuel) == out;
    }
  }

  // ---------------------------------------------------------------- functions with plain for loops

  /** Forward: a finished evaluation is reproduced, and an unfinished one keeps the machine running
      for at least as many steps as it had fuel. */
  lemma RunsAsEvaluated(params: seq<Variable>, body: Expr, args: seq<Value>, w: World, ext: External, fuel: nat) returns (n: nat)
    requires FunctionOk(params, body) && PlainFors(body) && |args| == |params|
    ensures var out := Eval(body, false, ParamEnv(params, args), w, ext, AsWritten, fuel);
            var c := Run(CompileFunction(params, body), n, Initial(args, w), ext);
            if out.Timeout? then n >= fuel && c.status.Going? else HaltsAs(c, out)
  {
    hide Eval, CompileFunction, Run, FunctionOk, PlainFors;
    n := RunsAsLowered(params, body, args, w, ext, fuel);
    Read(body, false, ParamEnv(params, args), w, ext, fuel);
  }

  /** Backward: however the machine stops, some amount of fuel lets direct evaluation finish that
      way.  In particular it never gets stuck, and it runs on when evaluation does not end. */
  lemma StopsOnlyAsEvaluated(params: seq<Variable>, body: Expr, args: seq<Value>, w: World, ext: External, n: nat)
    requires FunctionOk(params, body) && PlainFors(body) && |args| == |params|
    requires !Run(CompileFunction(params, body), n, Initial(args, w), ext).status.Going?
    ensures HaltsAs(Run(CompileFunction(params, body), n, Initial(args, w), ext),
                    Eval(body, false, ParamEnv(params, args), w, ext, AsWritten, n + 1))
  {
    hide Eval, CompileFunction, Run, FunctionOk, PlainFors;
    StopsOnlyAsLowered(params, body, args, w, ext, n);
    Read(body, false, ParamEnv(params, args), w, ext, n + 1);
  }

  /** Both directions together. */
  lemma StopsExactlyAsEvaluated(params: seq<Variable>, body: Expr, args: seq<Value>, w: World, ext: External, out: Outcome)
    requires FunctionOk(params, body) && PlainFors(body) && |args| == |params| && !out.Timeout?
    ensures (exists n: nat :: HaltsAs(Run(CompileFunction(params, body), n, Initial(args, w), ext), out))
       <==> (exists fuel: nat :: Eval(body, false, ParamEnv(params, args), w, ext, AsWritten, fuel) == out)
  {
    hide Eval, CompileFunction, Run, PlainFors, Formed;
    if n: nat :| HaltsAs(Run(CompileFunction(params, body), n, Initial(args, w), ext), out) {
      StopsOnlyAsEvaluated(params, body, args, w, ext, n);
      assert Eval(body, false, ParamEnv(params, args), w, ext, AsWritten, n + 1) == out;
    }
    if fuel: nat :| Eval(body, false, ParamEnv(params, args), w, ext, AsWritten, fuel) == out {
      var m := RunsAsEvaluated(params, body, args, w, ext, fuel);
    }
  }

  // ---------------------------------------------------------------- for loops whose array expression branches

  /** The other side of the condition on for loops: when the array expression opens a block, every
      run that reaches the loop with at least one element gets stuck at the index phi, whose entry
      edge names a block the machine did not come from.  (k.q is any program around the loop in which
      no phi has more than two edges, as in every lowered function.) */
  lemma ForGetsStuck(k: Ctx, x: Variable, ix: Option<Variable>, a: Expr, body: Expr, cg: CG, d: set<Variable>, c: Config) returns (n: nat)
    requires Ready(k, cg, d, c) && Formed(For(x, ix, a, body), d) && Opens(a)
    requires TwoWay(k.q) && Within(CompileFor(x, ix, a, body, cg).cg.p, k.q)
    requires var out := Eval(a, false, k.env, c.w, k.ext, AsLowered, k.fuel);
             out.Done? && ArraySize(out.v) > 0
    ensures After(k, n, c).status.Stuck?
  {
    hide Within, Ready, CompileFor, Opens, TwoWay, Formed;
    ForLowered(x, ix, a, body, cg);
    n := Sim(k, For(x, ix, a, body), false, cg, d, c);
  }

  /** So a function whose body is such a loop gets stuck on every array with elements. */
  lemma ForFunctionStuck(params: seq<Variable>, x: Variable, ix: Option<Variable>, a: Expr, body: Expr, args: seq<Value>, w: World, ext: External, fuel: nat) returns (n: nat)
    requires FunctionOk(params, For(x, ix, a, body)) && PlainFors(a) && Opens(a) && |args| == |params|
    requires var out := Eval(a, false, ParamEnv(params, args), w, ext, AsWritten, fuel);
             out.Done? && ArraySize(out.v) > 0
    ensures Run(CompileFunction(params, For(x, ix, a, body)), n, Initial(args, w), ext).status.Stuck?
  {
    hide Eval, CompileFunction, Run, FunctionOk, PlainFors, Opens;
    Read(a, false, ParamEnv(params, args), w, ext, fuel);
    ForBreaksOff(x, ix, a, body, ParamEnv(params, args), w, ext, fuel);
    n := RunsAsLowered(params, For(x, ix, a, body), args, w, ext, fuel);
  }

  lemma ForBreaksOff(x: Variable, ix: Option<Variable>, a: Expr, body: Expr, env: Env, w: World, ext: External, fuel: nat)
    requires var out := Eval(a, false, env, w, ext, AsLowered, fuel);
             Opens(a) && out.Done? && ArraySize(out.v) > 0
    ensures Eval(For(x, ix, a, body), false, env, w, ext, AsLowered, fuel) == Broken
  {
    hide Opens;
  }

  lemma ForLowered(x: Variable, ix: Option<Variable>, a: Expr, body: Expr, cg: CG)
    ensures Compile(For(x, ix, a, body), false, cg) == CompileFor(x, ix, a, body, cg)
  {
  }

  /** A program that shows it: a loop over an array that a flag chooses, and an array of one element.
      Evaluation goes through the loop once; the lowered function gets stuck. */
  lemma ForStuckExample(w: World, ext: External, fuel: nat) returns (n: nat)
    ensures var f, a, x := Variable(0, Argument), Variable(1, Argument), Variable(2, ForElement);
            var params, body := [f, a], For(x, None, If(Var(f), Var(a), Var(a)), LitVoid);
            var args := [VBool(true), VArr(Cell(0, 0), 1)];
            && FunctionOk(params, body)
            && Eval(body, false, ParamEnv(params, args), w, ext, AsWritten, fuel) == Done(VVoid, w)
            && Run(CompileFunction(params, body), n, Initial(args, w), ext).status.Stuck?
  {
    hide CompileFunction, Run, Compile, Eval, FunctionOk, ParamEnv, PlainFors, Opens;
    var f, a, x := Variable(0, Argument), Variable(1, Argument), Variable(2, ForElement);
    var args := [VBool(true), VArr(Cell(0, 0), 1)];
    ExampleOk(f, a, x);
    ExampleEval(f, a, x, args, w, ext, fuel);
    n := ForFunctionStuck([f, a], x, None, If(Var(f), Var(a), Var(a)), LitVoid, args, w, ext, fuel);
  }

  lemma ExampleOk(f: Variable, a: Variable, x: Variable)
    requires f != a && f.kind.Argument? && a.kind.Argument? && x.kind.ForElement?
    ensures FunctionOk([f, a], For(x, None, If(Var(f), Var(a), Var(a)), LitVoid))
    ensures PlainFors(If(Var(f), Var(a), Var(a))) && Opens(If(Var(f), Var(a), Var(a)))
  {
    var d := {f, a};
    assert ParamSet([f, a]) == d;
    var arr := If(Var(f), Var(a), Var(a));
    assert Decls(Var(f)) == {} && Decls(Var(a)) == {};
    assert Formed(Var(f), d) && Formed(Var(a), d + {}) && Formed(Var(a), d + {} + {});
    assert Formed(arr, d);
    assert Decls(arr) == {};
  }

  lemma ExampleEval(f: Variable, a: Variable, x: Variable, args: seq<Value>, w: World, ext: External, fuel: nat)
    requires f != a && f.kind.Argument? && a.kind.Argument? && args == [VBool(true), VArr(Cell(0, 0), 1)]
    ensures var env := ParamEnv([f, a], args);
            && Eval(If(Var(f), Var(a), Var(a)), false, env, w, ext, AsWritten, fuel) == Done(args[1], w) && ArraySize(args[1]) == 1
            && Eval(For(x, None, If(Var(f), Var(a), Var(a)), LitVoid), false, env, w, ext, AsWritten, fuel) == Done(VVoid, w)
  {
    var env := ParamEnv([f, a], args);
    assert env == map[f := args[0], a := args[1]] by {
      assert [f, a][..1] == [f] && args[..1] == [args[0]] && [f][..0] == [] && args[..1][..0] == [];
      assert ParamEnv([f], [args[0]]) == map[f := args[0]];
    }
    assert Eval(Var(f), false, env, w, ext, AsWritten, fuel) == Done(VBool(true), w);
    assert Eval(Var(a), false, env, w, ext, AsWritten, fuel) == Done(args[1], w);
    assert EvalIf(Var(f), Var(a), Var(a), env, w, ext, AsWritten, fuel) == Done(args[1], w);
    assert EvalFor(x, None, args[1], 1, LitVoid, env, w, ext, AsWritten, fuel) == Done(VVoid, w);
    assert Eval(LitVoid, false, LoopEnv(env, x, None, args[1], 0), w, ext, AsWritten, fuel) == Done(VVoid, w);
    assert EvalFor(x, None, args[1], 0, LitVoid, env, w, ext, AsWritten, fuel) == Done(VVoid, w);
  }
}
