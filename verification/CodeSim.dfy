/** The lowered program does what direct evaluation does: same value, same memory, same calls in the
    same order, trap for trap, and no stop when evaluation does not end. */
module CodeSim {
  import opened Options
  import opened IR
  import opened Source
  import opened Lowering
  import opened LoweringFrame
  import opened CodeScope
  import opened CodeStep
  import opened CodeLoops

  /** What every simulation lemma starts from. */
  ghost predicate Ready(k: Ctx, cg: CG, d: set<Variable>, c: Config) {
    cg.Valid() && At(c, cg) && Bound(d, cg.vars, k.env, c.regs)
  }

  /** From where the code for e starts, the machine does what evaluating e does. */
  lemma {:induction false} Sim(k: Ctx, e: Expr, ref: bool, cg: CG, d: set<Variable>, c: Config) returns (n: nat)
    requires Ready(k, cg, d, c) && Formed(e, d) && TwoWay(k.q)
    requires Within(Compile(e, ref, cg).cg.p, k.q)
    ensures Simulates(k, c, n, Eval(e, ref, k.env, c.w, k.ext, AsLowered, k.fuel), Compile(e, ref, cg), cg.nextReg)
    decreases k.fuel, e, 3
  {
    hide *;
    if IsControl(e) {
      n := SimControl(k, e, ref, cg, d, c);
    } else {
      n := SimSimple(k, e, ref, cg, d, c);
    }
  }

  lemma {:induction false} SimSimple(k: Ctx, e: Expr, ref: bool, cg: CG, d: set<Variable>, c: Config) returns (n: nat)
    requires Ready(k, cg, d, c) && Formed(e, d) && TwoWay(k.q) && !IsControl(e)
    requires Within(Compile(e, ref, cg).cg.p, k.q)
    ensures Simulates(k, c, n, Eval(e, ref, k.env, c.w, k.ext, AsLowered, k.fuel), Compile(e, ref, cg), cg.nextReg)
    decreases k.fuel, e, 2
  {
    hide Within, CompileIdent, CompileNot, CompileDeref, CompileNew, CompileVarDecl, CompileAssign, CompileAndOr, CompileBody, CompileCall, CompileIndex, CompileIf, CompileIfThen, CompileFor, CompileWhile, EvalNot, EvalDeref, EvalNew, EvalAndOr, EvalBody, EvalCall, EvalIndex, EvalAssign, EvalIf, EvalIfThen, EvalFor, EvalWhile, EvalVarDecl, FormedAll, TwoWay, Bound, Simulates, CG.Valid;
    match e
    case LitVoid => n := 0; HereSimulates(k, c, VVoid, Gen(cg, VoidOp), cg.nextReg);
    case LitBool(b) => n := 0; HereSimulates(k, c, VBool(b), Gen(cg, Const(VBool(b))), cg.nextReg);
    case LitInt(i) => n := 0; HereSimulates(k, c, VInt(I32(i)), Gen(cg, Const(VInt(I32(i)))), cg.nextReg);
    case FnRef(name) => n := 0; HereSimulates(k, c, VFn(name), Gen(cg, Const(VFn(name))), cg.nextReg);
    case Var(x) => n := SimIdent(k, x, ref, cg, d, c);
    case NotE(e1) => n := SimNot(k, e1, cg, d, c);
    case Deref(e1) => n := SimDeref(k, e1, ref, cg, d, c);
    case New(e1) => n := SimNew(k, e1, cg, d, c);
    case VarDecl(x, e1) => n := SimVarDecl(k, x, e1, cg, d, c);
    case Assign(l, r) => n := SimAssign(k, l, r, cg, d, c);
    case BlockE(es) => n := SimBody(k, es, VoidOp, VVoid, cg, d, c);
    case CallE(f, args, isVoid) => n := SimCall(k, f, args, isVoid, cg, d, c);
    case Index(a, i) => n := SimIndex(k, a, i, ref, cg, d, c);
  }

  lemma {:induction false} SimControl(k: Ctx, e: Expr, ref: bool, cg: CG, d: set<Variable>, c: Config) returns (n: nat)
    requires Ready(k, cg, d, c) && Formed(e, d) && TwoWay(k.q) && IsControl(e)
    requires Within(Compile(e, ref, cg).cg.p, k.q)
    ensures Simulates(k, c, n, Eval(e, ref, k.env, c.w, k.ext, AsLowered, k.fuel), Compile(e, ref, cg), cg.nextReg)
    decreases k.fuel, e, 2
  {
    hide Within, CompileIdent, CompileNot, CompileDeref, CompileNew, CompileVarDecl, CompileAssign, CompileAndOr, CompileBody, CompileCall, CompileIndex, CompileIf, CompileIfThen, CompileFor, CompileWhile, EvalNot, EvalDeref, EvalNew, EvalAndOr, EvalBody, EvalCall, EvalIndex, EvalAssign, EvalIf, EvalIfThen, EvalWhile, EvalVarDecl, FormedAll, TwoWay, Bound, Simulates, CG.Valid, At;
    match e
    case And(l, r) => n := SimAndOr(k, e, l, r, true, cg, d, c);
    case Or(l, r) => n := SimAndOr(k, e, l, r, false, cg, d, c);
    case If(c1, t, e1) => n := SimIf(k, c1, t, e1, cg, d, c);
    case IfThen(c1, t) => n := SimIfThen(k, c1, t, cg, d, c);
    case For(x, ix, a, body) => n := SimFor(k, x, ix, a, body, cg, d, c);
    case While(c1, body) => n := SimWhile(k, c1, body, cg, d, c);
  }

  lemma SimIdent(k: Ctx, x: Variable, ref: bool, cg: CG, d: set<Variable>, c: Config) returns (n: nat)
    requires Ready(k, cg, d, c) && x in d && Within(CompileIdent(x, ref, cg).cg.p, k.q)
    ensures Simulates(k, c, n, Eval(Var(x), ref, k.env, c.w, k.ext, AsLowered, k.fuel), CompileIdent(x, ref, cg), cg.nextReg)
  {
    hide Within, Run, After, Simulates, SameBelow, CG.Emit, CG.Update, CG.Define;
    n := 0;
    if IsStorage(x) && !ref {
      SimLoad(k, cg.vars[x], cg, c);
      n := 1;
    } else {
      HereSimulates(k, c, Binding(k.env, x), Gen(cg, cg.vars[x]), cg.nextReg);
    }
  }

  lemma {:induction false} SimNot(k: Ctx, e: Expr, cg: CG, d: set<Variable>, c: Config) returns (n: nat)
    requires Ready(k, cg, d, c) && Formed(e, d) && TwoWay(k.q)
    requires Within(CompileNot(e, cg).cg.p, k.q)
    ensures Simulates(k, c, n, EvalNot(e, k.env, c.w, k.ext, AsLowered, k.fuel), CompileNot(e, cg), cg.nextReg)
    decreases k.fuel, NotE(e), 1
  {
    hide Compile, Eval, Within, Ext, Formed, TwoWay, Bound, Decls, CG.Emit, CG.Update, CG.Define, CG.Compute, CG.CloseAt, CG.Create, CG.DefinePhi, Run, After, Simulates, SameBelow;
    var g := Compile(e, false, cg);
    FrameOf(e, false, cg);
    WithinCompute(g.cg, Not, g.op, g.op, k.q);
    n := Sim(k, e, false, cg, d, c);
    var out := Eval(e, false, k.env, c.w, k.ext, AsLowered, k.fuel);
    if out.Done? {
      SimulatesDone(k, c, n, out, g, cg.nextReg);
      GoodGrows(cg, g.cg);
      SimPure(k, Not, g.op, g.op, g.cg, After(k, n, c));
      Extend(k, c, n, k, 1, Done(VBool(!AsBool(out.v)), out.w), CompileNot(e, cg), cg.nextReg, g.cg.nextReg);
      n := n + 1;
    } else if !out.Done? {
      StopSimulates(k, c, n, out, g, cg.nextReg, CompileNot(e, cg), cg.nextReg);
    }
  }

  lemma {:induction false} SimDeref(k: Ctx, e: Expr, ref: bool, cg: CG, d: set<Variable>, c: Config) returns (n: nat)
    requires Ready(k, cg, d, c) && Formed(e, d) && TwoWay(k.q)
    requires Within(CompileDeref(e, ref, cg).cg.p, k.q)
    ensures Simulates(k, c, n, EvalDeref(e, ref, k.env, c.w, k.ext, AsLowered, k.fuel), CompileDeref(e, ref, cg), cg.nextReg)
    decreases k.fuel, Deref(e), 1
  {
    hide Compile, Eval, Within, Ext, Formed, TwoWay, Bound, Decls, CG.Emit, CG.Update, CG.Define, CG.Compute, CG.CloseAt, CG.Create, CG.DefinePhi, Run, After, Simulates, SameBelow;
    var g := Compile(e, false, cg);
    FrameOf(e, false, cg);
    if !ref { WithinDefine(g.cg, Load(g.cg.nextReg, g.op), k.q); }
    n := Sim(k, e, false, cg, d, c);
    var out := Eval(e, false, k.env, c.w, k.ext, AsLowered, k.fuel);
    if out.Done? && !ref {
      SimulatesDone(k, c, n, out, g, cg.nextReg);
      GoodGrows(cg, g.cg);
      SimLoad(k, g.op, g.cg, After(k, n, c));
      Extend(k, c, n, k, 1, Done(LoadFrom(out.w.mem, out.v), out.w), CompileDeref(e, ref, cg), cg.nextReg, g.cg.nextReg);
      n := n + 1;
    } else if !out.Done? {
      StopSimulates(k, c, n, out, g, cg.nextReg, CompileDeref(e, ref, cg), cg.nextReg);
    }
  }

  lemma {:induction false} SimNew(k: Ctx, e: Expr, cg: CG, d: set<Variable>, c: Config) returns (n: nat)
    requires Ready(k, cg, d, c) && Formed(e, d) && TwoWay(k.q)
    requires Within(CompileNew(e, cg).cg.p, k.q)
    ensures Simulates(k, c, n, EvalNew(e, k.env, c.w, k.ext, AsLowered, k.fuel), CompileNew(e, cg), cg.nextReg)
    decreases k.fuel, New(e), 1
  {
    hide Compile, Eval, Within, Ext, Formed, TwoWay, Bound, Decls, CG.Emit, CG.Update, CG.Define, CG.Compute, CG.CloseAt, CG.Create, CG.DefinePhi, Run, After, Simulates, SameBelow;
    var g := Compile(e, false, cg);
    FrameOf(e, false, cg);
    var r := g.cg.nextReg;
    GoodEmit(cg, g.cg, NewCell(r));
    WithinEmit(g.cg.Define(NewCell(r)), Store(g.op, Reg(r)), k.q);
    WithinDefine(g.cg, NewCell(r), k.q);
    n := Sim(k, e, false, cg, d, c);
    var out := Eval(e, false, k.env, c.w, k.ext, AsLowered, k.fuel);
    if out.Done? {
      SimulatesDone(k, c, n, out, g, cg.nextReg);
      GoodGrows(cg, g.cg);
      SimNewStore(k, g.op, g.cg, After(k, n, c));
      var (p, w) := MakeCell(out.w);
      Extend(k, c, n, k, 2, Done(p, w.(mem := StoreTo(w.mem, p, out.v))), CompileNew(e, cg), cg.nextReg, r);
      n := n + 2;
    } else if !out.Done? {
      StopSimulates(k, c, n, out, g, cg.nextReg, CompileNew(e, cg), cg.nextReg);
    }
  }

  lemma {:induction false} SimVarDecl(k: Ctx, x: Variable, e: Expr, cg: CG, d: set<Variable>, c: Config) returns (n: nat)
    requires Ready(k, cg, d, c) && Formed(e, d) && TwoWay(k.q)
    requires Within(CompileVarDecl(x, e, cg).cg.p, k.q)
    ensures Simulates(k, c, n, EvalVarDecl(x, e, k.env, c.w, k.ext, AsLowered, k.fuel), CompileVarDecl(x, e, cg), cg.nextReg)
    decreases k.fuel, VarDecl(x, e), 1
  {
    hide Compile, Eval, Within, Ext, Formed, TwoWay, Bound, Decls, CG.Emit, CG.Update, CG.Define, CG.Compute, CG.CloseAt, CG.Create, CG.DefinePhi, Run, After, Simulates, SameBelow;
    var g := Compile(e, false, cg);
    FrameOf(e, false, cg);
    var slot := Const(VPtr(Local(x)));
    WithinEmit(g.cg, Store(g.op, slot), k.q);
    n := Sim(k, e, false, cg, d, c);
    var out := Eval(e, false, k.env, c.w, k.ext, AsLowered, k.fuel);
    if out.Done? {
      SimulatesDone(k, c, n, out, g, cg.nextReg);
      GoodGrows(cg, g.cg);
      SimStore(k, g.op, slot, VoidOp, g.cg, After(k, n, c), g.cg.nextReg);
      var w := out.w.(mem := StoreTo(out.w.mem, VPtr(Local(x)), out.v));
      Extend(k, c, n, k, 1, Done(VVoid, w), Gen(g.cg.Emit(Store(g.op, slot)), VoidOp), cg.nextReg, g.cg.nextReg);
      n := n + 1;
      SimulatesBind(k, c, n, Done(VVoid, w), g.cg.Emit(Store(g.op, slot)), VoidOp, cg.nextReg, CompileVarDecl(x, e, cg).cg);
    } else if !out.Done? {
      StopSimulates(k, c, n, out, g, cg.nextReg, CompileVarDecl(x, e, cg), cg.nextReg);
    }
  }

  lemma SimulatesBind(k: Ctx, c: Config, n: nat, out: Outcome, a: CG, op: Operand, below: nat, b: CG)
    requires Simulates(k, c, n, out, Gen(a, op), below) && b.p == a.p && b.cur == a.cur
    ensures Simulates(k, c, n, out, Gen(b, op), below)
  {
  }

  /** Two operands evaluated one after the other: the first keeps its value while the second runs. */
  lemma {:induction false} SimPair(k: Ctx, whole: Expr, l: Expr, ref: bool, r: Expr, cg: CG, d: set<Variable>, c: Config) returns (n: nat)
    requires whole == Assign(l, r) || whole == Index(l, r)
    requires Ready(k, cg, d, c) && Formed(l, d) && Formed(r, d + Decls(l)) && TwoWay(k.q)
    requires Within(Compile(r, false, Compile(l, ref, cg).cg).cg.p, k.q)
    ensures var g1 := Compile(l, ref, cg);
            var o1 := Eval(l, ref, k.env, c.w, k.ext, AsLowered, k.fuel);
            if !o1.Done? then Simulates(k, c, n, o1, g1, cg.nextReg)
            else var o2 := Eval(r, false, k.env, o1.w, k.ext, AsLowered, k.fuel);
                 Simulates(k, c, n, o2, Compile(r, false, g1.cg), cg.nextReg)
                 && (o2.Done? ==> OpVal(After(k, n, c).regs, g1.op) == o1.v)
    decreases k.fuel, whole, 0
  {
    hide Compile, Eval, Within, Ext, Formed, TwoWay, Bound, Decls, CG.Emit, CG.Update, CG.Define, CG.Compute, CG.CloseAt, CG.Create, CG.DefinePhi, Run, After, Simulates, SameBelow;
    var g1 := Compile(l, ref, cg);
    var g2 := Compile(r, false, g1.cg);
    FrameOf(l, ref, cg);
    FrameOf(r, false, g1.cg);
    WithinGood(g1.cg, g2.cg, k.q);
    n := Sim(k, l, ref, cg, d, c);
    var o1 := Eval(l, ref, k.env, c.w, k.ext, AsLowered, k.fuel);
    if o1.Done? {
      SimulatesDone(k, c, n, o1, g1, cg.nextReg);
      var c1 := After(k, n, c);
      BoundAfter(l, ref, d, cg, k.env, c.regs, c1.regs);
      var m := Sim(k, r, false, g1.cg, d + Decls(l), c1);
      GoodGrows(cg, g1.cg);
      var o2 := Eval(r, false, k.env, o1.w, k.ext, AsLowered, k.fuel);
      Extend(k, c, n, k, m, o2, g2, cg.nextReg, g1.cg.nextReg);
      AfterPlus(k, c, n, m);
      if o2.Done? {
        SimulatesDone(k, c1, m, o2, g2, g1.cg.nextReg);
        OpBelow(c1.regs, After(k, m, c1).regs, g1.op, g1.cg.nextReg);
      }
      n := n + m;
    }
  }

  lemma {:induction false} SimAssign(k: Ctx, l: Expr, r: Expr, cg: CG, d: set<Variable>, c: Config) returns (n: nat)
    requires Ready(k, cg, d, c) && Formed(l, d) && Formed(r, d + Decls(l)) && TwoWay(k.q)
    requires Within(CompileAssign(l, r, cg).cg.p, k.q)
    ensures Simulates(k, c, n, EvalAssign(l, r, k.env, c.w, k.ext, AsLowered, k.fuel), CompileAssign(l, r, cg), cg.nextReg)
    decreases k.fuel, Assign(l, r), 1
  {
    hide Compile, Eval, Within, Ext, Formed, TwoWay, Bound, Decls, CG.Emit, CG.Update, CG.Define, CG.Compute, CG.CloseAt, CG.Create, CG.DefinePhi, Run, After, Simulates, SameBelow;
    var g1 := Compile(l, true, cg);
    var g2 := Compile(r, false, g1.cg);
    FrameOf(l, true, cg);
    FrameOf(r, false, g1.cg);
    WithinEmit(g2.cg, Store(g2.op, g1.op), k.q);
    n := SimPair(k, Assign(l, r), l, true, r, cg, d, c);
    var o1 := Eval(l, true, k.env, c.w, k.ext, AsLowered, k.fuel);
    if !o1.Done? {
      StopSimulates(k, c, n, o1, g1, cg.nextReg, CompileAssign(l, r, cg), cg.nextReg);
    } else {
      var o2 := Eval(r, false, k.env, o1.w, k.ext, AsLowered, k.fuel);
      if o2.Done? {
        SimulatesDone(k, c, n, o2, g2, cg.nextReg);
        SimStore(k, g2.op, g1.op, VoidOp, g2.cg, After(k, n, c), cg.nextReg);
        Extend(k, c, n, k, 1, Done(VVoid, o2.w.(mem := StoreTo(o2.w.mem, o1.v, o2.v))), CompileAssign(l, r, cg), cg.nextReg, cg.nextReg);
        n := n + 1;
      } else {
        StopSimulates(k, c, n, o2, g2, cg.nextReg, CompileAssign(l, r, cg), cg.nextReg);
      }
    }
  }

  lemma {:induction false} SimIndex(k: Ctx, a: Expr, i: Expr, ref: bool, cg: CG, d: set<Variable>, c: Config) returns (n: nat)
    requires Ready(k, cg, d, c) && Formed(a, d) && Formed(i, d + Decls(a)) && TwoWay(k.q)
    requires Within(CompileIndex(a, i, ref, cg).cg.p, k.q)
    ensures Simulates(k, c, n, EvalIndex(a, i, ref, k.env, c.w, k.ext, AsLowered, k.fuel), CompileIndex(a, i, ref, cg), cg.nextReg)
    decreases k.fuel, Index(a, i), 1
  {
    hide Compile, Eval, Within, Ext, Formed, TwoWay, Bound, Decls, CG.Emit, CG.Update, CG.Define, CG.Compute, CG.CloseAt, CG.Create, CG.DefinePhi, Run, After, Simulates, SameBelow, IndexRest, IndexInto;
    var g1 := Compile(a, false, cg);
    var g2 := Compile(i, false, g1.cg);
    var g3 := IndexRest(g1.op, g2.op, ref, g2.cg);
    FrameOf(a, false, cg);
    FrameOf(i, false, g1.cg);
    FrameIndexRest(g1.op, g2.op, ref, g2.cg);
    WithinGood(g2.cg, g3.cg, k.q);
    n := SimPair(k, Index(a, i), a, false, i, cg, d, c);
    var o1 := Eval(a, false, k.env, c.w, k.ext, AsLowered, k.fuel);
    if !o1.Done? {
      StopSimulates(k, c, n, o1, g1, cg.nextReg, g3, cg.nextReg);
    } else {
      var o2 := Eval(i, false, k.env, o1.w, k.ext, AsLowered, k.fuel);
      if o2.Done? {
        SimulatesDone(k, c, n, o2, g2, cg.nextReg);
        GoodGrows(cg, g1.cg);
        GoodGrows(g1.cg, g2.cg);
        var m := SimIndexRest(k, g1.op, g2.op, ref, g2.cg, After(k, n, c));
        Extend(k, c, n, k, m, IndexInto(o1.v, o2.v, ref, o2.w), g3, cg.nextReg, g2.cg.nextReg);
        n := n + m;
      } else {
        StopSimulates(k, c, n, o2, g2, cg.nextReg, g3, cg.nextReg);
      }
    }
  }

  lemma {:induction false} SimBody(k: Ctx, es: Exprs, last: Operand, v: Value, cg: CG, d: set<Variable>, c: Config) returns (n: nat)
    requires Ready(k, cg, d, c) && FormedAll(es, d) && TwoWay(k.q) && Below(last, cg.nextReg) && OpVal(c.regs, last) == v
    requires Within(CompileBody(es, last, cg).cg.p, k.q)
    ensures Simulates(k, c, n, EvalBody(es, v, k.env, c.w, k.ext, AsLowered, k.fuel), CompileBody(es, last, cg), cg.nextReg)
    decreases k.fuel, es, 0
  {
    hide Compile, Eval, Within, Ext, Formed, TwoWay, Bound, Decls, CG.Emit, CG.Update, CG.Define, CG.Compute, CG.CloseAt, CG.Create, CG.DefinePhi, Run, After, Simulates, SameBelow;
    match es
    case Nil =>
      n := 0;
      HereSimulates(k, c, v, Gen(cg, last), cg.nextReg);
    case Cons(e, rest) =>
      var g := Compile(e, false, cg);
      var g' := CompileBody(rest, g.op, g.cg);
      FrameOf(e, false, cg);
      FrameBody(rest, g.op, g.cg);
      WithinGood(g.cg, g'.cg, k.q);
      n := Sim(k, e, false, cg, d, c);
      var out := Eval(e, false, k.env, c.w, k.ext, AsLowered, k.fuel);
      if out.Done? {
        SimulatesDone(k, c, n, out, g, cg.nextReg);
        var c1 := After(k, n, c);
        BoundAfter(e, false, d, cg, k.env, c.regs, c1.regs);
        var m := SimBody(k, rest, g.op, out.v, g.cg, d + Decls(e), c1);
        GoodGrows(cg, g.cg);
        Extend(k, c, n, k, m, EvalBody(rest, out.v, k.env, out.w, k.ext, AsLowered, k.fuel), g', cg.nextReg, g.cg.nextReg);
        n := n + m;
      } else {
        StopSimulates(k, c, n, out, g, cg.nextReg, g', cg.nextReg);
      }
  }

  /** What running the argument list's code must reach. */
  ghost predicate SimulatesAll(k: Ctx, c: Config, n: nat, out: Outcomes, g: GenAll, below: nat) {
    var c' := After(k, n, c);
    match out
    case DoneAll(vs, w) => At(c', g.cg) && c'.w == w && OpVals(c'.regs, g.ops) == vs && SameBelow(c.regs, c'.regs, below)
    case TrapAll(w) => Traps(c', w)
    case TimeoutAll => n >= k.fuel && c'.status.Going?
    case BrokenAll => c'.status.Stuck?
  }

  lemma OpValsCons(regs: Regs, op: Operand, ops: seq<Operand>)
    ensures OpVals(regs, [op] + ops) == [OpVal(regs, op)] + OpVals(regs, ops)
  {
    assert ([op] + ops)[1..] == ops;
  }

  /** The arguments one after the other, each kept while the later ones run. */
  lemma {:induction false} SimArgs(k: Ctx, es: Exprs, cg: CG, d: set<Variable>, c: Config) returns (n: nat)
    requires Ready(k, cg, d, c) && FormedAll(es, d) && TwoWay(k.q)
    requires Within(CompileArgs(es, cg).cg.p, k.q)
    ensures SimulatesAll(k, c, n, EvalArgs(es, k.env, c.w, k.ext, AsLowered, k.fuel), CompileArgs(es, cg), cg.nextReg)
    decreases k.fuel, es, 0
  {
    hide Compile, Eval, Within, Ext, Formed, TwoWay, Bound, Decls, CG.Emit, CG.Update, CG.Define, CG.Compute, CG.CloseAt, CG.Create, CG.DefinePhi, Run, After, Simulates, SameBelow, SimulatesAll;
    match es
    case Nil =>
      n := 0;
      NoArgs(k, c, cg);
    case Cons(e, rest) =>
      var g := Compile(e, false, cg);
      var g' := CompileArgs(rest, g.cg);
      FrameOf(e, false, cg);
      FrameArgs(rest, g.cg);
      WithinGood(g.cg, g'.cg, k.q);
      n := Sim(k, e, false, cg, d, c);
      var out := Eval(e, false, k.env, c.w, k.ext, AsLowered, k.fuel);
      if out.Done? {
        SimulatesDone(k, c, n, out, g, cg.nextReg);
        var c1 := After(k, n, c);
        BoundAfter(e, false, d, cg, k.env, c.regs, c1.regs);
        var m := SimArgs(k, rest, g.cg, d + Decls(e), c1);
        GoodGrows(cg, g.cg);
        ExtendArgs(k, c, n, m, g.op, out.v, EvalArgs(rest, k.env, out.w, k.ext, AsLowered, k.fuel), g', cg.nextReg, g.cg.nextReg);
        n := n + m;
      } else {
        ArgsStop(k, c, n, out, g, CompileArgs(es, cg), cg.nextReg);
      }
  }

  lemma NoArgs(k: Ctx, c: Config, cg: CG)
    requires At(c, cg)
    ensures SimulatesAll(k, c, 0, DoneAll([], c.w), GenAll(cg, []), cg.nextReg)
  {
  }

  lemma ArgsStop(k: Ctx, c: Config, n: nat, out: Outcome, g: Gen, g': GenAll, below: nat)
    requires Simulates(k, c, n, out, g, below) && !out.Done?
    ensures SimulatesAll(k, c, n, match out case Trap(w) => TrapAll(w) case Timeout => TimeoutAll case _ => BrokenAll, g', below)
  {
  }

  lemma ExtendArgs(k: Ctx, c: Config, n: nat, m: nat, op: Operand, v: Value, out: Outcomes, g: GenAll, below: nat, below': nat)
    requires var c1 := After(k, n, c);
             && SameBelow(c.regs, c1.regs, below) && below <= below' && Below(op, below') && OpVal(c1.regs, op) == v
             && SimulatesAll(k, c1, m, out, g, below')
    ensures SimulatesAll(k, c, n + m, if out.DoneAll? then DoneAll([v] + out.vs, out.w) else out, GenAll(g.cg, [op] + g.ops), below)
  {
    var c1 := After(k, n, c);
    var c2 := After(k, m, c1);
    AfterPlus(k, c, n, m);
    if out.DoneAll? {
      SameTrans(c.regs, c1.regs, c2.regs, below, below');
      OpBelow(c1.regs, c2.regs, op, below');
      OpValsCons(c2.regs, op, g.ops);
    }
  }

  lemma {:induction false} SimCall(k: Ctx, f: Expr, args: Exprs, isVoid: bool, cg: CG, d: set<Variable>, c: Config) returns (n: nat)
    requires Ready(k, cg, d, c) && Formed(f, d) && FormedAll(args, d + Decls(f)) && TwoWay(k.q)
    requires Within(CompileCall(f, args, isVoid, cg).cg.p, k.q)
    ensures Simulates(k, c, n, EvalCall(f, args, isVoid, k.env, c.w, k.ext, AsLowered, k.fuel), CompileCall(f, args, isVoid, cg), cg.nextReg)
    decreases k.fuel, CallE(f, args, isVoid), 1
  {
    hide Compile, Eval, Within, Ext, Formed, TwoWay, Bound, Decls, CG.Emit, CG.Update, CG.Define, CG.Compute, CG.CloseAt, CG.Create, CG.DefinePhi, Run, After, Simulates, SameBelow, DoCall, SimulatesAll, CompileArgs;
    var g := Compile(f, false, cg);
    var a := CompileArgs(args, g.cg);
    FrameOf(f, false, cg);
    FrameArgs(args, g.cg);
    WithinDefine(a.cg, Invoke(a.cg.nextReg, g.op, a.ops), k.q);
    WithinGood(g.cg, a.cg, k.q);
    n := Sim(k, f, false, cg, d, c);
    var out := Eval(f, false, k.env, c.w, k.ext, AsLowered, k.fuel);
    if out.Done? {
      SimulatesDone(k, c, n, out, g, cg.nextReg);
      var c1 := After(k, n, c);
      BoundAfter(f, false, d, cg, k.env, c.regs, c1.regs);
      var m := SimArgs(k, args, g.cg, d + Decls(f), c1);
      GoodGrows(cg, g.cg);
      GoodGrows(g.cg, a.cg);
      m := SimCallEnd(k, g.op, out.v, isVoid, a, EvalArgs(args, k.env, out.w, k.ext, AsLowered, k.fuel), c1, m, g.cg.nextReg);
      Extend(k, c, n, k, m, EvalCall(f, args, isVoid, k.env, c.w, k.ext, AsLowered, k.fuel), CompileCall(f, args, isVoid, cg), cg.nextReg, g.cg.nextReg);
      n := n + m;
    } else {
      StopSimulates(k, c, n, out, g, cg.nextReg, CompileCall(f, args, isVoid, cg), cg.nextReg);
    }
  }

  /** The call itself, once the arguments have been evaluated. */
  lemma SimCallEnd(k: Ctx, f: Operand, fv: Value, isVoid: bool, a: GenAll, args: Outcomes, c: Config, m: nat, below: nat) returns (n: nat)
    requires a.cg.Valid() && SimulatesAll(k, c, m, args, a, below) && below <= a.cg.nextReg
    requires Below(f, below) && OpVal(c.regs, f) == fv && Within(a.cg.Define(Invoke(a.cg.nextReg, f, a.ops)).p, k.q)
    ensures Simulates(k, c, n,
                      match args case DoneAll(vs, w) => DoCall(fv, vs, isVoid, w, k.ext) case TrapAll(w) => Trap(w) case TimeoutAll => Timeout case BrokenAll => Broken,
                      Gen(a.cg.Define(Invoke(a.cg.nextReg, f, a.ops)), if isVoid then VoidOp else Reg(a.cg.nextReg)), below)
  {
    hide Within, CG.Emit, CG.Update, CG.Define, SameBelow, DoCall, Run;
    n := m;
    if args.DoneAll? {
      var c1 := After(k, m, c);
      OpBelow(c.regs, c1.regs, f, below);
      SimInvoke(k, f, a.ops, isVoid, a.cg, c1);
      Extend(k, c, m, k, 1, DoCall(fv, args.vs, isVoid, args.w, k.ext),
             Gen(a.cg.Define(Invoke(a.cg.nextReg, f, a.ops)), if isVoid then VoidOp else Reg(a.cg.nextReg)), below, a.cg.nextReg);
      n := m + 1;
    }
  }

  // ---------------------------------------------------------------- branches and joins

  /** What running code that ends in a jump must reach. */
  ghost predicate Jumps(k: Ctx, c: Config, n: nat, out: Outcome, op: Operand, to: nat, from: nat, below: nat) {
    var c' := After(k, n, c);
    match out
    case Done(v, w) => Arrived(c', to, from, w) && OpVal(c'.regs, op) == v && SameBelow(c.regs, c'.regs, below) && n > 0
    case Trap(w) => Traps(c', w)
    case Timeout => n >= k.fuel && c'.status.Going?
    case Broken => c'.status.Stuck?
  }

  lemma JumpsDone(k: Ctx, c: Config, n: nat, out: Outcome, op: Operand, to: nat, from: nat, below: nat)
    requires Jumps(k, c, n, out, op, to, from, below) && out.Done?
    ensures var c' := After(k, n, c);
            Arrived(c', to, from, out.w) && OpVal(c'.regs, op) == out.v && SameBelow(c.regs, c'.regs, below) && n > 0
  {
  }

  lemma JumpsStop(k: Ctx, c: Config, n: nat, out: Outcome, op: Operand, to: nat, from: nat, below: nat, g: Gen, below': nat)
    requires Jumps(k, c, n, out, op, to, from, below) && !out.Done?
    ensures Simulates(k, c, n, out, g, below')
  {
  }

  lemma JumpsAfter(k: Ctx, c: Config, n: nat, out: Outcome, g: Gen, to: nat, below: nat)
    requires Simulates(k, c, n, out, g, below)
    requires out.Done? ==> var c' := After(k, n, c);
                           Arrived(After(k, 1, c'), to, g.cg.cur, c'.w) && After(k, 1, c').regs == c'.regs
    ensures Jumps(k, c, if out.Done? then n + 1 else n, out, g.op, to, g.cg.cur, below)
  {
    AfterPlus(k, c, n, 1);
  }

  /** Evaluating a condition and branching on it.  b is the state after the condition, perhaps with
      more blocks created. */
  lemma {:induction false} SimCond(k: Ctx, e: Expr, cg: CG, b: CG, t: Terminator, at: nat, d: set<Variable>, c: Config) returns (n: nat)
    requires Ready(k, cg, d, c) && Formed(e, d) && TwoWay(k.q)
    requires var g := Compile(e, false, cg);
             && b.Valid() && b.cur == g.cg.cur && b.cur < |g.cg.p.blocks| && b.p.blocks[b.cur] == g.cg.p.blocks[b.cur]
             && t.CondBr? && t.cond == g.op && Within(g.cg.p, k.q) && Within(b.CloseAt(t, at).p, k.q)
    ensures var g := Compile(e, false, cg);
            var out := Eval(e, false, k.env, c.w, k.ext, AsLowered, k.fuel);
            Jumps(k, c, n, out, g.op, if out.Done? && AsBool(out.v) then t.yes else t.no, g.cg.cur, cg.nextReg)
    decreases k.fuel, e, 4
  {
    hide Compile, Eval, Within, Ext, Formed, TwoWay, Bound, Decls, CG.Emit, CG.Update, CG.Define, CG.Compute, CG.CloseAt, CG.Create, CG.DefinePhi, Run, After, Simulates, SameBelow, Jumps;
    n := Sim(k, e, false, cg, d, c);
    var out := Eval(e, false, k.env, c.w, k.ext, AsLowered, k.fuel);
    var g := Compile(e, false, cg);
    if out.Done? {
      SimulatesDone(k, c, n, out, g, cg.nextReg);
      SimJump(k, t, at, b, After(k, n, c));
    }
    JumpsAfter(k, c, n, out, g, if out.Done? && AsBool(out.v) then t.yes else t.no, cg.nextReg);
    n := if out.Done? then n + 1 else n;
  }

  /** Running one arm from its first block and jumping to `to`. */
  lemma {:induction false} SimArm(k: Ctx, e: Expr, cg: CG, to: nat, at: nat, d: set<Variable>, c: Config) returns (n: nat)
    requires Ready(k, cg, d, c) && Formed(e, d) && TwoWay(k.q)
    requires Within(Compile(e, false, cg).cg.CloseAt(Br(to), at).p, k.q)
    ensures var g := Compile(e, false, cg);
            Jumps(k, c, n, Eval(e, false, k.env, c.w, k.ext, AsLowered, k.fuel), g.op, to, g.cg.cur, cg.nextReg)
    decreases k.fuel, e, 4
  {
    hide Compile, Eval, Within, Ext, Formed, TwoWay, Bound, Decls, CG.Emit, CG.Update, CG.Define, CG.Compute, CG.CloseAt, CG.Create, CG.DefinePhi, Run, After, Simulates, SameBelow, Jumps;
    var g := Compile(e, false, cg);
    FrameOf(e, false, cg);
    WithinClose(g.cg, Br(to), at, k.q);
    n := Sim(k, e, false, cg, d, c);
    var out := Eval(e, false, k.env, c.w, k.ext, AsLowered, k.fuel);
    if out.Done? {
      SimulatesDone(k, c, n, out, g, cg.nextReg);
      SimJump(k, Br(to), at, g.cg, After(k, n, c));
    }
    JumpsAfter(k, c, n, out, g, to, cg.nextReg);
    n := if out.Done? then n + 1 else n;
  }

  lemma WithinShort(s: ShortSteps, isAnd: bool, list: seq<Incoming>, q: Program, cg: CG)
    requires ShortOk(s, cg) && |list| <= 2 && Within(s.g2.DefinePhi(list).p, q)
    requires var t := |s.left.cg.p.blocks|;
             && s.g1 == s.left.cg.Create(2).CloseAt(ShortBranch(isAnd, s.left.op, t), t)
             && s.g2 == s.right.cg.CloseAt(Br(t + 1), t + 1)
    ensures Within(s.g2.p, q) && Within(s.right.cg.p, q) && Within(s.g1.p, q) && Within(s.left.cg.p, q)
  {
    hide Within, Ext, CG.Emit, CG.Update, CG.CloseAt, CG.Create, CG.DefinePhi;
    var t := |s.left.cg.p.blocks|;
    WithinPhi(s.g2, list, q);
    WithinClose(s.right.cg, Br(t + 1), t + 1, q);
    WithinGood(s.g1, s.right.cg, q);
    WithinGood(s.left.cg, s.g1, q);
  }

  lemma {:induction false} SimAndOr(k: Ctx, whole: Expr, l: Expr, r: Expr, isAnd: bool, cg: CG, d: set<Variable>, c: Config) returns (n: nat)
    requires whole == (if isAnd then And(l, r) else Or(l, r))
    requires Ready(k, cg, d, c) && Formed(l, d) && Formed(r, d + Decls(l)) && TwoWay(k.q)
    requires Within(CompileAndOr(l, r, isAnd, cg).cg.p, k.q)
    ensures Simulates(k, c, n, EvalAndOr(l, r, isAnd, k.env, c.w, k.ext, AsLowered, k.fuel), CompileAndOr(l, r, isAnd, cg), cg.nextReg)
    decreases k.fuel, whole, 1
  {
    hide Compile, Eval, Within, Ext, Formed, TwoWay, Bound, Decls, CG.Emit, CG.Update, CG.Define, CG.Compute, CG.CloseAt, CG.Create, CG.DefinePhi, Run, After, Simulates, SameBelow, Jumps;
    var s := StepsOfAndOr(l, r, isAnd, cg);
    var t := |s.left.cg.p.blocks|;
    FrameAndOr(l, r, isAnd, cg);
    WithinShort(s, isAnd, [Incoming(s.right.op, s.right.cg.cur), Incoming(s.left.op, s.left.cg.cur)], k.q, cg);
    GoodCreate(s.left.cg, 2);
    n := SimCond(k, l, cg, s.left.cg.Create(2), ShortBranch(isAnd, s.left.op, t), t, d, c);
    var out := Eval(l, false, k.env, c.w, k.ext, AsLowered, k.fuel);
    var br := ShortBranch(isAnd, s.left.op, t);
    var to := if out.Done? && AsBool(out.v) then br.yes else br.no;
    var g := CompileAndOr(l, r, isAnd, cg);
    if out.Done? {
      JumpsDone(k, c, n, out, s.left.op, to, s.left.cg.cur, cg.nextReg);
      var c1 := After(k, n, c);
      BoundAfter(l, false, d, cg, k.env, c.regs, c1.regs);
      GoodGrows(cg, s.g2);
      if to == t {
        var m := SimShortRight(k, whole, l, r, isAnd, cg, d, c1);
        Extend(k, c, n, k, m, Eval(r, false, k.env, out.w, k.ext, AsLowered, k.fuel), g, cg.nextReg, cg.nextReg);
        n := n + m;
      } else {
        SimShortSkip(k, l, r, isAnd, cg, c1);
        Extend(k, c, n, k, 1, out, g, cg.nextReg, s.g2.nextReg);
        n := n + 1;
      }
    } else {
      JumpsStop(k, c, n, out, s.left.op, to, s.left.cg.cur, cg.nextReg, g, cg.nextReg);
    }
  }

  /** The short way: straight to the join with the left value. */
  lemma SimShortSkip(k: Ctx, l: Expr, r: Expr, isAnd: bool, cg: CG, c: Config)
    requires cg.Valid() && Within(CompileAndOr(l, r, isAnd, cg).cg.p, k.q)
    requires var s := StepsOfAndOr(l, r, isAnd, cg);
             Arrived(c, |s.left.cg.p.blocks| + 1, s.left.cg.cur, c.w)
    ensures var s := StepsOfAndOr(l, r, isAnd, cg);
            Simulates(k, c, 1, Done(OpVal(c.regs, s.left.op), c.w), CompileAndOr(l, r, isAnd, cg), s.g2.nextReg)
  {
    hide Compile, Within, Ext, CG.Emit, CG.Update, CG.Define, CG.CloseAt, CG.Create, CG.DefinePhi, Run, After, Simulates;
    var s := StepsOfAndOr(l, r, isAnd, cg);
    FrameAndOr(l, r, isAnd, cg);
    AtFresh(c, s.g2);
    SimJoin(k, Incoming(s.right.op, s.right.cg.cur), Incoming(s.left.op, s.left.cg.cur), s.g2, c);
  }

  /** The long way through `and`/`or`: the right side, then the join. */
  lemma {:induction false} SimShortRight(k: Ctx, whole: Expr, l: Expr, r: Expr, isAnd: bool, cg: CG, d: set<Variable>, c: Config) returns (n: nat)
    requires whole == And(l, r) || whole == Or(l, r)
    requires cg.Valid() && Formed(r, d + Decls(l)) && TwoWay(k.q) && Within(CompileAndOr(l, r, isAnd, cg).cg.p, k.q)
    requires var s := StepsOfAndOr(l, r, isAnd, cg);
             && Arrived(c, |s.left.cg.p.blocks|, s.left.cg.cur, c.w) && Bound(d + Decls(l), s.left.cg.vars, k.env, c.regs)
    ensures Simulates(k, c, n, Eval(r, false, k.env, c.w, k.ext, AsLowered, k.fuel), CompileAndOr(l, r, isAnd, cg), cg.nextReg)
    decreases k.fuel, whole, 0
  {
    hide Compile, Eval, Within, Ext, Formed, TwoWay, Bound, Decls, CG.Emit, CG.Update, CG.Define, CG.Compute, CG.CloseAt, CG.Create, CG.DefinePhi, Run, After, Simulates, SameBelow, Jumps;
    var s := StepsOfAndOr(l, r, isAnd, cg);
    var t := |s.left.cg.p.blocks|;
    FrameAndOr(l, r, isAnd, cg);
    var i1, i2 := Incoming(s.right.op, s.right.cg.cur), Incoming(s.left.op, s.left.cg.cur);
    var g := CompileAndOr(l, r, isAnd, cg);
    WithinShort(s, isAnd, [i1, i2], k.q, cg);
    AtFresh(c, s.g1);
    BoundSame(d + Decls(l), s.left.cg.vars, s.g1.vars, k.env, c.regs);
    n := SimArm(k, r, s.g1, t + 1, t + 1, d + Decls(l), c);
    var out := Eval(r, false, k.env, c.w, k.ext, AsLowered, k.fuel);
    if out.Done? {
      JumpsDone(k, c, n, out, s.right.op, t + 1, s.right.cg.cur, s.g1.nextReg);
      var c1 := After(k, n, c);
      AtFresh(c1, s.g2);
      SimJoin(k, i1, i2, s.g2, c1);
      GoodGrows(cg, s.left.cg);
      GoodGrows(cg, s.g2);
      SameLess(c.regs, c1.regs, cg.nextReg, s.g1.nextReg);
      Extend(k, c, n, k, 1, out, g, cg.nextReg, s.g2.nextReg);
      n := n + 1;
    } else {
      JumpsStop(k, c, n, out, s.right.op, t + 1, s.right.cg.cur, s.g1.nextReg, g, cg.nextReg);
    }
  }

  lemma WithinIf(s: IfSteps, q: Program, cg: CG)
    requires IfOk(s, cg)
    requires var k := |s.cond.cg.p.blocks|;
             && s.g1 == s.cond.cg.Create(3).CloseAt(CondBr(s.cond.op, k, k + 1), k)
             && s.g2 == s.yes.cg.CloseAt(Br(k + 2), k + 1)
             && s.g3 == s.no.cg.CloseAt(Br(k + 2), k + 2)
    requires Within(JoinIf(Incoming(s.yes.op, s.yes.cg.cur), Incoming(s.no.op, s.no.cg.cur), s.g3).cg.p, q)
    ensures Within(s.g3.p, q) && Within(s.no.cg.p, q) && Within(s.g2.p, q)
    ensures Within(s.yes.cg.p, q) && Within(s.g1.p, q) && Within(s.cond.cg.p, q)
  {
    hide Within, Ext, CG.Emit, CG.Update, CG.CloseAt, CG.Create, CG.DefinePhi;
    var k := |s.cond.cg.p.blocks|;
    if s.yes.op != VoidOp {
      WithinPhi(s.g3, [Incoming(s.yes.op, s.yes.cg.cur), Incoming(s.no.op, s.no.cg.cur)], q);
    }
    WithinClose(s.no.cg, Br(k + 2), k + 2, q);
    WithinGood(s.g2, s.no.cg, q);
    WithinClose(s.yes.cg, Br(k + 2), k + 1, q);
    WithinGood(s.g1, s.yes.cg, q);
    WithinGood(s.cond.cg, s.g1, q);
  }

  /** At the second branch of an if what the first one declared is bound as well; and the branches
      agree on being void. */
  lemma IfScopes(c: Expr, t: Expr, e: Expr, cg: CG, d: set<Variable>)
    requires Formed(If(c, t, e), d) && Scoped(d, cg.vars) && IfOk(StepsOfIf(c, t, e, cg), cg)
    ensures var s := StepsOfIf(c, t, e, cg);
            && (s.yes.op == VoidOp <==> s.no.op == VoidOp)
            && Scoped(d + Decls(c) + Decls(t), s.g2.vars) && Kept(d + Decls(c), s.cond.cg.vars, s.g2.vars)
            && forall x | x in Decls(t) :: x.kind.Declared?
  {
    hide Compile, CompileBody, CompileArgs, Decls, IsVoid, Ext;
    var s := StepsOfIf(c, t, e, cg);
    ScopeOf(c, false, cg, d);
    ScopeOf(t, false, s.g1, d + Decls(c));
    ScopeOf(e, false, s.g2, d + Decls(c) + Decls(t));
    DeclsAreDeclared(t, d + Decls(c));
  }

  lemma {:induction false} SimIf(k: Ctx, c1: Expr, t: Expr, e: Expr, cg: CG, d: set<Variable>, c: Config) returns (n: nat)
    requires Ready(k, cg, d, c) && Formed(If(c1, t, e), d) && TwoWay(k.q)
    requires Within(CompileIf(c1, t, e, cg).cg.p, k.q)
    ensures Simulates(k, c, n, EvalIf(c1, t, e, k.env, c.w, k.ext, AsLowered, k.fuel), CompileIf(c1, t, e, cg), cg.nextReg)
    decreases k.fuel, If(c1, t, e), 1
  {
    hide Compile, Eval, Within, Ext, TwoWay, Bound, Decls, CG.Emit, CG.Update, CG.Define, CG.Compute, CG.CloseAt, CG.Create, CG.DefinePhi, Run, After, Simulates, SameBelow, Jumps, IsVoid;
    var s := StepsOfIf(c1, t, e, cg);
    var b := |s.cond.cg.p.blocks|;
    FrameIf(c1, t, e, cg);
    WithinIf(s, k.q, cg);
    GoodCreate(s.cond.cg, 3);
    n := SimCond(k, c1, cg, s.cond.cg.Create(3), CondBr(s.cond.op, b, b + 1), b, d, c);
    var out := Eval(c1, false, k.env, c.w, k.ext, AsLowered, k.fuel);
    var to := if out.Done? && AsBool(out.v) then b else b + 1;
    if out.Done? {
      JumpsDone(k, c, n, out, s.cond.op, to, s.cond.cg.cur, cg.nextReg);
      var c2 := After(k, n, c);
      BoundScoped(d, cg.vars, k.env, c.regs);
      BoundAfter(c1, false, d, cg, k.env, c.regs, c2.regs);
      var m := SimIfArms(k, c1, t, e, AsBool(out.v), cg, d, c2);
      Extend(k, c, n, k, m, EvalIf(c1, t, e, k.env, c.w, k.ext, AsLowered, k.fuel), CompileIf(c1, t, e, cg), cg.nextReg, cg.nextReg);
      n := n + m;
    } else {
      JumpsStop(k, c, n, out, s.cond.op, to, s.cond.cg.cur, cg.nextReg, CompileIf(c1, t, e, cg), cg.nextReg);
    }
  }

  /** After the branch of an if: the arm taken, then the join. */
  lemma {:induction false} SimIfArms(k: Ctx, c1: Expr, t: Expr, e: Expr, first: bool, cg: CG, d: set<Variable>, c: Config) returns (n: nat)
    requires cg.Valid() && Formed(If(c1, t, e), d) && TwoWay(k.q) && Scoped(d, cg.vars)
    requires Within(CompileIf(c1, t, e, cg).cg.p, k.q)
    requires var s := StepsOfIf(c1, t, e, cg);
             var b := |s.cond.cg.p.blocks|;
             Arrived(c, if first then b else b + 1, s.cond.cg.cur, c.w) && Bound(d + Decls(c1), s.cond.cg.vars, k.env, c.regs)
    ensures Simulates(k, c, n, if first then Eval(t, false, k.env, c.w, k.ext, AsLowered, k.fuel) else Eval(e, false, k.env, c.w, k.ext, AsLowered, k.fuel),
                      CompileIf(c1, t, e, cg), cg.nextReg)
    decreases k.fuel, If(c1, t, e), 0
  {
    hide Compile, Eval, Within, Ext, TwoWay, Bound, Decls, CG.Emit, CG.Update, CG.Define, CG.Compute, CG.CloseAt, CG.Create, CG.DefinePhi, Run, After, Simulates, SameBelow, Jumps, IsVoid, JoinIf;
    var s := StepsOfIf(c1, t, e, cg);
    var b := |s.cond.cg.p.blocks|;
    FrameIf(c1, t, e, cg);
    WithinIf(s, k.q, cg);
    IfScopes(c1, t, e, cg, d);
    GoodGrows(cg, s.cond.cg);
    GoodGrows(s.cond.cg, s.g2);
    GoodGrows(cg, s.g3);
    var out, g, below;
    if first {
      AtFresh(c, s.g1);
      BoundSame(d + Decls(c1), s.cond.cg.vars, s.g1.vars, k.env, c.regs);
      n := SimArm(k, t, s.g1, b + 2, b + 1, d + Decls(c1), c);
      out, g, below := Eval(t, false, k.env, c.w, k.ext, AsLowered, k.fuel), s.yes, s.g1.nextReg;
    } else {
      AtFresh(c, s.g2);
      SameRefl(c.regs, s.cond.cg.nextReg);
      BoundKept(d + Decls(c1), d + Decls(c1) + Decls(t), s.cond.cg, s.g2.vars, k.env, c.regs, c.regs);
      n := SimArm(k, e, s.g2, b + 2, b + 2, d + Decls(c1) + Decls(t), c);
      out, g, below := Eval(e, false, k.env, c.w, k.ext, AsLowered, k.fuel), s.no, s.g2.nextReg;
    }
    if out.Done? {
      JumpsDone(k, c, n, out, g.op, b + 2, g.cg.cur, below);
      var c2 := After(k, n, c);
      AtFresh(c2, s.g3);
      var m := SimIfEnd(k, s.yes, s.no, first, s.g3, c2);
      SameLess(c.regs, c2.regs, cg.nextReg, below);
      Extend(k, c, n, k, m, out, CompileIf(c1, t, e, cg), cg.nextReg, s.g3.nextReg);
      n := n + m;
    } else {
      JumpsStop(k, c, n, out, g.op, b + 2, g.cg.cur, below, CompileIf(c1, t, e, cg), cg.nextReg);
    }
  }

  lemma SameRefl(a: Regs, n: nat)
    ensures SameBelow(a, a, n)
  {
  }

  lemma {:induction false} SimIfThen(k: Ctx, c1: Expr, t: Expr, cg: CG, d: set<Variable>, c: Config) returns (n: nat)
    requires Ready(k, cg, d, c) && Formed(c1, d) && Formed(t, d + Decls(c1)) && TwoWay(k.q)
    requires Within(CompileIfThen(c1, t, cg).cg.p, k.q)
    ensures Simulates(k, c, n, EvalIfThen(c1, t, k.env, c.w, k.ext, AsLowered, k.fuel), CompileIfThen(c1, t, cg), cg.nextReg)
    decreases k.fuel, IfThen(c1, t), 1
  {
    hide Compile, Eval, Within, Ext, Formed, TwoWay, Bound, Decls, CG.Emit, CG.Update, CG.Define, CG.Compute, CG.CloseAt, CG.Create, CG.DefinePhi, Run, After, Simulates, SameBelow, Jumps;
    var s := StepsOfIfThen(c1, t, cg);
    var b := |s.cond.cg.p.blocks|;
    var g := Gen(s.end, VoidOp);
    FrameIfThen(c1, t, cg);
    WithinClose(s.yes.cg, Br(b + 1), b + 1, k.q);
    WithinGood(s.g1, s.yes.cg, k.q);
    WithinGood(s.cond.cg, s.g1, k.q);
    GoodCreate(s.cond.cg, 2);
    n := SimCond(k, c1, cg, s.cond.cg.Create(2), CondBr(s.cond.op, b, b + 1), b, d, c);
    var out := Eval(c1, false, k.env, c.w, k.ext, AsLowered, k.fuel);
    var to := if out.Done? && AsBool(out.v) then b else b + 1;
    if !out.Done? {
      JumpsStop(k, c, n, out, s.cond.op, to, s.cond.cg.cur, cg.nextReg, g, cg.nextReg);
    } else {
      JumpsDone(k, c, n, out, s.cond.op, to, s.cond.cg.cur, cg.nextReg);
      var c2 := After(k, n, c);
      GoodGrows(cg, s.cond.cg);
      if AsBool(out.v) {
        BoundAfter(c1, false, d, cg, k.env, c.regs, c2.regs);
        AtFresh(c2, s.g1);
        BoundSame(d + Decls(c1), s.cond.cg.vars, s.g1.vars, k.env, c2.regs);
        var m := SimArm(k, t, s.g1, b + 1, b + 1, d + Decls(c1), c2);
        var o2 := Eval(t, false, k.env, out.w, k.ext, AsLowered, k.fuel);
        ArmVoid(k, c2, m, o2, s.yes.op, b + 1, s.yes.cg.cur, s.g1.nextReg, s.end);
        Extend(k, c, n, k, m, if o2.Done? then Done(VVoid, o2.w) else o2, g, cg.nextReg, s.g1.nextReg);
        n := n + m;
      } else {
        AtFresh(c2, s.end);
        DoneSimulates(k, c, n, VVoid, out.w, g, cg.nextReg);
      }
    }
  }

  /** An arm that jumps to an empty block leaves the machine at the start of that block; its value is dropped. */
  lemma ArmVoid(k: Ctx, c: Config, n: nat, out: Outcome, op: Operand, to: nat, from: nat, below: nat, end: CG)
    requires Jumps(k, c, n, out, op, to, from, below)
    requires end.cur == to < |end.p.blocks| && end.p.blocks[to] == FreshBlock
    ensures Simulates(k, c, n, if out.Done? then Done(VVoid, out.w) else out, Gen(end, VoidOp), below)
  {
  }

  // ---------------------------------------------------------------- loops

  lemma WithinWhile(s: WhileSteps, q: Program, cg: CG)
    requires WhileOk(s, cg) && Within(s.end.p, q)
    requires var k := |cg.p.blocks|;
             && s.g1 == cg.Create(3).CloseAt(Br(k), k)
             && s.g2 == s.cond.cg.CloseAt(CondBr(s.cond.op, k + 1, k + 2), k + 1)
             && s.end == s.body.cg.CloseAt(Br(k), k + 2)
    ensures Within(s.body.cg.p, q) && Within(s.g2.p, q) && Within(s.cond.cg.p, q) && Within(s.g1.p, q)
  {
    hide Within, Ext, CG.Emit, CG.Update, CG.CloseAt, CG.Create;
    var k := |cg.p.blocks|;
    WithinClose(s.body.cg, Br(k), k + 2, q);
    WithinGood(s.g2, s.body.cg, q);
    WithinClose(s.cond.cg, CondBr(s.cond.op, k + 1, k + 2), k + 1, q);
    WithinGood(s.g1, s.cond.cg, q);
  }

  lemma {:induction false} SimWhile(k: Ctx, c1: Expr, body: Expr, cg: CG, d: set<Variable>, c: Config) returns (n: nat)
    requires Ready(k, cg, d, c) && Formed(c1, d) && Formed(body, d + Decls(c1)) && TwoWay(k.q)
    requires Within(CompileWhile(c1, body, cg).cg.p, k.q)
    ensures Simulates(k, c, n, EvalWhile(c1, body, k.env, c.w, k.ext, AsLowered, k.fuel), CompileWhile(c1, body, cg), cg.nextReg)
    decreases k.fuel, While(c1, body), 1
  {
    hide Compile, Eval, Within, Ext, Formed, TwoWay, Bound, Decls, CG.Emit, CG.Update, CG.Define, CG.Compute, CG.CloseAt, CG.Create, CG.DefinePhi, Run, After, Simulates, SameBelow, EvalWhile;
    var s := StepsOfWhile(c1, body, cg);
    var b := |cg.p.blocks|;
    FrameWhile(c1, body, cg);
    WithinWhile(s, k.q, cg);
    GoodCreate(cg, 3);
    AtCreate(c, cg, 3);
    SimJump(k, Br(b), b, cg.Create(3), c);
    var c2 := After(k, 1, c);
    var m := SimLoop(k, c1, body, cg, d, c2);
    SameRefl(c.regs, cg.nextReg);
    Extend(k, c, 1, k, m, EvalWhile(c1, body, k.env, c.w, k.ext, AsLowered, k.fuel), Gen(s.end, VoidOp), cg.nextReg, cg.nextReg);
    n := 1 + m;
  }

  /** The loop from its first block, as often as it runs. */
  lemma {:induction false} SimLoop(k: Ctx, c1: Expr, body: Expr, cg: CG, d: set<Variable>, c: Config) returns (n: nat)
    requires cg.Valid() && c.status.Going? && c.blk == |cg.p.blocks| && c.pc == 0 && Bound(d, cg.vars, k.env, c.regs)
    requires Formed(c1, d) && Formed(body, d + Decls(c1)) && TwoWay(k.q)
    requires Within(CompileWhile(c1, body, cg).cg.p, k.q)
    ensures Simulates(k, c, n, EvalWhile(c1, body, k.env, c.w, k.ext, AsLowered, k.fuel), CompileWhile(c1, body, cg), cg.nextReg)
    decreases k.fuel, While(c1, body), 0
  {
    hide Compile, Eval, Within, Ext, Formed, TwoWay, Bound, Decls, CG.Emit, CG.Update, CG.Define, CG.Compute, CG.CloseAt, CG.Create, CG.DefinePhi, Run, After, Simulates, SameBelow, Jumps, EvalWhile;
    var s := StepsOfWhile(c1, body, cg);
    var b := |cg.p.blocks|;
    var g := Gen(s.end, VoidOp);
    if k.fuel == 0 {
      n := 0;
      NoFuel(c1, body, k.env, c.w, k.ext);
      OutOfFuel(k, c, g, cg.nextReg);
    } else {
      WhileMeans(c1, body, k.env, c.w, k.ext, AsLowered, k.fuel);
      FrameWhile(c1, body, cg);
      WithinWhile(s, k.q, cg);
      AtFresh(c, s.g1);
      BoundSame(d, cg.vars, s.g1.vars, k.env, c.regs);
      n := SimCond(k, c1, s.g1, s.cond.cg, CondBr(s.cond.op, b + 1, b + 2), b + 1, d, c);
      var out := Eval(c1, false, k.env, c.w, k.ext, AsLowered, k.fuel);
      var to := if out.Done? && AsBool(out.v) then b + 1 else b + 2;
      if !out.Done? {
        JumpsStop(k, c, n, out, s.cond.op, to, s.cond.cg.cur, s.g1.nextReg, g, cg.nextReg);
      } else {
        JumpsDone(k, c, n, out, s.cond.op, to, s.cond.cg.cur, s.g1.nextReg);
        var c2 := After(k, n, c);
        if !AsBool(out.v) {
          AtFresh(c2, s.end);
          DoneSimulates(k, c, n, VVoid, out.w, g, cg.nextReg);
        } else {
          BoundAfter(c1, false, d, s.g1, k.env, c.regs, c2.regs);
          SameLess(c.regs, c2.regs, cg.nextReg, s.g1.nextReg);
          var m := SimAgain(k, c1, body, cg, d, c, c2);
          Extend(k, c, n, k.(fuel := k.fuel - 1), m, EvalWhile(c1, body, k.env, c.w, k.ext, AsLowered, k.fuel), g, cg.nextReg, cg.nextReg);
          n := n + m;
        }
      }
    }
  }

  lemma NoFuel(c1: Expr, body: Expr, env: Env, w: World, ext: External)
    ensures EvalWhile(c1, body, env, w, ext, AsLowered, 0) == Timeout
  {
  }

  lemma OutOfFuel(k: Ctx, c: Config, g: Gen, below: nat)
    requires k.fuel == 0 && c.status.Going?
    ensures Simulates(k, c, 0, Timeout, g, below)
  {
  }

  /** One run of the body, and the loop again with one iteration less to go.  c0 is where this
      iteration started. */
  lemma {:induction false} SimAgain(k: Ctx, c1: Expr, body: Expr, cg: CG, d: set<Variable>, c0: Config, c: Config) returns (n: nat)
    requires cg.Valid() && k.fuel > 0 && Bound(d, cg.vars, k.env, c0.regs) && SameBelow(c0.regs, c.regs, cg.nextReg)
    requires Formed(c1, d) && Formed(body, d + Decls(c1)) && TwoWay(k.q)
    requires Within(CompileWhile(c1, body, cg).cg.p, k.q)
    requires var s := StepsOfWhile(c1, body, cg);
             Arrived(c, |cg.p.blocks| + 1, s.cond.cg.cur, c.w) && Bound(d + Decls(c1), s.cond.cg.vars, k.env, c.regs)
    ensures var o := Eval(body, false, k.env, c.w, k.ext, AsLowered, k.fuel);
            Simulates(k.(fuel := k.fuel - 1), c, n, if o.Done? then EvalWhile(c1, body, k.env, o.w, k.ext, AsLowered, k.fuel - 1) else o,
                      CompileWhile(c1, body, cg), cg.nextReg)
    decreases k.fuel, body, 5
  {
    hide Compile, Eval, Within, Ext, Formed, TwoWay, Bound, Decls, CG.Emit, CG.Update, CG.Define, CG.Compute, CG.CloseAt, CG.Create, CG.DefinePhi, Run, After, Simulates, SameBelow, Jumps, EvalWhile;
    var s := StepsOfWhile(c1, body, cg);
    var b := |cg.p.blocks|;
    var g := Gen(s.end, VoidOp);
    var k' := k.(fuel := k.fuel - 1);
    FrameWhile(c1, body, cg);
    WithinWhile(s, k.q, cg);
    AtFresh(c, s.g2);
    BoundSame(d + Decls(c1), s.cond.cg.vars, s.g2.vars, k.env, c.regs);
    n := SimArm(k, body, s.g2, b, b + 2, d + Decls(c1), c);
    var o := Eval(body, false, k.env, c.w, k.ext, AsLowered, k.fuel);
    if o.Done? {
      JumpsDone(k, c, n, o, s.body.op, b, s.body.cg.cur, s.g2.nextReg);
      var c2 := After(k, n, c);
      GoodGrows(cg, s.g2);
      SameLess(c.regs, c2.regs, cg.nextReg, s.g2.nextReg);
      SameTrans(c0.regs, c.regs, c2.regs, cg.nextReg, cg.nextReg);
      BoundScoped(d, cg.vars, k.env, c0.regs);
      BoundKept(d, d, cg, cg.vars, k.env, c0.regs, c2.regs);
      var m := SimLoop(k', c1, body, cg, d, c2);
      AfterSame(k, k', n, c);
      Extend(k', c, n, k', m, EvalWhile(c1, body, k.env, o.w, k.ext, AsLowered, k.fuel - 1), g, cg.nextReg, cg.nextReg);
      n := n + m;
    } else {
      JumpsStop(k, c, n, o, s.body.op, b, s.body.cg.cur, s.g2.nextReg, g, cg.nextReg);
      LessFuel(k, k', c, n, o, g, cg.nextReg);
    }
  }

  lemma AfterSame(k: Ctx, k': Ctx, n: nat, c: Config)
    requires k'.q == k.q && k'.ext == k.ext
    ensures After(k', n, c) == After(k, n, c)
  {
  }

  lemma LessFuel(k: Ctx, k': Ctx, c: Config, n: nat, out: Outcome, g: Gen, below: nat)
    requires k'.q == k.q && k'.ext == k.ext && k'.fuel <= k.fuel && Simulates(k, c, n, out, g, below)
    ensures Simulates(k', c, n, out, g, below)
  {
  }

  lemma {:induction false} SimFor(k: Ctx, x: Variable, ix: Option<Variable>, a: Expr, body: Expr, cg: CG, d: set<Variable>, c: Config) returns (n: nat)
    requires Ready(k, cg, d, c) && Formed(For(x, ix, a, body), d) && TwoWay(k.q)
    requires Within(CompileFor(x, ix, a, body, cg).cg.p, k.q)
    ensures Simulates(k, c, n, Eval(For(x, ix, a, body), false, k.env, c.w, k.ext, AsLowered, k.fuel), CompileFor(x, ix, a, body, cg), cg.nextReg)
    decreases k.fuel, For(x, ix, a, body), 1
  {
    hide Compile, Within, Ext, TwoWay, Bound, Decls, CG.Emit, CG.Update, CG.Define, CG.Compute, CG.CloseAt, CG.Create, CG.DefinePhi, Run, After, Simulates, SameBelow, EvalFor, Opens, ForTest, ForBind, ForNext, ForReady;
    var s := StepsOfFor(x, ix, a, body, cg);
    var loop := |cg.p.blocks|;
    var g := Gen(s.end, VoidOp);
    FrameFor(x, ix, a, body, cg);
    WithinFor(s, x, ix, k.q, cg);
    if !Opens(a) { StaysInBlock(a, false, s.g0); }
    AtCreate(c, cg, 2);
    BoundSame(d, cg.vars, s.g0.vars, k.env, c.regs);
    n := Sim(k, a, false, s.g0, d, c);
    var out := Eval(a, false, k.env, c.w, k.ext, AsLowered, k.fuel);
    if !out.Done? {
      StopSimulates(k, c, n, out, s.arr, cg.nextReg, g, cg.nextReg);
    } else {
      SimulatesDone(k, c, n, out, s.arr, cg.nextReg);
      var c1 := After(k, n, c);
      BoundAfter(a, false, d, s.g0, k.env, c.regs, c1.regs);
      GoodGrows(cg, s.arr.cg);
      var m;
      if Opens(a) && ArraySize(out.v) > 0 {
        ForBreaks(k, x, ix, a, body, cg, c1);
        m := 4;
        StuckSimulates(k, c1, m, g, s.arr.cg.nextReg);
      } else {
        m := SimForAll(k, x, ix, a, body, cg, d, c1);
      }
      Extend(k, c, n, k, m, Eval(For(x, ix, a, body), false, k.env, c.w, k.ext, AsLowered, k.fuel), g, cg.nextReg, s.arr.cg.nextReg);
      n := n + m;
    }
  }

  lemma StuckSimulates(k: Ctx, c: Config, n: nat, g: Gen, below: nat)
    requires After(k, n, c).status.Stuck?
    ensures Simulates(k, c, n, Broken, g, below)
  {
  }

  /** A for loop once its array has been evaluated: in one block, unless the array is empty. */
  lemma {:induction false} SimForAll(k: Ctx, x: Variable, ix: Option<Variable>, a: Expr, body: Expr, cg: CG, d: set<Variable>, c: Config) returns (n: nat)
    requires cg.Valid() && Formed(For(x, ix, a, body), d) && TwoWay(k.q) && Within(CompileFor(x, ix, a, body, cg).cg.p, k.q)
    requires var s := StepsOfFor(x, ix, a, body, cg);
             At(c, s.arr.cg) && (ArraySize(OpVal(c.regs, s.arr.op)) > 0 ==> s.arr.cg.cur == cg.cur) && Bound(d + Decls(a), s.arr.cg.vars, k.env, c.regs)
    ensures var s := StepsOfFor(x, ix, a, body, cg);
            Simulates(k, c, n, EvalFor(x, ix, OpVal(c.regs, s.arr.op), 0, body, k.env, c.w, k.ext, AsLowered, k.fuel), Gen(s.end, VoidOp), s.arr.cg.nextReg)
    decreases k.fuel, For(x, ix, a, body), 0
  {
    hide Compile, Eval, Within, Ext, Formed, TwoWay, Bound, Decls, CG.Emit, CG.Update, CG.Define, CG.Compute, CG.CloseAt, CG.Create, CG.DefinePhi, Run, After, Simulates, SameBelow, EvalFor, ForTest, ForBind, ForNext, ForReady;
    var s := StepsOfFor(x, ix, a, body, cg);
    var loop := |cg.p.blocks|;
    var arr := OpVal(c.regs, s.arr.op);
    FrameFor(x, ix, a, body, cg);
    WithinFor(s, x, ix, k.q, cg);
    SimForTest(k, s.arr.op, loop, s.arr.cg, c);
    var c2 := After(k, 3, c);
    n := 3;
    if ArraySize(arr) > 0 {
      BoundScoped(d + Decls(a), s.arr.cg.vars, k.env, c.regs);
      BoundKept(d + Decls(a), d + Decls(a), s.arr.cg, s.arr.cg.vars, k.env, c.regs, c2.regs);
      OpBelow(c.regs, c2.regs, s.arr.op, s.arr.cg.nextReg);
      ForStart(s, arr, cg, d + Decls(a), c2, k.env);
      var m := SimForLoop(k, x, ix, a, body, arr, 0, cg, d, c2);
      Extend(k, c, 3, k, m, EvalFor(x, ix, arr, 0, body, k.env, c.w, k.ext, AsLowered, k.fuel), Gen(s.end, VoidOp), s.arr.cg.nextReg, s.g1.nextReg);
      n := 3 + m;
    } else {
      AtFresh(c2, s.end);
      ForOver(x, ix, arr, 0, body, k.env, c.w, k.ext, k.fuel);
      DoneSimulates(k, c, 3, VVoid, c.w, Gen(s.end, VoidOp), s.arr.cg.nextReg);
    }
  }

  lemma ForOver(x: Variable, ix: Option<Variable>, arr: Value, i: nat, body: Expr, env: Env, w: World, ext: External, fuel: nat)
    requires i >= ArraySize(arr)
    ensures EvalFor(x, ix, arr, i, body, env, w, ext, AsLowered, fuel) == Done(VVoid, w)
  {
  }

  /** What holds when the loop block is entered for element i. */
  ghost predicate ForReady(s: ForSteps, arr: Value, i: nat, cg: CG, d: set<Variable>, c: Config, env: Env) {
    && c.status.Going? && c.blk == |cg.p.blocks| && c.pc == 0 && i < ArraySize(arr)
    && (if i == 0 then c.prev == cg.cur
        else c.prev == s.body.cg.cur && OpVal(c.regs, Reg(s.body.cg.nextReg)) == VInt(i))
    && OpVal(c.regs, s.arr.op) == arr && OpVal(c.regs, Reg(s.arr.cg.nextReg)) == VInt(ArraySize(arr))
    && Bound(d, s.arr.cg.vars, env, c.regs)
  }

  lemma ForStart(s: ForSteps, arr: Value, cg: CG, d: set<Variable>, c: Config, env: Env)
    requires Arrived(c, |cg.p.blocks|, cg.cur, c.w) && 0 < ArraySize(arr) && Bound(d, s.arr.cg.vars, env, c.regs)
    requires OpVal(c.regs, s.arr.op) == arr && OpVal(c.regs, Reg(s.arr.cg.nextReg)) == VInt(ArraySize(arr))
    ensures ForReady(s, arr, 0, cg, d, c, env)
  {
  }

  /** From the loop block to the body for element i. */
  lemma SimForEnter(k: Ctx, x: Variable, ix: Option<Variable>, a: Expr, body: Expr, arr: Value, i: nat, cg: CG, d: set<Variable>, c: Config)
    requires cg.Valid() && Formed(For(x, ix, a, body), d)
    requires ForReady(StepsOfFor(x, ix, a, body, cg), arr, i, cg, d + Decls(a), c, k.env)
    requires Within(CompileFor(x, ix, a, body, cg).cg.p, k.q)
    ensures var s := StepsOfFor(x, ix, a, body, cg);
            var c1 := After(k, 3, c);
            && Ready(k.(env := LoopEnv(k.env, x, ix, arr, i)), s.g2, d + Decls(a) + LoopVars(x, ix), c1) && c1.w == c.w
            && OpVal(c1.regs, Reg(s.g1.nextReg)) == VInt(i) && SameBelow(c.regs, c1.regs, s.g1.nextReg)
            && Within(s.body.cg.p, k.q) && s.body == Compile(body, false, s.g2) && s.g1.nextReg < s.g2.nextReg
  {
    hide Compile, Eval, Within, Ext, TwoWay, Bound, Decls, CG.Emit, CG.Update, CG.Define, CG.Compute, CG.CloseAt, CG.Create, CG.DefinePhi, Run, After, Simulates, SameBelow, ForTest, ForBind, ForNext;
    var s := StepsOfFor(x, ix, a, body, cg);
    FrameFor(x, ix, a, body, cg);
    WithinFor(s, x, ix, k.q, cg);
    AtFresh(c, s.g1);
    ForIndex0(k.q, s, i, cg, c);
    BoundSame(d + Decls(a), s.arr.cg.vars, s.g1.vars, k.env, c.regs);
    SimForBind(k, x, ix, s.arr.op, cg.cur, i, s.g1, d + Decls(a), c);
  }

  /** The iterations from element i on. */
  lemma {:induction false} SimForLoop(k: Ctx, x: Variable, ix: Option<Variable>, a: Expr, body: Expr, arr: Value, i: nat, cg: CG, d: set<Variable>, c: Config) returns (n: nat)
    requires cg.Valid() && Formed(For(x, ix, a, body), d) && TwoWay(k.q)
    requires ForReady(StepsOfFor(x, ix, a, body, cg), arr, i, cg, d + Decls(a), c, k.env)
    requires Within(CompileFor(x, ix, a, body, cg).cg.p, k.q)
    ensures var s := StepsOfFor(x, ix, a, body, cg);
            Simulates(k, c, n, EvalFor(x, ix, arr, i, body, k.env, c.w, k.ext, AsLowered, k.fuel), Gen(s.end, VoidOp), s.g1.nextReg)
    decreases k.fuel, body, (if i < ArraySize(arr) then ArraySize(arr) - i else 0) + 6
  {
    hide Compile, Eval, Within, Ext, TwoWay, Bound, Decls, CG.Emit, CG.Update, CG.Define, CG.Compute, CG.CloseAt, CG.Create, CG.DefinePhi, Run, After, Simulates, SameBelow, StepsOfFor, LoopEnv, CG.Valid, ForReady;
    var s := StepsOfFor(x, ix, a, body, cg);
    var g := Gen(s.end, VoidOp);
    ForReadyIs(s, arr, i, cg, d + Decls(a), c, k.env);
    SimForEnter(k, x, ix, a, body, arr, i, cg, d, c);
    var k' := k.(env := LoopEnv(k.env, x, ix, arr, i));
    var c1 := After(k, 3, c);
    var m := Sim(k', body, false, s.g2, d + Decls(a) + LoopVars(x, ix), c1);
    var o := Eval(body, false, k'.env, c.w, k.ext, AsLowered, k.fuel);
    if !o.Done? {
      Extend(k, c, 3, k', m, o, s.body, s.g1.nextReg, s.g2.nextReg);
      n := 3 + m;
      StopSimulates(k, c, n, o, s.body, s.g1.nextReg, g, s.g1.nextReg);
    } else {
      SimulatesDone(k', c1, m, o, s.body, s.g2.nextReg);
      var c2 := After(k', m, c1);
      AfterSame(k, k', m, c1);
      AfterPlus(k, c, 3, m);
      OpBelow(c1.regs, c2.regs, Reg(s.g1.nextReg), s.g2.nextReg);
      SameTrans(c.regs, c1.regs, c2.regs, s.g1.nextReg, s.g2.nextReg);
      SimForBack(k, x, ix, a, body, arr, i, cg, d + Decls(a), c, c2);
      AfterPlus(k, c, 3 + m, 3);
      n := 3 + m + 3;
      var c3 := After(k, n, c);
      if i + 1 < ArraySize(arr) {
        var r := SimForLoop(k, x, ix, a, body, arr, i + 1, cg, d, c3);
        Extend(k, c, n, k, r, EvalFor(x, ix, arr, i + 1, body, k.env, o.w, k.ext, AsLowered, k.fuel), g, s.g1.nextReg, s.g1.nextReg);
        n := n + r;
      } else {
        ForOver(x, ix, arr, i + 1, body, k.env, o.w, k.ext, k.fuel);
        DoneSimulates(k, c, n, VVoid, o.w, g, s.g1.nextReg);
      }
    }
  }

  lemma ForReadyIs(s: ForSteps, arr: Value, i: nat, cg: CG, d: set<Variable>, c: Config, env: Env)
    requires ForReady(s, arr, i, cg, d, c, env)
    ensures i < ArraySize(arr)
  {
  }

  /** From the end of the body: to the loop block for the next element, or to the end. */
  lemma SimForBack(k: Ctx, x: Variable, ix: Option<Variable>, a: Expr, body: Expr, arr: Value, i: nat, cg: CG, d: set<Variable>, c: Config, c2: Config)
    requires cg.Valid() && Within(CompileFor(x, ix, a, body, cg).cg.p, k.q)
    requires var s := StepsOfFor(x, ix, a, body, cg);
             && ForReady(s, arr, i, cg, d, c, k.env) && At(c2, s.body.cg)
             && OpVal(c2.regs, Reg(s.g1.nextReg)) == VInt(i) && SameBelow(c.regs, c2.regs, s.g1.nextReg)
    ensures var s := StepsOfFor(x, ix, a, body, cg);
            var c3 := After(k, 3, c2);
            && c3.status.Going? && c3.w == c2.w && SameBelow(c.regs, c3.regs, s.g1.nextReg)
            && if i + 1 < ArraySize(arr) then ForReady(s, arr, i + 1, cg, d, c3, k.env) else At(c3, s.end)
  {
    hide Compile, Eval, Within, Ext, Formed, TwoWay, Bound, Decls, CG.Emit, CG.Update, CG.Define, CG.Compute, CG.CloseAt, CG.Create, CG.DefinePhi, Run, After, Simulates, SameBelow, ForTest, ForBind, ForNext;
    var s := StepsOfFor(x, ix, a, body, cg);
    var loop := |cg.p.blocks|;
    FrameFor(x, ix, a, body, cg);
    WithinFor(s, x, ix, k.q, cg);
    GoodGrows(s.g2, s.body.cg);
    SizeFits(arr);
    OpBelow(c.regs, c2.regs, Reg(s.arr.cg.nextReg), s.g1.nextReg);
    SimForNext(k, s.arr.cg.nextReg, s.g1.nextReg, loop, i, ArraySize(arr), s.body.cg, c2);
    var c3 := After(k, 3, c2);
    SameTrans(c.regs, c2.regs, c3.regs, s.g1.nextReg, s.body.cg.nextReg);
    if i + 1 < ArraySize(arr) {
      BoundScoped(d, s.arr.cg.vars, k.env, c.regs);
      SameLess(c.regs, c3.regs, s.arr.cg.nextReg, s.g1.nextReg);
      BoundKept(d, d, s.arr.cg, s.arr.cg.vars, k.env, c.regs, c3.regs);
      OpBelow(c.regs, c3.regs, s.arr.op, s.g1.nextReg);
      OpBelow(c.regs, c3.regs, Reg(s.arr.cg.nextReg), s.g1.nextReg);
    } else {
      AtFresh(c3, s.end);
    }
  }

  lemma SizeFits(v: Value)
    ensures I32(ArraySize(v)) == ArraySize(v)
  {
  }

  /** Whichever edge the loop block was entered by, the phi's operand for it is the index. */
  lemma ForIndex0(q: Program, s: ForSteps, i: nat, cg: CG, c: Config)
    requires c.status.Going? && cg.cur < |cg.p.blocks| && s.g1.nextReg in q.phis && cg.cur != s.body.cg.cur
    requires [Incoming(Const(VInt(0)), cg.cur), Incoming(Reg(s.body.cg.nextReg), s.body.cg.cur)] <= q.phis[s.g1.nextReg]
    requires if i == 0 then c.prev == cg.cur else c.prev == s.body.cg.cur && OpVal(c.regs, Reg(s.body.cg.nextReg)) == VInt(i)
    ensures FindIncoming(q.phis[s.g1.nextReg], c.prev).Some?
    ensures OpVal(c.regs, FindIncoming(q.phis[s.g1.nextReg], c.prev).value) == VInt(i)
  {
    var i1, i2 := Incoming(Const(VInt(0)), cg.cur), Incoming(Reg(s.body.cg.nextReg), s.body.cg.cur);
    FindTwo(i1, i2, c.prev);
    FindPrefix([i1, i2], q.phis[s.g1.nextReg], c.prev);
  }
}
