/** Single steps of the machine over generated code, and what it means that running generated code
    agrees with evaluation. */
module CodeStep {
  import opened Options
  import opened IR
  import opened Source
  import opened Lowering
  import opened LoweringFrame
  import opened CodeScope

  // ---------------------------------------------------------------- code that is part of a program

  /** Everything generated so far is in q: blocks and phi lists may have grown since. */
  ghost predicate Within(p: Program, q: Program) {
    && |p.blocks| <= |q.blocks|
    && (forall k | 0 <= k < |p.blocks| ::
          && p.blocks[k].instrs <= q.blocks[k].instrs
          && (!p.blocks[k].term.Open? ==> p.blocks[k] == q.blocks[k]))
    && (forall r | r in p.phis :: r in q.phis && p.phis[r] <= q.phis[r])
  }

  lemma WithinTrans(p: Program, q: Program, r: Program)
    requires Within(p, q) && Within(q, r)
    ensures Within(p, r)
  {
    forall k | 0 <= k < |p.blocks|
      ensures p.blocks[k].instrs <= r.blocks[k].instrs
    {
      assert p.blocks[k].instrs <= q.blocks[k].instrs <= r.blocks[k].instrs;
    }
    forall k | k in p.phis
      ensures k in r.phis && p.phis[k] <= r.phis[k]
    {
      assert p.phis[k] <= q.phis[k] <= r.phis[k];
    }
  }

  lemma WithinGood(a: CG, b: CG, q: Program)
    requires Good(a, b) && Within(b.p, q)
    ensures Within(a.p, q)
  {
    assert Within(a.p, b.p);
    WithinTrans(a.p, b.p, q);
  }

  lemma WithinEmit(a: CG, i: Instr, q: Program)
    requires a.Valid() && Within(a.Emit(i).p, q)
    ensures Within(a.p, q)
  {
    GoodRefl(a);
    GoodEmit(a, a, i);
    WithinGood(a, a.Emit(i), q);
  }

  lemma WithinPhi(a: CG, list: seq<Incoming>, q: Program)
    requires a.Valid() && |list| <= 2 && Within(a.DefinePhi(list).p, q)
    ensures Within(a.p, q) && Within(a.Emit(Phi(a.nextReg)).p, q)
    ensures a.nextReg in q.phis && list <= q.phis[a.nextReg]
  {
    GoodRefl(a);
    GoodPhi(a, a, list);
    WithinGood(a, a.DefinePhi(list), q);
    assert Within(a.Emit(Phi(a.nextReg)).p, a.DefinePhi(list).p);
    WithinTrans(a.Emit(Phi(a.nextReg)).p, a.DefinePhi(list).p, q);
  }

  lemma WithinClose(a: CG, t: Terminator, at: nat, q: Program)
    requires a.Valid() && Within(a.CloseAt(t, at).p, q)
    ensures Within(a.p, q)
  {
    assert Within(a.p, a.CloseAt(t, at).p);
    WithinTrans(a.p, a.CloseAt(t, at).p, q);
  }

  lemma WithinDefine(a: CG, i: Instr, q: Program)
    requires a.Valid() && Within(a.Define(i).p, q)
    ensures Within(a.p, q) && Within(a.Emit(i).p, q)
  {
    WithinEmit(a, i, q);
  }

  lemma WithinCompute(a: CG, prim: Prim, x: Operand, y: Operand, q: Program)
    requires a.Valid() && Within(a.Compute(prim, x, y).p, q)
    ensures Within(a.p, q)
  {
    WithinEmit(a, Pure(a.nextReg, prim, x, y), q);
  }

  // ---------------------------------------------------------------- machine steps

  /** The machine is where the next emitted instruction will go. */
  ghost predicate At(c: Config, cg: CG) {
    c.status.Going? && cg.cur < |cg.p.blocks| && c.blk == cg.cur && c.pc == |cg.p.blocks[cg.cur].instrs|
  }

  /** The machine has just jumped from block `from` to the start of block `to`. */
  ghost predicate Arrived(c: Config, to: nat, from: nat, w: World) {
    c.status.Going? && c.blk == to && c.pc == 0 && c.prev == from && c.w == w
  }

  ghost predicate Traps(c: Config, w: World) {
    c.status.Trapped? && c.w == w
  }

  lemma AtFresh(c: Config, cg: CG)
    requires c.status.Going? && c.blk == cg.cur && c.pc == 0 && cg.cur < |cg.p.blocks| && cg.p.blocks[cg.cur] == FreshBlock
    ensures At(c, cg)
  {
  }

  lemma AtCreate(c: Config, a: CG, n: nat)
    requires At(c, a)
    ensures At(c, a.Create(n))
  {
  }

  lemma StepEmit(a: CG, i: Instr, q: Program, c: Config, ext: External)
    requires a.Valid() && Within(a.Emit(i).p, q) && At(c, a)
    ensures Run(q, 1, c, ext) == Exec(q, i, c, ext)
  {
    assert Run(q, 1, c, ext) == Run(q, 0, Step(q, c, ext), ext);
    assert a.Emit(i).p.blocks[a.cur].instrs <= q.blocks[a.cur].instrs;
    assert a.Emit(i).p.blocks[a.cur].instrs[c.pc] == i;
  }

  lemma StepClose(a: CG, t: Terminator, at: nat, q: Program, c: Config, ext: External)
    requires a.Valid() && !t.Open? && Within(a.CloseAt(t, at).p, q) && At(c, a)
    ensures Run(q, 1, c, ext) == Jump(t, c)
  {
    assert Run(q, 1, c, ext) == Run(q, 0, Step(q, c, ext), ext);
    assert a.CloseAt(t, at).p.blocks[a.cur] == q.blocks[a.cur];
  }

  /** A longer incoming list finds the same operand. */
  lemma {:induction false} FindPrefix(a: seq<Incoming>, b: seq<Incoming>, from: nat)
    requires a <= b && FindIncoming(a, from).Some?
    ensures FindIncoming(b, from) == FindIncoming(a, from)
  {
    if a != [] && a[0].from != from {
      assert a[1..] <= b[1..];
      FindPrefix(a[1..], b[1..], from);
    }
  }

  lemma FindTwo(i1: Incoming, i2: Incoming, from: nat)
    requires i1.from != i2.from && (from == i1.from || from == i2.from)
    ensures FindIncoming([i1, i2], from) == Some(if from == i1.from then i1.op else i2.op)
  {
    assert [i1, i2][1..] == [i2];
  }

  // ---------------------------------------------------------------- the simulation relation

  /** What a run is given: the program, the functions it calls, the loop variables and arguments,
      and how many iterations evaluation may make. */
  datatype Ctx = Ctx(q: Program, ext: External, env: Env, fuel: nat)

  /** The configuration n steps on. */
  function After(k: Ctx, n: nat, c: Config): Config {
    Run(k.q, n, c, k.ext)
  }

  /** The loop variables and arguments in scope hold their values. */
  ghost predicate Bound(d: set<Variable>, vars: map<Variable, Operand>, env: Env, regs: Regs) {
    && Scoped(d, vars)
    && forall x | x in d && !x.kind.Declared? :: x in env && OpVal(regs, vars[x]) == env[x]
  }

  /** Registers below n are the same in both. */
  ghost predicate SameBelow(a: Regs, b: Regs, n: nat) {
    forall op: Operand | Below(op, n) :: OpVal(b, op) == OpVal(a, op)
  }

  lemma SameTrans(a: Regs, b: Regs, c: Regs, m: nat, n: nat)
    requires SameBelow(a, b, m) && SameBelow(b, c, n) && m <= n
    ensures SameBelow(a, c, m)
  {
  }

  lemma SameLess(a: Regs, b: Regs, m: nat, n: nat)
    requires SameBelow(a, b, n) && m <= n
    ensures SameBelow(a, b, m)
  {
  }

  lemma OpBelow(a: Regs, b: Regs, op: Operand, n: nat)
    requires SameBelow(a, b, n) && Below(op, n)
    ensures OpVal(b, op) == OpVal(a, op)
  {
  }

  lemma BoundKept(d: set<Variable>, d': set<Variable>, cg: CG, vars': map<Variable, Operand>, env: Env, regs: Regs, regs': Regs)
    requires cg.Valid() && Bound(d, cg.vars, env, regs) && SameBelow(regs, regs', cg.nextReg)
    requires Scoped(d', vars') && Kept(d, cg.vars, vars') && forall x | x in d' && !x.kind.Declared? :: x in d
    ensures Bound(d', vars', env, regs')
  {
  }

  lemma BoundScoped(d: set<Variable>, vars: map<Variable, Operand>, env: Env, regs: Regs)
    requires Bound(d, vars, env, regs)
    ensures Scoped(d, vars)
  {
  }

  lemma BoundSame(d: set<Variable>, vars: map<Variable, Operand>, vars': map<Variable, Operand>, env: Env, regs: Regs)
    requires Bound(d, vars, env, regs) && vars == vars'
    ensures Bound(d, vars', env, regs)
  {
  }

  lemma {:induction false} DeclsAreDeclared(e: Expr, d: set<Variable>)
    requires Formed(e, d)
    ensures forall x | x in Decls(e) :: x.kind.Declared?
  {
    match e
    case NotE(e1) => DeclsAreDeclared(e1, d);
    case Deref(e1) => DeclsAreDeclared(e1, d);
    case New(e1) => DeclsAreDeclared(e1, d);
    case VarDecl(x, e1) => DeclsAreDeclared(e1, d);
    case Assign(l, r) => DeclsAreDeclared(l, d); DeclsAreDeclared(r, d + Decls(l));
    case And(l, r) => DeclsAreDeclared(l, d); DeclsAreDeclared(r, d + Decls(l));
    case Or(l, r) => DeclsAreDeclared(l, d); DeclsAreDeclared(r, d + Decls(l));
    case Index(a, i) => DeclsAreDeclared(a, d); DeclsAreDeclared(i, d + Decls(a));
    case If(c, t, e1) =>
      DeclsAreDeclared(c, d); DeclsAreDeclared(t, d + Decls(c)); DeclsAreDeclared(e1, d + Decls(c) + Decls(t));
    case IfThen(c, t) => DeclsAreDeclared(c, d); DeclsAreDeclared(t, d + Decls(c));
    case For(x, ix, a, body) => DeclsAreDeclared(a, d); DeclsAreDeclared(body, d + Decls(a) + LoopVars(x, ix));
    case While(c, body) => DeclsAreDeclared(c, d); DeclsAreDeclared(body, d + Decls(c));
    case BlockE(es) => AllDeclsAreDeclared(es, d);
    case CallE(f, args, _) => DeclsAreDeclared(f, d); AllDeclsAreDeclared(args, d + Decls(f));
    case _ =>
  }

  lemma {:induction false} AllDeclsAreDeclared(es: Exprs, d: set<Variable>)
    requires FormedAll(es, d)
    ensures forall x | x in DeclsOf(es) :: x.kind.Declared?
  {
    match es
    case Nil =>
    case Cons(e, rest) => DeclsAreDeclared(e, d); AllDeclsAreDeclared(rest, d + Decls(e));
  }

  /** After lowering and running e the variables in scope are still bound. */
  lemma BoundAfter(e: Expr, ref: bool, d: set<Variable>, cg: CG, env: Env, regs: Regs, regs': Regs)
    requires cg.Valid() && Formed(e, d) && Bound(d, cg.vars, env, regs) && SameBelow(regs, regs', cg.nextReg)
    ensures Bound(d + Decls(e), Compile(e, ref, cg).cg.vars, env, regs')
  {
    hide Compile, Formed, Decls;
    ScopeOf(e, ref, cg, d);
    DeclsAreDeclared(e, d);
    BoundKept(d, d + Decls(e), cg, Compile(e, ref, cg).cg.vars, env, regs, regs');
  }

  /** n steps on from c is where evaluation with outcome `out` must lead: to the end of the generated
      code with the value in its operand, to a trap, (out of fuel) at least fuel steps further, or to
      where the machine is stuck.
      Registers below `below` keep their values. */
  ghost predicate Simulates(k: Ctx, c: Config, n: nat, out: Outcome, g: Gen, below: nat) {
    var c' := After(k, n, c);
    match out
    case Done(v, w) => At(c', g.cg) && c'.w == w && OpVal(c'.regs, g.op) == v && SameBelow(c.regs, c'.regs, below)
    case Trap(w) => Traps(c', w)
    case Timeout => n >= k.fuel && c'.status.Going?
    case Broken => c'.status.Stuck?
  }

  lemma SimulatesDone(k: Ctx, c: Config, n: nat, out: Outcome, g: Gen, below: nat)
    requires Simulates(k, c, n, out, g, below) && out.Done?
    ensures var c' := After(k, n, c);
            At(c', g.cg) && c'.w == out.w && OpVal(c'.regs, g.op) == out.v && SameBelow(c.regs, c'.regs, below)
  {
  }

  lemma DoneSimulates(k: Ctx, c: Config, n: nat, v: Value, w: World, g: Gen, below: nat)
    requires var c' := After(k, n, c);
             At(c', g.cg) && c'.w == w && OpVal(c'.regs, g.op) == v && SameBelow(c.regs, c'.regs, below)
    ensures Simulates(k, c, n, Done(v, w), g, below)
  {
  }

  /** A run that does not reach the end of the code does not depend on what the end is. */
  lemma StopSimulates(k: Ctx, c: Config, n: nat, out: Outcome, g: Gen, below: nat, g': Gen, below': nat)
    requires Simulates(k, c, n, out, g, below) && !out.Done?
    ensures Simulates(k, c, n, out, g', below')
  {
  }

  lemma HereSimulates(k: Ctx, c: Config, v: Value, g: Gen, below: nat)
    requires At(c, g.cg) && OpVal(c.regs, g.op) == v
    ensures Simulates(k, c, 0, Done(v, c.w), g, below)
  {
  }

  /** Running on: from c the machine gets to where the rest of the code starts, and from there the
      rest agrees with evaluation.  Steps already made count as fuel. */
  lemma Extend(k: Ctx, c: Config, n: nat, k': Ctx, m: nat, out: Outcome, g: Gen, below: nat, below': nat)
    requires k'.q == k.q && k'.ext == k.ext && n + k'.fuel >= k.fuel
    requires SameBelow(c.regs, After(k, n, c).regs, below) && below <= below'
    requires Simulates(k', After(k, n, c), m, out, g, below')
    ensures Simulates(k, c, n + m, out, g, below)
  {
    RunPlus(k.q, n, m, c, k.ext);
    if out.Done? {
      SameTrans(c.regs, After(k, n, c).regs, After(k, n + m, c).regs, below, below');
    }
  }

  lemma AfterPlus(k: Ctx, c: Config, n: nat, m: nat)
    ensures After(k, n + m, c) == After(k, m, After(k, n, c))
  {
    RunPlus(k.q, n, m, c, k.ext);
  }

  // ---------------------------------------------------------------- single instructions

  lemma SimPure(k: Ctx, prim: Prim, x: Operand, y: Operand, a: CG, c: Config)
    requires a.Valid() && Within(a.Compute(prim, x, y).p, k.q) && At(c, a)
    ensures Simulates(k, c, 1, Done(Apply(prim, OpVal(c.regs, x), OpVal(c.regs, y)), c.w),
                      Gen(a.Compute(prim, x, y), Reg(a.nextReg)), a.nextReg)
    ensures After(k, 1, c).prev == c.prev
  {
    StepEmit(a, Pure(a.nextReg, prim, x, y), k.q, c, k.ext);
  }

  lemma SimLoad(k: Ctx, p: Operand, a: CG, c: Config)
    requires a.Valid() && Within(a.Define(Load(a.nextReg, p)).p, k.q) && At(c, a)
    ensures Simulates(k, c, 1, Done(LoadFrom(c.w.mem, OpVal(c.regs, p)), c.w),
                      Gen(a.Define(Load(a.nextReg, p)), Reg(a.nextReg)), a.nextReg)
  {
    StepEmit(a, Load(a.nextReg, p), k.q, c, k.ext);
  }

  /** A store; op is any operand that should survive it. */
  lemma SimStore(k: Ctx, v: Operand, p: Operand, op: Operand, a: CG, c: Config, below: nat)
    requires a.Valid() && Within(a.Emit(Store(v, p)).p, k.q) && At(c, a)
    ensures Simulates(k, c, 1, Done(OpVal(c.regs, op), c.w.(mem := StoreTo(c.w.mem, OpVal(c.regs, p), OpVal(c.regs, v)))),
                      Gen(a.Emit(Store(v, p)), op), below)
  {
    StepEmit(a, Store(v, p), k.q, c, k.ext);
  }

  lemma SimNewCell(k: Ctx, a: CG, c: Config)
    requires a.Valid() && Within(a.Define(NewCell(a.nextReg)).p, k.q) && At(c, a)
    ensures Simulates(k, c, 1, Done(MakeCell(c.w).0, MakeCell(c.w).1), Gen(a.Define(NewCell(a.nextReg)), Reg(a.nextReg)), a.nextReg)
  {
    StepEmit(a, NewCell(a.nextReg), k.q, c, k.ext);
  }

  lemma SimInvoke(k: Ctx, f: Operand, args: seq<Operand>, isVoid: bool, a: CG, c: Config)
    requires a.Valid() && Within(a.Define(Invoke(a.nextReg, f, args)).p, k.q) && At(c, a)
    ensures Simulates(k, c, 1, DoCall(OpVal(c.regs, f), OpVals(c.regs, args), isVoid, c.w, k.ext),
                      Gen(a.Define(Invoke(a.nextReg, f, args)), if isVoid then VoidOp else Reg(a.nextReg)), a.nextReg)
  {
    hide Within;
    StepEmit(a, Invoke(a.nextReg, f, args), k.q, c, k.ext);
  }

  /** A phi takes the operand listed for the block the machine came from. */
  lemma SimPhi(k: Ctx, list: seq<Incoming>, a: CG, c: Config)
    requires a.Valid() && |list| <= 2 && Within(a.DefinePhi(list).p, k.q) && At(c, a)
    requires a.nextReg in k.q.phis && FindIncoming(k.q.phis[a.nextReg], c.prev).Some?
    ensures Simulates(k, c, 1, Done(OpVal(c.regs, FindIncoming(k.q.phis[a.nextReg], c.prev).value), c.w),
                      Gen(a.DefinePhi(list), Reg(a.nextReg)), a.nextReg)
  {
    WithinPhi(a, list, k.q);
    StepEmit(a, Phi(a.nextReg), k.q, c, k.ext);
  }

  /** A branch out of the insertion block. */
  lemma SimJump(k: Ctx, t: Terminator, at: nat, a: CG, c: Config)
    requires a.Valid() && (t.Br? || t.CondBr?) && Within(a.CloseAt(t, at).p, k.q) && At(c, a)
    ensures Arrived(After(k, 1, c), if t.Br? then t.to else if AsBool(OpVal(c.regs, t.cond)) then t.yes else t.no, a.cur, c.w)
    ensures After(k, 1, c).regs == c.regs
  {
    StepClose(a, t, at, k.q, c, k.ext);
  }

  // ---------------------------------------------------------------- fixed instruction sequences

  /** A new cell with v stored in it. */
  lemma SimNewStore(k: Ctx, v: Operand, a: CG, c: Config)
    requires a.Valid() && Below(v, a.nextReg) && At(c, a)
    requires Within(a.Define(NewCell(a.nextReg)).Emit(Store(v, Reg(a.nextReg))).p, k.q)
    ensures var (p, w) := MakeCell(c.w);
            Simulates(k, c, 2, Done(p, w.(mem := StoreTo(w.mem, p, OpVal(c.regs, v)))),
                      Gen(a.Define(NewCell(a.nextReg)).Emit(Store(v, Reg(a.nextReg))), Reg(a.nextReg)), a.nextReg)
  {
    hide Within, Ext, CG.Emit, CG.Update, CG.Define, Run, Step, Exec, Simulates, SameBelow, After;
    var r := a.nextReg;
    var g1 := a.Define(NewCell(r));
    var (p, w) := MakeCell(c.w);
    GoodRefl(a);
    GoodEmit(a, a, NewCell(r));
    WithinEmit(g1, Store(v, Reg(r)), k.q);
    WithinDefine(a, NewCell(r), k.q);
    SimNewCell(k, a, c);
    SimulatesDone(k, c, 1, Done(p, w), Gen(g1, Reg(r)), r);
    var c1 := After(k, 1, c);
    OpBelow(c.regs, c1.regs, v, r);
    SimStore(k, v, Reg(r), Reg(r), g1, c1, r);
    Extend(k, c, 1, k, 1, Done(p, w.(mem := StoreTo(w.mem, p, OpVal(c.regs, v)))), Gen(g1.Emit(Store(v, Reg(r))), Reg(r)), r, r);
  }

  lemma SizeInRange(v: Value)
    ensures AsInt(VInt(ArraySize(v))) == ArraySize(v)
  {
  }


  /** The instructions of the bounds test: two parts of the array, then the comparison. */
  lemma SimIndexTest(k: Ctx, arr: Operand, ix: Operand, a: CG, c: Config)
    requires a.Valid() && Within(IndexTest(arr, ix, a).p, k.q) && At(c, a)
    requires Below(arr, a.nextReg) && Below(ix, a.nextReg)
    ensures var c' := After(k, 3, c);
            && At(c', IndexTest(arr, ix, a)) && c'.w == c.w && SameBelow(c.regs, c'.regs, a.nextReg)
            && OpVal(c'.regs, Reg(a.nextReg)) == ArrayPtr(OpVal(c.regs, arr))
            && AsBool(OpVal(c'.regs, Reg(a.nextReg + 2)))
               == OutOfBounds(AsInt(OpVal(c.regs, ix)), ArraySize(OpVal(c.regs, arr)))
  {
    hide Within, Ext, CG.Emit, CG.Update, CG.Define, CG.Compute, CG.CloseAt, CG.Create, CG.DefinePhi, CG.AddIncoming, Run, Step, Exec, Simulates, SameBelow, After;
    var r := a.nextReg;
    GoodRefl(a);
    GoodEmit(a, a, Pure(r, ExtractPtr, arr, arr));
    var g1 := a.Compute(ExtractPtr, arr, arr);
    GoodEmit(a, g1, Pure(r + 1, ExtractSize, arr, arr));
    var g2 := g1.Compute(ExtractSize, arr, arr);
    WithinCompute(g2, CmpUGE, ix, Reg(r + 1), k.q);
    WithinCompute(g1, ExtractSize, arr, arr, k.q);
    var c1 := After(k, 1, c);
    SimPure(k, ExtractPtr, arr, arr, a, c);
    SimulatesDone(k, c, 1, Done(ArrayPtr(OpVal(c.regs, arr)), c.w), Gen(g1, Reg(r)), r);
    OpBelow(c.regs, c1.regs, arr, r);
    OpBelow(c.regs, c1.regs, ix, r);
    var size := ArraySize(OpVal(c.regs, arr));
    SimPure(k, ExtractSize, arr, arr, g1, c1);
    SimulatesDone(k, c1, 1, Done(VInt(size), c.w), Gen(g2, Reg(r + 1)), r + 1);
    var c2 := After(k, 1, c1);
    AfterPlus(k, c, 1, 1);
    OpBelow(c1.regs, c2.regs, Reg(r), r + 1);
    OpBelow(c1.regs, c2.regs, ix, r + 1);
    SameTrans(c.regs, c1.regs, c2.regs, r, r + 1);
    SimPure(k, CmpUGE, ix, Reg(r + 1), g2, c2);
    var g3 := g2.Compute(CmpUGE, ix, Reg(r + 1));
    SimulatesDone(k, c2, 1, Done(Apply(CmpUGE, OpVal(c2.regs, ix), VInt(size)), c.w), Gen(g3, Reg(r + 2)), r + 2);
    AfterPlus(k, c, 2, 1);
    var c3 := After(k, 1, c2);
    OpBelow(c2.regs, c3.regs, Reg(r), r + 2);
    SameTrans(c.regs, c2.regs, c3.regs, r, r + 2);
    SizeInRange(OpVal(c.regs, arr));
  }

  /** A failed test ends in the trap block; otherwise control goes on in the block after it. */
  lemma SimTrapIf(k: Ctx, cond: Operand, a: CG, c: Config)
    requires a.Valid() && Within(TrapIf(cond, a).p, k.q) && At(c, a)
    ensures if AsBool(OpVal(c.regs, cond)) then Traps(After(k, 2, c), c.w)
            else var c' := After(k, 1, c); At(c', TrapIf(cond, a)) && c'.w == c.w && c'.regs == c.regs
  {
    hide Within, Ext, CG.Emit, CG.Update, CG.Define, CG.Compute, CG.CloseAt, CG.Create, CG.DefinePhi, CG.AddIncoming, Run, Step, Exec, Simulates, SameBelow;
    var t := |a.p.blocks|;
    GoodCreate(a, 2);
    GoodBranch(a, 2, CondBr(cond, t, t + 1));
    var g1 := a.Create(2);
    var g2 := g1.CloseAt(CondBr(cond, t, t + 1), t);
    GoodEmit(a, g2, TrapNow);
    var g3 := g2.Emit(TrapNow);
    FrameTrapIf(cond, a);
    WithinClose(g3, Unreachable, t + 1, k.q);
    WithinEmit(g2, TrapNow, k.q);
    AtCreate(c, a, 2);
    SimJump(k, CondBr(cond, t, t + 1), t, g1, c);
    var c1 := After(k, 1, c);
    if AsBool(OpVal(c.regs, cond)) {
      AtFresh(c1, g2);
      StepTrap(k, g2, c1);
      AfterPlus(k, c, 1, 1);
    } else {
      AtFresh(c1, TrapIf(cond, a));
    }
  }

  lemma StepTrap(k: Ctx, a: CG, c: Config)
    requires a.Valid() && Within(a.Emit(TrapNow).p, k.q) && At(c, a)
    ensures Traps(After(k, 1, c), c.w)
  {
    StepEmit(a, TrapNow, k.q, c, k.ext);
  }

  lemma TrapSimulates(k: Ctx, c: Config, n: nat, w: World, g: Gen, below: nat)
    requires Traps(After(k, n, c), w)
    ensures Simulates(k, c, n, Trap(w), g, below)
  {
  }

  lemma SimIndexRest(k: Ctx, arr: Operand, ix: Operand, ref: bool, a: CG, c: Config) returns (n: nat)
    requires a.Valid() && Within(IndexRest(arr, ix, ref, a).cg.p, k.q) && At(c, a)
    requires Below(arr, a.nextReg) && Below(ix, a.nextReg)
    ensures Simulates(k, c, n, IndexInto(OpVal(c.regs, arr), OpVal(c.regs, ix), ref, c.w), IndexRest(arr, ix, ref, a), a.nextReg)
  {
    hide Within, Ext, CG.Emit, CG.Update, CG.Define, CG.Compute, CG.CloseAt, CG.Create, CG.DefinePhi, CG.AddIncoming, Run, Step, Exec, Simulates, SameBelow, After, IndexTest, TrapIf, OutOfBounds;
    var r := a.nextReg;
    FrameIndexTest(arr, ix, a);
    var g1 := IndexTest(arr, ix, a);
    FrameTrapIf(Reg(r + 2), g1);
    var g2 := TrapIf(Reg(r + 2), g1);
    GoodRefl(g2);
    GoodEmit(g2, g2, Pure(r + 3, Gep, Reg(r), ix));
    if !ref { WithinDefine(g2.Compute(Gep, Reg(r), ix), Load(r + 4, Reg(r + 3)), k.q); }
    WithinCompute(g2, Gep, Reg(r), ix, k.q);
    WithinGood(g1, g2, k.q);
    SimIndexTest(k, arr, ix, a, c);
    var c1 := After(k, 3, c);
    SimTrapIf(k, Reg(r + 2), g1, c1);
    if AsBool(OpVal(c1.regs, Reg(r + 2))) {
      n := 5;
      AfterPlus(k, c, 3, 2);
      TrapSimulates(k, c, n, c.w, IndexRest(arr, ix, ref, a), r);
    } else {
      AfterPlus(k, c, 3, 1);
      OpBelow(c.regs, c1.regs, ix, r);
      n := SimElement(k, Reg(r), ix, ref, g2, After(k, 4, c));
      Extend(k, c, 4, k, n, IndexInto(OpVal(c.regs, arr), OpVal(c.regs, ix), ref, c.w), IndexRest(arr, ix, ref, a), r, r + 3);
      n := 4 + n;
    }
  }

  /** The element pointer and, without ref, its load. */
  lemma SimElement(k: Ctx, p: Operand, ix: Operand, ref: bool, a: CG, c: Config) returns (n: nat)
    requires a.Valid() && At(c, a) && Below(p, a.nextReg) && Below(ix, a.nextReg)
    requires Within(a.Compute(Gep, p, ix).p, k.q)
    requires var r := a.nextReg; !ref ==> Within(a.Compute(Gep, p, ix).Define(Load(r + 1, Reg(r))).p, k.q)
    ensures var r := a.nextReg;
            var g := a.Compute(Gep, p, ix);
            var e := ElementPtr(OpVal(c.regs, p), OpVal(c.regs, ix));
            Simulates(k, c, n, Done(if ref then e else LoadFrom(c.w.mem, e), c.w),
                      if ref then Gen(g, Reg(r)) else Gen(g.Define(Load(r + 1, Reg(r))), Reg(r + 1)), r)
  {
    hide Within, Ext, CG.Emit, CG.Update, CG.Define, CG.Compute, CG.CloseAt, CG.Create, CG.DefinePhi, CG.AddIncoming, Run, Step, Exec, Simulates, SameBelow, After;
    var r := a.nextReg;
    var g := a.Compute(Gep, p, ix);
    var e := ElementPtr(OpVal(c.regs, p), OpVal(c.regs, ix));
    GoodRefl(a);
    GoodEmit(a, a, Pure(r, Gep, p, ix));
    SimPure(k, Gep, p, ix, a, c);
    n := 1;
    if !ref {
      SimulatesDone(k, c, 1, Done(e, c.w), Gen(g, Reg(r)), r);
      SimLoad(k, Reg(r), g, After(k, 1, c));
      Extend(k, c, 1, k, 1, Done(LoadFrom(c.w.mem, e), c.w), Gen(g.Define(Load(r + 1, Reg(r))), Reg(r + 1)), r, r + 1);
      n := 2;
    }
  }

  // ---------------------------------------------------------------- joins

  /** At a join the phi takes the operand of the arm the machine came from. */
  lemma SimJoin(k: Ctx, i1: Incoming, i2: Incoming, a: CG, c: Config)
    requires a.Valid() && Within(a.DefinePhi([i1, i2]).p, k.q) && At(c, a)
    requires i1.from != i2.from && (c.prev == i1.from || c.prev == i2.from)
    ensures Simulates(k, c, 1, Done(OpVal(c.regs, if c.prev == i1.from then i1.op else i2.op), c.w),
                      Gen(a.DefinePhi([i1, i2]), Reg(a.nextReg)), a.nextReg)
  {
    hide Within, Run, Step, Exec, Simulates, CG.DefinePhi;
    FindTwo(i1, i2, c.prev);
    WithinPhi(a, [i1, i2], k.q);
    FindPrefix([i1, i2], k.q.phis[a.nextReg], c.prev);
    SimPhi(k, [i1, i2], a, c);
  }

  /** The end of an if: both arms arrive at the join with their value. */
  lemma SimIfEnd(k: Ctx, yes: Gen, no: Gen, first: bool, g3: CG, c: Config) returns (n: nat)
    requires g3.Valid() && At(c, g3) && yes.cg.cur != no.cg.cur && c.prev == (if first then yes.cg.cur else no.cg.cur)
    requires yes.op == VoidOp <==> no.op == VoidOp
    requires Within(JoinIf(Incoming(yes.op, yes.cg.cur), Incoming(no.op, no.cg.cur), g3).cg.p, k.q)
    ensures Simulates(k, c, n, Done(OpVal(c.regs, if first then yes.op else no.op), c.w),
                      JoinIf(Incoming(yes.op, yes.cg.cur), Incoming(no.op, no.cg.cur), g3), g3.nextReg)
  {
    hide Within, CG.DefinePhi, Run, Step, Exec, Simulates;
    n := 0;
    if yes.op != VoidOp {
      SimJoin(k, Incoming(yes.op, yes.cg.cur), Incoming(no.op, no.cg.cur), g3, c);
      n := 1;
    } else {
      HereSimulates(k, c, VVoid, Gen(g3, VoidOp), g3.nextReg);
    }
  }

  // ---------------------------------------------------------------- the fixed parts of a for loop

  /** The size test, and the branch it decides. */
  lemma SimForTest(k: Ctx, arr: Operand, loop: nat, a: CG, c: Config)
    requires a.Valid() && Within(ForTest(arr, loop, a).p, k.q) && At(c, a) && Below(arr, a.nextReg)
    ensures var c' := After(k, 3, c);
            var size := ArraySize(OpVal(c.regs, arr));
            && Arrived(c', if size > 0 then loop else loop + 1, a.cur, c.w)
            && OpVal(c'.regs, Reg(a.nextReg)) == VInt(size) && SameBelow(c.regs, c'.regs, a.nextReg)
  {
    hide Within, Ext, CG.Emit, CG.Update, CG.Define, CG.Compute, CG.CloseAt, CG.Create, CG.DefinePhi, CG.AddIncoming, Run, Step, Exec, Simulates, SameBelow, After;
    var r := a.nextReg;
    var size := ArraySize(OpVal(c.regs, arr));
    GoodRefl(a);
    GoodEmit(a, a, Pure(r, ExtractSize, arr, arr));
    var g1 := a.Compute(ExtractSize, arr, arr);
    GoodEmit(a, g1, Pure(r + 1, CmpSGT, Reg(r), Const(VInt(0))));
    var g2 := g1.Compute(CmpSGT, Reg(r), Const(VInt(0)));
    WithinClose(g2, CondBr(Reg(r + 1), loop, loop + 1), loop, k.q);
    WithinCompute(g1, CmpSGT, Reg(r), Const(VInt(0)), k.q);
    SimPure(k, ExtractSize, arr, arr, a, c);
    SimulatesDone(k, c, 1, Done(VInt(size), c.w), Gen(g1, Reg(r)), r);
    var c1 := After(k, 1, c);
    SimPure(k, CmpSGT, Reg(r), Const(VInt(0)), g1, c1);
    SimulatesDone(k, c1, 1, Done(Apply(CmpSGT, VInt(size), VInt(0)), c.w), Gen(g2, Reg(r + 1)), r + 1);
    var c2 := After(k, 1, c1);
    AfterPlus(k, c, 1, 1);
    OpBelow(c1.regs, c2.regs, Reg(r), r + 1);
    SameTrans(c.regs, c1.regs, c2.regs, r, r + 1);
    SimJump(k, CondBr(Reg(r + 1), loop, loop + 1), loop, g2, c2);
    AfterPlus(k, c, 2, 1);
    SizeInRange(OpVal(c.regs, arr));
  }

  /** The start of an iteration: the phi yields the index, and the loop variables are bound. */
  lemma SimForBind(k: Ctx, x: Variable, ix: Option<Variable>, arr: Operand, entry: nat, i: nat, a: CG, d: set<Variable>, c: Config)
    requires a.Valid() && At(c, a) && Bound(d, a.vars, k.env, c.regs)
    requires Within(ForBind(x, ix, arr, entry, a).p, k.q) && Below(arr, a.nextReg)
    requires x.kind.ForElement? && x !in d && (ix.Some? ==> ix.value.kind.ForIndex? && ix.value !in d)
    requires FindIncoming(k.q.phis[a.nextReg], c.prev).Some? && OpVal(c.regs, FindIncoming(k.q.phis[a.nextReg], c.prev).value) == VInt(i)
    ensures var c' := After(k, 3, c);
            var g := ForBind(x, ix, arr, entry, a);
            && At(c', g) && Bound(d + LoopVars(x, ix), g.vars, LoopEnv(k.env, x, ix, OpVal(c.regs, arr), i), c'.regs)
            && c'.w == c.w && OpVal(c'.regs, Reg(a.nextReg)) == VInt(i) && SameBelow(c.regs, c'.regs, a.nextReg)
  {
    hide Within, Ext, CG.Emit, CG.Update, CG.Define, CG.Compute, CG.CloseAt, CG.Create, CG.DefinePhi, CG.AddIncoming, Run, Step, Exec, Simulates, SameBelow, After, Bound, ElementPtr, ArrayPtr;
    var r := a.nextReg;
    var list := [Incoming(Const(VInt(0)), entry)];
    GoodRefl(a);
    GoodPhi(a, a, list);
    var g1 := a.DefinePhi(list);
    GoodEmit(a, g1, Pure(r + 1, ExtractPtr, arr, arr));
    var g2 := g1.Compute(ExtractPtr, arr, arr);
    GoodEmit(a, g2, Pure(r + 2, Gep, Reg(r + 1), Reg(r)));
    WithinCompute(g2, Gep, Reg(r + 1), Reg(r), k.q);
    WithinCompute(g1, ExtractPtr, arr, arr, k.q);
    WithinPhi(a, list, k.q);
    SimPhi(k, list, a, c);
    SimulatesDone(k, c, 1, Done(VInt(i), c.w), Gen(g1, Reg(r)), r);
    var c1 := After(k, 1, c);
    OpBelow(c.regs, c1.regs, arr, r);
    SimPure(k, ExtractPtr, arr, arr, g1, c1);
    SimulatesDone(k, c1, 1, Done(ArrayPtr(OpVal(c.regs, arr)), c.w), Gen(g2, Reg(r + 1)), r + 1);
    var c2 := After(k, 1, c1);
    AfterPlus(k, c, 1, 1);
    OpBelow(c1.regs, c2.regs, Reg(r), r + 1);
    SameTrans(c.regs, c1.regs, c2.regs, r, r + 1);
    SimPure(k, Gep, Reg(r + 1), Reg(r), g2, c2);
    var e := ElementPtr(ArrayPtr(OpVal(c.regs, arr)), VInt(i));
    SimulatesDone(k, c2, 1, Done(e, c.w), Gen(g2.Compute(Gep, Reg(r + 1), Reg(r)), Reg(r + 2)), r + 2);
    AfterPlus(k, c, 2, 1);
    var c3 := After(k, 1, c2);
    OpBelow(c2.regs, c3.regs, Reg(r), r + 2);
    SameTrans(c.regs, c2.regs, c3.regs, r, r + 2);
    ForBound(x, ix, arr, entry, i, a, d, c, c3, k.env);
    AtBind(c3, g2.Compute(Gep, Reg(r + 1), Reg(r)), ForBind(x, ix, arr, entry, a));
  }

  lemma AtBind(c: Config, a: CG, b: CG)
    requires At(c, a) && b.p == a.p && b.cur == a.cur
    ensures At(c, b)
  {
  }

  lemma ForBound(x: Variable, ix: Option<Variable>, arr: Operand, entry: nat, i: nat, a: CG, d: set<Variable>, c: Config, c3: Config, env: Env)
    requires a.Valid() && Bound(d, a.vars, env, c.regs) && SameBelow(c.regs, c3.regs, a.nextReg)
    requires x.kind.ForElement? && x !in d && (ix.Some? ==> ix.value.kind.ForIndex? && ix.value !in d)
    requires OpVal(c3.regs, Reg(a.nextReg)) == VInt(i)
    requires OpVal(c3.regs, Reg(a.nextReg + 2)) == ElementPtr(ArrayPtr(OpVal(c.regs, arr)), VInt(i))
    ensures Bound(d + LoopVars(x, ix), ForBind(x, ix, arr, entry, a).vars, LoopEnv(env, x, ix, OpVal(c.regs, arr), i), c3.regs)
  {
    hide CG.Emit, CG.Update, CG.Define, CG.Compute, CG.DefinePhi;
    ScopeForBind(x, ix, arr, entry, a, d);
  }

  /** The end of an iteration: back to the loop block with the next index, or out. */
  lemma SimForNext(k: Ctx, size: nat, phi: nat, loop: nat, i: nat, n: int, a: CG, c: Config)
    requires a.Valid() && At(c, a) && phi < a.nextReg && size < a.nextReg && phi in a.p.phis
    requires Within(ForNext(size, phi, loop, a).p, k.q)
    requires OpVal(c.regs, Reg(phi)) == VInt(i) && OpVal(c.regs, Reg(size)) == VInt(n) && i < n && n == I32(n)
    ensures var c' := After(k, 3, c);
            && Arrived(c', if i + 1 < n then loop else loop + 1, a.cur, c.w)
            && OpVal(c'.regs, Reg(a.nextReg)) == VInt(i + 1) && SameBelow(c.regs, c'.regs, a.nextReg)
  {
    hide Within, Ext, CG.Emit, CG.Update, CG.Define, CG.Compute, CG.CloseAt, CG.Create, CG.DefinePhi, CG.AddIncoming, Run, Step, Exec, Simulates, SameBelow, After;
    var r := a.nextReg;
    GoodRefl(a);
    GoodEmit(a, a, Pure(r, Add, Reg(phi), Const(VInt(1))));
    var g1 := a.Compute(Add, Reg(phi), Const(VInt(1)));
    GoodEmit(a, g1, Pure(r + 1, CmpSLT, Reg(r), Reg(size)));
    var g2 := g1.Compute(CmpSLT, Reg(r), Reg(size));
    WithinForNext(k.q, size, phi, loop, a);
    SimPure(k, Add, Reg(phi), Const(VInt(1)), a, c);
    NextIndex(i, n);
    SimulatesDone(k, c, 1, Done(VInt(i + 1), c.w), Gen(g1, Reg(r)), r);
    var c1 := After(k, 1, c);
    OpBelow(c.regs, c1.regs, Reg(size), r);
    SimPure(k, CmpSLT, Reg(r), Reg(size), g1, c1);
    SimulatesDone(k, c1, 1, Done(VBool(i + 1 < n), c.w), Gen(g2, Reg(r + 1)), r + 1);
    var c2 := After(k, 1, c1);
    AfterPlus(k, c, 1, 1);
    OpBelow(c1.regs, c2.regs, Reg(r), r + 1);
    SameTrans(c.regs, c1.regs, c2.regs, r, r + 1);
    SimJump(k, CondBr(Reg(r + 1), loop, loop + 1), loop + 1, g2, c2);
    AfterPlus(k, c, 2, 1);
  }

  lemma NextIndex(i: nat, n: int)
    requires i < n && n == I32(n)
    ensures Apply(Add, VInt(i), VInt(1)) == VInt(i + 1) && Apply(CmpSLT, VInt(i + 1), VInt(n)) == VBool(i + 1 < n)
  {
  }

  lemma WithinForNext(q: Program, size: nat, phi: nat, loop: nat, a: CG)
    requires a.Valid() && phi in a.p.phis && Within(ForNext(size, phi, loop, a).p, q)
    ensures var n := a.nextReg;
            var g1 := a.Compute(Add, Reg(phi), Const(VInt(1)));
            var g2 := g1.Compute(CmpSLT, Reg(n), Reg(size));
            && Within(a.p, q) && Within(g1.p, q) && Within(g2.p, q) && g2.Valid()
            && Within(g2.CloseAt(CondBr(Reg(n + 1), loop, loop + 1), loop + 1).p, q)
    ensures phi in q.phis && a.p.phis[phi] + [Incoming(Reg(a.nextReg), a.cur)] <= q.phis[phi]
  {
    hide CG.Emit, CG.Update, CG.Define, CG.Compute, CG.CloseAt, Ext;
    var n := a.nextReg;
    GoodRefl(a);
    GoodEmit(a, a, Pure(n, Add, Reg(phi), Const(VInt(1))));
    var g1 := a.Compute(Add, Reg(phi), Const(VInt(1)));
    GoodEmit(a, g1, Pure(n + 1, CmpSLT, Reg(n), Reg(size)));
    var g2 := g1.Compute(CmpSLT, Reg(n), Reg(size));
    var g3 := g2.CloseAt(CondBr(Reg(n + 1), loop, loop + 1), loop + 1);
    assert Within(g3.p, ForNext(size, phi, loop, a).p);
    WithinTrans(g3.p, ForNext(size, phi, loop, a).p, q);
    WithinClose(g2, CondBr(Reg(n + 1), loop, loop + 1), loop + 1, q);
    WithinCompute(g1, CmpSLT, Reg(n), Reg(size), q);
    WithinCompute(a, Add, Reg(phi), Const(VInt(1)), q);
  }

  lemma WithinForTest(arr: Operand, loop: nat, a: CG, q: Program)
    requires a.Valid() && Within(ForTest(arr, loop, a).p, q)
    ensures Within(a.p, q)
  {
    hide Within, Ext, CG.Emit, CG.Update, CG.Define, CG.Compute, CG.CloseAt;
    var r := a.nextReg;
    GoodRefl(a);
    GoodEmit(a, a, Pure(r, ExtractSize, arr, arr));
    var g1 := a.Compute(ExtractSize, arr, arr);
    GoodEmit(a, g1, Pure(r + 1, CmpSGT, Reg(r), Const(VInt(0))));
    WithinClose(g1.Compute(CmpSGT, Reg(r), Const(VInt(0))), CondBr(Reg(r + 1), loop, loop + 1), loop, q);
    WithinCompute(g1, CmpSGT, Reg(r), Const(VInt(0)), q);
    WithinCompute(a, ExtractSize, arr, arr, q);
  }
}
