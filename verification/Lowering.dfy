/** Lowering of the structured language to basic blocks, as a function from the code
    generator's state to its next state.  The class in CodeBuilder.dfy computes it in place. */
module Lowering {
  import opened Options
  import opened IR
  import opened Source

  const VoidOp := Const(VVoid)
  const FreshBlock := Block([], Open)

  predicate Below(op: Operand, n: nat) { op.Reg? ==> op.r < n }

  /** The state of code generation: the blocks so far, the insertion block, the next unused
      register, and what each variable is bound to. */
  datatype CG = CG(p: Program, cur: nat, nextReg: nat, vars: map<Variable, Operand>) {

    ghost predicate Valid() {
      && cur < |p.blocks|
      && p.blocks[cur].term.Open?
      && (forall r | r in p.phis :: r < nextReg)
      && (forall x | x in vars :: Below(vars[x], nextReg))
    }

    function Update(b: Block): (g: CG)
      ensures g.vars == vars && g.nextReg == nextReg && g.cur == cur && g.p.phis == p.phis && |g.p.blocks| == |p.blocks|
    {
      if cur < |p.blocks| then this.(p := p.(blocks := p.blocks[cur := b])) else this
    }

    function Current(): Block {
      if cur < |p.blocks| then p.blocks[cur] else FreshBlock
    }

    function Emit(i: Instr): (g: CG)
      ensures g.vars == vars && g.nextReg == nextReg && g.cur == cur && g.p.phis == p.phis && |g.p.blocks| == |p.blocks|
    {
      Update(Current().(instrs := Current().instrs + [i]))
    }

    /** Emits an instruction that defines the next register. */
    function Define(i: Instr): (g: CG)
      ensures g.vars == vars && g.nextReg == nextReg + 1 && g.cur == cur && g.p == Emit(i).p
    {
      Emit(i).(nextReg := nextReg + 1)
    }

    function Compute(prim: Prim, a: Operand, b: Operand): (g: CG)
      ensures g == Define(Pure(nextReg, prim, a, b))
    {
      Define(Pure(nextReg, prim, a, b))
    }

    function Create(n: nat): (g: CG)
      ensures g.vars == vars && g.nextReg == nextReg && g.cur == cur && g.p.phis == p.phis && |g.p.blocks| == |p.blocks| + n
    {
      this.(p := p.(blocks := p.blocks + seq(n, _ => FreshBlock)))
    }

    /** Ends the insertion block with t and moves the insertion point to block `at`. */
    function CloseAt(t: Terminator, at: nat): (g: CG)
      ensures g.vars == vars && g.nextReg == nextReg && g.cur == at && g.p.phis == p.phis && |g.p.blocks| == |p.blocks|
    {
      Update(Current().(term := t)).(cur := at)
    }

    function DefinePhi(list: seq<Incoming>): (g: CG)
      ensures g.vars == vars && g.nextReg == nextReg + 1 && g.cur == cur && |g.p.blocks| == |p.blocks| && g.p.phis == p.phis[nextReg := list]
    {
      var g := Define(Phi(nextReg));
      g.(p := g.p.(phis := g.p.phis[nextReg := list]))
    }

    function AddIncoming(r: nat, inc: Incoming): (g: CG)
      ensures g.vars == vars && g.nextReg == nextReg && g.cur == cur && g.p.blocks == p.blocks
    {
      if r in p.phis then this.(p := p.(phis := p.phis[r := p.phis[r] + [inc]])) else this
    }

    function Bind(x: Variable, op: Operand): CG {
      this.(vars := vars[x := op])
    }
  }

  datatype Gen = Gen(cg: CG, op: Operand)
  datatype GenAll = GenAll(cg: CG, ops: seq<Operand>)

  /** Lowers e; with ref, the operand is the address of a storage expression. */
  function Compile(e: Expr, ref: bool, cg: CG): Gen
    decreases e, 2
  {
    match e
    case LitVoid => Gen(cg, VoidOp)
    case LitBool(b) => Gen(cg, Const(VBool(b)))
    case LitInt(n) => Gen(cg, Const(VInt(I32(n))))
    case FnRef(name) => Gen(cg, Const(VFn(name)))
    case Var(x) => CompileIdent(x, ref, cg)
    case NotE(e1) => CompileNot(e1, cg)
    case Deref(e1) => CompileDeref(e1, ref, cg)
    case New(e1) => CompileNew(e1, cg)
    case And(l, r) => CompileAndOr(l, r, true, cg)
    case Or(l, r) => CompileAndOr(l, r, false, cg)
    case BlockE(es) => CompileBody(es, VoidOp, cg)
    case CallE(f, args, isVoid) => CompileCall(f, args, isVoid, cg)
    case Index(a, i) => CompileIndex(a, i, ref, cg)
    case Assign(l, r) => CompileAssign(l, r, cg)
    case If(c, t, e1) => CompileIf(c, t, e1, cg)
    case IfThen(c, t) => CompileIfThen(c, t, cg)
    case For(x, ix, a, body) => CompileFor(x, ix, a, body, cg)
    case While(c, body) => CompileWhile(c, body, cg)
    case VarDecl(x, e1) => CompileVarDecl(x, e1, cg)
  }

  function CompileIdent(x: Variable, ref: bool, cg: CG): Gen {
    if x !in cg.vars then Gen(cg, VoidOp)
    else if IsStorage(x) && !ref then Gen(cg.Define(Load(cg.nextReg, cg.vars[x])), Reg(cg.nextReg))
    else Gen(cg, cg.vars[x])
  }

  function CompileNot(e: Expr, cg: CG): Gen
    decreases NotE(e), 1
  {
    var g := Compile(e, false, cg);
    Gen(g.cg.Compute(Not, g.op, g.op), Reg(g.cg.nextReg))
  }

  function CompileDeref(e: Expr, ref: bool, cg: CG): Gen
    decreases Deref(e), 1
  {
    var g := Compile(e, false, cg);
    if ref then g else Gen(g.cg.Define(Load(g.cg.nextReg, g.op)), Reg(g.cg.nextReg))
  }

  function CompileNew(e: Expr, cg: CG): Gen
    decreases New(e), 1
  {
    var g := Compile(e, false, cg);
    var r := g.cg.nextReg;
    Gen(g.cg.Define(NewCell(r)).Emit(Store(g.op, Reg(r))), Reg(r))
  }

  function CompileBody(es: Exprs, last: Operand, cg: CG): Gen
    decreases es, 0
  {
    match es
    case Nil => Gen(cg, last)
    case Cons(e, rest) =>
      var g := Compile(e, false, cg);
      CompileBody(rest, g.op, g.cg)
  }

  function CompileArgs(es: Exprs, cg: CG): GenAll
    decreases es, 0
  {
    match es
    case Nil => GenAll(cg, [])
    case Cons(e, rest) =>
      var g := Compile(e, false, cg);
      var g' := CompileArgs(rest, g.cg);
      GenAll(g'.cg, [g.op] + g'.ops)
  }

  function CompileCall(f: Expr, args: Exprs, isVoid: bool, cg: CG): Gen
    decreases CallE(f, args, isVoid), 1
  {
    var g := Compile(f, false, cg);
    var a := CompileArgs(args, g.cg);
    var r := a.cg.nextReg;
    Gen(a.cg.Define(Invoke(r, g.op, a.ops)), if isVoid then VoidOp else Reg(r))
  }

  function CompileAssign(l: Expr, r: Expr, cg: CG): Gen
    decreases Assign(l, r), 1
  {
    var left := Compile(l, true, cg);
    var right := Compile(r, false, left.cg);
    Gen(right.cg.Emit(Store(right.op, left.op)), VoidOp)
  }

  function CompileVarDecl(x: Variable, e: Expr, cg: CG): Gen
    decreases VarDecl(x, e), 1
  {
    var g := Compile(e, false, cg);
    var slot := Const(VPtr(Local(x)));
    Gen(g.cg.Emit(Store(g.op, slot)).Bind(x, slot), VoidOp)
  }

  /** A conditional trap: two new blocks, the first of which traps. */
  function TrapIf(cond: Operand, cg: CG): (g: CG)
    ensures g.vars == cg.vars
  {
    var t := |cg.p.blocks|;
    cg.Create(2).CloseAt(CondBr(cond, t, t + 1), t).Emit(TrapNow).CloseAt(Unreachable, t + 1)
  }

  /** The instructions of the bounds test; register cg.nextReg + 2 holds its result. */
  function IndexTest(arr: Operand, ix: Operand, cg: CG): (g: CG)
    ensures g.vars == cg.vars
  {
    var r := cg.nextReg;
    cg.Compute(ExtractPtr, arr, arr).Compute(ExtractSize, arr, arr).Compute(CmpUGE, ix, Reg(r + 1))
  }

  /** The bounds test, the trap, then the element pointer and (without ref) its load. */
  function IndexRest(arr: Operand, ix: Operand, ref: bool, cg: CG): (g: Gen)
    ensures g.cg.vars == cg.vars && g.op.Reg?
  {
    var r := cg.nextReg;
    var g := TrapIf(Reg(r + 2), IndexTest(arr, ix, cg)).Compute(Gep, Reg(r), ix);
    if ref then Gen(g, Reg(r + 3)) else Gen(g.Define(Load(r + 4, Reg(r + 3))), Reg(r + 4))
  }

  function CompileIndex(a: Expr, i: Expr, ref: bool, cg: CG): Gen
    decreases Index(a, i), 1
  {
    var arr := Compile(a, false, cg);
    var ix := Compile(i, false, arr.cg);
    IndexRest(arr.op, ix.op, ref, ix.cg)
  }

  /** The branch after the left side: `t` is the block of the right side, `t + 1` what follows. */
  function ShortBranch(isAnd: bool, left: Operand, t: nat): Terminator {
    if isAnd then CondBr(left, t, t + 1) else CondBr(left, t + 1, t)
  }

  /** The states `and`/`or` is lowered through: after the left side, at the right side, after it, at the join. */
  datatype ShortSteps = ShortSteps(left: Gen, g1: CG, right: Gen, g2: CG)

  function StepsOfAndOr(l: Expr, r: Expr, isAnd: bool, cg: CG): ShortSteps
    decreases if isAnd then And(l, r) else Or(l, r), 0
  {
    var left := Compile(l, false, cg);
    var t := |left.cg.p.blocks|;
    var g1 := left.cg.Create(2).CloseAt(ShortBranch(isAnd, left.op, t), t);
    var right := Compile(r, false, g1);
    ShortSteps(left, g1, right, right.cg.CloseAt(Br(t + 1), t + 1))
  }

  /** `and` evaluates its right side in a block entered only when the left side is true,
      `or` only when it is false; the phi takes the left value on the short path. */
  function CompileAndOr(l: Expr, r: Expr, isAnd: bool, cg: CG): (g: Gen)
    ensures g.op.Reg?
    decreases if isAnd then And(l, r) else Or(l, r), 1
  {
    var s := StepsOfAndOr(l, r, isAnd, cg);
    var list := [Incoming(s.right.op, s.right.cg.cur), Incoming(s.left.op, s.left.cg.cur)];
    Gen(s.g2.DefinePhi(list), Reg(s.g2.nextReg))
  }

  /** The states an if is lowered through: after the condition, at the first branch, after it,
      at the second branch, after it, at the join. */
  datatype IfSteps = IfSteps(cond: Gen, g1: CG, yes: Gen, g2: CG, no: Gen, g3: CG)

  function StepsOfIf(c: Expr, t: Expr, e: Expr, cg: CG): IfSteps
    decreases If(c, t, e), 0
  {
    var cond := Compile(c, false, cg);
    var k := |cond.cg.p.blocks|;
    var g1 := cond.cg.Create(3).CloseAt(CondBr(cond.op, k, k + 1), k);
    var yes := Compile(t, false, g1);
    var g2 := yes.cg.CloseAt(Br(k + 2), k + 1);
    var no := Compile(e, false, g2);
    IfSteps(cond, g1, yes, g2, no, no.cg.CloseAt(Br(k + 2), k + 2))
  }

  /** The value of an if with two branches: void when the first branch is, otherwise a phi. */
  function JoinIf(t: Incoming, e: Incoming, cg: CG): Gen {
    if t.op == VoidOp then Gen(cg, VoidOp) else Gen(cg.DefinePhi([t, e]), Reg(cg.nextReg))
  }

  function CompileIf(c: Expr, t: Expr, e: Expr, cg: CG): Gen
    decreases If(c, t, e), 1
  {
    var s := StepsOfIf(c, t, e, cg);
    JoinIf(Incoming(s.yes.op, s.yes.cg.cur), Incoming(s.no.op, s.no.cg.cur), s.g3)
  }

  datatype IfThenSteps = IfThenSteps(cond: Gen, g1: CG, yes: Gen, end: CG)

  function StepsOfIfThen(c: Expr, t: Expr, cg: CG): IfThenSteps
    decreases IfThen(c, t), 0
  {
    var cond := Compile(c, false, cg);
    var k := |cond.cg.p.blocks|;
    var g1 := cond.cg.Create(2).CloseAt(CondBr(cond.op, k, k + 1), k);
    var yes := Compile(t, false, g1);
    IfThenSteps(cond, g1, yes, yes.cg.CloseAt(Br(k + 1), k + 1))
  }

  function CompileIfThen(c: Expr, t: Expr, cg: CG): Gen
    decreases IfThen(c, t), 1
  {
    Gen(StepsOfIfThen(c, t, cg).end, VoidOp)
  }

  /** The states a while loop is lowered through: at the loop block, after the condition, at the
      body, after it, at the end. */
  datatype WhileSteps = WhileSteps(g1: CG, cond: Gen, g2: CG, body: Gen, end: CG)

  function StepsOfWhile(c: Expr, body: Expr, cg: CG): WhileSteps
    decreases While(c, body), 0
  {
    var k := |cg.p.blocks|;
    var g1 := cg.Create(3).CloseAt(Br(k), k);
    var cond := Compile(c, false, g1);
    var g2 := cond.cg.CloseAt(CondBr(cond.op, k + 1, k + 2), k + 1);
    var b := Compile(body, false, g2);
    WhileSteps(g1, cond, g2, b, b.cg.CloseAt(Br(k), k + 2))
  }

  function CompileWhile(c: Expr, body: Expr, cg: CG): Gen
    decreases While(c, body), 1
  {
    Gen(StepsOfWhile(c, body, cg).end, VoidOp)
  }

  /** The size test of a for loop, which ends the block it is in; register cg.nextReg holds the size. */
  function ForTest(arr: Operand, loop: nat, cg: CG): (g: CG)
    ensures g.vars == cg.vars
  {
    var r := cg.nextReg;
    cg.Compute(ExtractSize, arr, arr).Compute(CmpSGT, Reg(r), Const(VInt(0)))
      .CloseAt(CondBr(Reg(r + 1), loop, loop + 1), loop)
  }

  /** The start of the loop block: the index phi (register r) with its entry edge, and the element
      pointer (register r + 2). */
  function ForBind(x: Variable, ix: Option<Variable>, arr: Operand, entry: nat, cg: CG): CG {
    var r := cg.nextReg;
    var g := cg.DefinePhi([Incoming(Const(VInt(0)), entry)]).Compute(ExtractPtr, arr, arr)
             .Compute(Gep, Reg(r + 1), Reg(r)).Bind(x, Reg(r + 2));
    if ix.Some? then g.Bind(ix.value, Reg(r)) else g
  }

  /** The end of a for loop: the next index, the test against the size, the back edge. */
  function ForNext(size: nat, phi: nat, loop: nat, cg: CG): (g: CG)
    ensures g.vars == cg.vars
  {
    var n := cg.nextReg;
    cg.Compute(Add, Reg(phi), Const(VInt(1))).Compute(CmpSLT, Reg(n), Reg(size))
      .CloseAt(CondBr(Reg(n + 1), loop, loop + 1), loop + 1).AddIncoming(phi, Incoming(Reg(n), cg.cur))
  }

  /** The states a for loop is lowered through: with its blocks created, after the array expression,
      at the loop block, at the body, after it, at the end. */
  datatype ForSteps = ForSteps(g0: CG, arr: Gen, g1: CG, g2: CG, body: Gen, end: CG)

  /** The entry edge of the index phi names the block that was current before the array
      expression was lowered. */
  function StepsOfFor(x: Variable, ix: Option<Variable>, a: Expr, body: Expr, cg: CG): ForSteps
    decreases For(x, ix, a, body), 0
  {
    var loop := |cg.p.blocks|;
    var g0 := cg.Create(2);
    var arr := Compile(a, false, g0);
    var g1 := ForTest(arr.op, loop, arr.cg);
    var g2 := ForBind(x, ix, arr.op, cg.cur, g1);
    var b := Compile(body, false, g2);
    ForSteps(g0, arr, g1, g2, b, ForNext(arr.cg.nextReg, g1.nextReg, loop, b.cg))
  }

  function CompileFor(x: Variable, ix: Option<Variable>, a: Expr, body: Expr, cg: CG): Gen
    decreases For(x, ix, a, body), 1
  {
    Gen(StepsOfFor(x, ix, a, body, cg).end, VoidOp)
  }
}
