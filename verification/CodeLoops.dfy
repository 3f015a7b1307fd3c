/** Which block code ends in, and what that means for a for loop. */
module CodeLoops {
  import opened Options
  import opened IR
  import opened Source
  import opened Lowering
  import opened LoweringFrame
  import opened CodeScope
  import opened CodeStep

  /** Code that opens no new block stays in the block it started in. */
  lemma {:induction false} StaysInBlock(e: Expr, ref: bool, cg: CG)
    requires !Opens(e)
    ensures Compile(e, ref, cg).cg.cur == cg.cur
    decreases e
  {
    match e
    case NotE(e1) => StaysInBlock(e1, false, cg);
    case Deref(e1) => StaysInBlock(e1, false, cg);
    case New(e1) => StaysInBlock(e1, false, cg);
    case VarDecl(x, e1) => StaysInBlock(e1, false, cg);
    case Assign(l, r) =>
      StaysInBlock(l, true, cg);
      StaysInBlock(r, false, Compile(l, true, cg).cg);
    case BlockE(es) => BodyStays(es, VoidOp, cg);
    case CallE(f, args, _) =>
      StaysInBlock(f, false, cg);
      ArgsStay(args, Compile(f, false, cg).cg);
    case _ =>
  }

  lemma {:induction false} BodyStays(es: Exprs, last: Operand, cg: CG)
    requires !OpensAny(es)
    ensures CompileBody(es, last, cg).cg.cur == cg.cur
    decreases es
  {
    match es
    case Nil =>
    case Cons(e, rest) =>
      StaysInBlock(e, false, cg);
      var g := Compile(e, false, cg);
      BodyStays(rest, g.op, g.cg);
  }

  lemma {:induction false} ArgsStay(es: Exprs, cg: CG)
    requires !OpensAny(es)
    ensures CompileArgs(es, cg).cg.cur == cg.cur
    decreases es
  {
    match es
    case Nil =>
    case Cons(e, rest) =>
      StaysInBlock(e, false, cg);
      ArgsStay(rest, Compile(e, false, cg).cg);
  }

  /** Code that opens blocks ends in one of them. */
  lemma {:induction false} LeavesBlock(e: Expr, ref: bool, cg: CG)
    requires cg.Valid() && Opens(e)
    ensures Compile(e, ref, cg).cg.cur >= |cg.p.blocks|
    decreases e, 2
  {
    hide Ext, Opens, OpensAny;
    if IsControl(e) {
      LeavesControl(e, ref, cg);
    } else {
      LeavesSimple(e, ref, cg);
    }
  }

  lemma LeavesAndOr(l: Expr, r: Expr, isAnd: bool, cg: CG)
    requires cg.Valid()
    ensures CompileAndOr(l, r, isAnd, cg).cg.cur >= |cg.p.blocks|
  {
    hide Compile, Ext, CG.Update, CG.Emit, CG.Define, CG.Create, CG.CloseAt, CG.DefinePhi;
    FrameAndOr(l, r, isAnd, cg);
    GoodGrows(cg, StepsOfAndOr(l, r, isAnd, cg).left.cg);
  }

  lemma LeavesControl(e: Expr, ref: bool, cg: CG)
    requires cg.Valid() && IsControl(e)
    ensures Compile(e, ref, cg).cg.cur >= |cg.p.blocks|
  {
    hide Ext, CG.Update, CG.Emit, CG.Define, CG.Create, CG.CloseAt, CG.DefinePhi, ForTest, ForBind, CompileAndOr;
    match e
    case And(l, r) => LeavesAndOr(l, r, true, cg);
    case Or(l, r) => LeavesAndOr(l, r, false, cg);
    case If(c, t, e1) =>
      FrameIf(c, t, e1, cg);
      GoodGrows(cg, StepsOfIf(c, t, e1, cg).cond.cg);
    case IfThen(c, t) =>
      FrameIfThen(c, t, cg);
      GoodGrows(cg, StepsOfIfThen(c, t, cg).cond.cg);
    case For(x, ix, a, body) => FrameFor(x, ix, a, body, cg);
    case While(c, body) => FrameWhile(c, body, cg);
  }

  /** A part that leaves its block takes the whole with it. */
  lemma LeavesThrough(a: CG, b: CG, c: CG)
    requires Good(a, b) && Good(b, c) && (b.cur >= |a.p.blocks| || c.cur >= |b.p.blocks|)
    ensures c.cur >= |a.p.blocks|
  {
  }

  lemma {:induction false} LeavesSimple(e: Expr, ref: bool, cg: CG)
    requires cg.Valid() && !IsControl(e) && Opens(e)
    ensures Compile(e, ref, cg).cg.cur >= |cg.p.blocks|
    decreases e, 1
  {
    hide Ext, Good, CG.Valid, IndexRest;
    match e
    case NotE(e1) => LeavesBlock(e1, false, cg);
    case Deref(e1) => LeavesBlock(e1, false, cg);
    case New(e1) => LeavesBlock(e1, false, cg);
    case VarDecl(x, e1) => LeavesBlock(e1, false, cg);
    case Assign(l, r) =>
      FrameOf(l, true, cg);
      var g := Compile(l, true, cg);
      LeavesPair(l, true, r, cg);
    case BlockE(es) => LeavesBody(es, VoidOp, cg);
    case CallE(f, args, _) =>
      FrameOf(f, false, cg);
      var g := Compile(f, false, cg);
      GoodValid(cg, g.cg);
      FrameArgs(args, g.cg);
      if Opens(f) { LeavesBlock(f, false, cg); } else { LeavesArgs(args, g.cg); }
      LeavesThrough(cg, g.cg, CompileArgs(args, g.cg).cg);
    case Index(a, i) => LeavesIndex(a, i, ref, cg);
  }

  lemma GoodValid(a: CG, b: CG)
    requires Good(a, b)
    ensures a.Valid() && b.Valid()
  {
  }

  lemma {:induction false} LeavesPair(l: Expr, ref: bool, r: Expr, cg: CG)
    requires cg.Valid() && (Opens(l) || Opens(r))
    ensures Compile(r, false, Compile(l, ref, cg).cg).cg.cur >= |cg.p.blocks|
    decreases Assign(l, r), 0
  {
    hide Ext, Compile, Opens;
    FrameOf(l, ref, cg);
    var g := Compile(l, ref, cg);
    FrameOf(r, false, g.cg);
    if Opens(l) { LeavesBlock(l, ref, cg); } else { LeavesBlock(r, false, g.cg); }
    LeavesThrough(cg, g.cg, Compile(r, false, g.cg).cg);
  }

  lemma LeavesIndex(a: Expr, i: Expr, ref: bool, cg: CG)
    requires cg.Valid()
    ensures CompileIndex(a, i, ref, cg).cg.cur >= |cg.p.blocks|
  {
    hide Ext, Compile, IndexTest, TrapIf;
    FrameOf(a, false, cg);
    var g1 := Compile(a, false, cg);
    FrameOf(i, false, g1.cg);
    var g2 := Compile(i, false, g1.cg);
    var g3 := IndexTest(g1.op, g2.op, g2.cg);
    FrameIndexTest(g1.op, g2.op, g2.cg);
    FrameTrapIf(Reg(g2.cg.nextReg + 2), g3);
    GoodGrows(cg, g1.cg);
    GoodGrows(g1.cg, g2.cg);
    GoodGrows(g2.cg, g3);
  }

  lemma {:induction false} LeavesBody(es: Exprs, last: Operand, cg: CG)
    requires cg.Valid() && Below(last, cg.nextReg) && OpensAny(es)
    ensures CompileBody(es, last, cg).cg.cur >= |cg.p.blocks|
    decreases es, 0
  {
    hide Ext, Compile, Opens;
    match es
    case Cons(e, rest) =>
      FrameOf(e, false, cg);
      var g := Compile(e, false, cg);
      FrameBody(rest, g.op, g.cg);
      if Opens(e) { LeavesBlock(e, false, cg); } else { LeavesBody(rest, g.op, g.cg); }
      LeavesThrough(cg, g.cg, CompileBody(rest, g.op, g.cg).cg);
  }

  lemma {:induction false} LeavesArgs(es: Exprs, cg: CG)
    requires cg.Valid() && OpensAny(es)
    ensures CompileArgs(es, cg).cg.cur >= |cg.p.blocks|
    decreases es, 0
  {
    hide Ext, Compile, Opens;
    match es
    case Cons(e, rest) =>
      FrameOf(e, false, cg);
      var g := Compile(e, false, cg);
      FrameArgs(rest, g.cg);
      if Opens(e) { LeavesBlock(e, false, cg); } else { LeavesArgs(rest, g.cg); }
      LeavesThrough(cg, g.cg, CompileArgs(rest, g.cg).cg);
  }

  // ---------------------------------------------------------------- the index phi of a for loop

  lemma WithinFor(s: ForSteps, x: Variable, ix: Option<Variable>, q: Program, cg: CG)
    requires ForOk(s, cg) && Within(s.end.p, q)
    requires var loop := |cg.p.blocks|;
             && s.g0 == cg.Create(2)
             && s.g1 == ForTest(s.arr.op, loop, s.arr.cg)
             && s.g2 == ForBind(x, ix, s.arr.op, cg.cur, s.g1)
             && s.end == ForNext(s.arr.cg.nextReg, s.g1.nextReg, loop, s.body.cg)
    ensures Within(s.body.cg.p, q) && Within(s.g2.p, q) && Within(s.g1.p, q) && Within(s.arr.cg.p, q)
    ensures s.g1.nextReg in q.phis
    ensures [Incoming(Const(VInt(0)), cg.cur), Incoming(Reg(s.body.cg.nextReg), s.body.cg.cur)] <= q.phis[s.g1.nextReg]
  {
    hide Within, Ext, CG.Emit, CG.Update, CG.CloseAt, CG.Create, ForTest, ForBind, ForNext;
    WithinForNext(q, s.arr.cg.nextReg, s.g1.nextReg, |cg.p.blocks|, s.body.cg);
    WithinGood(s.g2, s.body.cg, q);
    FrameForBind(x, ix, s.arr.op, cg.cur, s.g1, s.g1) by { GoodRefl(s.g1); }
    WithinGood(s.g1, s.g2, q);
    FrameForTest(s.arr.op, |cg.p.blocks|, s.arr.cg, cg);
    WithinForTest(s.arr.op, |cg.p.blocks|, s.arr.cg, q);
  }

  /** No phi has more than two edges. */
  ghost predicate TwoWay(q: Program) {
    forall r | r in q.phis :: |q.phis[r]| <= 2
  }

  lemma TwoEdges(list: seq<Incoming>, i1: Incoming, i2: Incoming)
    requires [i1, i2] <= list && |list| <= 2
    ensures list == [i1] + [i2]
  {
  }

  /** A for loop whose array has been evaluated in several blocks gets stuck at the index phi when the
      array has elements: the entry edge names a block the machine did not come from. */
  lemma ForBreaks(k: Ctx, x: Variable, ix: Option<Variable>, a: Expr, body: Expr, cg: CG, c: Config)
    requires cg.Valid() && Opens(a) && TwoWay(k.q) && Within(CompileFor(x, ix, a, body, cg).cg.p, k.q)
    requires var s := StepsOfFor(x, ix, a, body, cg);
             At(c, s.arr.cg) && ArraySize(OpVal(c.regs, s.arr.op)) > 0
    ensures After(k, 4, c).status.Stuck?
  {
    hide Compile, Within, Ext, Opens, CG.Emit, CG.Update, CG.Define, CG.CloseAt, CG.Create, CG.DefinePhi, CG.Compute, ForTest, ForBind, ForNext, Run, After, Simulates, SameBelow;
    var s := StepsOfFor(x, ix, a, body, cg);
    var loop, phi := |cg.p.blocks|, s.g1.nextReg;
    var i1, i2 := Incoming(Const(VInt(0)), cg.cur), Incoming(Reg(s.body.cg.nextReg), s.body.cg.cur);
    FrameFor(x, ix, a, body, cg);
    WithinFor(s, x, ix, k.q, cg);
    LeavesBlock(a, false, s.g0);
    SimForTest(k, s.arr.op, loop, s.arr.cg, c);
    var c2 := After(k, 3, c);
    AtFresh(c2, s.g1);
    TwoEdges(k.q.phis[phi], i1, i2);
    FindNeither(i1, i2, s.arr.cg.cur);
    GoodGrows(s.g0, s.arr.cg);
    StepForPhi(k, x, ix, s.arr.op, cg.cur, s.g1, c2);
    AfterPlus(k, c, 3, 1);
  }

  lemma ForBindPhi(x: Variable, ix: Option<Variable>, arr: Operand, entry: nat, a: CG)
    ensures var g := ForBind(x, ix, arr, entry, a);
            a.nextReg in g.p.phis && g.p.phis[a.nextReg] == [Incoming(Const(VInt(0)), entry)]
  {
    hide CG.Emit, CG.Update, CG.Define, CG.DefinePhi;
  }

  lemma StepForPhi(k: Ctx, x: Variable, ix: Option<Variable>, arr: Operand, entry: nat, a: CG, c: Config)
    requires a.Valid() && Within(ForBind(x, ix, arr, entry, a).p, k.q) && At(c, a)
    requires a.nextReg in k.q.phis && FindIncoming(k.q.phis[a.nextReg], c.prev).None?
    ensures After(k, 1, c).status.Stuck?
  {
    hide Within, Ext, Run, CG.Emit, CG.Update, CG.Define, CG.Compute;
    var r := a.nextReg;
    var list := [Incoming(Const(VInt(0)), entry)];
    GoodRefl(a);
    GoodPhi(a, a, list);
    var g1 := a.DefinePhi(list);
    GoodEmit(a, g1, Pure(r + 1, ExtractPtr, arr, arr));
    var g2 := g1.Compute(ExtractPtr, arr, arr);
    GoodEmit(a, g2, Pure(r + 2, Gep, Reg(r + 1), Reg(r)));
    WithinCompute(g2, Gep, Reg(r + 1), Reg(r), k.q);
    WithinCompute(g1, ExtractPtr, arr, arr, k.q);
    WithinPhi(a, list, k.q);
    StepEmit(a, Phi(r), k.q, c, k.ext);
  }

  lemma ForNextPhis(size: nat, phi: nat, loop: nat, a: CG)
    requires phi in a.p.phis
    ensures ForNext(size, phi, loop, a).p.phis == a.p.phis[phi := a.p.phis[phi] + [Incoming(Reg(a.nextReg), a.cur)]]
  {
  }

  lemma FindNeither(i1: Incoming, i2: Incoming, from: nat)
    requires from != i1.from && from != i2.from
    ensures FindIncoming([i1] + [i2], from).None?
  {
  }
}
