/** What lowering an expression may do to the state it starts from. */
module LoweringFrame {
  import opened Options
  import opened IR
  import opened Source
  import opened Lowering

  /** The blocks a terminator can go to are all at or above n. */
  predicate Targets(t: Terminator, n: nat) {
    match t
    case Br(to) => to >= n
    case CondBr(_, yes, no) => yes >= n && no >= n
    case _ => true
  }

  /** Code generation only extends the insertion block, adds blocks, registers and phis of at most two
      edges, and branches only to blocks it added itself. */
  ghost predicate Ext(a: CG, b: CG) {
    && a.cur < |a.p.blocks| <= |b.p.blocks|
    && a.nextReg <= b.nextReg
    && (forall k | 0 <= k < |a.p.blocks| && k != a.cur :: b.p.blocks[k] == a.p.blocks[k])
    && a.p.blocks[a.cur].instrs <= b.p.blocks[a.cur].instrs
    && (b.cur == a.cur || b.cur >= |a.p.blocks|)
    && (forall r | r in a.p.phis :: r in b.p.phis && b.p.phis[r] == a.p.phis[r])
    && (forall r | r in b.p.phis && r !in a.p.phis :: r >= a.nextReg && |b.p.phis[r]| <= 2)
    && (forall k | 0 <= k < |b.p.blocks| && (k == a.cur || k >= |a.p.blocks|) ::
          Targets(b.p.blocks[k].term, |a.p.blocks|))
  }

  /** From the state a, valid, to the valid state b that extends it. */
  ghost predicate Good(a: CG, b: CG) {
    a.Valid() && b.Valid() && Ext(a, b)
  }

  lemma GoodRefl(a: CG)
    requires a.Valid()
    ensures Good(a, a)
  {
  }

  lemma GoodTrans(a: CG, b: CG, c: CG)
    requires Good(a, b) && Good(b, c)
    ensures Good(a, c)
  {
    forall k | 0 <= k < |c.p.blocks| && (k == a.cur || k >= |a.p.blocks|)
      ensures Targets(c.p.blocks[k].term, |a.p.blocks|)
    {
      assert k < |b.p.blocks| && k != b.cur ==> c.p.blocks[k] == b.p.blocks[k];
    }
  }

  lemma GoodEmit(base: CG, a: CG, i: Instr)
    requires Good(base, a)
    ensures Good(base, a.Emit(i)) && Good(base, a.Define(i)) && a.Emit(i).Valid() && a.Define(i).Valid()
  {
  }

  /** Emitting leaves the other blocks alone. */
  lemma EmitFrame(a: CG, i: Instr)
    ensures forall k | 0 <= k < |a.p.blocks| && k != a.cur :: a.Emit(i).p.blocks[k] == a.p.blocks[k]
  {
  }

  lemma GoodPhi(base: CG, a: CG, list: seq<Incoming>)
    requires Good(base, a) && |list| <= 2
    ensures Good(base, a.DefinePhi(list)) && a.DefinePhi(list).Valid()
    ensures a.DefinePhi(list).p.blocks == a.Emit(Phi(a.nextReg)).p.blocks
  {
    GoodEmit(base, a, Phi(a.nextReg));
  }

  lemma GoodCreate(a: CG, n: nat)
    requires a.Valid()
    ensures Good(a, a.Create(n)) && a.Create(n).Valid() && a.Create(n).p.blocks[a.cur] == a.p.blocks[a.cur]
    ensures forall k | |a.p.blocks| <= k < |a.p.blocks| + n :: a.Create(n).p.blocks[k] == FreshBlock
  {
  }

  /** Ending the insertion block and moving on to a waiting block created since base. */
  lemma GoodClose(base: CG, a: CG, t: Terminator, at: nat)
    requires Good(base, a) && Targets(t, |base.p.blocks|)
    requires |base.p.blocks| <= at < |a.p.blocks| && at != a.cur && a.p.blocks[at].term.Open?
    ensures Good(base, a.CloseAt(t, at)) && a.CloseAt(t, at).Valid()
    ensures forall k | 0 <= k < |a.p.blocks| && k != a.cur :: a.CloseAt(t, at).p.blocks[k] == a.p.blocks[k]
  {
  }

  /** From a, code generation has just moved on to the empty block `at`. */
  ghost predicate Moved(a: CG, g: CG, at: nat) {
    && g.Valid() && g.nextReg == a.nextReg && g.vars == a.vars && g.p.phis == a.p.phis
    && g.cur == at < |g.p.blocks| && g.p.blocks[at] == FreshBlock
  }

  /** Ending the insertion block with a branch and starting on the first of n new blocks. */
  lemma GoodBranch(a: CG, n: nat, t: Terminator)
    requires a.Valid() && n > 0 && Targets(t, |a.p.blocks|)
    ensures var g := a.Create(n).CloseAt(t, |a.p.blocks|);
            && Good(a, g) && g.Valid() && Moved(a, g, |a.p.blocks|)
            && forall k | |a.p.blocks| <= k < |g.p.blocks| :: g.p.blocks[k] == FreshBlock
  {
    GoodCreate(a, n);
    GoodClose(a, a.Create(n), t, |a.p.blocks|);
  }

  /** The end of an arm lowered from a to b: on to the waiting block `at`. */
  lemma GoodArm(base: CG, a: CG, b: CG, t: Terminator, at: nat)
    requires Good(base, a) && Good(a, b) && Targets(t, |base.p.blocks|)
    requires |base.p.blocks| <= at < |a.p.blocks| && at != a.cur && a.p.blocks[at] == FreshBlock
    ensures var g := b.CloseAt(t, at);
            && Good(base, g) && Moved(b, g, at) && b.cur != at
            && b.cur < |b.p.blocks| && |a.p.blocks| <= |b.p.blocks| == |g.p.blocks| && (b.cur == a.cur || b.cur >= |a.p.blocks|)
            && forall k | |base.p.blocks| <= k < |a.p.blocks| && k != a.cur :: g.p.blocks[k] == b.p.blocks[k] == a.p.blocks[k]
  {
    GoodTrans(base, a, b);
    GoodClose(base, b, t, at);
  }

  /** Lowering from a to b leaves a waiting block alone. */
  lemma GoodWait(base: CG, a: CG, b: CG, at: nat)
    requires Good(base, a) && Good(a, b)
    requires |base.p.blocks| <= at < |a.p.blocks| && at != a.cur
    ensures Good(base, b) && b.cur != at && at < |a.p.blocks| <= |b.p.blocks| && b.p.blocks[at] == a.p.blocks[at]
    ensures b.cur == a.cur || b.cur >= |a.p.blocks|
  {
    GoodTrans(base, a, b);
  }

  lemma GoodGrows(a: CG, b: CG)
    requires Good(a, b)
    ensures a.nextReg <= b.nextReg && a.cur < |a.p.blocks| <= |b.p.blocks|
    ensures forall r | r in a.p.phis :: r < a.nextReg && r in b.p.phis && b.p.phis[r] == a.p.phis[r]
  {
  }

  ghost predicate GoodGen(cg: CG, g: Gen) {
    Good(cg, g.cg) && cg.Valid() && g.cg.Valid() && Below(g.op, g.cg.nextReg)
  }

  // ---------------------------------------------------------------- one lemma a construct

  predicate IsControl(e: Expr) {
    e.And? || e.Or? || e.If? || e.IfThen? || e.For? || e.While?
  }

  /** Whatever e is, lowering it only extends the state. */
  lemma {:induction false} FrameOf(e: Expr, ref: bool, cg: CG)
    requires cg.Valid()
    ensures GoodGen(cg, Compile(e, ref, cg))
    decreases e, 3
  {
    hide *;
    if IsControl(e) {
      FrameControl(e, ref, cg);
    } else {
      FrameSimple(e, ref, cg);
    }
  }

  lemma {:induction false} FrameControl(e: Expr, ref: bool, cg: CG)
    requires cg.Valid() && IsControl(e)
    ensures GoodGen(cg, Compile(e, ref, cg))
    decreases e, 2
  {
    hide GoodGen, CG.Valid, ShortOk, IfOk, IfThenOk, WhileOk, ForOk, StepsOfAndOr, StepsOfIf, StepsOfIfThen, StepsOfWhile, StepsOfFor, CompileIdent, CompileNot, CompileDeref, CompileNew, CompileVarDecl, CompileAssign, CompileAndOr, CompileBody, CompileCall, CompileIndex, CompileIf, CompileIfThen, CompileFor, CompileWhile;
    match e
    case And(l, r) => FrameAndOr(l, r, true, cg);
    case Or(l, r) => FrameAndOr(l, r, false, cg);
    case If(c, t, e1) => FrameIf(c, t, e1, cg);
    case IfThen(c, t) => FrameIfThen(c, t, cg);
    case For(x, ix, a, body) => FrameFor(x, ix, a, body, cg);
    case While(c, body) => FrameWhile(c, body, cg);
  }

  lemma {:induction false} FrameSimple(e: Expr, ref: bool, cg: CG)
    requires cg.Valid() && !IsControl(e)
    ensures GoodGen(cg, Compile(e, ref, cg))
    decreases e, 2
  {
    hide CompileIdent, CompileNot, CompileDeref, CompileNew, CompileVarDecl, CompileAssign, CompileAndOr, CompileBody, CompileCall, CompileIndex, CompileIf, CompileIfThen, CompileFor, CompileWhile;
    GoodRefl(cg);
    match e
    case Var(x) => FrameIdent(x, ref, cg);
    case NotE(e1) => FrameNot(e1, cg);
    case Deref(e1) => FrameDeref(e1, ref, cg);
    case New(e1) => FrameNew(e1, cg);
    case VarDecl(x, e1) => FrameVarDecl(x, e1, cg);
    case Assign(l, r) => FrameAssign(l, r, cg);
    case BlockE(es) => FrameBody(es, VoidOp, cg);
    case CallE(f, args, isVoid) => FrameCall(f, args, isVoid, cg);
    case Index(a, i) => FrameIndex(a, i, ref, cg);
    case _ =>
  }

  lemma FrameIdent(x: Variable, ref: bool, cg: CG)
    requires cg.Valid()
    ensures GoodGen(cg, CompileIdent(x, ref, cg))
  {
    hide Ext;
    GoodRefl(cg);
    if x in cg.vars { GoodEmit(cg, cg, Load(cg.nextReg, cg.vars[x])); }
  }

  lemma {:induction false} FrameNot(e: Expr, cg: CG)
    requires cg.Valid()
    ensures GoodGen(cg, CompileNot(e, cg))
    decreases NotE(e), 1
  {
    hide Compile, Ext, CG.Update, CG.Current, CG.Emit, CG.Define, CG.CloseAt, CG.Create, CG.DefinePhi;
    FrameOf(e, false, cg);
    var g := Compile(e, false, cg);
    GoodEmit(cg, g.cg, Pure(g.cg.nextReg, Not, g.op, g.op));
  }

  lemma {:induction false} FrameDeref(e: Expr, ref: bool, cg: CG)
    requires cg.Valid()
    ensures GoodGen(cg, CompileDeref(e, ref, cg))
    decreases Deref(e), 1
  {
    hide Compile, Ext, CG.Update, CG.Current, CG.Emit, CG.Define, CG.CloseAt, CG.Create, CG.DefinePhi;
    FrameOf(e, false, cg);
    var g := Compile(e, false, cg);
    GoodEmit(cg, g.cg, Load(g.cg.nextReg, g.op));
  }

  lemma {:induction false} FrameNew(e: Expr, cg: CG)
    requires cg.Valid()
    ensures GoodGen(cg, CompileNew(e, cg))
    decreases New(e), 1
  {
    hide Compile, Ext, CG.Update, CG.Current, CG.Emit, CG.Define, CG.CloseAt, CG.Create, CG.DefinePhi;
    FrameOf(e, false, cg);
    var g := Compile(e, false, cg);
    var r := g.cg.nextReg;
    GoodEmit(cg, g.cg, NewCell(r));
    GoodEmit(cg, g.cg.Define(NewCell(r)), Store(g.op, Reg(r)));
  }

  lemma {:induction false} FrameVarDecl(x: Variable, e: Expr, cg: CG)
    requires cg.Valid()
    ensures GoodGen(cg, CompileVarDecl(x, e, cg))
    decreases VarDecl(x, e), 1
  {
    hide Compile, Ext, CG.Update, CG.Current, CG.Emit, CG.Define, CG.CloseAt, CG.Create, CG.DefinePhi;
    FrameOf(e, false, cg);
    var g := Compile(e, false, cg);
    var slot := Const(VPtr(Local(x)));
    GoodEmit(cg, g.cg, Store(g.op, slot));
    GoodBind(cg, g.cg.Emit(Store(g.op, slot)), x, slot);
  }

  lemma {:induction false} FrameAssign(l: Expr, r: Expr, cg: CG)
    requires cg.Valid()
    ensures GoodGen(cg, CompileAssign(l, r, cg))
    decreases Assign(l, r), 1
  {
    hide *;
    FrameOf(l, true, cg);
    var left := Compile(l, true, cg);
    GenGood(cg, left);
    FrameOf(r, false, left.cg);
    var right := Compile(r, false, left.cg);
    GenGood(left.cg, right);
    GoodTrans(cg, left.cg, right.cg);
    GoodEmit(cg, right.cg, Store(right.op, left.op));
    AssignIs(l, r, cg);
    GoodVoid(cg, right.cg.Emit(Store(right.op, left.op)));
  }

  lemma AssignIs(l: Expr, r: Expr, cg: CG)
    ensures var left := Compile(l, true, cg);
            var right := Compile(r, false, left.cg);
            CompileAssign(l, r, cg) == Gen(right.cg.Emit(Store(right.op, left.op)), VoidOp)
  {
    hide Compile, CG.Emit;
  }

  lemma GenGood(cg: CG, g: Gen)
    requires GoodGen(cg, g)
    ensures Good(cg, g.cg) && g.cg.Valid()
  {
  }

  lemma {:induction false} FrameBody(es: Exprs, last: Operand, cg: CG)
    requires cg.Valid() && Below(last, cg.nextReg)
    ensures GoodGen(cg, CompileBody(es, last, cg))
    decreases es, 0
  {
    match es
    case Nil =>
    case Cons(e, rest) =>
      hide Compile, Ext, CG.Update, CG.Current, CG.Emit, CG.Define, CG.CloseAt, CG.Create, CG.DefinePhi;
      FrameOf(e, false, cg);
      var g := Compile(e, false, cg);
      FrameBody(rest, g.op, g.cg);
      GoodTrans(cg, g.cg, CompileBody(rest, g.op, g.cg).cg);
  }

  lemma {:induction false} FrameArgs(es: Exprs, cg: CG)
    requires cg.Valid()
    ensures var g := CompileArgs(es, cg);
            Good(cg, g.cg) && forall op | op in g.ops :: Below(op, g.cg.nextReg)
    decreases es, 0
  {
    match es
    case Nil =>
    case Cons(e, rest) =>
      hide Compile, Ext, CG.Update, CG.Current, CG.Emit, CG.Define, CG.CloseAt, CG.Create, CG.DefinePhi;
      FrameOf(e, false, cg);
      var g := Compile(e, false, cg);
      FrameArgs(rest, g.cg);
      GoodTrans(cg, g.cg, CompileArgs(rest, g.cg).cg);
  }

  lemma CallIs(f: Expr, args: Exprs, isVoid: bool, cg: CG)
    ensures var g := Compile(f, false, cg);
            var a := CompileArgs(args, g.cg);
            CompileCall(f, args, isVoid, cg) == Gen(a.cg.Define(Invoke(a.cg.nextReg, g.op, a.ops)), if isVoid then VoidOp else Reg(a.cg.nextReg))
  {
    hide Compile, CompileArgs, CG.Define;
  }

  lemma {:induction false} FrameCall(f: Expr, args: Exprs, isVoid: bool, cg: CG)
    requires cg.Valid()
    ensures GoodGen(cg, CompileCall(f, args, isVoid, cg))
    decreases CallE(f, args, isVoid), 1
  {
    hide Compile, CompileArgs, Ext, CG.Update, CG.Current, CG.Emit, CG.Define, CG.CloseAt, CG.Create, CG.DefinePhi;
    FrameOf(f, false, cg);
    var g := Compile(f, false, cg);
    FrameArgs(args, g.cg);
    var a := CompileArgs(args, g.cg);
    GoodTrans(cg, g.cg, a.cg);
    GoodEmit(cg, a.cg, Invoke(a.cg.nextReg, g.op, a.ops));
  }

  lemma FrameTrapIf(cond: Operand, cg: CG)
    requires cg.Valid()
    ensures var g := TrapIf(cond, cg);
            && Good(cg, g) && g.nextReg == cg.nextReg && g.vars == cg.vars && g.p.phis == cg.p.phis
            && g.cur == |cg.p.blocks| + 1 && g.cur < |g.p.blocks| && g.p.blocks[g.cur] == FreshBlock
  {
    hide Ext, CG.Update, CG.Current, CG.Emit, CG.Define, CG.CloseAt, CG.Create, CG.DefinePhi;
    var t := |cg.p.blocks|;
    GoodBranch(cg, 2, CondBr(cond, t, t + 1));
    var g1 := cg.Create(2).CloseAt(CondBr(cond, t, t + 1), t);
    GoodEmit(cg, g1, TrapNow);
    EmitFrame(g1, TrapNow);
    GoodClose(cg, g1.Emit(TrapNow), Unreachable, t + 1);
  }

  lemma FrameIndexTest(arr: Operand, ix: Operand, cg: CG)
    requires cg.Valid()
    ensures var g := IndexTest(arr, ix, cg);
            && Good(cg, g) && g.nextReg == cg.nextReg + 3 && g.vars == cg.vars
  {
    hide Ext, CG.Update, CG.Current, CG.Emit, CG.Define, CG.CloseAt, CG.Create, CG.DefinePhi;
    var r := cg.nextReg;
    GoodRefl(cg);
    GoodEmit(cg, cg, Pure(r, ExtractPtr, arr, arr));
    var g1 := cg.Compute(ExtractPtr, arr, arr);
    GoodEmit(cg, g1, Pure(r + 1, ExtractSize, arr, arr));
    var g2 := g1.Compute(ExtractSize, arr, arr);
    GoodEmit(cg, g2, Pure(r + 2, CmpUGE, ix, Reg(r + 1)));
  }

  lemma FrameIndexRest(arr: Operand, ix: Operand, ref: bool, cg: CG)
    requires cg.Valid()
    ensures GoodGen(cg, IndexRest(arr, ix, ref, cg)) && IndexRest(arr, ix, ref, cg).cg.vars == cg.vars
  {
    hide Ext, TrapIf, IndexTest, CG.Update, CG.Current, CG.Emit, CG.Define, CG.CloseAt, CG.Create, CG.DefinePhi;
    var r := cg.nextReg;
    FrameIndexTest(arr, ix, cg);
    var g1 := IndexTest(arr, ix, cg);
    FrameTrapIf(Reg(r + 2), g1);
    var g2 := TrapIf(Reg(r + 2), g1);
    GoodTrans(cg, g1, g2);
    GoodEmit(cg, g2, Pure(r + 3, Gep, Reg(r), ix));
    GoodEmit(cg, g2.Compute(Gep, Reg(r), ix), Load(r + 4, Reg(r + 3)));
  }

  lemma IndexIs(a: Expr, i: Expr, ref: bool, cg: CG)
    ensures var arr := Compile(a, false, cg);
            var ix := Compile(i, false, arr.cg);
            CompileIndex(a, i, ref, cg) == IndexRest(arr.op, ix.op, ref, ix.cg)
  {
    hide Compile, IndexRest;
  }

  lemma {:induction false} FrameIndex(a: Expr, i: Expr, ref: bool, cg: CG)
    requires cg.Valid()
    ensures GoodGen(cg, CompileIndex(a, i, ref, cg))
    decreases Index(a, i), 1
  {
    hide *;
    var arr := Compile(a, false, cg);
    var ix := Compile(i, false, arr.cg);
    IndexIs(a, i, ref, cg);
    FrameOf(a, false, cg);
    GenGood(cg, arr);
    FrameOf(i, false, arr.cg);
    GenTrans(cg, arr.cg, ix);
    GenGood(cg, ix);
    FrameIndexRest(arr.op, ix.op, ref, ix.cg);
    GenTrans(cg, ix.cg, IndexRest(arr.op, ix.op, ref, ix.cg));
  }

  lemma GenTrans(a: CG, b: CG, g: Gen)
    requires Good(a, b) && GoodGen(b, g)
    ensures GoodGen(a, g)
  {
    hide Ext, CG.Valid;
    GoodTrans(a, b, g.cg);
    GoodEnds(a, b);
  }

  ghost predicate ShortOk(s: ShortSteps, cg: CG) {
    var t := |s.left.cg.p.blocks|;
    && GoodGen(cg, s.left) && Good(s.left.cg, s.g1) && Moved(s.left.cg, s.g1, t)
    && GoodGen(s.g1, s.right) && Good(cg, s.g2) && Moved(s.right.cg, s.g2, t + 1)
    && s.left.cg.cur < t <= s.right.cg.cur && s.right.cg.cur != t + 1
  }

  /** The states `and` and `or` are lowered through. */
  lemma ShortStates(l: Expr, r: Expr, isAnd: bool, cg: CG) returns (s: ShortSteps)
    ensures s == StepsOfAndOr(l, r, isAnd, cg)
    ensures var t := |s.left.cg.p.blocks|;
            && s.left == Compile(l, false, cg)
            && s.g1 == s.left.cg.Create(2).CloseAt(ShortBranch(isAnd, s.left.op, t), t)
            && s.right == Compile(r, false, s.g1) && s.g2 == s.right.cg.CloseAt(Br(t + 1), t + 1)
            && Targets(ShortBranch(isAnd, s.left.op, t), t) && Targets(Br(t + 1), t)
    ensures CompileAndOr(l, r, isAnd, cg)
         == Gen(s.g2.DefinePhi([Incoming(s.right.op, s.right.cg.cur), Incoming(s.left.op, s.left.cg.cur)]), Reg(s.g2.nextReg))
  {
    hide Compile, CG.Create, CG.CloseAt, CG.DefinePhi;
    s := StepsOfAndOr(l, r, isAnd, cg);
  }

  lemma {:induction false} FrameAndOr(l: Expr, r: Expr, isAnd: bool, cg: CG)
    requires cg.Valid()
    ensures ShortOk(StepsOfAndOr(l, r, isAnd, cg), cg)
    ensures GoodGen(cg, CompileAndOr(l, r, isAnd, cg))
    decreases if isAnd then And(l, r) else Or(l, r), 1
  {
    hide *;
    var s := ShortStates(l, r, isAnd, cg);
    var t := |s.left.cg.p.blocks|;
    FrameOf(l, false, cg);
    GenGood(cg, s.left);
    GoodGrows(cg, s.left.cg);
    GoodBranch(s.left.cg, 2, ShortBranch(isAnd, s.left.op, t));
    GoodGrows(s.left.cg, s.g1);
    MovedTo(s.left.cg, s.g1, t);
    FrameOf(r, false, s.g1);
    GenGood(s.g1, s.right);
    GoodArm(s.left.cg, s.g1, s.right.cg, Br(t + 1), t + 1);
    GoodTrans(cg, s.left.cg, s.g2);
    ShortIs(s, cg);
    GoodJoin(cg, s.g2, [Incoming(s.right.op, s.right.cg.cur), Incoming(s.left.op, s.left.cg.cur)]);
  }

  lemma ShortIs(s: ShortSteps, cg: CG)
    requires var t := |s.left.cg.p.blocks|;
             && GoodGen(cg, s.left) && Good(s.left.cg, s.g1) && Moved(s.left.cg, s.g1, t)
             && GoodGen(s.g1, s.right) && Good(cg, s.g2) && Moved(s.right.cg, s.g2, t + 1)
             && s.left.cg.cur < t <= s.right.cg.cur && s.right.cg.cur != t + 1
    ensures ShortOk(s, cg)
  {
    hide Good, Moved, GoodGen;
  }

  /** A phi as the value of the code before it. */
  lemma GoodJoin(a: CG, b: CG, list: seq<Incoming>)
    requires Good(a, b) && |list| <= 2
    ensures GoodGen(a, Gen(b.DefinePhi(list), Reg(b.nextReg)))
  {
    GoodPhi(a, b, list);
  }

  lemma MovedTo(a: CG, g: CG, at: nat)
    requires Moved(a, g, at)
    ensures g.cur == at && g.nextReg == a.nextReg
  {
  }

  ghost predicate IfOk(s: IfSteps, cg: CG) {
    var k := |s.cond.cg.p.blocks|;
    && GoodGen(cg, s.cond) && Good(s.cond.cg, s.g1) && Moved(s.cond.cg, s.g1, k)
    && GoodGen(s.g1, s.yes) && Good(s.cond.cg, s.g2) && Moved(s.yes.cg, s.g2, k + 1)
    && GoodGen(s.g2, s.no) && Good(cg, s.g3) && Moved(s.no.cg, s.g3, k + 2)
    && s.yes.cg.cur != k + 1 && s.yes.cg.cur != k + 2 && s.no.cg.cur != k + 2 && s.yes.cg.cur != s.no.cg.cur
  }

  lemma IfParts(c: Expr, t: Expr, e: Expr, cg: CG) returns (s: IfSteps)
    ensures s == StepsOfIf(c, t, e, cg) && s.cond == Compile(c, false, cg)
    ensures var k := |s.cond.cg.p.blocks|;
            && s.g1 == s.cond.cg.Create(3).CloseAt(CondBr(s.cond.op, k, k + 1), k) && s.yes == Compile(t, false, s.g1)
            && s.g2 == s.yes.cg.CloseAt(Br(k + 2), k + 1) && s.no == Compile(e, false, s.g2)
            && s.g3 == s.no.cg.CloseAt(Br(k + 2), k + 2)
            && Targets(CondBr(s.cond.op, k, k + 1), k) && Targets(Br(k + 2), k)
    ensures CompileIf(c, t, e, cg) == JoinIf(Incoming(s.yes.op, s.yes.cg.cur), Incoming(s.no.op, s.no.cg.cur), s.g3)
  {
    hide Compile, CG.CloseAt, CG.Create, JoinIf;
    s := StepsOfIf(c, t, e, cg);
  }

  /** To the first branch of an if. */
  lemma IfFirst(s: IfSteps, cg: CG)
    requires var k := |s.cond.cg.p.blocks|;
             GoodGen(cg, s.cond) && s.g1 == s.cond.cg.Create(3).CloseAt(CondBr(s.cond.op, k, k + 1), k) && Targets(CondBr(s.cond.op, k, k + 1), k)
    ensures var k := |s.cond.cg.p.blocks|;
            && Good(s.cond.cg, s.g1) && Moved(s.cond.cg, s.g1, k) && s.g1.Valid() && s.g1.cur == k && |s.g1.p.blocks| == k + 3
            && s.g1.p.blocks[k + 1] == s.g1.p.blocks[k + 2] == FreshBlock
  {
    hide Ext, CG.CloseAt, CG.Create, CG.Valid;
    var k := |s.cond.cg.p.blocks|;
    GoodBranch(s.cond.cg, 3, CondBr(s.cond.op, k, k + 1));
  }

  /** To the second branch. */
  lemma IfSecond(s: IfSteps)
    requires var k := |s.cond.cg.p.blocks|;
             && Good(s.cond.cg, s.g1) && s.g1.cur == k && |s.g1.p.blocks| == k + 3
             && s.g1.p.blocks[k + 1] == s.g1.p.blocks[k + 2] == FreshBlock
             && GoodGen(s.g1, s.yes) && s.g2 == s.yes.cg.CloseAt(Br(k + 2), k + 1) && Targets(Br(k + 2), k)
    ensures var k := |s.cond.cg.p.blocks|;
            && Good(s.cond.cg, s.g2) && Moved(s.yes.cg, s.g2, k + 1) && s.g2.Valid() && s.g2.cur == k + 1
            && s.yes.cg.cur != k + 1 && s.yes.cg.cur != k + 2 && s.yes.cg.cur < |s.g2.p.blocks|
            && k + 2 < |s.g2.p.blocks| && s.g2.p.blocks[k + 2] == FreshBlock
  {
    hide Ext, CG.CloseAt, CG.Valid;
    var k := |s.cond.cg.p.blocks|;
    GoodArm(s.cond.cg, s.g1, s.yes.cg, Br(k + 2), k + 1);
  }

  /** To the join. */
  lemma IfThird(s: IfSteps, cg: CG)
    requires var k := |s.cond.cg.p.blocks|;
             && Good(cg, s.cond.cg) && Good(s.cond.cg, s.g2) && s.g2.cur == k + 1 && k + 2 < |s.g2.p.blocks| && s.g2.p.blocks[k + 2] == FreshBlock
             && s.yes.cg.cur != k + 1 && s.yes.cg.cur < |s.g2.p.blocks|
             && GoodGen(s.g2, s.no) && s.g3 == s.no.cg.CloseAt(Br(k + 2), k + 2) && Targets(Br(k + 2), k)
    ensures var k := |s.cond.cg.p.blocks|;
            Good(cg, s.g3) && Moved(s.no.cg, s.g3, k + 2) && s.no.cg.cur != k + 2 && s.yes.cg.cur != s.no.cg.cur
  {
    hide Ext, CG.CloseAt, CG.Valid;
    var k := |s.cond.cg.p.blocks|;
    GoodArm(s.cond.cg, s.g2, s.no.cg, Br(k + 2), k + 2);
    GoodTrans(cg, s.cond.cg, s.g3);
  }

  lemma {:induction false} FrameIf(c: Expr, t: Expr, e: Expr, cg: CG)
    requires cg.Valid()
    ensures IfOk(StepsOfIf(c, t, e, cg), cg)
    ensures GoodGen(cg, CompileIf(c, t, e, cg))
    decreases If(c, t, e), 1
  {
    hide *;
    var s := IfParts(c, t, e, cg);
    FrameOf(c, false, cg);
    GenGood(cg, s.cond);
    IfFirst(s, cg);
    FrameOf(t, false, s.g1);
    IfSecond(s);
    FrameOf(e, false, s.g2);
    IfThird(s, cg);
    IfIs(s, cg);
    GoodEither(cg, s.g3, Incoming(s.yes.op, s.yes.cg.cur), Incoming(s.no.op, s.no.cg.cur));
  }

  lemma IfIs(s: IfSteps, cg: CG)
    requires var k := |s.cond.cg.p.blocks|;
             && GoodGen(cg, s.cond) && Good(s.cond.cg, s.g1) && Moved(s.cond.cg, s.g1, k)
             && GoodGen(s.g1, s.yes) && Good(s.cond.cg, s.g2) && Moved(s.yes.cg, s.g2, k + 1)
             && GoodGen(s.g2, s.no) && Good(cg, s.g3) && Moved(s.no.cg, s.g3, k + 2)
             && s.yes.cg.cur != k + 1 && s.yes.cg.cur != k + 2 && s.no.cg.cur != k + 2 && s.yes.cg.cur != s.no.cg.cur
    ensures IfOk(s, cg)
  {
    hide Good, Moved, GoodGen;
  }

  /** The value where the branches of an if meet. */
  lemma GoodEither(a: CG, b: CG, x: Incoming, y: Incoming)
    requires Good(a, b)
    ensures GoodGen(a, JoinIf(x, y, b))
  {
    hide Good, GoodGen, CG.DefinePhi;
    GoodJoin(a, b, [x, y]);
    GoodVoid(a, b);
  }

  lemma GoodEnds(a: CG, b: CG)
    requires Good(a, b)
    ensures a.Valid() && b.Valid()
  {
  }

  ghost predicate IfThenOk(s: IfThenSteps, cg: CG) {
    var k := |s.cond.cg.p.blocks|;
    && GoodGen(cg, s.cond) && Good(s.cond.cg, s.g1) && Moved(s.cond.cg, s.g1, k)
    && GoodGen(s.g1, s.yes) && Good(cg, s.end) && Moved(s.yes.cg, s.end, k + 1)
    && s.yes.cg.cur != k + 1
  }

  lemma {:induction false} FrameIfThen(c: Expr, t: Expr, cg: CG)
    requires cg.Valid()
    ensures IfThenOk(StepsOfIfThen(c, t, cg), cg)
    ensures GoodGen(cg, CompileIfThen(c, t, cg))
    decreases IfThen(c, t), 1
  {
    hide Good, CG.Valid, Compile, Ext, CG.Update, CG.Current, CG.Emit, CG.Define, CG.CloseAt, CG.Create, CG.DefinePhi, Moved;
    var s := StepsOfIfThen(c, t, cg);
    var k := |s.cond.cg.p.blocks|;
    FrameOf(c, false, cg);
    GoodBranch(s.cond.cg, 2, CondBr(s.cond.op, k, k + 1));
    MovedTo(s.cond.cg, s.g1, k);
    FrameOf(t, false, s.g1);
    GoodArm(s.cond.cg, s.g1, s.yes.cg, Br(k + 1), k + 1);
    GoodTrans(cg, s.cond.cg, s.end);
    GoodEnds(cg, s.end);
  }

  ghost predicate WhileOk(s: WhileSteps, cg: CG) {
    var k := |cg.p.blocks|;
    && Good(cg, s.g1) && Moved(cg, s.g1, k) && GoodGen(s.g1, s.cond)
    && Good(cg, s.g2) && Moved(s.cond.cg, s.g2, k + 1) && GoodGen(s.g2, s.body)
    && Good(cg, s.end) && Moved(s.body.cg, s.end, k + 2)
    && s.cond.cg.cur != k + 1 && s.cond.cg.cur != k + 2 && s.body.cg.cur != k + 2
  }

  /** The states a while loop is lowered through. */
  lemma WhileStates(c: Expr, body: Expr, cg: CG) returns (s: WhileSteps)
    ensures s == StepsOfWhile(c, body, cg)
    ensures var k := |cg.p.blocks|;
            && s.g1 == cg.Create(3).CloseAt(Br(k), k) && s.cond == Compile(c, false, s.g1)
            && s.g2 == s.cond.cg.CloseAt(CondBr(s.cond.op, k + 1, k + 2), k + 1) && s.body == Compile(body, false, s.g2)
            && s.end == s.body.cg.CloseAt(Br(k), k + 2)
    ensures CompileWhile(c, body, cg) == Gen(s.end, VoidOp)
  {
    hide Compile, CG.Create, CG.CloseAt;
    s := StepsOfWhile(c, body, cg);
  }

  lemma {:induction false} FrameWhile(c: Expr, body: Expr, cg: CG)
    requires cg.Valid()
    ensures WhileOk(StepsOfWhile(c, body, cg), cg)
    ensures GoodGen(cg, CompileWhile(c, body, cg))
    decreases While(c, body), 1
  {
    hide *;
    var s := WhileStates(c, body, cg);
    var k := |cg.p.blocks|;
    ToTargets(k, s.cond.op);
    GoodBranch(cg, 3, Br(k));
    MovedTo(cg, s.g1, k);
    FrameOf(c, false, s.g1);
    GenGood(s.g1, s.cond);
    GoodArm(cg, s.g1, s.cond.cg, CondBr(s.cond.op, k + 1, k + 2), k + 1);
    MovedTo(s.cond.cg, s.g2, k + 1);
    GoodEnds(cg, s.g2);
    FrameOf(body, false, s.g2);
    GenGood(s.g2, s.body);
    GoodArm(cg, s.g2, s.body.cg, Br(k), k + 2);
    WhileIs(s, cg);
    GoodVoid(cg, s.end);
  }

  lemma ToTargets(k: nat, cond: Operand)
    ensures Targets(Br(k), k) && Targets(CondBr(cond, k + 1, k + 2), k)
  {
  }

  lemma WhileIs(s: WhileSteps, cg: CG)
    requires var k := |cg.p.blocks|;
             && Good(cg, s.g1) && Moved(cg, s.g1, k) && GoodGen(s.g1, s.cond)
             && Good(cg, s.g2) && Moved(s.cond.cg, s.g2, k + 1) && GoodGen(s.g2, s.body)
             && Good(cg, s.end) && Moved(s.body.cg, s.end, k + 2)
             && s.cond.cg.cur != k + 1 && s.cond.cg.cur != k + 2 && s.body.cg.cur != k + 2
    ensures WhileOk(s, cg)
  {
    hide Good, Moved, GoodGen;
  }

  lemma GoodVoid(a: CG, b: CG)
    requires Good(a, b)
    ensures GoodGen(a, Gen(b, VoidOp))
  {
    GoodEnds(a, b);
  }

  lemma FrameForTest(arr: Operand, loop: nat, a: CG, cg: CG)
    requires Good(cg, a) && |cg.p.blocks| <= loop < |a.p.blocks| && a.cur != loop && a.p.blocks[loop].term.Open?
    ensures var g := ForTest(arr, loop, a);
            && Good(cg, g) && g.cur == loop && g.nextReg == a.nextReg + 2 && g.vars == a.vars
            && |g.p.blocks| == |a.p.blocks| && g.p.phis == a.p.phis
            && (forall k | 0 <= k < |a.p.blocks| && k != a.cur :: g.p.blocks[k] == a.p.blocks[k])
  {
    hide Ext, CG.Update, CG.Current, CG.Emit, CG.Define, CG.CloseAt, CG.Create, CG.DefinePhi;
    var r := a.nextReg;
    GoodEmit(cg, a, Pure(r, ExtractSize, arr, arr));
    EmitFrame(a, Pure(r, ExtractSize, arr, arr));
    var g1 := a.Compute(ExtractSize, arr, arr);
    GoodEmit(cg, g1, Pure(r + 1, CmpSGT, Reg(r), Const(VInt(0))));
    EmitFrame(g1, Pure(r + 1, CmpSGT, Reg(r), Const(VInt(0))));
    GoodClose(cg, g1.Compute(CmpSGT, Reg(r), Const(VInt(0))), CondBr(Reg(r + 1), loop, loop + 1), loop);
  }

  lemma FrameForBind(x: Variable, ix: Option<Variable>, arr: Operand, entry: nat, a: CG, cg: CG)
    requires Good(cg, a)
    ensures var g := ForBind(x, ix, arr, entry, a);
            && Good(cg, g) && g.cur == a.cur && g.nextReg == a.nextReg + 3
            && |g.p.blocks| == |a.p.blocks| && g.p.phis == a.p.phis[a.nextReg := [Incoming(Const(VInt(0)), entry)]]
            && (forall k | 0 <= k < |a.p.blocks| && k != a.cur :: g.p.blocks[k] == a.p.blocks[k])
  {
    hide Ext, CG.Update, CG.Current, CG.Emit, CG.Define, CG.CloseAt, CG.Create, CG.DefinePhi;
    var r := a.nextReg;
    var list := [Incoming(Const(VInt(0)), entry)];
    GoodPhi(cg, a, list);
    EmitFrame(a, Phi(r));
    var g1 := a.DefinePhi(list);
    GoodEmit(cg, g1, Pure(r + 1, ExtractPtr, arr, arr));
    EmitFrame(g1, Pure(r + 1, ExtractPtr, arr, arr));
    var g2 := g1.Compute(ExtractPtr, arr, arr);
    GoodEmit(cg, g2, Pure(r + 2, Gep, Reg(r + 1), Reg(r)));
    EmitFrame(g2, Pure(r + 2, Gep, Reg(r + 1), Reg(r)));
    GoodBind(cg, g2.Compute(Gep, Reg(r + 1), Reg(r)), x, Reg(r + 2));
    var g3 := g2.Compute(Gep, Reg(r + 1), Reg(r)).Bind(x, Reg(r + 2));
    if ix.Some? { GoodBind(cg, g3, ix.value, Reg(r)); }
  }

  lemma GoodBind(cg: CG, a: CG, x: Variable, op: Operand)
    requires Good(cg, a) && Below(op, a.nextReg)
    ensures Good(cg, a.Bind(x, op)) && a.Bind(x, op).p == a.p && a.Bind(x, op).cur == a.cur && a.Bind(x, op).nextReg == a.nextReg
  {
  }

  lemma FrameForNext(size: nat, phi: nat, loop: nat, a: CG, cg: CG)
    requires Good(cg, a) && phi in a.p.phis && |a.p.phis[phi]| <= 1 && phi !in cg.p.phis && phi >= cg.nextReg
    requires |cg.p.blocks| <= loop && loop + 1 < |a.p.blocks|
    requires a.cur != loop + 1 && a.p.blocks[loop + 1].term.Open?
    ensures var g := ForNext(size, phi, loop, a);
            && Good(cg, g) && g.cur == loop + 1 && g.nextReg == a.nextReg + 2 && g.vars == a.vars
            && g.cur < |g.p.blocks| && g.p.blocks[loop + 1] == a.p.blocks[loop + 1]
  {
    hide CG.Update, CG.Emit, CG.Define, CG.CloseAt, CG.AddIncoming, Ext, CG.Current, CG.Create, CG.DefinePhi;
    GoodGrows(cg, a);
    var n := a.nextReg;
    GoodEmit(cg, a, Pure(n, Add, Reg(phi), Const(VInt(1))));
    EmitFrame(a, Pure(n, Add, Reg(phi), Const(VInt(1))));
    var g1 := a.Compute(Add, Reg(phi), Const(VInt(1)));
    GoodEmit(cg, g1, Pure(n + 1, CmpSLT, Reg(n), Reg(size)));
    EmitFrame(g1, Pure(n + 1, CmpSLT, Reg(n), Reg(size)));
    var g2 := g1.Compute(CmpSLT, Reg(n), Reg(size));
    GoodClose(cg, g2, CondBr(Reg(n + 1), loop, loop + 1), loop + 1);
    GoodIncoming(cg, g2.CloseAt(CondBr(Reg(n + 1), loop, loop + 1), loop + 1), phi, Incoming(Reg(n), a.cur));
  }

  lemma GoodIncoming(cg: CG, a: CG, phi: nat, inc: Incoming)
    requires Good(cg, a) && phi in a.p.phis && |a.p.phis[phi]| <= 1 && phi !in cg.p.phis
    ensures var g := a.AddIncoming(phi, inc);
            && Good(cg, g) && g.p.blocks == a.p.blocks && g.cur == a.cur && g.nextReg == a.nextReg && g.vars == a.vars
            && g.p.phis == a.p.phis[phi := a.p.phis[phi] + [inc]]
  {
  }

  ghost predicate ForOk(s: ForSteps, cg: CG) {
    var loop := |cg.p.blocks|;
    && Good(cg, s.g0) && s.g0.nextReg == cg.nextReg && s.g0.vars == cg.vars && s.g0.cur == cg.cur
    && GoodGen(s.g0, s.arr) && Good(cg, s.arr.cg)
    && s.arr.cg.cur != loop && s.arr.cg.cur != loop + 1 && loop + 1 < |s.arr.cg.p.blocks|
    && s.arr.cg.p.blocks[loop] == s.arr.cg.p.blocks[loop + 1] == FreshBlock
    && Good(cg, s.g1) && s.g1.cur == loop && s.g1.nextReg == s.arr.cg.nextReg + 2 && s.g1.vars == s.arr.cg.vars
    && s.g1.p.blocks[loop] == FreshBlock && s.g1.p.phis == s.arr.cg.p.phis
    && Good(cg, s.g2) && s.g2.cur == loop && s.g2.nextReg == s.g1.nextReg + 3
    && |s.g2.p.blocks| == |s.g1.p.blocks| == |s.arr.cg.p.blocks|
    && s.g2.p.blocks[loop + 1] == FreshBlock
    && s.g1.nextReg !in s.g1.p.phis && s.g1.nextReg in s.g2.p.phis
    && GoodGen(s.g2, s.body) && Good(cg, s.body.cg)
    && s.body.cg.cur != loop + 1 && loop + 1 < |s.body.cg.p.blocks| && s.body.cg.p.blocks[loop + 1] == FreshBlock
    && (s.body.cg.cur == loop || s.body.cg.cur >= |s.arr.cg.p.blocks|)
    && s.g1.nextReg in s.body.cg.p.phis && s.body.cg.p.phis[s.g1.nextReg] == s.g2.p.phis[s.g1.nextReg]
    && Good(cg, s.end) && s.end.cur == loop + 1 && s.end.p.blocks[loop + 1] == FreshBlock
    && s.end.nextReg == s.body.cg.nextReg + 2 && s.end.vars == s.body.cg.vars
  }

  lemma {:induction false} FrameFor(x: Variable, ix: Option<Variable>, a: Expr, body: Expr, cg: CG)
    requires cg.Valid()
    ensures ForOk(StepsOfFor(x, ix, a, body, cg), cg)
    ensures GoodGen(cg, CompileFor(x, ix, a, body, cg))
    decreases For(x, ix, a, body), 1
  {
    hide Compile, ForTest, ForBind, ForNext, Ext, CG.Update, CG.Emit, CG.Define, CG.CloseAt, CG.Current, CG.Create, CG.DefinePhi;
    var s := StepsOfFor(x, ix, a, body, cg);
    var loop := |cg.p.blocks|;
    GoodCreate(cg, 2);
    FrameOf(a, false, s.g0);
    GoodWait(cg, s.g0, s.arr.cg, loop);
    GoodWait(cg, s.g0, s.arr.cg, loop + 1);
    FrameForTest(s.arr.op, loop, s.arr.cg, cg);
    FrameForBind(x, ix, s.arr.op, cg.cur, s.g1, cg);
    GoodEnds(cg, s.g2);
    FrameOf(body, false, s.g2);
    GoodWait(cg, s.g2, s.body.cg, loop + 1);
    GoodGrows(cg, s.g1);
    GoodGrows(s.g2, s.body.cg);
    FrameForNext(s.arr.cg.nextReg, s.g1.nextReg, loop, s.body.cg, cg);
  }

  // ---------------------------------------------------------------- the states control flow is lowered through

  /** The states an if is lowered through, one from the other, all valid. */
  lemma IfStates(c: Expr, t: Expr, e: Expr, cg: CG) returns (s: IfSteps)
    requires cg.Valid()
    ensures s.cond == Compile(c, false, cg) && s.cond.cg.Valid()
    ensures var k := |s.cond.cg.p.blocks|;
            && s.g1 == s.cond.cg.Create(3).CloseAt(CondBr(s.cond.op, k, k + 1), k) && s.g1.Valid()
            && s.yes == Compile(t, false, s.g1)
            && s.g2 == s.yes.cg.CloseAt(Br(k + 2), k + 1) && s.g2.Valid()
            && s.no == Compile(e, false, s.g2)
            && s.g3 == s.no.cg.CloseAt(Br(k + 2), k + 2) && s.g3.Valid()
    ensures CompileIf(c, t, e, cg) == JoinIf(Incoming(s.yes.op, s.yes.cg.cur), Incoming(s.no.op, s.no.cg.cur), s.g3)
  {
    hide Compile, Ext, CG.Valid, CG.CloseAt, CG.Create, JoinIf;
    FrameIf(c, t, e, cg);
    s := StepsOfIf(c, t, e, cg);
    GoodEnds(s.cond.cg, s.g1);
    GoodEnds(s.cond.cg, s.g2);
    GoodEnds(cg, s.g3);
  }

  lemma IfThenStates(c: Expr, t: Expr, cg: CG) returns (s: IfThenSteps)
    requires cg.Valid()
    ensures s.cond == Compile(c, false, cg) && s.cond.cg.Valid()
    ensures var k := |s.cond.cg.p.blocks|;
            && s.g1 == s.cond.cg.Create(2).CloseAt(CondBr(s.cond.op, k, k + 1), k) && s.g1.Valid()
            && s.yes == Compile(t, false, s.g1)
            && CompileIfThen(c, t, cg) == Gen(s.yes.cg.CloseAt(Br(k + 1), k + 1), VoidOp)
  {
    hide Compile, Ext, CG.Valid, CG.CloseAt, CG.Create;
    FrameIfThen(c, t, cg);
    s := StepsOfIfThen(c, t, cg);
    GoodEnds(s.cond.cg, s.g1);
  }

  lemma LoopStates(c: Expr, body: Expr, cg: CG) returns (s: WhileSteps)
    requires cg.Valid()
    ensures var k := |cg.p.blocks|;
            && s.g1 == cg.Create(3).CloseAt(Br(k), k) && s.g1.Valid() && s.cond == Compile(c, false, s.g1)
            && s.g2 == s.cond.cg.CloseAt(CondBr(s.cond.op, k + 1, k + 2), k + 1) && s.g2.Valid()
            && s.body == Compile(body, false, s.g2) && s.end == s.body.cg.CloseAt(Br(k), k + 2)
    ensures CompileWhile(c, body, cg) == Gen(s.end, VoidOp)
  {
    hide Compile, Ext, CG.Valid, CG.CloseAt, CG.Create, Moved, CompileWhile, StepsOfWhile;
    s := WhileStates(c, body, cg);
    FrameWhile(c, body, cg);
    GoodEnds(cg, s.g1);
    GoodEnds(cg, s.g2);
  }

  lemma ForStates(x: Variable, ix: Option<Variable>, a: Expr, body: Expr, cg: CG) returns (s: ForSteps)
    requires cg.Valid()
    ensures var loop := |cg.p.blocks|;
            && s.g0 == cg.Create(2) && s.g0.Valid()
            && s.arr == Compile(a, false, s.g0) && s.arr.cg.Valid()
            && s.g1 == ForTest(s.arr.op, loop, s.arr.cg) && s.g1.Valid()
            && s.g2 == ForBind(x, ix, s.arr.op, cg.cur, s.g1) && s.g2.Valid()
            && s.body == Compile(body, false, s.g2) && s.body.cg.Valid() && s.g1.nextReg in s.body.cg.p.phis
            && CompileFor(x, ix, a, body, cg) == Gen(ForNext(s.arr.cg.nextReg, s.g1.nextReg, loop, s.body.cg), VoidOp)
  {
    hide Compile, Ext, CG.Valid, CG.Create, ForTest, ForBind, ForNext;
    FrameFor(x, ix, a, body, cg);
    s := StepsOfFor(x, ix, a, body, cg);
    GoodEnds(cg, s.g0);
    GoodEnds(cg, s.g1);
    GoodEnds(cg, s.g2);
  }
}
