/** Code generation as it is done: one builder object whose block list, insertion point, register
    counter and variable bindings are updated while the tree is walked.  Every method is proved to
    take the builder from any valid state to the state the functions of Lowering.dfy give, so the
    theorems about those functions are theorems about this class. */
module CodeBuilder {
  import opened Options
  import opened IR
  import opened Source
  import opened Lowering
  import opened LoweringFrame
  import opened CodeScope
  import opened CodeTheorem

  lemma MoreArgs(es: Exprs, ops: seq<Operand>, cg: CG)
    ensures es.Nil? ==> CompileArgs(es, cg).cg == cg && ops + CompileArgs(es, cg).ops == ops
    ensures es.Cons? ==>
              var g := Compile(es.head, false, cg);
              && CompileArgs(es, cg).cg == CompileArgs(es.tail, g.cg).cg
              && ops + CompileArgs(es, cg).ops == (ops + [g.op]) + CompileArgs(es.tail, g.cg).ops
  {
    hide Compile;
  }

  lemma ValidOpen(cg: CG)
    requires cg.Valid()
    ensures cg.cur < |cg.p.blocks| && cg.p.blocks[cg.cur].term.Open?
  {
  }

  class Builder {
    var blocks: seq<Block>
    var phis: map<nat, seq<Incoming>>
    var cur: nat
    var nextReg: nat
    var vars: map<Variable, Operand>

    ghost function State(): CG
      reads this
    {
      CG(Program(blocks, phis), cur, nextReg, vars)
    }

    /** The start of a function: an empty entry block, and the parameters in the first registers. */
    constructor (params: seq<Variable>)
      ensures State() == Entry(params)
    {
      blocks, phis, cur, nextReg := [FreshBlock], map[], 0, |params|;
      vars := map[];
      new;
      var i := 0;
      while i < |params|
        invariant 0 <= i <= |params| && vars == ParamVars(params[..i])
        invariant blocks == [FreshBlock] && phis == map[] && cur == 0 && nextReg == |params|
      {
        assert params[..i + 1][..i] == params[..i];
        vars := vars[params[i] := Reg(i)];
        i := i + 1;
      }
      assert params[..i] == params;
    }

    // -------------------------------------------------------------- the instruction builder

    method CreateBlock() returns (b: nat)
      modifies `blocks
      ensures b == old(|blocks|) && blocks == old(blocks) + [FreshBlock]
    {
      b := |blocks|;
      blocks := blocks + [FreshBlock];
    }

    method Emit(i: Instr)
      requires cur < |blocks|
      modifies `blocks
      ensures State() == old(State()).Emit(i)
    {
      blocks := blocks[cur := blocks[cur].(instrs := blocks[cur].instrs + [i])];
    }

    /** Emits an instruction whose result is a new register. */
    method Define(i: Instr) returns (op: Operand)
      requires cur < |blocks|
      modifies `blocks, `nextReg
      ensures State() == old(State()).Define(i) && op == Reg(old(nextReg))
    {
      Emit(i);
      op := Reg(nextReg);
      nextReg := nextReg + 1;
    }

    method Compute(prim: Prim, a: Operand, b: Operand) returns (op: Operand)
      requires cur < |blocks|
      modifies `blocks, `nextReg
      ensures State() == old(State()).Compute(prim, a, b) && op == Reg(old(nextReg))
    {
      op := Define(Pure(nextReg, prim, a, b));
    }

    /** A block that has a terminator never gets another one. */
    method Terminate(t: Terminator)
      requires cur < |blocks| && blocks[cur].term.Open?
      modifies `blocks
      ensures forall at: nat :: State().(cur := at) == old(State()).CloseAt(t, at)
    {
      blocks := blocks[cur := blocks[cur].(term := t)];
    }

    method SetInsertPoint(b: nat)
      modifies `cur
      ensures cur == b
    {
      cur := b;
    }

    /** A phi without incoming edges yet. */
    method CreatePhi() returns (r: nat)
      requires cur < |blocks|
      modifies `blocks, `nextReg, `phis
      ensures r == old(nextReg) && State() == old(State()).DefinePhi([])
    {
      r := nextReg;
      var _ := Define(Phi(r));
      phis := phis[r := []];
    }

    method AddIncoming(r: nat, inc: Incoming)
      requires r in phis
      modifies `phis
      ensures State() == old(State()).AddIncoming(r, inc)
    {
      phis := phis[r := phis[r] + [inc]];
    }

    method BindVariable(x: Variable, op: Operand)
      modifies `vars
      ensures State() == old(State()).Bind(x, op)
    {
      vars := vars[x := op];
    }

    // -------------------------------------------------------------- expressions

    method CodegenExpr(e: Expr, ref: bool) returns (op: Operand)
      requires State().Valid()
      modifies this
      ensures Gen(State(), op) == Compile(e, ref, old(State()))
      ensures State().Valid()
      decreases e, 2
    {
      hide CompileNot, CompileDeref, CompileNew, CompileAndOr, CompileBody, CompileCall, CompileIndex, CompileAssign, CompileIf, CompileIfThen, CompileFor, CompileWhile, CompileVarDecl, Ext;
      FrameOf(e, ref, State());
      match e
      case LitVoid => op := VoidOp;
      case LitBool(b) => op := Const(VBool(b));
      case LitInt(n) => op := Const(VInt(I32(n)));
      case FnRef(name) => op := Const(VFn(name));
      case Var(x) => op := CodegenIdent(x, ref);
      case NotE(e1) => op := CodegenNot(e1);
      case Deref(e1) => op := CodegenDeref(e1, ref);
      case New(e1) => op := CodegenNew(e1);
      case And(l, r) => op := CodegenBinaryAndOr(e, l, r, true);
      case Or(l, r) => op := CodegenBinaryAndOr(e, l, r, false);
      case BlockE(es) => op := CodegenBlock(es);
      case CallE(f, args, isVoid) => op := CodegenCall(f, args, isVoid);
      case Index(a, i) => op := CodegenIndex(a, i, ref);
      case Assign(l, r) => op := CodegenAssign(l, r);
      case If(c, t, e1) => op := CodegenIf(c, t, e1);
      case IfThen(c, t) => op := CodegenIfThen(c, t);
      case For(x, ix, a, body) => op := CodegenFor(x, ix, a, body);
      case While(c, body) => op := CodegenWhile(c, body);
      case VarDecl(x, e1) => op := CodegenVarDecl(x, e1);
    }

    method CodegenIdent(x: Variable, ref: bool) returns (op: Operand)
      requires State().Valid()
      modifies this
      ensures Gen(State(), op) == CompileIdent(x, ref, old(State()))
    {
      if x !in vars {
        op := VoidOp;
      } else if IsStorage(x) && !ref {
        op := Define(Load(nextReg, vars[x]));
      } else {
        op := vars[x];
      }
    }

    method CodegenNot(e: Expr) returns (op: Operand)
      requires State().Valid()
      modifies this
      ensures Gen(State(), op) == CompileNot(e, old(State()))
      decreases NotE(e), 1
    {
      hide Compile, Ext;
      var v := CodegenExpr(e, false);
      op := Compute(Not, v, v);
    }

    method CodegenDeref(e: Expr, ref: bool) returns (op: Operand)
      requires State().Valid()
      modifies this
      ensures Gen(State(), op) == CompileDeref(e, ref, old(State()))
      decreases Deref(e), 1
    {
      hide Compile, Ext;
      op := CodegenExpr(e, false);
      if !ref {
        op := Define(Load(nextReg, op));
      }
    }

    method CodegenNew(e: Expr) returns (op: Operand)
      requires State().Valid()
      modifies this
      ensures Gen(State(), op) == CompileNew(e, old(State()))
      decreases New(e), 1
    {
      hide Compile, Ext;
      var v := CodegenExpr(e, false);
      op := Define(NewCell(nextReg));
      Emit(Store(v, op));
    }

    method CodegenBlock(es: Exprs) returns (op: Operand)
      requires State().Valid()
      modifies this
      ensures Gen(State(), op) == CompileBody(es, VoidOp, old(State()))
      decreases es, 1
    {
      hide Compile, Ext;
      op := VoidOp;
      var rest := es;
      while rest.Cons?
        invariant State().Valid()
        invariant CompileBody(rest, op, State()) == CompileBody(es, VoidOp, old(State()))
        invariant rest == es || rest < es
        decreases rest
      {
        op := CodegenExpr(rest.head, false);
        rest := rest.tail;
      }
    }

    method CodegenArgs(args: Exprs) returns (ops: seq<Operand>)
      requires State().Valid()
      modifies this
      ensures GenAll(State(), ops) == CompileArgs(args, old(State())) && State().Valid()
      decreases args, 1
    {
      hide *;
      ops := [];
      var rest := args;
      ghost var all := CompileArgs(args, State());
      while rest.Cons?
        invariant State().Valid()
        invariant all.cg == CompileArgs(rest, State()).cg && all.ops == ops + CompileArgs(rest, State()).ops
        invariant rest == args || rest < args
        decreases rest
      {
        MoreArgs(rest, ops, State());
        var v := CodegenExpr(rest.head, false);
        ops := ops + [v];
        rest := rest.tail;
      }
      MoreArgs(rest, ops, State());
    }

    method CodegenCall(f: Expr, args: Exprs, isVoid: bool) returns (op: Operand)
      requires State().Valid()
      modifies this
      ensures Gen(State(), op) == CompileCall(f, args, isVoid, old(State()))
      decreases CallE(f, args, isVoid), 1
    {
      hide Compile, CompileArgs, Ext, CG.Emit;
      var fn := CodegenExpr(f, false);
      var ops := CodegenArgs(args);
      op := Define(Invoke(nextReg, fn, ops));
      if isVoid {
        op := VoidOp;
      }
    }

    method CodegenAssign(l: Expr, r: Expr) returns (op: Operand)
      requires State().Valid()
      modifies this
      ensures Gen(State(), op) == CompileAssign(l, r, old(State()))
      decreases Assign(l, r), 1
    {
      hide Compile, CompileAssign, Good, CG.Valid, CG.Emit;
      AssignIs(l, r, State());
      var left := CodegenExpr(l, true);
      var right := CodegenExpr(r, false);
      ValidOpen(State());
      Emit(Store(right, left));
      op := VoidOp;
    }

    method CodegenVarDecl(x: Variable, e: Expr) returns (op: Operand)
      requires State().Valid()
      modifies this
      ensures Gen(State(), op) == CompileVarDecl(x, e, old(State()))
      decreases VarDecl(x, e), 1
    {
      hide Compile, Ext;
      var v := CodegenExpr(e, false);
      var storage := Const(VPtr(Local(x)));
      Emit(Store(v, storage));
      BindVariable(x, storage);
      op := VoidOp;
    }

    method CodegenTrapIf(cond: Operand)
      requires State().Valid()
      modifies this
      ensures State() == TrapIf(cond, old(State())) && State().Valid()
    {
      hide Ext;
      ghost var a := State();
      FrameTrapIf(cond, a);
      var trapbb := CreateBlock();
      var afterbb := CreateBlock();
      assert State() == a.Create(2);
      Terminate(CondBr(cond, trapbb, afterbb));
      SetInsertPoint(trapbb);
      Emit(TrapNow);
      Terminate(Unreachable);
      SetInsertPoint(afterbb);
    }

    method CodegenIndex(a: Expr, i: Expr, ref: bool) returns (op: Operand)
      requires State().Valid()
      modifies this
      ensures Gen(State(), op) == CompileIndex(a, i, ref, old(State()))
      decreases Index(a, i), 1
    {
      hide *;
      var expr := CodegenExpr(a, false);
      var index := CodegenExpr(i, false);
      op := BoundsChecked(expr, index, ref);
      IndexIs(a, i, ref, old(State()));
    }

    method BoundsChecked(expr: Operand, index: Operand, ref: bool) returns (op: Operand)
      requires State().Valid()
      modifies this
      ensures Gen(State(), op) == IndexRest(expr, index, ref, old(State()))
    {
      hide Ext, TrapIf, CG.Emit;
      FrameIndexTest(expr, index, State());
      var ptr := Compute(ExtractPtr, expr, expr);
      var size := Compute(ExtractSize, expr, expr);
      var cond := Compute(CmpUGE, index, size);
      assert State() == IndexTest(expr, index, old(State()));
      FrameTrapIf(cond, State());
      CodegenTrapIf(cond);
      op := Compute(Gep, ptr, index);
      if !ref {
        op := Define(Load(nextReg, op));
      }
    }

    method CodegenBinaryAndOr(whole: Expr, l: Expr, r: Expr, isAnd: bool) returns (op: Operand)
      requires whole == if isAnd then And(l, r) else Or(l, r)
      requires State().Valid()
      modifies this
      ensures Gen(State(), op) == CompileAndOr(l, r, isAnd, old(State()))
      decreases whole, 1
    {
      hide Compile, Ext, CG.CloseAt;
      ghost var s := StepsOfAndOr(l, r, isAnd, State());
      FrameAndOr(l, r, isAnd, State());
      var left := CodegenExpr(l, false);
      var currentbb := cur;
      var nextbb := CreateBlock();
      var afterbb := CreateBlock();
      assert State() == s.left.cg.Create(2);
      Terminate(if isAnd then CondBr(left, nextbb, afterbb) else CondBr(left, afterbb, nextbb));
      SetInsertPoint(nextbb);
      assert State() == s.g1;
      var right := CodegenExpr(r, false);
      nextbb := cur;
      Terminate(Br(afterbb));
      SetInsertPoint(afterbb);
      assert State() == s.g2;
      op := TwoWayPhi(Incoming(right, nextbb), Incoming(left, currentbb));
    }

    method TwoWayPhi(i1: Incoming, i2: Incoming) returns (op: Operand)
      requires State().Valid()
      modifies this
      ensures State() == old(State()).DefinePhi([i1, i2]) && op == Reg(old(nextReg))
    {
      var pn := CreatePhi();
      AddIncoming(pn, i1);
      AddIncoming(pn, i2);
      assert [] + [i1] + [i2] == [i1, i2];
      op := Reg(pn);
    }

    /** Lowers e, ends the block it leaves with t, and moves on; block is where e ended. */
    method CodegenArm(e: Expr, endbb: nat, nextbb: nat) returns (op: Operand, block: nat)
      requires State().Valid()
      modifies this
      ensures var g := Compile(e, false, old(State()));
              State() == g.cg.CloseAt(Br(endbb), nextbb) && op == g.op && block == g.cg.cur
      decreases e, 3
    {
      hide Compile, CG.Valid, CG.CloseAt;
      op := CodegenExpr(e, false);
      ValidOpen(State());
      block := cur;
      Terminate(Br(endbb));
      SetInsertPoint(nextbb);
    }

    /** Ends the block with a conditional branch to two of three new blocks, and starts on the first. */
    method Branch3(cond: Operand) returns (thenbb: nat, elsebb: nat, endbb: nat)
      requires State().Valid()
      modifies this
      ensures var k := |old(State()).p.blocks|;
              && State() == old(State()).Create(3).CloseAt(CondBr(cond, k, k + 1), k)
              && thenbb == k && elsebb == k + 1 && endbb == k + 2
    {
      ghost var a := State();
      thenbb := CreateBlock();
      elsebb := CreateBlock();
      endbb := CreateBlock();
      assert State() == a.Create(3);
      Terminate(CondBr(cond, thenbb, elsebb));
      SetInsertPoint(thenbb);
    }

    method CodegenIf(c: Expr, t: Expr, e: Expr) returns (op: Operand)
      requires State().Valid()
      modifies this
      ensures Gen(State(), op) == CompileIf(c, t, e, old(State()))
      decreases If(c, t, e), 1
    {
      hide *;
      ghost var s := IfStates(c, t, e, State());
      var cond := CodegenExpr(c, false);
      var thenbb, elsebb, endbb := Branch3(cond);
      assert State() == s.g1;
      var thenbody, elsebody;
      thenbody, thenbb := CodegenArm(t, endbb, elsebb);
      assert State() == s.g2;
      elsebody, elsebb := CodegenArm(e, endbb, endbb);
      assert State() == s.g3;
      op := CodegenJoin(Incoming(thenbody, thenbb), Incoming(elsebody, elsebb));
    }

    method CodegenJoin(i1: Incoming, i2: Incoming) returns (op: Operand)
      requires State().Valid()
      modifies this
      ensures Gen(State(), op) == JoinIf(i1, i2, old(State()))
    {
      if i1.op == VoidOp {
        op := VoidOp;
      } else {
        op := TwoWayPhi(i1, i2);
      }
    }

    method CodegenIfThen(c: Expr, t: Expr) returns (op: Operand)
      requires State().Valid()
      modifies this
      ensures Gen(State(), op) == CompileIfThen(c, t, old(State()))
      decreases IfThen(c, t), 1
    {
      hide *;
      ghost var s := IfThenStates(c, t, State());
      var cond := CodegenExpr(c, false);
      var endbb := Branch2(cond);
      var _, _ := CodegenArm(t, endbb, endbb);
      op := VoidOp;
    }

    /** Ends the block with a conditional branch to two new blocks, and starts on the first. */
    method Branch2(cond: Operand) returns (endbb: nat)
      requires State().Valid()
      modifies this
      ensures var k := |old(State()).p.blocks|;
              State() == old(State()).Create(2).CloseAt(CondBr(cond, k, k + 1), k) && endbb == k + 1
    {
      ghost var a := State();
      var thenbb := CreateBlock();
      endbb := CreateBlock();
      assert State() == a.Create(2);
      Terminate(CondBr(cond, thenbb, endbb));
      SetInsertPoint(thenbb);
    }

    method CodegenFor(x: Variable, ix: Option<Variable>, a: Expr, body: Expr) returns (op: Operand)
      requires State().Valid()
      modifies this
      ensures Gen(State(), op) == CompileFor(x, ix, a, body, old(State()))
      decreases For(x, ix, a, body), 1
    {
      hide *;
      ghost var s := ForStates(x, ix, a, body, State());
      var entrybb := InsertBlock();
      var loopbb, endbb := TwoBlocks();
      var expr := CodegenExpr(a, false);
      CodegenLoop(x, ix, expr, body, entrybb, loopbb, endbb, s);
      op := VoidOp;
    }

    /** The loop of a for, once its array has been lowered. */
    method CodegenLoop(x: Variable, ix: Option<Variable>, expr: Operand, body: Expr, entrybb: nat, loopbb: nat, endbb: nat, ghost s: ForSteps)
      requires State().Valid() && endbb == loopbb + 1
      requires s.g1 == ForTest(expr, loopbb, State()) && s.g1.Valid()
      requires s.g2 == ForBind(x, ix, expr, entrybb, s.g1) && s.g2.Valid()
      requires s.body == Compile(body, false, s.g2) && s.g1.nextReg in s.body.cg.p.phis
      modifies this
      ensures State() == ForNext(old(State()).nextReg, s.g1.nextReg, loopbb, s.body.cg)
      decreases body, 3
    {
      hide *;
      var size := ForEnter(expr, loopbb, endbb);
      var index := ForElement(x, ix, expr, entrybb);
      var _ := CodegenExpr(body, false);
      ForLeave(size, index, loopbb, endbb);
    }

    method InsertBlock() returns (b: nat)
      ensures b == State().cur
    {
      b := cur;
    }

    method TwoBlocks() returns (b1: nat, b2: nat)
      modifies this
      ensures State() == old(State()).Create(2) && b1 == |old(State()).p.blocks| && b2 == b1 + 1
    {
      ghost var a := State();
      b1 := CreateBlock();
      b2 := CreateBlock();
      assert State() == a.Create(2);
    }

    method ForEnter(expr: Operand, loopbb: nat, endbb: nat) returns (size: nat)
      requires State().Valid() && endbb == loopbb + 1
      modifies this
      ensures State() == ForTest(expr, loopbb, old(State())) && size == old(State()).nextReg
    {
      hide Ext;
      size := nextReg;
      var n := Compute(ExtractSize, expr, expr);
      var cond := Compute(CmpSGT, n, Const(VInt(0)));
      Terminate(CondBr(cond, loopbb, endbb));
      SetInsertPoint(loopbb);
    }

    method ForElement(x: Variable, ix: Option<Variable>, expr: Operand, entrybb: nat) returns (index: nat)
      requires State().Valid()
      modifies this
      ensures State() == ForBind(x, ix, expr, entrybb, old(State())) && index == old(State()).nextReg
    {
      hide Ext, CG.Emit;
      ghost var a := State();
      index := CreatePhi();
      AddIncoming(index, Incoming(Const(VInt(0)), entrybb));
      assert State() == a.DefinePhi([Incoming(Const(VInt(0)), entrybb)]) by {
        assert [] + [Incoming(Const(VInt(0)), entrybb)] == [Incoming(Const(VInt(0)), entrybb)];
      }
      var base := Compute(ExtractPtr, expr, expr);
      var element := Compute(Gep, base, Reg(index));
      BindVariable(x, element);
      if ix.Some? {
        BindVariable(ix.value, Reg(index));
      }
    }

    method ForLeave(size: nat, index: nat, loopbb: nat, endbb: nat)
      requires State().Valid() && endbb == loopbb + 1 && index in State().p.phis
      modifies this
      ensures State() == ForNext(size, index, loopbb, old(State()))
    {
      hide Ext;
      var next := Compute(Add, Reg(index), Const(VInt(1)));
      var loopendbb := cur;
      var cond := Compute(CmpSLT, next, Reg(size));
      Terminate(CondBr(cond, loopbb, endbb));
      AddIncoming(index, Incoming(next, loopendbb));
      SetInsertPoint(endbb);
    }

    method CodegenWhile(c: Expr, body: Expr) returns (op: Operand)
      requires State().Valid()
      modifies this
      ensures Gen(State(), op) == CompileWhile(c, body, old(State()))
      decreases While(c, body), 1
    {
      hide *;
      ghost var s := LoopStates(c, body, State());
      var loopbb, bodybb, endbb := EnterLoop();
      LoopTest(c, bodybb, endbb);
      var _, _ := CodegenArm(body, loopbb, endbb);
      op := VoidOp;
    }

    method EnterLoop() returns (loopbb: nat, bodybb: nat, endbb: nat)
      requires State().Valid()
      modifies this
      ensures var k := |old(State()).p.blocks|;
              && State() == old(State()).Create(3).CloseAt(Br(k), k)
              && loopbb == k && bodybb == k + 1 && endbb == k + 2
    {
      ghost var a := State();
      loopbb := CreateBlock();
      bodybb := CreateBlock();
      endbb := CreateBlock();
      assert State() == a.Create(3);
      Terminate(Br(loopbb));
      SetInsertPoint(loopbb);
    }

    method LoopTest(c: Expr, bodybb: nat, endbb: nat)
      requires State().Valid()
      modifies this
      ensures var g := Compile(c, false, old(State()));
              State() == g.cg.CloseAt(CondBr(g.op, bodybb, endbb), bodybb)
      decreases c, 3
    {
      hide Compile, CG.Valid, CG.CloseAt;
      var expr := CodegenExpr(c, false);
      ValidOpen(State());
      Terminate(CondBr(expr, bodybb, endbb));
      SetInsertPoint(bodybb);
    }
  }

  /** A whole function: entry block, body, return. */
  method CodegenFunctionBody(params: seq<Variable>, body: Expr) returns (p: Program)
    requires FunctionOk(params, body)
    ensures p == CompileFunction(params, body)
  {
    hide Compile, Ext, Formed;
    var none := seq(|params|, _ => VVoid);
    ParamsBound(params, none, none);
    var b := new Builder(params);
    var ret := b.CodegenExpr(body, false);
    ghost var end := b.State();
    b.Terminate(Ret(ret));
    assert b.State().(cur := end.cur) == end.CloseAt(Ret(ret), end.cur);
    p := Program(b.blocks, b.phis);
  }
}
