/** The shape of the emitted control-flow graph: every block but the insertion block is finished,
    every branch goes to an existing block, and every phi lists exactly its real predecessors. */
module CodeShape {
  import opened Options
  import opened IR
  import opened Source
  import opened Lowering
  import opened LoweringFrame
  import opened CodeStep
  import opened CodeLoops
  import opened CodeSim
  import opened CodeTheorem

  /** The blocks that branch to b. */
  ghost predicate PredsAre(p: Program, b: nat, s: set<nat>) {
    && (forall f | f in s :: f < |p.blocks|)
    && (forall f | 0 <= f < |p.blocks| :: Goes(p.blocks[f].term, b) <==> f in s)
  }

  /** The list names every predecessor of b, no other block, and none twice. */
  ghost predicate Matches(p: Program, b: nat, list: seq<Incoming>) {
    && PredsAre(p, b, set k | 0 <= k < |list| :: list[k].from)
    && (forall j, k | 0 <= j < k < |list| :: list[j].from != list[k].from)
  }

  ghost predicate PhiAt(p: Program, b: nat, i: nat) {
    b < |p.blocks| && i < |p.blocks[b].instrs| && p.blocks[b].instrs[i].Phi?
  }

  function PhiReg(p: Program, b: nat, i: nat): nat
    requires PhiAt(p, b, i)
  {
    p.blocks[b].instrs[i].dst
  }

  /** The graph while it grows: `cur` is the insertion block, w the blocks created but not yet started.
      A phi is the first instruction of its block, and no two blocks share one. */
  ghost predicate Shaped(p: Program, cur: nat, w: set<nat>) {
    && (forall k | 0 <= k < |p.blocks| :: p.blocks[k].term.Open? <==> k == cur || k in w)
    && (forall k | k in w :: k < |p.blocks| && p.blocks[k] == FreshBlock)
    && (forall k, b: nat | 0 <= k < |p.blocks| && Goes(p.blocks[k].term, b) :: b < |p.blocks|)
    && (forall b, i | PhiAt(p, b, i) :: PhiReg(p, b, i) in p.phis && Matches(p, b, p.phis[PhiReg(p, b, i)]))
    && (forall b, i | PhiAt(p, b, i) :: i == 0)
    && (forall b, i, b', i' | PhiAt(p, b, i) && PhiAt(p, b', i') && PhiReg(p, b, i) == PhiReg(p, b', i') :: b == b')
  }

  ghost predicate Good1(cg: CG, w: set<nat>) {
    cg.Valid() && cg.cur !in w && Shaped(cg.p, cg.cur, w)
  }

  /** The code added to the block a starts in has no phi, and that block is finished before
      generation moves on. */
  ghost predicate NoNewPhi(a: CG, b: CG) {
    && a.cur < |a.p.blocks| <= |b.p.blocks|
    && (b.cur != a.cur ==> !b.p.blocks[a.cur].term.Open?)
    && forall i | PhiAt(b.p, a.cur, i) :: PhiAt(a.p, a.cur, i) && PhiReg(a.p, a.cur, i) == PhiReg(b.p, a.cur, i)
  }

  // ---------------------------------------------------------------- steps of the generator

  lemma MatchesKept(p: Program, q: Program, b: nat, list: seq<Incoming>)
    requires Matches(p, b, list) && |p.blocks| <= |q.blocks|
    requires forall k | 0 <= k < |q.blocks| :: Goes(q.blocks[k].term, b) <==> k < |p.blocks| && Goes(p.blocks[k].term, b)
    ensures Matches(q, b, list)
  {
  }

  lemma ShapedEmit(a: CG, i: Instr, w: set<nat>)
    requires Good1(a, w) && !i.Phi?
    ensures Good1(a.Emit(i), w) && Good1(a.Define(i), w) && NoNewPhi(a, a.Emit(i)) && NoNewPhi(a, a.Define(i))
  {
    var g := a.Emit(i);
    forall b, j | PhiAt(g.p, b, j)
      ensures PhiAt(a.p, b, j) && PhiReg(a.p, b, j) == PhiReg(g.p, b, j)
      ensures PhiReg(g.p, b, j) in g.p.phis && Matches(g.p, b, g.p.phis[PhiReg(g.p, b, j)])
    {
      MatchesKept(a.p, g.p, b, a.p.phis[PhiReg(a.p, b, j)]);
    }
    assert Shaped(g.p, g.cur, w);
  }

  lemma ShapedCreate(a: CG, n: nat, w: set<nat>, more: set<nat>)
    requires Good1(a, w) && forall k :: k in more <==> |a.p.blocks| <= k < |a.p.blocks| + n
    ensures Good1(a.Create(n), w + more) && w !! more
    ensures forall b | |a.p.blocks| <= b < |a.p.blocks| + n :: PredsAre(a.Create(n).p, b, {})
  {
    var g := a.Create(n);
    forall b, j | PhiAt(g.p, b, j)
      ensures PhiAt(a.p, b, j) && PhiReg(a.p, b, j) == PhiReg(g.p, b, j)
      ensures PhiReg(g.p, b, j) in g.p.phis && Matches(g.p, b, g.p.phis[PhiReg(g.p, b, j)])
    {
      MatchesKept(a.p, g.p, b, a.p.phis[PhiReg(a.p, b, j)]);
    }
  }

  ghost predicate NoPhi(b: Block) {
    forall i | 0 <= i < |b.instrs| :: !b.instrs[i].Phi?
  }

  /** Ending the insertion block with a branch to blocks without phis. */
  lemma ShapedClose(a: CG, t: Terminator, at: nat, w: set<nat>)
    requires Good1(a, w) && at in w && !t.Open?
    requires forall b: nat | Goes(t, b) :: b < |a.p.blocks| && NoPhi(a.p.blocks[b])
    ensures Good1(a.CloseAt(t, at), w - {at})
    ensures NoNewPhi(a, a.CloseAt(t, at))
  {
    var g := a.CloseAt(t, at);
    forall b, j | PhiAt(g.p, b, j)
      ensures PhiAt(a.p, b, j) && PhiReg(a.p, b, j) == PhiReg(g.p, b, j)
      ensures PhiReg(g.p, b, j) in g.p.phis && Matches(g.p, b, g.p.phis[PhiReg(g.p, b, j)])
    {
      assert !Goes(t, b);
      MatchesKept(a.p, g.p, b, a.p.phis[PhiReg(a.p, b, j)]);
    }
  }

  lemma PredsClose(a: CG, t: Terminator, at: nat, b: nat, s: set<nat>)
    requires a.Valid() && PredsAre(a.p, b, s)
    ensures PredsAre(a.CloseAt(t, at).p, b, if Goes(t, b) then s + {a.cur} else s)
  {
  }

  /** Lowering something else leaves the predecessors of a block as they are. */
  lemma PredsGood(a: CG, b: CG, k: nat, s: set<nat>)
    requires Good(a, b) && k < |a.p.blocks| && PredsAre(a.p, k, s)
    ensures PredsAre(b.p, k, s)
  {
    forall f | 0 <= f < |b.p.blocks|
      ensures Goes(b.p.blocks[f].term, k) <==> f in s
    {
      if f < |a.p.blocks| && f != a.cur { assert b.p.blocks[f] == a.p.blocks[f]; }
    }
  }

  /** Every phi is the new one or an old one. */
  lemma PhiAdded(a: CG, list: seq<Incoming>, b: nat, j: nat)
    requires a.Valid() && a.p.blocks[a.cur].instrs == [] && PhiAt(a.DefinePhi(list).p, b, j)
    ensures var p := a.DefinePhi(list).p;
            if b == a.cur then j == 0 && PhiReg(p, b, j) == a.nextReg else PhiAt(a.p, b, j) && PhiReg(a.p, b, j) == PhiReg(p, b, j)
  {
  }

  /** A phi at the start of an otherwise empty block whose predecessors it lists. */
  lemma ShapedPhi(a: CG, list: seq<Incoming>, w: set<nat>)
    requires Good1(a, w) && Matches(a.p, a.cur, list) && a.p.blocks[a.cur].instrs == []
    ensures Good1(a.DefinePhi(list), w)
  {
    var g := a.DefinePhi(list);
    var r := a.nextReg;
    assert r !in a.p.phis;
    forall b, j | PhiAt(g.p, b, j)
      ensures PhiReg(g.p, b, j) in g.p.phis && Matches(g.p, b, g.p.phis[PhiReg(g.p, b, j)])
      ensures (b == a.cur && j == 0 && PhiReg(g.p, b, j) == r) || (PhiAt(a.p, b, j) && PhiReg(a.p, b, j) == PhiReg(g.p, b, j) != r)
    {
      PhiAdded(a, list, b, j);
      if PhiReg(g.p, b, j) == r {
        MatchesKept(a.p, g.p, b, list);
      } else {
        MatchesKept(a.p, g.p, b, a.p.phis[PhiReg(a.p, b, j)]);
      }
    }
  }

  lemma NoNewTrans(a: CG, b: CG, c: CG)
    requires Good(a, b) && Good(b, c) && NoNewPhi(a, b) && NoNewPhi(b, c)
    ensures NoNewPhi(a, c)
  {
    if b.cur != a.cur { assert c.p.blocks[a.cur] == b.p.blocks[a.cur]; }
    forall i | PhiAt(c.p, a.cur, i)
      ensures PhiAt(a.p, a.cur, i) && PhiReg(a.p, a.cur, i) == PhiReg(c.p, a.cur, i)
    {
      assert PhiAt(b.p, a.cur, i);
    }
  }

  /** Once the block a part ended in is closed, nothing is added to it. */
  lemma NoNewFrozen(a: CG, b: CG, n: nat, t: Terminator, at: nat, fin: CG)
    requires Good(a, b) && NoNewPhi(a, b) && Good(b, fin) && !t.Open?
    requires Within(b.Create(n).CloseAt(t, at).p, fin.p)
    ensures NoNewPhi(a, fin)
  {
    var c := b.Create(n).CloseAt(t, at);
    assert c.p.blocks[b.cur].instrs == b.p.blocks[b.cur].instrs;
    assert fin.p.blocks[b.cur].instrs == b.p.blocks[b.cur].instrs;
    if b.cur != a.cur { assert fin.p.blocks[a.cur] == b.p.blocks[a.cur]; }
    forall i | PhiAt(fin.p, a.cur, i)
      ensures PhiAt(a.p, a.cur, i) && PhiReg(a.p, a.cur, i) == PhiReg(fin.p, a.cur, i)
    {
      assert PhiAt(b.p, a.cur, i);
    }
  }

  // ---------------------------------------------------------------- no phi in the block one starts in

  lemma {:induction false} StartPlain(e: Expr, ref: bool, cg: CG)
    requires cg.Valid()
    ensures NoNewPhi(cg, Compile(e, ref, cg).cg)
    decreases e, 3
  {
    hide *;
    if IsControl(e) {
      StartControl(e, ref, cg);
    } else {
      StartSimple(e, ref, cg);
    }
  }

  lemma NoNewEmit(base: CG, a: CG, i: Instr)
    requires Good(base, a) && NoNewPhi(base, a) && !i.Phi?
    ensures NoNewPhi(base, a.Emit(i)) && NoNewPhi(base, a.Define(i)) && Good(base, a.Emit(i)) && Good(base, a.Define(i))
  {
    GoodEmit(base, a, i);
    var g := a.Emit(i);
    forall j | PhiAt(g.p, base.cur, j)
      ensures PhiAt(base.p, base.cur, j) && PhiReg(base.p, base.cur, j) == PhiReg(g.p, base.cur, j)
    {
      assert PhiAt(a.p, base.cur, j);
    }
  }

  lemma NoNewRefl(a: CG)
    requires a.Valid()
    ensures Good(a, a) && NoNewPhi(a, a)
  {
  }

  lemma {:induction false} StartSimple(e: Expr, ref: bool, cg: CG)
    requires cg.Valid() && !IsControl(e)
    ensures NoNewPhi(cg, Compile(e, ref, cg).cg)
    decreases e, 2
  {
    hide Ext, CG.Update, CG.Emit, CG.Define, NoNewPhi, CompileBody, CompileCall, CompileIndex, CompileAssign, CG.Valid, Good;
    NoNewRefl(cg);
    match e
    case Var(x) => if x in cg.vars { NoNewEmit(cg, cg, Load(cg.nextReg, cg.vars[x])); }
    case NotE(e1) =>
      StartPart(e1, false, e, cg);
      var g := Compile(e1, false, cg);
      NoNewEmit(cg, g.cg, Pure(g.cg.nextReg, Not, g.op, g.op));
    case Deref(e1) =>
      StartPart(e1, false, e, cg);
      var g := Compile(e1, false, cg);
      NoNewEmit(cg, g.cg, Load(g.cg.nextReg, g.op));
    case New(e1) =>
      StartPart(e1, false, e, cg);
      var g := Compile(e1, false, cg);
      var r := g.cg.nextReg;
      NoNewEmit(cg, g.cg, NewCell(r));
      NoNewEmit(cg, g.cg.Define(NewCell(r)), Store(g.op, Reg(r)));
    case VarDecl(x, e1) =>
      StartPart(e1, false, e, cg);
      var g := Compile(e1, false, cg);
      NoNewEmit(cg, g.cg, Store(g.op, Const(VPtr(Local(x)))));
      NoNewBind(cg, g.cg.Emit(Store(g.op, Const(VPtr(Local(x))))), x, Const(VPtr(Local(x))));
    case Assign(l, r) => StartAssign(l, r, cg);
    case BlockE(es) => StartBody(es, VoidOp, cg);
    case CallE(f, args, isVoid) => StartCall(f, args, isVoid, cg);
    case Index(a, i) => StartIndex(a, i, ref, cg);
    case _ =>
  }

  lemma NoNewBind(base: CG, a: CG, x: Variable, op: Operand)
    requires NoNewPhi(base, a)
    ensures NoNewPhi(base, a.Bind(x, op))
  {
    assert a.Bind(x, op).p == a.p;
  }

  lemma {:induction false} StartPart(e: Expr, ref: bool, whole: Expr, cg: CG)
    requires cg.Valid() && e < whole
    ensures var g := Compile(e, ref, cg);
            NoNewPhi(cg, g.cg) && Good(cg, g.cg) && g.cg.Valid()
    decreases whole, 0
  {
    hide *;
    StartPlain(e, ref, cg);
    FrameOf(e, ref, cg);
    GenGood(cg, Compile(e, ref, cg));
  }

  lemma {:induction false} StartAssign(l: Expr, r: Expr, cg: CG)
    requires cg.Valid()
    ensures NoNewPhi(cg, CompileAssign(l, r, cg).cg)
    decreases Assign(l, r), 1
  {
    hide *;
    StartPart(l, true, Assign(l, r), cg);
    var g := Compile(l, true, cg);
    StartPart(r, false, Assign(l, r), g.cg);
    var g' := Compile(r, false, g.cg);
    NoNewTrans(cg, g.cg, g'.cg);
    GoodTrans(cg, g.cg, g'.cg);
    NoNewEmit(cg, g'.cg, Store(g'.op, g.op));
    AssignIs(l, r, cg);
  }

  lemma {:induction false} StartBody(es: Exprs, last: Operand, cg: CG)
    requires cg.Valid() && Below(last, cg.nextReg)
    ensures NoNewPhi(cg, CompileBody(es, last, cg).cg)
    decreases es, 0
  {
    hide Compile, Ext, CG.Update, CG.Emit, CG.Define, CG.CloseAt, CG.Create, CG.DefinePhi, Shaped, PredsAre, Matches, PlainFors, NoNewPhi;
    match es
    case Nil => NoNewRefl(cg);
    case Cons(e, rest) =>
      StartPlain(e, false, cg);
      FrameOf(e, false, cg);
      var g := Compile(e, false, cg);
      StartBody(rest, g.op, g.cg);
      FrameBody(rest, g.op, g.cg);
      NoNewTrans(cg, g.cg, CompileBody(rest, g.op, g.cg).cg);
  }

  lemma {:induction false} StartArgs(es: Exprs, cg: CG)
    requires cg.Valid()
    ensures NoNewPhi(cg, CompileArgs(es, cg).cg)
    decreases es, 0
  {
    hide Compile, Ext, CG.Update, CG.Emit, CG.Define, CG.CloseAt, CG.Create, CG.DefinePhi, Shaped, PredsAre, Matches, PlainFors, NoNewPhi;
    match es
    case Nil => NoNewRefl(cg);
    case Cons(e, rest) =>
      StartPlain(e, false, cg);
      FrameOf(e, false, cg);
      var g := Compile(e, false, cg);
      StartArgs(rest, g.cg);
      FrameArgs(rest, g.cg);
      NoNewTrans(cg, g.cg, CompileArgs(rest, g.cg).cg);
  }

  lemma {:induction false} StartCall(f: Expr, args: Exprs, isVoid: bool, cg: CG)
    requires cg.Valid()
    ensures NoNewPhi(cg, CompileCall(f, args, isVoid, cg).cg)
    decreases CallE(f, args, isVoid), 1
  {
    hide Compile, Ext, CG.Update, CG.Emit, CG.Define, CG.CloseAt, CG.Create, CG.DefinePhi, Shaped, PredsAre, Matches, PlainFors, NoNewPhi, CompileArgs;
    StartPlain(f, false, cg);
    FrameOf(f, false, cg);
    var g := Compile(f, false, cg);
    StartArgs(args, g.cg);
    FrameArgs(args, g.cg);
    var a := CompileArgs(args, g.cg);
    NoNewTrans(cg, g.cg, a.cg);
    GoodTrans(cg, g.cg, a.cg);
    NoNewEmit(cg, a.cg, Invoke(a.cg.nextReg, g.op, a.ops));
  }

  lemma NoNewTest(arr: Operand, ix: Operand, cg: CG)
    requires cg.Valid()
    ensures NoNewPhi(cg, IndexTest(arr, ix, cg))
  {
    hide Compile, Ext, CG.Update, CG.Emit, CG.Define, CG.CloseAt, CG.Create, CG.DefinePhi, Shaped, PredsAre, Matches, PlainFors, NoNewPhi;
    var r := cg.nextReg;
    NoNewRefl(cg);
    NoNewEmit(cg, cg, Pure(r, ExtractPtr, arr, arr));
    var g1 := cg.Compute(ExtractPtr, arr, arr);
    NoNewEmit(cg, g1, Pure(r + 1, ExtractSize, arr, arr));
    NoNewEmit(cg, g1.Compute(ExtractSize, arr, arr), Pure(r + 2, CmpUGE, ix, Reg(r + 1)));
  }

  lemma WithinTrapIf(cond: Operand, cg: CG, q: Program)
    requires cg.Valid() && Within(TrapIf(cond, cg).p, q)
    ensures var t := |cg.p.blocks|; Within(cg.Create(2).CloseAt(CondBr(cond, t, t + 1), t).p, q)
  {
    hide Within, Ext, CG.Emit, CG.Update, CG.CloseAt, CG.Create;
    var t := |cg.p.blocks|;
    GoodBranch(cg, 2, CondBr(cond, t, t + 1));
    var g := cg.Create(2).CloseAt(CondBr(cond, t, t + 1), t);
    GoodEmit(cg, g, TrapNow);
    WithinClose(g.Emit(TrapNow), Unreachable, t + 1, q);
    WithinEmit(g, TrapNow, q);
  }

  lemma {:induction false} StartIndex(a: Expr, i: Expr, ref: bool, cg: CG)
    requires cg.Valid()
    ensures NoNewPhi(cg, CompileIndex(a, i, ref, cg).cg)
    decreases Index(a, i), 1
  {
    hide *;
    var g := Compile(a, false, cg);
    StartPlain(a, false, cg);
    FrameOf(a, false, cg);
    GenGood(cg, g);
    var g' := Compile(i, false, g.cg);
    StartPlain(i, false, g.cg);
    FrameOf(i, false, g.cg);
    GenGood(g.cg, g');
    NoNewTrans(cg, g.cg, g'.cg);
    GoodTrans(cg, g.cg, g'.cg);
    StartIndexRest(g.op, g'.op, ref, g'.cg);
    FrameIndexRest(g.op, g'.op, ref, g'.cg);
    GenGood(g'.cg, IndexRest(g.op, g'.op, ref, g'.cg));
    NoNewTrans(cg, g'.cg, IndexRest(g.op, g'.op, ref, g'.cg).cg);
    IndexIs(a, i, ref, cg);
  }

  lemma StartIndexRest(arr: Operand, ix: Operand, ref: bool, cg: CG)
    requires cg.Valid()
    ensures NoNewPhi(cg, IndexRest(arr, ix, ref, cg).cg)
  {
    hide Good, CG.Valid, Ext, CG.Update, CG.Emit, CG.Define, CG.CloseAt, CG.Create, CG.DefinePhi, Shaped, PredsAre, Matches, NoNewPhi, IndexTest, TrapIf, Within;
    var t := IndexTest(arr, ix, cg);
    FrameIndexTest(arr, ix, cg);
    GoodEnds(cg, t);
    NoNewTest(arr, ix, cg);
    var cond := Reg(cg.nextReg + 2);
    FrameTrapIf(cond, t);
    var u := TrapIf(cond, t);
    WithinSelf(u.p);
    WithinTrapIf(cond, t, u.p);
    var b := |t.p.blocks|;
    NoNewFrozen(cg, t, 2, CondBr(cond, b, b + 1), b, u);
    var r := cg.nextReg;
    GoodTrans(cg, t, u);
    NoNewEmit(cg, u, Pure(r + 3, Gep, Reg(r), ix));
    NoNewEmit(cg, u.Compute(Gep, Reg(r), ix), Load(r + 4, Reg(r + 3)));
  }

  lemma {:induction false} StartControl(e: Expr, ref: bool, cg: CG)
    requires cg.Valid() && IsControl(e)
    ensures NoNewPhi(cg, Compile(e, ref, cg).cg)
    decreases e, 2
  {
    hide Ext, NoNewPhi, CG.Valid, CompileAndOr, CompileIf, CompileIfThen, CompileFor, CompileWhile, StepsOfAndOr, StepsOfIf, StepsOfIfThen, StepsOfFor, StepsOfWhile;
    match e
    case And(l, r) => StartAndOr(e, l, r, true, cg);
    case Or(l, r) => StartAndOr(e, l, r, false, cg);
    case If(c, t, e1) => StartIf(c, t, e1, cg);
    case IfThen(c, t) => StartIfThen(c, t, cg);
    case For(x, ix, a, body) => StartFor(x, ix, a, body, cg);
    case While(c, body) => StartWhile(c, body, cg);
  }

  lemma {:induction false} StartAndOr(whole: Expr, l: Expr, r: Expr, isAnd: bool, cg: CG)
    requires cg.Valid() && (whole == And(l, r) || whole == Or(l, r))
    ensures NoNewPhi(cg, CompileAndOr(l, r, isAnd, cg).cg)
    decreases whole, 1
  {
    hide Compile, Ext, CG.Update, CG.Emit, CG.Define, CG.CloseAt, CG.Create, CG.DefinePhi, Shaped, PredsAre, Matches, PlainFors, NoNewPhi, Within;
    var s := StepsOfAndOr(l, r, isAnd, cg);
    var t := |s.left.cg.p.blocks|;
    var list := [Incoming(s.right.op, s.right.cg.cur), Incoming(s.left.op, s.left.cg.cur)];
    var fin := s.g2.DefinePhi(list);
    FrameAndOr(l, r, isAnd, cg);
    StartPlain(l, false, cg);
    WithinSelf(fin.p);
    WithinShort(s, isAnd, list, fin.p, cg);
    ShortEnd(s, isAnd, list, cg);
    NoNewFrozen(cg, s.left.cg, 2, ShortBranch(isAnd, s.left.op, t), t, fin);
  }

  /** The end of `and`/`or` seen from the end of its left side. */
  lemma ShortEnd(s: ShortSteps, isAnd: bool, list: seq<Incoming>, cg: CG)
    requires ShortOk(s, cg) && |list| <= 2
    requires var t := |s.left.cg.p.blocks|;
             && s.g1 == s.left.cg.Create(2).CloseAt(ShortBranch(isAnd, s.left.op, t), t)
             && s.g2 == s.right.cg.CloseAt(Br(t + 1), t + 1)
    ensures Good(s.left.cg, s.g2) && Good(s.left.cg, s.g2.DefinePhi(list))
  {
    hide Ext, CG.Update, CG.Emit, CG.Define, CG.CloseAt, CG.Create, CG.DefinePhi;
    var t := |s.left.cg.p.blocks|;
    GoodBranch(s.left.cg, 2, ShortBranch(isAnd, s.left.op, t));
    GoodArm(s.left.cg, s.g1, s.right.cg, Br(t + 1), t + 1);
    GoodPhi(s.left.cg, s.g2, list);
  }

  lemma IfEnd(s: IfSteps, cg: CG)
    requires IfOk(s, cg)
    requires var k := |s.cond.cg.p.blocks|;
             && s.g1 == s.cond.cg.Create(3).CloseAt(CondBr(s.cond.op, k, k + 1), k)
             && s.g2 == s.yes.cg.CloseAt(Br(k + 2), k + 1)
             && s.g3 == s.no.cg.CloseAt(Br(k + 2), k + 2)
    ensures Good(s.cond.cg, s.g3)
    ensures Good(s.cond.cg, JoinIf(Incoming(s.yes.op, s.yes.cg.cur), Incoming(s.no.op, s.no.cg.cur), s.g3).cg)
  {
    hide Ext, CG.Update, CG.Emit, CG.Define, CG.CloseAt, CG.Create, CG.DefinePhi;
    var k := |s.cond.cg.p.blocks|;
    GoodBranch(s.cond.cg, 3, CondBr(s.cond.op, k, k + 1));
    GoodWait(s.cond.cg, s.g1, s.yes.cg, k + 2);
    GoodArm(s.cond.cg, s.g1, s.yes.cg, Br(k + 2), k + 1);
    GoodArm(s.cond.cg, s.g2, s.no.cg, Br(k + 2), k + 2);
    GoodPhi(s.cond.cg, s.g3, [Incoming(s.yes.op, s.yes.cg.cur), Incoming(s.no.op, s.no.cg.cur)]);
  }

  lemma {:induction false} StartIf(c: Expr, t: Expr, e: Expr, cg: CG)
    requires cg.Valid()
    ensures NoNewPhi(cg, CompileIf(c, t, e, cg).cg)
    decreases If(c, t, e), 1
  {
    hide Compile, Ext, CG.Update, CG.Emit, CG.Define, CG.CloseAt, CG.Create, CG.DefinePhi, Shaped, PredsAre, Matches, PlainFors, NoNewPhi, Within;
    var s := StepsOfIf(c, t, e, cg);
    var k := |s.cond.cg.p.blocks|;
    var fin := CompileIf(c, t, e, cg).cg;
    FrameIf(c, t, e, cg);
    StartPlain(c, false, cg);
    WithinSelf(fin.p);
    WithinIf(s, fin.p, cg);
    IfEnd(s, cg);
    NoNewFrozen(cg, s.cond.cg, 3, CondBr(s.cond.op, k, k + 1), k, fin);
  }

  lemma {:induction false} StartIfThen(c: Expr, t: Expr, cg: CG)
    requires cg.Valid()
    ensures NoNewPhi(cg, CompileIfThen(c, t, cg).cg)
    decreases IfThen(c, t), 1
  {
    hide Compile, Ext, CG.Update, CG.Emit, CG.Define, CG.CloseAt, CG.Create, CG.DefinePhi, Shaped, PredsAre, Matches, PlainFors, NoNewPhi, Within;
    var s := StepsOfIfThen(c, t, cg);
    var k := |s.cond.cg.p.blocks|;
    FrameIfThen(c, t, cg);
    StartPlain(c, false, cg);
    WithinSelf(s.end.p);
    WithinClose(s.yes.cg, Br(k + 1), k + 1, s.end.p);
    WithinGood(s.g1, s.yes.cg, s.end.p);
    GoodBranch(s.cond.cg, 2, CondBr(s.cond.op, k, k + 1));
    GoodArm(s.cond.cg, s.g1, s.yes.cg, Br(k + 1), k + 1);
    NoNewFrozen(cg, s.cond.cg, 2, CondBr(s.cond.op, k, k + 1), k, s.end);
  }

  lemma {:induction false} StartWhile(c: Expr, body: Expr, cg: CG)
    requires cg.Valid()
    ensures NoNewPhi(cg, CompileWhile(c, body, cg).cg)
    decreases While(c, body), 1
  {
    hide Compile, Ext, CG.Update, CG.Emit, CG.Define, CG.CloseAt, CG.Create, CG.DefinePhi, Shaped, PredsAre, Matches, PlainFors, NoNewPhi, Within;
    var s := StepsOfWhile(c, body, cg);
    var k := |cg.p.blocks|;
    FrameWhile(c, body, cg);
    WithinSelf(s.end.p);
    WithinWhile(s, s.end.p, cg);
    NoNewRefl(cg);
    NoNewFrozen(cg, cg, 3, Br(k), k, s.end);
  }

  lemma {:induction false} StartFor(x: Variable, ix: Option<Variable>, a: Expr, body: Expr, cg: CG)
    requires cg.Valid()
    ensures NoNewPhi(cg, CompileFor(x, ix, a, body, cg).cg)
    decreases For(x, ix, a, body), 1
  {
    hide Compile, Ext, CG.Update, CG.Emit, CG.Define, CG.CloseAt, CG.Create, CG.DefinePhi, Shaped, PredsAre, Matches, PlainFors, NoNewPhi, Within, ForTest, ForBind, ForNext;
    var s := StepsOfFor(x, ix, a, body, cg);
    var loop := |cg.p.blocks|;
    FrameFor(x, ix, a, body, cg);
    StartPlain(a, false, s.g0);
    WithinSelf(s.end.p);
    WithinFor(s, x, ix, s.end.p, cg);
    NoNewCreate(cg, 2, s.arr.cg);
    NoNewForTest(s.arr.op, loop, s.arr.cg, cg, s.end);
  }

  lemma NoNewCreate(a: CG, n: nat, b: CG)
    requires a.Valid() && NoNewPhi(a.Create(n), b)
    ensures NoNewPhi(a, b)
  {
    forall i | PhiAt(b.p, a.cur, i)
      ensures PhiAt(a.p, a.cur, i) && PhiReg(a.p, a.cur, i) == PhiReg(b.p, a.cur, i)
    {
      assert PhiAt(a.Create(n).p, a.cur, i);
    }
  }

  lemma NoNewForTest(arr: Operand, loop: nat, a: CG, cg: CG, fin: CG)
    requires Good(cg, a) && NoNewPhi(cg, a) && Good(cg, fin) && Within(ForTest(arr, loop, a).p, fin.p)
    ensures NoNewPhi(cg, fin)
  {
    var r := a.nextReg;
    var g1 := a.Compute(ExtractSize, arr, arr);
    var g2 := g1.Compute(CmpSGT, Reg(r), Const(VInt(0)));
    NoNewEmit(cg, a, Pure(r, ExtractSize, arr, arr));
    NoNewEmit(cg, g1, Pure(r + 1, CmpSGT, Reg(r), Const(VInt(0))));
    var g3 := ForTest(arr, loop, a);
    assert !g3.p.blocks[cg.cur].term.Open? && g3.p.blocks[cg.cur].instrs == g2.p.blocks[cg.cur].instrs;
    assert fin.p.blocks[cg.cur] == g3.p.blocks[cg.cur];
    forall i | PhiAt(fin.p, cg.cur, i)
      ensures PhiAt(cg.p, cg.cur, i) && PhiReg(cg.p, cg.cur, i) == PhiReg(fin.p, cg.cur, i)
    {
      assert PhiAt(g2.p, cg.cur, i);
    }
  }

  // ---------------------------------------------------------------- every construct keeps the shape

  /** Ending the insertion block with a branch to some of n new blocks and starting on the first of them. */
  lemma ShapedBranch(a: CG, n: nat, t: Terminator, w: set<nat>, rest: set<nat>)
    requires Good1(a, w) && n > 0 && !t.Open?
    requires forall b: nat | Goes(t, b) :: |a.p.blocks| <= b < |a.p.blocks| + n
    requires forall k :: k in rest <==> |a.p.blocks| < k < |a.p.blocks| + n
    ensures var g := a.Create(n).CloseAt(t, |a.p.blocks|);
            && Good1(g, w + rest) && w !! rest
            && forall b | |a.p.blocks| <= b < |a.p.blocks| + n :: PredsAre(g.p, b, if Goes(t, b) then {a.cur} else {})
  {
    hide CG.CloseAt, Shaped;
    var k := |a.p.blocks|;
    ShapedCreate(a, n, w, rest + {k});
    assert w + (rest + {k}) - {k} == w + rest;
    ShapedClose(a.Create(n), t, k, w + (rest + {k}));
    forall b: nat | |a.p.blocks| <= b < |a.p.blocks| + n
      ensures PredsAre(a.Create(n).CloseAt(t, k).p, b, if Goes(t, b) then {a.cur} else {})
    {
      PredsClose(a.Create(n), t, k, b, {});
      assert {} + {a.cur} == {a.cur};
    }
  }

  /** A waiting block is empty. */
  lemma Waits(a: CG, w: set<nat>)
    requires Good1(a, w)
    ensures a.Valid() && a.cur !in w
    ensures forall k | k in w :: k < |a.p.blocks| && a.p.blocks[k] == FreshBlock && NoPhi(a.p.blocks[k])
    ensures forall i | PhiAt(a.p, a.cur, i) :: PhiReg(a.p, a.cur, i) in a.p.phis
  {
  }

  /** The end of an arm: a branch to waiting blocks. */
  lemma ShapedArm(a: CG, t: Terminator, at: nat, w: set<nat>, rest: set<nat>)
    requires Good1(a, w) && at in w && !t.Open? && rest == w - {at}
    requires forall b: nat | Goes(t, b) :: b in w
    ensures Good1(a.CloseAt(t, at), rest)
  {
    hide Shaped, CG.CloseAt;
    Waits(a, w);
    ShapedClose(a, t, at, w);
  }

  lemma {:induction false} ShapeOf(e: Expr, ref: bool, cg: CG, w: set<nat>)
    requires Good1(cg, w) && PlainFors(e)
    ensures Good1(Compile(e, ref, cg).cg, w)
    decreases e, 3
  {
    hide *;
    if IsControl(e) {
      ShapeControl(e, ref, cg, w);
    } else {
      ShapeSimple(e, ref, cg, w);
    }
  }

  lemma {:induction false} ShapeControl(e: Expr, ref: bool, cg: CG, w: set<nat>)
    requires Good1(cg, w) && PlainFors(e) && IsControl(e)
    ensures Good1(Compile(e, ref, cg).cg, w)
    decreases e, 2
  {
    hide Good1, Opens, CompileAndOr, CompileIf, CompileIfThen, CompileFor, CompileWhile;
    match e
    case And(l, r) => ShapeAndOr(e, l, r, true, cg, w);
    case Or(l, r) => ShapeAndOr(e, l, r, false, cg, w);
    case If(c, t, e1) => ShapeIf(c, t, e1, cg, w);
    case IfThen(c, t) => ShapeIfThen(c, t, cg, w);
    case For(x, ix, a, body) => ShapeFor(x, ix, a, body, cg, w);
    case While(c, body) => ShapeWhile(c, body, cg, w);
  }

  lemma {:induction false} ShapeSimple(e: Expr, ref: bool, cg: CG, w: set<nat>)
    requires Good1(cg, w) && PlainFors(e) && !IsControl(e)
    ensures Good1(Compile(e, ref, cg).cg, w)
    decreases e, 2
  {
    hide Good1, Opens, CompileBody, CompileCall, CompileIndex, CG.Emit, CG.Define;
    match e
    case Var(x) => if x in cg.vars { ShapedEmit(cg, Load(cg.nextReg, cg.vars[x]), w); }
    case NotE(e1) =>
      ShapeOf(e1, false, cg, w);
      var g := Compile(e1, false, cg);
      ShapedEmit(g.cg, Pure(g.cg.nextReg, Not, g.op, g.op), w);
    case Deref(e1) =>
      ShapeOf(e1, false, cg, w);
      var g := Compile(e1, false, cg);
      ShapedEmit(g.cg, Load(g.cg.nextReg, g.op), w);
    case New(e1) =>
      ShapeOf(e1, false, cg, w);
      var g := Compile(e1, false, cg);
      var r := g.cg.nextReg;
      ShapedEmit(g.cg, NewCell(r), w);
      ShapedEmit(g.cg.Define(NewCell(r)), Store(g.op, Reg(r)), w);
    case VarDecl(x, e1) =>
      ShapeOf(e1, false, cg, w);
      var g := Compile(e1, false, cg);
      var slot := Const(VPtr(Local(x)));
      ShapedEmit(g.cg, Store(g.op, slot), w);
      ShapedBind(g.cg.Emit(Store(g.op, slot)), x, slot, w);
    case Assign(l, r) =>
      ShapeOf(l, true, cg, w);
      var left := Compile(l, true, cg);
      ShapeOf(r, false, left.cg, w);
      var right := Compile(r, false, left.cg);
      ShapedEmit(right.cg, Store(right.op, left.op), w);
    case BlockE(es) => ShapeBody(es, VoidOp, cg, w);
    case CallE(f, args, isVoid) =>
      ShapeOf(f, false, cg, w);
      var g := Compile(f, false, cg);
      ShapeArgs(args, g.cg, w);
      ShapeCallEnd(f, args, isVoid, cg, w);
    case Index(a, i) => ShapeIndex(a, i, ref, cg, w);
    case _ =>
  }

  lemma ShapedBind(a: CG, x: Variable, op: Operand, w: set<nat>)
    requires Good1(a, w) && Below(op, a.nextReg)
    ensures Good1(a.Bind(x, op), w)
  {
    assert a.Bind(x, op).p == a.p;
  }

  lemma ShapeCallEnd(f: Expr, args: Exprs, isVoid: bool, cg: CG, w: set<nat>)
    requires Good1(CompileArgs(args, Compile(f, false, cg).cg).cg, w)
    ensures Good1(CompileCall(f, args, isVoid, cg).cg, w)
  {
    hide Good1, Compile, CompileArgs, CG.Define;
    var g := Compile(f, false, cg);
    var a := CompileArgs(args, g.cg);
    ShapedEmit(a.cg, Invoke(a.cg.nextReg, g.op, a.ops), w);
  }

  lemma {:induction false} ShapeBody(es: Exprs, last: Operand, cg: CG, w: set<nat>)
    requires Good1(cg, w) && PlainForsAll(es)
    ensures Good1(CompileBody(es, last, cg).cg, w)
    decreases es, 0
  {
    hide Good1, Compile;
    match es
    case Nil =>
    case Cons(e, rest) =>
      ShapeOf(e, false, cg, w);
      var g := Compile(e, false, cg);
      ShapeBody(rest, g.op, g.cg, w);
  }

  lemma {:induction false} ShapeArgs(es: Exprs, cg: CG, w: set<nat>)
    requires Good1(cg, w) && PlainForsAll(es)
    ensures Good1(CompileArgs(es, cg).cg, w)
    decreases es, 0
  {
    hide Good1, Compile;
    match es
    case Nil =>
    case Cons(e, rest) =>
      ShapeOf(e, false, cg, w);
      ShapeArgs(rest, Compile(e, false, cg).cg, w);
  }

  lemma ShapeTrapIf(cond: Operand, cg: CG, w: set<nat>)
    requires Good1(cg, w)
    ensures Good1(TrapIf(cond, cg), w)
  {
    hide Shaped, Good1, CG.Emit, CG.CloseAt, CG.Create;
    var t := |cg.p.blocks|;
    ShapedBranch(cg, 2, CondBr(cond, t, t + 1), w, {t + 1});
    var g := cg.Create(2).CloseAt(CondBr(cond, t, t + 1), t);
    ShapedEmit(g, TrapNow, w + {t + 1});
    ShapedArm(g.Emit(TrapNow), Unreachable, t + 1, w + {t + 1}, w);
  }

  lemma ShapeIndexRest(arr: Operand, ix: Operand, ref: bool, cg: CG, w: set<nat>)
    requires Good1(cg, w)
    ensures Good1(IndexRest(arr, ix, ref, cg).cg, w)
  {
    hide Good1, TrapIf, CG.Emit, CG.Define;
    var r := cg.nextReg;
    ShapedEmit(cg, Pure(r, ExtractPtr, arr, arr), w);
    var g1 := cg.Compute(ExtractPtr, arr, arr);
    ShapedEmit(g1, Pure(r + 1, ExtractSize, arr, arr), w);
    var g2 := g1.Compute(ExtractSize, arr, arr);
    ShapedEmit(g2, Pure(r + 2, CmpUGE, ix, Reg(r + 1)), w);
    var g3 := IndexTest(arr, ix, cg);
    ShapeTrapIf(Reg(r + 2), g3, w);
    var g4 := TrapIf(Reg(r + 2), g3);
    ShapedEmit(g4, Pure(g4.nextReg, Gep, Reg(r), ix), w);
    ShapedEmit(g4.Compute(Gep, Reg(r), ix), Load(r + 4, Reg(r + 3)), w);
  }

  lemma {:induction false} ShapeIndex(a: Expr, i: Expr, ref: bool, cg: CG, w: set<nat>)
    requires Good1(cg, w) && PlainFors(a) && PlainFors(i)
    ensures Good1(CompileIndex(a, i, ref, cg).cg, w)
    decreases Index(a, i), 1
  {
    hide *;
    ShapeOf(a, false, cg, w);
    var arr := Compile(a, false, cg);
    ShapeOf(i, false, arr.cg, w);
    var ix := Compile(i, false, arr.cg);
    ShapeIndexRest(arr.op, ix.op, ref, ix.cg, w);
    assert CompileIndex(a, i, ref, cg) == IndexRest(arr.op, ix.op, ref, ix.cg) by { IndexIs(a, i, ref, cg); }
  }

  /** A phi with two incoming edges at a block with these two predecessors. */
  lemma ShapedJoin(a: CG, i1: Incoming, i2: Incoming, w: set<nat>)
    requires Good1(a, w) && PredsAre(a.p, a.cur, {i1.from, i2.from}) && i1.from != i2.from
    requires a.p.blocks[a.cur].instrs == []
    ensures Good1(a.DefinePhi([i1, i2]), w)
  {
    hide PredsAre, Good1, CG.DefinePhi;
    var list := [i1, i2];
    assert (set k | 0 <= k < |list| :: list[k].from) == {i1.from, i2.from} by {
      assert list[0] == i1 && list[1] == i2;
    }
    ShapedPhi(a, list, w);
  }

  lemma {:induction false} ShapeAndOr(whole: Expr, l: Expr, r: Expr, isAnd: bool, cg: CG, w: set<nat>)
    requires Good1(cg, w) && PlainFors(l) && PlainFors(r) && (whole == And(l, r) || whole == Or(l, r))
    ensures Good1(CompileAndOr(l, r, isAnd, cg).cg, w)
    decreases whole, 1
  {
    hide Good1, Compile, Shaped, PredsAre, CG.CloseAt, CG.Create, CG.DefinePhi, PlainFors, Ext;
    var s := StepsOfAndOr(l, r, isAnd, cg);
    var t := |s.left.cg.p.blocks|;
    Waits(cg, w);
    FrameAndOr(l, r, isAnd, cg);
    ShapeOf(l, false, cg, w);
    ShapedBranch(s.left.cg, 2, ShortBranch(isAnd, s.left.op, t), w, {t + 1});
    ShapeOf(r, false, s.g1, w + {t + 1});
    assert PredsAre(s.g1.p, t + 1, if Goes(ShortBranch(isAnd, s.left.op, t), t + 1) then {s.left.cg.cur} else {});
    PredsGood(s.g1, s.right.cg, t + 1, {s.left.cg.cur});
    ShapedArm(s.right.cg, Br(t + 1), t + 1, w + {t + 1}, w);
    PredsClose(s.right.cg, Br(t + 1), t + 1, t + 1, {s.left.cg.cur});
    assert {s.left.cg.cur} + {s.right.cg.cur} == {s.right.cg.cur, s.left.cg.cur};
    ShapedJoin(s.g2, Incoming(s.right.op, s.right.cg.cur), Incoming(s.left.op, s.left.cg.cur), w);
  }

  lemma {:induction false} ShapeIf(c: Expr, t: Expr, e: Expr, cg: CG, w: set<nat>)
    requires Good1(cg, w) && PlainFors(c) && PlainFors(t) && PlainFors(e)
    ensures Good1(CompileIf(c, t, e, cg).cg, w)
    decreases If(c, t, e), 1
  {
    hide Good1, Compile, Shaped, PredsAre, CG.CloseAt, CG.Create, CG.DefinePhi, PlainFors, Ext;
    var s := StepsOfIf(c, t, e, cg);
    var k := |s.cond.cg.p.blocks|;
    Waits(cg, w);
    FrameIf(c, t, e, cg);
    ShapeOf(c, false, cg, w);
    ShapedBranch(s.cond.cg, 3, CondBr(s.cond.op, k, k + 1), w, {k + 1, k + 2});
    ShapeOf(t, false, s.g1, w + {k + 1, k + 2});
    assert PredsAre(s.g1.p, k + 2, if Goes(CondBr(s.cond.op, k, k + 1), k + 2) then {s.cond.cg.cur} else {});
    PredsGood(s.g1, s.yes.cg, k + 2, {});
    ShapedArm(s.yes.cg, Br(k + 2), k + 1, w + {k + 1, k + 2}, w + {k + 2});
    PredsClose(s.yes.cg, Br(k + 2), k + 1, k + 2, {});
    ShapeOf(e, false, s.g2, w + {k + 2});
    Waits(s.g2, w + {k + 2});
    PredsGood(s.g2, s.no.cg, k + 2, {} + {s.yes.cg.cur});
    ShapedArm(s.no.cg, Br(k + 2), k + 2, w + {k + 2}, w);
    PredsClose(s.no.cg, Br(k + 2), k + 2, k + 2, {} + {s.yes.cg.cur});
    assert {} + {s.yes.cg.cur} + {s.no.cg.cur} == {s.yes.cg.cur, s.no.cg.cur};
    ShapedJoin(s.g3, Incoming(s.yes.op, s.yes.cg.cur), Incoming(s.no.op, s.no.cg.cur), w);
  }

  lemma {:induction false} ShapeIfThen(c: Expr, t: Expr, cg: CG, w: set<nat>)
    requires Good1(cg, w) && PlainFors(c) && PlainFors(t)
    ensures Good1(CompileIfThen(c, t, cg).cg, w)
    decreases IfThen(c, t), 1
  {
    hide Good1, Compile, Shaped, PredsAre, CG.CloseAt, CG.Create, CG.DefinePhi, PlainFors, Ext;
    var s := StepsOfIfThen(c, t, cg);
    var k := |s.cond.cg.p.blocks|;
    Waits(cg, w);
    FrameIfThen(c, t, cg);
    ShapeOf(c, false, cg, w);
    ShapedBranch(s.cond.cg, 2, CondBr(s.cond.op, k, k + 1), w, {k + 1});
    ShapeOf(t, false, s.g1, w + {k + 1});
    ShapedArm(s.yes.cg, Br(k + 1), k + 1, w + {k + 1}, w);
  }

  /** Nothing that happens between the start of block k and the end of the code that starts there
      puts a phi into it. */
  lemma NoPhiSince(a: CG, b: CG)
    requires NoNewPhi(a, b) && a.cur < |a.p.blocks| && a.p.blocks[a.cur] == FreshBlock
    ensures a.cur < |b.p.blocks| && NoPhi(b.p.blocks[a.cur])
  {
    forall i | 0 <= i < |b.p.blocks[a.cur].instrs|
      ensures !b.p.blocks[a.cur].instrs[i].Phi?
    {
      assert PhiAt(b.p, a.cur, i) ==> PhiAt(a.p, a.cur, i);
    }
  }

  /** Closing a block and lowering something in another one leaves this block's instructions. */
  lemma InstrsKept(a: CG, t: Terminator, at: nat, b: CG, k: nat)
    requires Good(a.CloseAt(t, at), b) && k < |a.p.blocks| && k != at
    ensures k < |b.p.blocks| && b.p.blocks[k].instrs == a.p.blocks[k].instrs
  {
    assert b.p.blocks[k] == a.CloseAt(t, at).p.blocks[k];
  }

  lemma {:induction false} ShapeWhile(c: Expr, body: Expr, cg: CG, w: set<nat>)
    requires Good1(cg, w) && PlainFors(c) && PlainFors(body)
    ensures Good1(CompileWhile(c, body, cg).cg, w)
    decreases While(c, body), 1
  {
    hide *;
    Waits(cg, w);
    var k := |cg.p.blocks|;
    var s := WhileStates(c, body, cg);
    WhileBlocks(c, body, cg);
    ShapedBranch(cg, 3, Br(k), w, {k + 1, k + 2}) by { assert forall b: nat | Goes(Br(k), b) :: b == k by { BrGoes(k); } }
    ShapeOf(c, false, s.g1, w + {k + 1, k + 2});
    ShapedArm(s.cond.cg, CondBr(s.cond.op, k + 1, k + 2), k + 1, w + {k + 1, k + 2}, w + {k + 2}) by { CondGoes(s.cond.op, k + 1, k + 2); }
    ShapeOf(body, false, s.g2, w + {k + 2});
    ShapedLoopBack(s.body.cg, k, w);
  }

  lemma BrGoes(k: nat)
    ensures forall b: nat :: Goes(Br(k), b) <==> b == k
    ensures Br(k) != Open
  {
  }

  lemma CondGoes(cond: Operand, yes: nat, no: nat)
    ensures forall b: nat :: Goes(CondBr(cond, yes, no), b) <==> b == yes || b == no
  {
  }

  /** The end of a while loop's body: back to a block without phis. */
  lemma ShapedLoopBack(a: CG, k: nat, w: set<nat>)
    requires Good1(a, w + {k + 2}) && k + 2 !in w && k < |a.p.blocks| && NoPhi(a.p.blocks[k])
    ensures Good1(a.CloseAt(Br(k), k + 2), w)
  {
    hide Good1, NoPhi, CG.CloseAt;
    ShapedClose(a, Br(k), k + 2, w + {k + 2});
    assert w + {k + 2} - {k + 2} == w;
  }

  /** No phi is ever put into the block a while loop goes back to. */
  lemma WhileBlocks(c: Expr, body: Expr, cg: CG)
    requires cg.Valid()
    ensures var s := StepsOfWhile(c, body, cg);
            var k := |cg.p.blocks|;
            k < |s.body.cg.p.blocks| && NoPhi(s.body.cg.p.blocks[k])
  {
    hide Compile, CG.CloseAt, CG.Create, Ext, NoNewPhi, NoPhi;
    var s := StepsOfWhile(c, body, cg);
    var k := |cg.p.blocks|;
    FrameWhile(c, body, cg);
    StartPlain(c, false, s.g1);
    NoPhiSince(s.g1, s.cond.cg);
    InstrsKept(s.cond.cg, CondBr(s.cond.op, k + 1, k + 2), k + 1, s.body.cg, k);
    NoPhiSame(s.cond.cg.p.blocks[k], s.body.cg.p.blocks[k]);
  }

  lemma NoPhiSame(a: Block, b: Block)
    requires NoPhi(a) && a.instrs == b.instrs
    ensures NoPhi(b)
  {
  }

  // ---------------------------------------------------------------- for loops

  lemma PredsEmit(a: CG, i: Instr, b: nat, s: set<nat>)
    requires a.Valid() && PredsAre(a.p, b, s)
    ensures PredsAre(a.Emit(i).p, b, s) && PredsAre(a.Define(i).p, b, s) && a.Emit(i).Valid() && a.Define(i).Valid()
  {
  }

  lemma PredsForTest(arr: Operand, loop: nat, a: CG)
    requires a.Valid() && PredsAre(a.p, loop, {})
    ensures PredsAre(ForTest(arr, loop, a).p, loop, {a.cur})
  {
    hide PredsAre, CG.Emit, CG.Define, CG.CloseAt;
    var r := a.nextReg;
    PredsEmit(a, Pure(r, ExtractSize, arr, arr), loop, {});
    var g1 := a.Compute(ExtractSize, arr, arr);
    PredsEmit(g1, Pure(r + 1, CmpSGT, Reg(r), Const(VInt(0))), loop, {});
    PredsClose(g1.Compute(CmpSGT, Reg(r), Const(VInt(0))), CondBr(Reg(r + 1), loop, loop + 1), loop, loop, {});
    assert {} + {a.cur} == {a.cur};
  }

  lemma PredsForNext(size: nat, phi: nat, loop: nat, a: CG, s: set<nat>)
    requires a.Valid() && PredsAre(a.p, loop, s)
    ensures PredsAre(ForNext(size, phi, loop, a).p, loop, s + {a.cur})
  {
    hide PredsAre, CG.Emit, CG.Define, CG.CloseAt;
    var n := a.nextReg;
    PredsEmit(a, Pure(n, Add, Reg(phi), Const(VInt(1))), loop, s);
    var g1 := a.Compute(Add, Reg(phi), Const(VInt(1)));
    PredsEmit(g1, Pure(n + 1, CmpSLT, Reg(n), Reg(size)), loop, s);
    var g2 := g1.Compute(CmpSLT, Reg(n), Reg(size));
    PredsClose(g2, CondBr(Reg(n + 1), loop, loop + 1), loop + 1, loop, s);
    PredsSame(g2.CloseAt(CondBr(Reg(n + 1), loop, loop + 1), loop + 1).p, ForNext(size, phi, loop, a).p, loop, s + {a.cur});
  }

  lemma PredsSame(p: Program, q: Program, b: nat, s: set<nat>)
    requires PredsAre(p, b, s) && q.blocks == p.blocks
    ensures PredsAre(q, b, s)
  {
  }

  /** The edges into the loop block as they are, and as its index phi lists them. */
  lemma ForPreds(x: Variable, ix: Option<Variable>, a: Expr, body: Expr, cg: CG, w: set<nat>)
    requires Good1(cg, w)
    ensures var s := StepsOfFor(x, ix, a, body, cg);
            var loop := |cg.p.blocks|;
            var phi := s.g1.nextReg;
            && PredsAre(s.g1.p, loop, {s.arr.cg.cur}) && PredsAre(s.body.cg.p, loop, {s.arr.cg.cur})
            && PredsAre(s.end.p, loop, {s.arr.cg.cur, s.body.cg.cur})
            && phi in s.body.cg.p.phis && s.body.cg.p.phis[phi] == [Incoming(Const(VInt(0)), cg.cur)]
            && phi in s.end.p.phis
            && s.end.p.phis[phi] == [Incoming(Const(VInt(0)), cg.cur), Incoming(Reg(s.body.cg.nextReg), s.body.cg.cur)]
            && s.arr.cg.cur != s.body.cg.cur && cg.cur != s.body.cg.cur
  {
    hide Good1, Shaped, Compile, PredsAre, CG.Create, ForTest, ForBind, ForNext, Ext;
    var s := StepsOfFor(x, ix, a, body, cg);
    var loop := |cg.p.blocks|;
    Waits(cg, w);
    FrameFor(x, ix, a, body, cg);
    ShapedCreate(cg, 2, w, {loop, loop + 1});
    PredsGood(s.g0, s.arr.cg, loop, {});
    PredsForTest(s.arr.op, loop, s.arr.cg);
    GoodRefl(s.g1);
    FrameForBind(x, ix, s.arr.op, cg.cur, s.g1, s.g1);
    PredsGood(s.g1, s.g2, loop, {s.arr.cg.cur});
    PredsGood(s.g2, s.body.cg, loop, {s.arr.cg.cur});
    PredsForNext(s.arr.cg.nextReg, s.g1.nextReg, loop, s.body.cg, {s.arr.cg.cur});
    assert {s.arr.cg.cur} + {s.body.cg.cur} == {s.arr.cg.cur, s.body.cg.cur};
    ForBindPhi(x, ix, s.arr.op, cg.cur, s.g1);
    ForNextPhis(s.arr.cg.nextReg, s.g1.nextReg, loop, s.body.cg);
    EndsBelow(cg, s);
  }

  lemma EndsBelow(cg: CG, s: ForSteps)
    requires ForOk(s, cg)
    ensures s.arr.cg.cur != s.body.cg.cur && cg.cur != s.body.cg.cur
  {
  }

  lemma ShapedForTest(arr: Operand, loop: nat, a: CG, w: set<nat>)
    requires Good1(a, w) && loop in w && loop + 1 in w
    ensures Good1(ForTest(arr, loop, a), w - {loop})
  {
    hide Good1, CG.Emit, CG.Define, CG.CloseAt;
    var r := a.nextReg;
    ShapedEmit(a, Pure(r, ExtractSize, arr, arr), w);
    var g1 := a.Compute(ExtractSize, arr, arr);
    ShapedEmit(g1, Pure(r + 1, CmpSGT, Reg(r), Const(VInt(0))), w);
    ShapedArm(g1.Compute(CmpSGT, Reg(r), Const(VInt(0))), CondBr(Reg(r + 1), loop, loop + 1), loop, w, w - {loop});
  }

  lemma ShapedForBind(x: Variable, ix: Option<Variable>, arr: Operand, entry: nat, a: CG, w: set<nat>)
    requires Good1(a, w) && PredsAre(a.p, a.cur, {entry}) && a.cur < |a.p.blocks| && a.p.blocks[a.cur].instrs == []
    ensures Good1(ForBind(x, ix, arr, entry, a), w)
  {
    hide Good1, PredsAre, CG.Emit, CG.Define, CG.DefinePhi, CG.Bind;
    var r := a.nextReg;
    var list := [Incoming(Const(VInt(0)), entry)];
    assert (set k | 0 <= k < |list| :: list[k].from) == {entry} by { assert list[0].from == entry; }
    ShapedPhi(a, list, w);
    var g1 := a.DefinePhi(list);
    ShapedEmit(g1, Pure(r + 1, ExtractPtr, arr, arr), w);
    var g2 := g1.Compute(ExtractPtr, arr, arr);
    ShapedEmit(g2, Pure(r + 2, Gep, Reg(r + 1), Reg(r)), w);
    var g3 := g2.Compute(Gep, Reg(r + 1), Reg(r));
    ShapedBind(g3, x, Reg(r + 2), w);
    var g4 := g3.Bind(x, Reg(r + 2));
    assert g4.nextReg == r + 3 by { hide *; BindNext(g3, x, Reg(r + 2)); }
    if ix.Some? { ShapedBind(g4, ix.value, Reg(r), w); }
  }

  lemma BindNext(a: CG, x: Variable, op: Operand)
    ensures a.Bind(x, op).nextReg == a.nextReg
  {
  }

  /** The back edge: the loop block's one phi gains the block it comes from. */
  lemma ShapedBack(a: CG, cond: Operand, loop: nat, w: set<nat>, phi: nat, inc: Incoming)
    requires Good1(a, w) && loop + 1 in w && loop < |a.p.blocks| && inc.from == a.cur && phi in a.p.phis
    requires Matches(a.p, loop, a.p.phis[phi])
    requires PhiAt(a.p, loop, 0) && PhiReg(a.p, loop, 0) == phi
    ensures Good1(a.CloseAt(CondBr(cond, loop, loop + 1), loop + 1).AddIncoming(phi, inc), w - {loop + 1})
  {
    var g := a.CloseAt(CondBr(cond, loop, loop + 1), loop + 1).AddIncoming(phi, inc);
    var list := a.p.phis[phi];
    BackMatches(a, cond, loop, phi, inc);
    forall b, j | PhiAt(g.p, b, j)
      ensures PhiAt(a.p, b, j) && PhiReg(a.p, b, j) == PhiReg(g.p, b, j)
      ensures PhiReg(g.p, b, j) in g.p.phis && Matches(g.p, b, g.p.phis[PhiReg(g.p, b, j)])
    {
      assert PhiAt(a.p, b, j);
      assert a.p.blocks[loop + 1] == FreshBlock;
      if b != loop {
        MatchesKept(a.p, g.p, b, a.p.phis[PhiReg(a.p, b, j)]);
      }
    }
  }

  lemma BackMatches(a: CG, cond: Operand, loop: nat, phi: nat, inc: Incoming)
    requires a.Valid() && inc.from == a.cur && phi in a.p.phis && Matches(a.p, loop, a.p.phis[phi])
    ensures var g := a.CloseAt(CondBr(cond, loop, loop + 1), loop + 1).AddIncoming(phi, inc);
            && g.p.phis == a.p.phis[phi := a.p.phis[phi] + [inc]]
            && Matches(g.p, loop, g.p.phis[phi])
  {
    var list := a.p.phis[phi];
    var g := a.CloseAt(CondBr(cond, loop, loop + 1), loop + 1).AddIncoming(phi, inc);
    var before := set k | 0 <= k < |list| :: list[k].from;
    var after := set k | 0 <= k < |list + [inc]| :: (list + [inc])[k].from;
    assert after == before + {a.cur} by {
      assert (list + [inc])[|list|] == inc;
      forall k | 0 <= k < |list| ensures list[k].from in after { assert (list + [inc])[k] == list[k]; }
    }
    assert !Goes(a.p.blocks[a.cur].term, loop);
    assert a.cur !in before;
    assert PredsAre(g.p, loop, after);
  }

  lemma ShapedForNext(size: nat, phi: nat, loop: nat, a: CG, w: set<nat>)
    requires Good1(a, w) && loop + 1 in w && loop < |a.p.blocks| && phi in a.p.phis
    requires Matches(a.p, loop, a.p.phis[phi])
    requires PhiAt(a.p, loop, 0) && PhiReg(a.p, loop, 0) == phi
    ensures Good1(ForNext(size, phi, loop, a), w - {loop + 1})
  {
    hide Good1, Matches, CG.Emit, CG.Define, CG.CloseAt, CG.AddIncoming;
    var n := a.nextReg;
    var i1 := Pure(n, Add, Reg(phi), Const(VInt(1)));
    ShapedEmit(a, i1, w);
    EmitKeepsPhi(a, i1, loop, phi);
    var g1 := a.Compute(Add, Reg(phi), Const(VInt(1)));
    var i2 := Pure(n + 1, CmpSLT, Reg(n), Reg(size));
    ShapedEmit(g1, i2, w);
    EmitKeepsPhi(g1, i2, loop, phi);
    ShapedBack(g1.Compute(CmpSLT, Reg(n), Reg(size)), Reg(n + 1), loop, w, phi, Incoming(Reg(n), a.cur));
  }

  lemma EmitKeepsPhi(a: CG, i: Instr, loop: nat, phi: nat)
    requires phi in a.p.phis && Matches(a.p, loop, a.p.phis[phi]) && PhiAt(a.p, loop, 0) && PhiReg(a.p, loop, 0) == phi
    ensures var g := a.Define(i);
            Matches(g.p, loop, g.p.phis[phi]) && PhiAt(g.p, loop, 0) && PhiReg(g.p, loop, 0) == phi
  {
  }

  lemma ForPhiFirst(x: Variable, ix: Option<Variable>, arr: Operand, entry: nat, a: CG)
    requires a.cur < |a.p.blocks| && a.p.blocks[a.cur].instrs == []
    ensures var g := ForBind(x, ix, arr, entry, a);
            g.cur == a.cur && PhiAt(g.p, a.cur, 0) && PhiReg(g.p, a.cur, 0) == a.nextReg
  {
  }

  lemma PhiStays(a: CG, b: CG, k: nat)
    requires Ext(a, b) && PhiAt(a.p, k, 0)
    ensures PhiAt(b.p, k, 0) && PhiReg(b.p, k, 0) == PhiReg(a.p, k, 0)
  {
  }

  lemma MatchesOne(p: Program, b: nat, inc: Incoming)
    requires PredsAre(p, b, {inc.from})
    ensures Matches(p, b, [inc])
  {
    var list := [inc];
    assert (set k | 0 <= k < |list| :: list[k].from) == {inc.from} by { assert list[0].from == inc.from; }
  }

  /** The part of a for loop before its body: the state there has the loop block's phi in place. */
  lemma {:induction false} ShapeForEntry(x: Variable, ix: Option<Variable>, a: Expr, body: Expr, cg: CG, w: set<nat>)
    requires Good1(cg, w) && PlainFors(a) && !Opens(a)
    ensures var s := StepsOfFor(x, ix, a, body, cg);
            Good1(s.g2, w + {|cg.p.blocks| + 1}) && PhiAt(s.g2.p, |cg.p.blocks|, 0) && PhiReg(s.g2.p, |cg.p.blocks|, 0) == s.g1.nextReg
    decreases For(x, ix, a, body), 0
  {
    hide Good1, Shaped, Matches, Compile, PredsAre, PhiAt, PhiReg, CG.Create, ForTest, ForBind, ForNext, Ext, CG.Valid;
    var s := StepsOfFor(x, ix, a, body, cg);
    var loop := |cg.p.blocks|;
    Waits(cg, w);
    FrameFor(x, ix, a, body, cg);
    ForPreds(x, ix, a, body, cg, w);
    StaysInBlock(a, false, s.g0);
    ShapedCreate(cg, 2, w, {loop, loop + 1});
    var w2 := w + {loop, loop + 1};
    ShapeOf(a, false, s.g0, w2);
    ShapedForTest(s.arr.op, loop, s.arr.cg, w2);
    assert w2 - {loop} == w + {loop + 1};
    ShapedForBind(x, ix, s.arr.op, cg.cur, s.g1, w + {loop + 1});
    ForPhiFirst(x, ix, s.arr.op, cg.cur, s.g1);
  }

  lemma {:induction false} ShapeFor(x: Variable, ix: Option<Variable>, a: Expr, body: Expr, cg: CG, w: set<nat>)
    requires Good1(cg, w) && PlainFors(a) && PlainFors(body) && !Opens(a)
    ensures Good1(CompileFor(x, ix, a, body, cg).cg, w)
    decreases For(x, ix, a, body), 1
  {
    hide Good1, Shaped, Matches, Compile, PredsAre, PhiAt, PhiReg, CG.Create, ForTest, ForBind, ForNext, Ext, CG.Valid, Good, Opens, PlainFors;
    var s := StepsOfFor(x, ix, a, body, cg);
    var loop := |cg.p.blocks|;
    var phi := s.g1.nextReg;
    ForBody(x, ix, a, body, cg, w);
    ForPreds(x, ix, a, body, cg, w);
    StaysInBlock(a, false, s.g0);
    ShapeForEntry(x, ix, a, body, cg, w);
    ShapeOf(body, false, s.g2, w + {loop + 1});
    PhiStays(s.g2, s.body.cg, loop);
    MatchesOne(s.body.cg.p, loop, Incoming(Const(VInt(0)), cg.cur));
    ShapedForNext(s.arr.cg.nextReg, phi, loop, s.body.cg, w + {loop + 1});
    Waits(cg, w);
    assert w + {loop + 1} - {loop + 1} == w;
  }

  lemma ForBody(x: Variable, ix: Option<Variable>, a: Expr, body: Expr, cg: CG, w: set<nat>)
    requires Good1(cg, w)
    ensures var s := StepsOfFor(x, ix, a, body, cg);
            Ext(s.g2, s.body.cg) && |cg.p.blocks| < |s.body.cg.p.blocks|
  {
    hide Shaped, Compile, CG.Create, ForTest, ForBind, ForNext, Ext;
    FrameFor(x, ix, a, body, cg);
  }

  // ---------------------------------------------------------------- the results

  /** The index phi of a for loop lists exactly the loop block's predecessors if and only if the
      array expression stays inside one block. */
  lemma ForPhiExact(x: Variable, ix: Option<Variable>, a: Expr, body: Expr, cg: CG, w: set<nat>)
    requires Good1(cg, w)
    ensures var end := CompileFor(x, ix, a, body, cg).cg.p;
            var phi := StepsOfFor(x, ix, a, body, cg).g1.nextReg;
            phi in end.phis && (Matches(end, |cg.p.blocks|, end.phis[phi]) <==> !Opens(a))
  {
    hide Good1, Compile, PredsAre, CG.Create, ForTest, ForBind, ForNext, Ext, Opens;
    var s := StepsOfFor(x, ix, a, body, cg);
    var loop := |cg.p.blocks|;
    ForPreds(x, ix, a, body, cg, w);
    var list := s.end.p.phis[s.g1.nextReg];
    assert list[0].from == cg.cur && list[1].from == s.body.cg.cur;
    var froms := set k | 0 <= k < |list| :: list[k].from;
    assert froms == {cg.cur, s.body.cg.cur};
    if Opens(a) {
      Waits(cg, w);
      FrameFor(x, ix, a, body, cg);
      LeavesBlock(a, false, s.g0);
      PredsUnique(s.end.p, loop, froms, {s.arr.cg.cur, s.body.cg.cur});
    } else {
      StaysInBlock(a, false, s.g0);
    }
  }

  lemma PredsUnique(p: Program, b: nat, s: set<nat>, t: set<nat>)
    requires PredsAre(p, b, t)
    ensures PredsAre(p, b, s) <==> s == t
  {
    if PredsAre(p, b, s) {
      assert forall f | f in s :: Goes(p.blocks[f].term, b);
      assert forall f | f in t :: Goes(p.blocks[f].term, b);
    }
  }

  /** Every block ends in a terminator, every branch goes to a block, a phi is the first instruction
      of its block, and it lists exactly the block's predecessors, each once. */
  ghost predicate WellFormed(p: Program) {
    && (forall k | 0 <= k < |p.blocks| :: !p.blocks[k].term.Open?)
    && (forall k, b: nat | 0 <= k < |p.blocks| && Goes(p.blocks[k].term, b) :: b < |p.blocks|)
    && (forall b, i | PhiAt(p, b, i) :: i == 0 && PhiReg(p, b, i) in p.phis && Matches(p, b, p.phis[PhiReg(p, b, i)]))
  }

  /** Every function whose for loops have plain array expressions is lowered to a well-formed graph. */
  lemma FunctionWellFormed(params: seq<Variable>, body: Expr)
    requires FunctionOk(params, body) && PlainFors(body)
    ensures WellFormed(CompileFunction(params, body))
  {
    hide Compile, PlainFors, Formed, CG.CloseAt, ParamVars, ParamEnv, ParamRegs, Bound, Shaped;
    var none := seq(|params|, _ => VVoid);
    ParamsBound(params, none, none);
    var cg := Entry(params);
    EntryShaped(params);
    ShapeOf(body, false, cg, {});
    var g := Compile(body, false, cg);
    ReturnCloses(g.cg, Ret(g.op));
  }

  lemma EntryShaped(params: seq<Variable>)
    requires forall x | x in ParamVars(params) :: Below(ParamVars(params)[x], |params|)
    ensures Good1(Entry(params), {})
  {
  }

  lemma ReturnCloses(a: CG, t: Terminator)
    requires Good1(a, {}) && t.Ret?
    ensures WellFormed(a.CloseAt(t, a.cur).p)
  {
    var g := a.CloseAt(t, a.cur);
    forall b, j | PhiAt(g.p, b, j)
      ensures PhiAt(a.p, b, j) && PhiReg(a.p, b, j) == PhiReg(g.p, b, j)
      ensures PhiReg(g.p, b, j) in g.p.phis && Matches(g.p, b, g.p.phis[PhiReg(g.p, b, j)])
    {
      MatchesKept(a.p, g.p, b, a.p.phis[PhiReg(a.p, b, j)]);
    }
  }
}
