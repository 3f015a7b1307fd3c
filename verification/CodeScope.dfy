/** Which operand each variable is bound to while the code that uses it is generated. */
module CodeScope {
  import opened Options
  import opened IR
  import opened Source
  import opened Lowering
  import opened LoweringFrame

  /** Every variable in d is bound: declared variables to their slot, the others to a register. */
  ghost predicate Scoped(d: set<Variable>, vars: map<Variable, Operand>) {
    forall x | x in d :: x in vars && (if x.kind.Declared? then vars[x] == Const(VPtr(Local(x))) else vars[x].Reg?)
  }

  ghost predicate Kept(d: set<Variable>, a: map<Variable, Operand>, b: map<Variable, Operand>) {
    forall x | x in d && x in a :: x in b && b[x] == a[x]
  }

  /** Lowering binds what is declared, leaves the bindings in scope alone, and yields the void
      operand exactly for void expressions. */
  lemma {:induction false} ScopeOf(e: Expr, ref: bool, cg: CG, d: set<Variable>)
    requires Formed(e, d) && Scoped(d, cg.vars)
    ensures var g := Compile(e, ref, cg);
            Scoped(d + Decls(e), g.cg.vars) && Kept(d, cg.vars, g.cg.vars) && (g.op == VoidOp <==> IsVoid(e))
    decreases e, 2
  {
    hide *;
    if IsControl(e) {
      ScopeControl(e, ref, cg, d);
    } else {
      ScopeSimple(e, ref, cg, d);
    }
  }

  lemma {:induction false} ScopeControl(e: Expr, ref: bool, cg: CG, d: set<Variable>)
    requires Formed(e, d) && Scoped(d, cg.vars) && IsControl(e)
    ensures var g := Compile(e, ref, cg);
            Scoped(d + Decls(e), g.cg.vars) && Kept(d, cg.vars, g.cg.vars) && (g.op == VoidOp <==> IsVoid(e))
    decreases e, 1
  {
    hide CompileVarDecl, CompileAssign, CompileAndOr, CompileBody, CompileCall, CompileIndex, CompileIf, CompileIfThen, CompileFor, CompileWhile, DeclsOf, FormedAll, IsVoidBody, Scoped, Kept;
    match e
    case And(l, r) => ScopeAndOr(e, l, r, true, cg, d); assert d + Decls(e) == d + Decls(l) + Decls(r);
    case Or(l, r) => ScopeAndOr(e, l, r, false, cg, d); assert d + Decls(e) == d + Decls(l) + Decls(r);
    case If(c, t, e1) =>
      ScopeIf(c, t, e1, cg, d);
      assert d + Decls(e) == d + Decls(c) + Decls(t) + Decls(e1);
    case IfThen(c, t) => ScopeIfThen(c, t, cg, d); assert d + Decls(e) == d + Decls(c) + Decls(t);
    case For(x, ix, a, body) =>
      ScopeFor(x, ix, a, body, cg, d);
      assert d + Decls(e) == d + Decls(a) + Decls(body);
    case While(c, body) => ScopeWhile(c, body, cg, d); assert d + Decls(e) == d + Decls(c) + Decls(body);
  }

  lemma {:induction false} ScopeSimple(e: Expr, ref: bool, cg: CG, d: set<Variable>)
    requires Formed(e, d) && Scoped(d, cg.vars) && !IsControl(e)
    ensures var g := Compile(e, ref, cg);
            Scoped(d + Decls(e), g.cg.vars) && Kept(d, cg.vars, g.cg.vars) && (g.op == VoidOp <==> IsVoid(e))
    decreases e, 1
  {
    hide CompileVarDecl, CompileAssign, CompileAndOr, CompileBody, CompileCall, CompileIndex, CompileIf, CompileIfThen, CompileFor, CompileWhile, DeclsOf, FormedAll, IsVoidBody;
    match e
    case NotE(e1) => ScopeOf(e1, false, cg, d);
    case Deref(e1) => ScopeOf(e1, false, cg, d);
    case New(e1) => ScopeOf(e1, false, cg, d);
    case VarDecl(x, e1) => ScopeVarDecl(x, e1, cg, d);
    case Assign(l, r) => ScopeAssign(l, r, cg, d);
    case BlockE(es) => ScopeBody(es, VoidOp, true, cg, d);
    case CallE(f, args, isVoid) => ScopeCall(f, args, isVoid, cg, d);
    case Index(a, i) => ScopeIndex(a, i, ref, cg, d);
    case _ =>
  }

  lemma {:induction false} ScopeVarDecl(x: Variable, e: Expr, cg: CG, d: set<Variable>)
    requires Formed(VarDecl(x, e), d) && Scoped(d, cg.vars)
    ensures var g := CompileVarDecl(x, e, cg);
            Scoped(d + Decls(e) + {x}, g.cg.vars) && Kept(d, cg.vars, g.cg.vars) && g.op == VoidOp
    decreases VarDecl(x, e), 0
  {
    hide Compile;
    ScopeOf(e, false, cg, d);
  }

  lemma {:induction false} ScopeAssign(l: Expr, r: Expr, cg: CG, d: set<Variable>)
    requires Formed(Assign(l, r), d) && Scoped(d, cg.vars)
    ensures var g := CompileAssign(l, r, cg);
            Scoped(d + Decls(l) + Decls(r), g.cg.vars) && Kept(d, cg.vars, g.cg.vars) && g.op == VoidOp
    decreases Assign(l, r), 0
  {
    hide Compile;
    ScopeOf(l, true, cg, d);
    ScopeOf(r, false, Compile(l, true, cg).cg, d + Decls(l));
  }

  lemma {:induction false} ScopeCall(f: Expr, args: Exprs, isVoid: bool, cg: CG, d: set<Variable>)
    requires Formed(CallE(f, args, isVoid), d) && Scoped(d, cg.vars)
    ensures var g := CompileCall(f, args, isVoid, cg);
            Scoped(d + Decls(f) + DeclsOf(args), g.cg.vars) && Kept(d, cg.vars, g.cg.vars)
            && (g.op == VoidOp <==> isVoid)
    decreases CallE(f, args, isVoid), 0
  {
    hide Compile, CompileArgs;
    ScopeOf(f, false, cg, d);
    ScopeArgs(args, Compile(f, false, cg).cg, d + Decls(f));
  }

  lemma {:induction false} ScopeIndex(a: Expr, i: Expr, ref: bool, cg: CG, d: set<Variable>)
    requires Formed(Index(a, i), d) && Scoped(d, cg.vars)
    ensures var g := CompileIndex(a, i, ref, cg);
            Scoped(d + Decls(a) + Decls(i), g.cg.vars) && Kept(d, cg.vars, g.cg.vars) && g.op != VoidOp
    decreases Index(a, i), 0
  {
    hide Compile, IndexRest;
    ScopeOf(a, false, cg, d);
    ScopeOf(i, false, Compile(a, false, cg).cg, d + Decls(a));
  }

  lemma {:induction false} ScopeAndOr(whole: Expr, l: Expr, r: Expr, isAnd: bool, cg: CG, d: set<Variable>)
    requires whole == And(l, r) || whole == Or(l, r)
    requires Formed(l, d) && Formed(r, d + Decls(l)) && Scoped(d, cg.vars)
    ensures var g := CompileAndOr(l, r, isAnd, cg);
            Scoped(d + Decls(l) + Decls(r), g.cg.vars) && Kept(d, cg.vars, g.cg.vars)
    decreases whole, 0
  {
    hide *;
    ScopeOf(l, false, cg, d);
    var left := Compile(l, false, cg);
    var g1, right := ShortVars(l, r, isAnd, cg);
    ScopeSame(d + Decls(l), left.cg.vars, g1.vars);
    ScopeOf(r, false, g1, d + Decls(l));
    KeptTrans(d, d + Decls(l), cg.vars, left.cg.vars, right.cg.vars);
  }

  lemma ScopeSame(d: set<Variable>, a: map<Variable, Operand>, b: map<Variable, Operand>)
    requires Scoped(d, a) && a == b
    ensures Scoped(d, b)
  {
  }

  lemma KeptTrans(d: set<Variable>, d': set<Variable>, a: map<Variable, Operand>, b: map<Variable, Operand>, c: map<Variable, Operand>)
    requires Kept(d, a, b) && Kept(d', b, c) && d <= d'
    ensures Kept(d, a, c)
  {
  }

  /** The states of `and`/`or` in which bindings matter. */
  lemma ShortVars(l: Expr, r: Expr, isAnd: bool, cg: CG) returns (g1: CG, right: Gen)
    ensures g1.vars == Compile(l, false, cg).cg.vars
    ensures right == Compile(r, false, g1) && CompileAndOr(l, r, isAnd, cg).cg.vars == right.cg.vars
  {
    hide Compile, CG.Update, CG.Emit, CG.Define, CG.CloseAt, CG.Create, CG.DefinePhi, ShortBranch;
    var s := StepsOfAndOr(l, r, isAnd, cg);
    g1, right := s.g1, s.right;
  }

  lemma {:induction false} ScopeIf(c: Expr, t: Expr, e: Expr, cg: CG, d: set<Variable>)
    requires Formed(If(c, t, e), d) && Scoped(d, cg.vars)
    ensures var g := CompileIf(c, t, e, cg);
            Scoped(d + Decls(c) + Decls(t) + Decls(e), g.cg.vars) && Kept(d, cg.vars, g.cg.vars)
            && (g.op == VoidOp <==> IsVoid(t))
    decreases If(c, t, e), 0
  {
    hide Compile, CG.Update, CG.Emit, CG.Define, CG.CloseAt, CG.Create, CG.DefinePhi;
    var s := StepsOfIf(c, t, e, cg);
    ScopeOf(c, false, cg, d);
    ScopeOf(t, false, s.g1, d + Decls(c));
    ScopeOf(e, false, s.g2, d + Decls(c) + Decls(t));
  }

  lemma {:induction false} ScopeIfThen(c: Expr, t: Expr, cg: CG, d: set<Variable>)
    requires Formed(IfThen(c, t), d) && Scoped(d, cg.vars)
    ensures var g := CompileIfThen(c, t, cg);
            Scoped(d + Decls(c) + Decls(t), g.cg.vars) && Kept(d, cg.vars, g.cg.vars) && g.op == VoidOp
    decreases IfThen(c, t), 0
  {
    hide Compile, CG.Update, CG.Emit, CG.Define, CG.CloseAt, CG.Create, CG.DefinePhi;
    ScopeOf(c, false, cg, d);
    ScopeOf(t, false, StepsOfIfThen(c, t, cg).g1, d + Decls(c));
  }

  lemma {:induction false} ScopeWhile(c: Expr, body: Expr, cg: CG, d: set<Variable>)
    requires Formed(While(c, body), d) && Scoped(d, cg.vars)
    ensures var g := CompileWhile(c, body, cg);
            Scoped(d + Decls(c) + Decls(body), g.cg.vars) && Kept(d, cg.vars, g.cg.vars) && g.op == VoidOp
    decreases While(c, body), 0
  {
    hide Compile, CG.Update, CG.Emit, CG.Define, CG.CloseAt, CG.Create, CG.DefinePhi;
    var s := StepsOfWhile(c, body, cg);
    ScopeOf(c, false, s.g1, d);
    ScopeOf(body, false, s.g2, d + Decls(c));
  }

  lemma {:induction false} ScopeBody(es: Exprs, last: Operand, isVoid: bool, cg: CG, d: set<Variable>)
    requires FormedAll(es, d) && Scoped(d, cg.vars) && (last == VoidOp <==> isVoid)
    ensures var g := CompileBody(es, last, cg);
            Scoped(d + DeclsOf(es), g.cg.vars) && Kept(d, cg.vars, g.cg.vars)
            && (g.op == VoidOp <==> IsVoidBody(es, isVoid))
    decreases es, 0
  {
    hide Compile;
    match es
    case Nil =>
    case Cons(e, rest) =>
      ScopeOf(e, false, cg, d);
      var g := Compile(e, false, cg);
      ScopeBody(rest, g.op, IsVoid(e), g.cg, d + Decls(e));
      assert d + Decls(e) + DeclsOf(rest) == d + DeclsOf(es);
  }

  lemma {:induction false} ScopeArgs(es: Exprs, cg: CG, d: set<Variable>)
    requires FormedAll(es, d) && Scoped(d, cg.vars)
    ensures var g := CompileArgs(es, cg);
            Scoped(d + DeclsOf(es), g.cg.vars) && Kept(d, cg.vars, g.cg.vars)
    decreases es, 0
  {
    hide Compile;
    match es
    case Nil =>
    case Cons(e, rest) =>
      ScopeOf(e, false, cg, d);
      ScopeArgs(rest, Compile(e, false, cg).cg, d + Decls(e));
      assert d + Decls(e) + DeclsOf(rest) == d + DeclsOf(es);
  }

  /** At the body of a for loop the loop variables are in scope too. */
  lemma ScopeForBind(x: Variable, ix: Option<Variable>, arr: Operand, entry: nat, cg: CG, d: set<Variable>)
    requires Scoped(d, cg.vars) && x.kind.ForElement? && x !in d
    requires ix.Some? ==> ix.value.kind.ForIndex? && ix.value !in d
    ensures var g := ForBind(x, ix, arr, entry, cg);
            && Scoped(d + LoopVars(x, ix), g.vars) && Kept(d, cg.vars, g.vars)
            && g.vars[x] == Reg(cg.nextReg + 2) && (ix.Some? ==> g.vars[ix.value] == Reg(cg.nextReg))
  {
  }

  lemma {:induction false} ScopeFor(x: Variable, ix: Option<Variable>, a: Expr, body: Expr, cg: CG, d: set<Variable>)
    requires Formed(For(x, ix, a, body), d) && Scoped(d, cg.vars)
    ensures var g := CompileFor(x, ix, a, body, cg);
            Scoped(d + Decls(a) + Decls(body), g.cg.vars) && Kept(d, cg.vars, g.cg.vars) && g.op == VoidOp
    decreases For(x, ix, a, body), 0
  {
    hide Compile, ForBind, ForTest, ForNext, CG.Update, CG.Emit, CG.Define, CG.CloseAt, CG.Create, CG.DefinePhi;
    var s := StepsOfFor(x, ix, a, body, cg);
    ScopeOf(a, false, s.g0, d);
    ScopeForBind(x, ix, s.arr.op, cg.cur, s.g1, d + Decls(a));
    ScopeOf(body, false, s.g2, d + Decls(a) + LoopVars(x, ix));
  }
}
