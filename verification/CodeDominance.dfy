/** Every register is written before it is read, on every path through the emitted blocks. */
module CodeDominance {
  import opened Options
  import opened IR
  import opened Source
  import opened Lowering
  import opened LoweringFrame
  import opened CodeScope
  import opened CodeStep
  import opened CodeTheorem
  import opened CodeShape

  // ---------------------------------------------------------------- what is read and written

  function RegsOf(op: Operand): set<nat> { if op.Reg? then {op.r} else {} }

  function AllRegs(ops: seq<Operand>): set<nat> {
    if ops == [] then {} else RegsOf(ops[0]) + AllRegs(ops[1..])
  }

  /** The registers an instruction reads; what a phi reads depends on where control comes from. */
  function Reads(i: Instr): set<nat> {
    match i
    case Pure(_, _, a, b) => RegsOf(a) + RegsOf(b)
    case Load(_, p) => RegsOf(p)
    case Store(v, p) => RegsOf(v) + RegsOf(p)
    case Invoke(_, f, args) => RegsOf(f) + AllRegs(args)
    case _ => {}
  }

  function Writes(i: Instr): set<nat> {
    if i.Store? || i.TrapNow? then {} else {i.dst}
  }

  function EndReads(t: Terminator): set<nat> {
    match t
    case CondBr(cond, _, _) => RegsOf(cond)
    case Ret(op) => RegsOf(op)
    case _ => {}
  }

  function Written(instrs: seq<Instr>): set<nat> {
    if instrs == [] then {} else Written(instrs[..|instrs| - 1]) + Writes(instrs[|instrs| - 1])
  }

  // ---------------------------------------------------------------- paths

  /** A way through the blocks from the entry. */
  predicate IsPath(p: Program, path: seq<nat>) {
    && path != [] && path[0] == 0 && (forall i | 0 <= i < |path| :: path[i] < |p.blocks|)
    && forall i | 0 <= i < |path| - 1 :: Goes(p.blocks[path[i]].term, path[i + 1])
  }

  /** The registers of n parameters. */
  function FirstRegs(n: nat): (s: set<nat>)
    ensures forall r: nat :: r in s <==> r < n
  {
    if n == 0 then {} else FirstRegs(n - 1) + {n - 1}
  }

  /** What has been written after going through the blocks of a path, beginning with n parameters. */
  function WrittenOn(p: Program, n: nat, path: seq<nat>): set<nat> {
    if path == [] then FirstRegs(n)
    else
      var b := path[|path| - 1];
      WrittenOn(p, n, path[..|path| - 1]) + if b < |p.blocks| then Written(p.blocks[b].instrs) else {}
  }

  /** In its last block every path finds what is read written: by instructions before the reading one,
      and for a phi, by the blocks before. */
  ghost predicate ReadsWritten(p: Program, n: nat, path: seq<nat>)
    requires IsPath(p, path)
  {
    var before := path[..|path| - 1];
    var b := p.blocks[path[|path| - 1]];
    && (forall j | 0 <= j < |b.instrs| :: Reads(b.instrs[j]) <= WrittenOn(p, n, before) + Written(b.instrs[..j]))
    && EndReads(b.term) <= WrittenOn(p, n, path)
    && forall j, k | 0 <= j < |b.instrs| && b.instrs[j].Phi? && b.instrs[j].dst in p.phis && 0 <= k < |p.phis[b.instrs[j].dst]| && before != [] ::
         var inc := p.phis[b.instrs[j].dst][k];
         inc.from == before[|before| - 1] ==> RegsOf(inc.op) <= WrittenOn(p, n, before)
  }

  // ---------------------------------------------------------------- what is written wherever a block starts

  /** For every block, registers written on all paths to it. */
  type Starts = seq<set<nat>>

  ghost function AtEnd(p: Program, s: Starts, b: nat): set<nat> {
    if b < |p.blocks| && b < |s| then s[b] + Written(p.blocks[b].instrs) else {}
  }

  ghost predicate Ordered(b: Block, s: set<nat>) {
    && (forall j | 0 <= j < |b.instrs| :: Reads(b.instrs[j]) <= s + Written(b.instrs[..j]))
    && EndReads(b.term) <= s + Written(b.instrs)
  }

  ghost predicate EdgeOk(p: Program, s: Starts, f: nat, b: nat) {
    f < |p.blocks| && Goes(p.blocks[f].term, b) ==> b < |p.blocks| && b < |s| && s[b] <= AtEnd(p, s, f)
  }

  ghost predicate PhiOk(p: Program, s: Starts, list: seq<Incoming>) {
    forall k | 0 <= k < |list| :: list[k].from < |p.blocks| && RegsOf(list[k].op) <= AtEnd(p, s, list[k].from)
  }

  ghost predicate Dominated(p: Program, s: Starts) {
    && |s| == |p.blocks|
    && (forall b | 0 <= b < |p.blocks| :: Ordered(p.blocks[b], s[b]))
    && (forall f: nat, b: nat :: EdgeOk(p, s, f, b))
    && (forall r | r in p.phis :: PhiOk(p, s, p.phis[r]))
  }

  lemma {:induction false} StartsWritten(p: Program, s: Starts, n: nat, path: seq<nat>)
    requires Dominated(p, s) && IsPath(p, path) && s[0] <= FirstRegs(n)
    ensures s[path[|path| - 1]] <= WrittenOn(p, n, path[..|path| - 1])
    decreases |path|
  {
    hide Written, Ordered, Goes;
    var before, b := path[..|path| - 1], path[|path| - 1];
    if |path| > 1 {
      var f := before[|before| - 1];
      assert Goes(p.blocks[path[|path| - 2]].term, path[|path| - 2 + 1]);
      StartsWritten(p, s, n, before);
      assert EdgeOk(p, s, f, b);
    }
  }

  lemma PathReads(p: Program, s: Starts, n: nat, path: seq<nat>)
    requires Dominated(p, s) && IsPath(p, path) && s[0] <= FirstRegs(n)
    ensures ReadsWritten(p, n, path)
  {
    hide Written, Reads, EndReads;
    StartsWritten(p, s, n, path);
    var before := path[..|path| - 1];
    var b := path[|path| - 1];
    assert Ordered(p.blocks[b], s[b]);
    forall j, k | 0 <= j < |p.blocks[b].instrs| && p.blocks[b].instrs[j].Phi? && p.blocks[b].instrs[j].dst in p.phis
                  && 0 <= k < |p.phis[p.blocks[b].instrs[j].dst]| && before != []
      ensures var inc := p.phis[p.blocks[b].instrs[j].dst][k];
              inc.from == before[|before| - 1] ==> RegsOf(inc.op) <= WrittenOn(p, n, before)
    {
      var inc := p.phis[p.blocks[b].instrs[j].dst][k];
      assert PhiOk(p, s, p.phis[p.blocks[b].instrs[j].dst]);
      if inc.from == before[|before| - 1] {
        assert IsPath(p, before);
        StartsWritten(p, s, n, before);
      }
    }
  }

  // ---------------------------------------------------------------- steps of the generator

  ghost function Now(cg: CG, s: Starts): set<nat> {
    AtEnd(cg.p, s, cg.cur)
  }

  lemma WrittenMore(instrs: seq<Instr>, i: Instr)
    ensures Written(instrs + [i]) == Written(instrs) + Writes(i)
  {
    assert (instrs + [i])[..|instrs|] == instrs;
  }

  lemma OrderedMore(b: Block, s: set<nat>, i: Instr)
    requires Ordered(b, s) && Reads(i) <= s + Written(b.instrs)
    ensures Ordered(b.(instrs := b.instrs + [i]), s)
  {
    hide Written, Reads, EndReads;
    WrittenMore(b.instrs, i);
    var b' := b.(instrs := b.instrs + [i]);
    forall j | 0 <= j < |b'.instrs| ensures Reads(b'.instrs[j]) <= s + Written(b'.instrs[..j]) {
      if j < |b.instrs| {
        assert b'.instrs[..j] == b.instrs[..j];
      } else {
        assert b'.instrs[..j] == b.instrs;
      }
    }
  }

  /** Changing one block so that more is written at its end. */
  lemma DomChange(p: Program, q: Program, s: Starts, c: nat)
    requires Dominated(p, s) && c < |p.blocks| && q.phis == p.phis && |q.blocks| == |p.blocks|
    requires forall b | 0 <= b < |p.blocks| && b != c :: q.blocks[b] == p.blocks[b]
    requires Ordered(q.blocks[c], s[c]) && AtEnd(p, s, c) <= AtEnd(q, s, c)
    requires forall b: nat :: EdgeOk(q, s, c, b)
    ensures Dominated(q, s)
  {
    hide Ordered, Written;
    forall b: nat ensures AtEnd(p, s, b) <= AtEnd(q, s, b) {
      if b < |p.blocks| && b != c { assert q.blocks[b] == p.blocks[b]; }
    }
    forall f: nat, b: nat ensures EdgeOk(q, s, f, b) {
      if f != c && f < |p.blocks| {
        assert EdgeOk(p, s, f, b) && q.blocks[f] == p.blocks[f];
      }
    }
    forall r | r in q.phis ensures PhiOk(q, s, q.phis[r]) {
      assert PhiOk(p, s, p.phis[r]);
    }
  }

  lemma DomEmit(a: CG, i: Instr, s: Starts)
    requires a.Valid() && Dominated(a.p, s) && Reads(i) <= Now(a, s)
    ensures Dominated(a.Emit(i).p, s) && Now(a.Emit(i), s) == Now(a, s) + Writes(i)
    ensures Dominated(a.Define(i).p, s) && Now(a.Define(i), s) == Now(a, s) + Writes(i)
  {
    hide Written, Reads, Writes, Ordered;
    var b := a.p.blocks[a.cur];
    WrittenMore(b.instrs, i);
    OrderedMore(b, s[a.cur], i);
    var q := a.Emit(i).p;
    assert q.blocks[a.cur] == b.(instrs := b.instrs + [i]);
    EmitFrame(a, i);
    assert AtEnd(q, s, a.cur) == AtEnd(a.p, s, a.cur) + Writes(i);
    forall f: nat ensures EdgeOk(q, s, a.cur, f) { }
    DomChange(a.p, q, s, a.cur);
    assert a.Define(i).p == q;
  }

  lemma DomCreate(a: CG, n: nat, s: Starts, more: Starts)
    requires a.Valid() && Dominated(a.p, s) && |more| == n
    ensures Dominated(a.Create(n).p, s + more) && Now(a.Create(n), s + more) == Now(a, s)
  {
    hide Written, Reads;
    var q, s' := a.Create(n).p, s + more;
    forall b: nat | b < |a.p.blocks| ensures AtEnd(q, s', b) == AtEnd(a.p, s, b) && q.blocks[b] == a.p.blocks[b] && s'[b] == s[b] {
    }
    forall b: nat | b < |q.blocks| ensures Ordered(q.blocks[b], s'[b]) {
      if b < |a.p.blocks| { assert Ordered(a.p.blocks[b], s[b]); } else { assert q.blocks[b] == FreshBlock; }
    }
    forall f: nat, b: nat ensures EdgeOk(q, s', f, b) {
      if f < |a.p.blocks| { assert EdgeOk(a.p, s, f, b); } else if f < |q.blocks| { assert q.blocks[f] == FreshBlock; }
    }
    forall r | r in q.phis ensures PhiOk(q, s', q.phis[r]) {
      assert PhiOk(a.p, s, a.p.phis[r]);
    }
  }

  lemma DomClose(a: CG, t: Terminator, at: nat, s: Starts)
    requires a.Valid() && Dominated(a.p, s) && EndReads(t) <= Now(a, s)
    requires forall b: nat | Goes(t, b) :: b < |a.p.blocks| && s[b] <= Now(a, s)
    ensures var g := a.CloseAt(t, at);
            && Dominated(g.p, s) && AtEnd(g.p, s, a.cur) == Now(a, s)
            && (at < |a.p.blocks| && a.p.blocks[at].instrs == [] ==> Now(g, s) == s[at])
  {
    hide Written, Reads, EndReads;
    var g := a.CloseAt(t, at);
    var b := a.p.blocks[a.cur];
    assert g.p.blocks[a.cur] == b.(term := t);
    assert Ordered(b, s[a.cur]);
    forall f: nat ensures EdgeOk(g.p, s, a.cur, f) { }
    DomChange(a.p, g.p, s, a.cur);
    if at < |a.p.blocks| && a.p.blocks[at].instrs == [] {
      assert g.p.blocks[at].instrs == [];
      assert Written([]) == {} by { NothingWritten(); }
    }
  }

  lemma NothingWritten()
    ensures Written([]) == {}
  {
  }

  lemma DomPhi(a: CG, list: seq<Incoming>, s: Starts)
    requires a.Valid() && |list| <= 2 && Dominated(a.p, s) && PhiOk(a.p, s, list)
    ensures Dominated(a.DefinePhi(list).p, s) && Now(a.DefinePhi(list), s) == Now(a, s) + {a.nextReg}
  {
    hide Written, Ordered;
    DomEmit(a, Phi(a.nextReg), s);
    var p, q := a.Emit(Phi(a.nextReg)).p, a.DefinePhi(list).p;
    EmitFrame(a, Phi(a.nextReg));
    GoodRefl(a);
    GoodPhi(a, a, list);
    assert q.blocks == p.blocks;
    forall b: nat ensures AtEnd(q, s, b) == AtEnd(p, s, b) && AtEnd(a.p, s, b) <= AtEnd(p, s, b) {
      if b < |a.p.blocks| && b != a.cur { assert p.blocks[b] == a.p.blocks[b]; }
    }
    forall f: nat, b: nat ensures EdgeOk(q, s, f, b) { assert EdgeOk(p, s, f, b); }
    forall r | r in q.phis ensures PhiOk(q, s, q.phis[r]) {
      if r != a.nextReg { assert PhiOk(p, s, p.phis[r]); }
    }
  }

  lemma DomIncoming(a: CG, r: nat, inc: Incoming, s: Starts)
    requires Dominated(a.p, s) && inc.from < |a.p.blocks| && RegsOf(inc.op) <= AtEnd(a.p, s, inc.from)
    ensures Dominated(a.AddIncoming(r, inc).p, s) && Now(a.AddIncoming(r, inc), s) == Now(a, s)
  {
    hide Written, Ordered;
    var q := a.AddIncoming(r, inc).p;
    forall b: nat ensures AtEnd(q, s, b) == AtEnd(a.p, s, b) { }
    forall f: nat, b: nat ensures EdgeOk(q, s, f, b) { assert EdgeOk(a.p, s, f, b); }
    forall x | x in q.phis ensures PhiOk(q, s, q.phis[x]) {
      assert PhiOk(a.p, s, a.p.phis[x]);
    }
  }

  // ---------------------------------------------------------------- every construct

  /** The registers that the variables in scope are bound to have been written. */
  ghost predicate Holds(d: set<Variable>, vars: map<Variable, Operand>, now: set<nat>) {
    forall x | x in d && x in vars :: RegsOf(vars[x]) <= now
  }

  ghost predicate DomReady(cg: CG, d: set<Variable>, s: Starts) {
    cg.Valid() && Scoped(d, cg.vars) && Dominated(cg.p, s) && Holds(d, cg.vars, Now(cg, s))
  }

  /** From cg, with starts s, code has been generated up to g: it reads only what has been written,
      and what was written at its start, and its value, are written at its end. */
  ghost predicate DomGen(cg: CG, s: Starts, g: Gen, s': Starts) {
    Dominated(g.cg.p, s') && s <= s' && Now(cg, s) <= Now(g.cg, s') && RegsOf(g.op) <= Now(g.cg, s')
  }

  lemma HoldsAfter(d: set<Variable>, d': set<Variable>, vars: map<Variable, Operand>, vars': map<Variable, Operand>, a: set<nat>, a': set<nat>)
    requires Holds(d, vars, a) && Scoped(d, vars) && Scoped(d', vars') && Kept(d, vars, vars') && a <= a'
    requires forall x | x in d' && !x.kind.Declared? :: x in d
    ensures Holds(d', vars', a')
  {
  }

  lemma ReadyParts(cg: CG, d: set<Variable>, s: Starts)
    requires DomReady(cg, d, s)
    ensures cg.Valid() && Scoped(d, cg.vars) && Dominated(cg.p, s) && |s| == |cg.p.blocks| && cg.cur < |s|
  {
    hide Ordered, Holds, AtEnd;
  }

  lemma GenParts(cg: CG, s: Starts, g: Gen, s': Starts)
    requires DomGen(cg, s, g, s')
    ensures Dominated(g.cg.p, s') && |s'| == |g.cg.p.blocks| && s <= s' && Now(cg, s) <= Now(g.cg, s') && RegsOf(g.op) <= Now(g.cg, s')
  {
    hide Ordered, AtEnd;
  }

  /** Two parts one after the other; the value of the first is still there after the second. */
  lemma GenThen(cg: CG, s: Starts, g: Gen, s1: Starts, h: Gen, s2: Starts)
    requires DomGen(cg, s, g, s1) && DomGen(g.cg, s1, h, s2)
    ensures DomGen(cg, s, h, s2) && RegsOf(g.op) <= Now(h.cg, s2)
  {
    hide Dominated, Now;
  }

  lemma GenIs(cg: CG, s: Starts, g: Gen, s': Starts)
    requires Dominated(g.cg.p, s') && s <= s' && Now(cg, s) <= Now(g.cg, s') && RegsOf(g.op) <= Now(g.cg, s')
    ensures DomGen(cg, s, g, s')
  {
  }

  /** The same scope in a state in which no less has been written. */
  lemma ReadySame(a: CG, d: set<Variable>, s: Starts, b: CG, s': Starts)
    requires DomReady(a, d, s) && b.Valid() && b.vars == a.vars && Dominated(b.p, s') && Now(a, s) <= Now(b, s')
    ensures DomReady(b, d, s')
  {
    hide Dominated, Now;
  }

  lemma {:induction false} DomOf(e: Expr, ref: bool, cg: CG, d: set<Variable>, s: Starts) returns (s': Starts)
    requires DomReady(cg, d, s) && Formed(e, d)
    ensures DomGen(cg, s, Compile(e, ref, cg), s')
    decreases e, 3
  {
    hide *;
    if IsControl(e) {
      s' := DomControl(e, ref, cg, d, s);
    } else {
      s' := DomSimple(e, ref, cg, d, s);
    }
  }

  /** And what comes next may use what was declared. */
  lemma {:induction false} DomNext(e: Expr, ref: bool, cg: CG, d: set<Variable>, s: Starts) returns (s': Starts)
    requires DomReady(cg, d, s) && Formed(e, d)
    ensures var g := Compile(e, ref, cg); DomGen(cg, s, g, s') && DomReady(g.cg, d + Decls(e), s') && Good(cg, g.cg)
    decreases e, 4
  {
    hide Compile, Formed, Decls, Ext, Ordered, Dominated, Now, CG.Valid, Scoped, Kept, GoodGen;
    ReadyParts(cg, d, s);
    s' := DomOf(e, ref, cg, d, s);
    var g := Compile(e, ref, cg);
    ScopeOf(e, ref, cg, d);
    FrameOf(e, ref, cg);
    GenGood(cg, g);
    DeclsAreDeclared(e, d);
    HoldsAfter(d, d + Decls(e), cg.vars, g.cg.vars, Now(cg, s), Now(g.cg, s'));
  }

  lemma {:induction false} DomSimple(e: Expr, ref: bool, cg: CG, d: set<Variable>, s: Starts) returns (s': Starts)
    requires DomReady(cg, d, s) && Formed(e, d) && !IsControl(e)
    ensures DomGen(cg, s, Compile(e, ref, cg), s')
    decreases e, 2
  {
    hide CompileIdent, CompileNot, CompileDeref, CompileNew, CompileVarDecl, CompileAssign, CompileBody, CompileCall, CompileIndex, Dominated, Now, CG.Valid, Scoped, Holds;
    match e
    case Var(x) => s' := DomIdent(x, ref, cg, d, s);
    case NotE(e1) => s' := DomNot(e1, cg, d, s);
    case Deref(e1) => s' := DomDeref(e1, ref, cg, d, s);
    case New(e1) => s' := DomNew(e1, cg, d, s);
    case VarDecl(x, e1) => s' := DomVarDecl(x, e1, cg, d, s);
    case Assign(l, r) => s' := DomAssign(l, r, cg, d, s);
    case BlockE(es) => s' := DomBody(es, VoidOp, cg, d, s);
    case CallE(f, args, isVoid) => s' := DomCall(f, args, isVoid, cg, d, s);
    case Index(a, i) => s' := DomIndex(a, i, ref, cg, d, s);
    case _ => s' := s;
  }

  lemma {:induction false} DomControl(e: Expr, ref: bool, cg: CG, d: set<Variable>, s: Starts) returns (s': Starts)
    requires DomReady(cg, d, s) && Formed(e, d) && IsControl(e)
    ensures DomGen(cg, s, Compile(e, ref, cg), s')
    decreases e, 2
  {
    hide CompileAndOr, CompileIf, CompileIfThen, CompileFor, CompileWhile, DomGen, DomReady;
    match e
    case And(l, r) => s' := DomAndOr(e, l, r, true, cg, d, s);
    case Or(l, r) => s' := DomAndOr(e, l, r, false, cg, d, s);
    case If(c, t, e1) => s' := DomIf(c, t, e1, cg, d, s);
    case IfThen(c, t) => s' := DomIfThen(c, t, cg, d, s);
    case For(x, ix, a, body) => s' := DomFor(x, ix, a, body, cg, d, s);
    case While(c, body) => s' := DomWhile(c, body, cg, d, s);
  }

  lemma DomIdent(x: Variable, ref: bool, cg: CG, d: set<Variable>, s: Starts) returns (s': Starts)
    requires DomReady(cg, d, s) && x in d
    ensures DomGen(cg, s, CompileIdent(x, ref, cg), s')
  {
    hide Dominated, CG.Emit, CG.Define, Now;
    s' := s;
    DomEmit(cg, Load(cg.nextReg, cg.vars[x]), s);
  }

  /** One more instruction at the end, whose result is the value. */
  lemma GenDefine(cg: CG, s: Starts, g: Gen, s': Starts, i: Instr)
    requires DomGen(cg, s, g, s') && g.cg.Valid() && Reads(i) <= Now(g.cg, s') && Writes(i) == {g.cg.nextReg}
    ensures DomGen(cg, s, Gen(g.cg.Define(i), Reg(g.cg.nextReg)), s')
  {
    hide Dominated, CG.Emit, CG.Define, Now, Reads, Writes;
    DomEmit(g.cg, i, s');
  }

  lemma {:induction false} DomNot(e: Expr, cg: CG, d: set<Variable>, s: Starts) returns (s': Starts)
    requires DomReady(cg, d, s) && Formed(e, d)
    ensures DomGen(cg, s, CompileNot(e, cg), s')
    decreases NotE(e), 1
  {
    hide DomGen, Compile, Formed, DomReady, CG.Define, CG.Emit, CG.Valid, Now, Good;
    s' := DomNext(e, false, cg, d, s);
    var g := Compile(e, false, cg);
    GoodEnds(cg, g.cg);
    GenParts(cg, s, g, s');
    GenDefine(cg, s, g, s', Pure(g.cg.nextReg, Not, g.op, g.op));
  }

  lemma {:induction false} DomDeref(e: Expr, ref: bool, cg: CG, d: set<Variable>, s: Starts) returns (s': Starts)
    requires DomReady(cg, d, s) && Formed(e, d)
    ensures DomGen(cg, s, CompileDeref(e, ref, cg), s')
    decreases Deref(e), 1
  {
    hide DomGen, Compile, Formed, DomReady, CG.Define, CG.Emit, CG.Valid, Now, Good;
    s' := DomNext(e, false, cg, d, s);
    var g := Compile(e, false, cg);
    GoodEnds(cg, g.cg);
    GenParts(cg, s, g, s');
    GenDefine(cg, s, g, s', Load(g.cg.nextReg, g.op));
  }

  /** One more instruction without a result. */
  lemma GenEmit(cg: CG, s: Starts, g: Gen, s': Starts, i: Instr, op: Operand)
    requires DomGen(cg, s, g, s') && g.cg.Valid() && Reads(i) <= Now(g.cg, s') && RegsOf(op) <= Now(g.cg, s')
    ensures DomGen(cg, s, Gen(g.cg.Emit(i), op), s')
  {
    hide Dominated, CG.Emit, CG.Define, Now, Reads, Writes;
    DomEmit(g.cg, i, s');
  }

  lemma {:induction false} DomNew(e: Expr, cg: CG, d: set<Variable>, s: Starts) returns (s': Starts)
    requires DomReady(cg, d, s) && Formed(e, d)
    ensures DomGen(cg, s, CompileNew(e, cg), s')
    decreases New(e), 1
  {
    hide DomGen, Compile, Formed, DomReady, CG.Define, CG.Emit, CG.Valid, Now, Good;
    s' := DomNext(e, false, cg, d, s);
    var g := Compile(e, false, cg);
    var r := g.cg.nextReg;
    GoodEnds(cg, g.cg);
    GenParts(cg, s, g, s');
    GenDefine(cg, s, g, s', NewCell(r));
    var h := Gen(g.cg.Define(NewCell(r)), Reg(r));
    NowGrows(g.cg, NewCell(r), s');
    GenParts(cg, s, h, s');
    GenEmit(cg, s, h, s', Store(g.op, Reg(r)), Reg(r));
  }

  lemma NowGrows(a: CG, i: Instr, s: Starts)
    requires a.Valid() && Dominated(a.p, s) && Reads(i) <= Now(a, s)
    ensures Now(a, s) <= Now(a.Define(i), s) && a.Define(i).Valid()
  {
    hide Dominated, CG.Emit, CG.Define, Now, Reads, Writes, Ext;
    DomEmit(a, i, s);
    GoodRefl(a);
    GoodEmit(a, a, i);
  }

  lemma {:induction false} DomVarDecl(x: Variable, e: Expr, cg: CG, d: set<Variable>, s: Starts) returns (s': Starts)
    requires DomReady(cg, d, s) && Formed(e, d)
    ensures DomGen(cg, s, CompileVarDecl(x, e, cg), s')
    decreases VarDecl(x, e), 1
  {
    hide DomGen, Compile, Formed, DomReady, CG.Emit, CG.Valid, Now, Good;
    s' := DomNext(e, false, cg, d, s);
    var g := Compile(e, false, cg);
    GoodEnds(cg, g.cg);
    GenParts(cg, s, g, s');
    var slot := Const(VPtr(Local(x)));
    GenEmit(cg, s, g, s', Store(g.op, slot), VoidOp);
    GenBind(cg, s, g.cg.Emit(Store(g.op, slot)), x, slot, s');
  }

  lemma GenBind(cg: CG, s: Starts, a: CG, x: Variable, op: Operand, s': Starts)
    requires DomGen(cg, s, Gen(a, VoidOp), s')
    ensures DomGen(cg, s, Gen(a.Bind(x, op), VoidOp), s')
  {
    hide Dominated;
  }

  lemma {:induction false} DomAssign(l: Expr, r: Expr, cg: CG, d: set<Variable>, s: Starts) returns (s': Starts)
    requires DomReady(cg, d, s) && Formed(l, d) && Formed(r, d + Decls(l))
    ensures DomGen(cg, s, CompileAssign(l, r, cg), s')
    decreases Assign(l, r), 1
  {
    hide *;
    var s1 := DomNext(l, true, cg, d, s);
    var left := Compile(l, true, cg);
    s' := DomNext(r, false, left.cg, d + Decls(l), s1);
    var right := Compile(r, false, left.cg);
    GoodEnds(left.cg, right.cg);
    GenThen(cg, s, left, s1, right, s');
    GenStore(cg, s, right, s', left.op);
    AssignIs(l, r, cg);
  }

  /** A store of the value. */
  lemma GenStore(cg: CG, s: Starts, g: Gen, s': Starts, p: Operand)
    requires DomGen(cg, s, g, s') && g.cg.Valid() && RegsOf(p) <= Now(g.cg, s')
    ensures DomGen(cg, s, Gen(g.cg.Emit(Store(g.op, p)), VoidOp), s')
  {
    hide *;
    GenParts(cg, s, g, s');
    StoreReads(g.op, p);
    VoidReads();
    GenEmit(cg, s, g, s', Store(g.op, p), VoidOp);
  }

  lemma StoreReads(v: Operand, p: Operand)
    ensures Reads(Store(v, p)) == RegsOf(v) + RegsOf(p)
  {
  }

  lemma {:induction false} DomBody(es: Exprs, last: Operand, cg: CG, d: set<Variable>, s: Starts) returns (s': Starts)
    requires DomReady(cg, d, s) && FormedAll(es, d) && RegsOf(last) <= Now(cg, s)
    ensures DomGen(cg, s, CompileBody(es, last, cg), s')
    decreases es, 0
  {
    hide DomGen, Compile, Formed, DomReady, Now, Good;
    match es
    case Nil =>
      s' := s;
      ReadyParts(cg, d, s);
      GenIs(cg, s, Gen(cg, last), s);
    case Cons(e, rest) =>
      var s1 := DomNext(e, false, cg, d, s);
      var g := Compile(e, false, cg);
      GenParts(cg, s, g, s1);
      s' := DomBody(rest, g.op, g.cg, d + Decls(e), s1);
      GenThen(cg, s, g, s1, CompileBody(rest, g.op, g.cg), s');
  }

  ghost predicate DomGenAll(cg: CG, s: Starts, g: GenAll, s': Starts) {
    DomGen(cg, s, Gen(g.cg, VoidOp), s') && AllRegs(g.ops) <= Now(g.cg, s')
  }

  lemma {:induction false} DomArgs(es: Exprs, cg: CG, d: set<Variable>, s: Starts) returns (s': Starts)
    requires DomReady(cg, d, s) && FormedAll(es, d)
    ensures DomGenAll(cg, s, CompileArgs(es, cg), s')
    decreases es, 0
  {
    hide DomGen, Compile, Formed, DomReady, Now, Good;
    match es
    case Nil =>
      s' := s;
      ReadyParts(cg, d, s);
      GenIs(cg, s, Gen(cg, VoidOp), s);
    case Cons(e, rest) =>
      var s1 := DomNext(e, false, cg, d, s);
      var g := Compile(e, false, cg);
      s' := DomArgs(rest, g.cg, d + Decls(e), s1);
      var a := CompileArgs(rest, g.cg);
      GenThen(cg, s, g, s1, Gen(a.cg, VoidOp), s');
      assert ([g.op] + a.ops)[1..] == a.ops;
  }

  lemma {:induction false} DomCall(f: Expr, args: Exprs, isVoid: bool, cg: CG, d: set<Variable>, s: Starts) returns (s': Starts)
    requires DomReady(cg, d, s) && Formed(f, d) && FormedAll(args, d + Decls(f))
    ensures DomGen(cg, s, CompileCall(f, args, isVoid, cg), s')
    decreases CallE(f, args, isVoid), 1
  {
    hide *;
    var s1 := DomNext(f, false, cg, d, s);
    var g := Compile(f, false, cg);
    ReadyParts(g.cg, d + Decls(f), s1);
    s' := DomArgs(args, g.cg, d + Decls(f), s1);
    var a := CompileArgs(args, g.cg);
    FrameArgs(args, g.cg);
    GoodEnds(g.cg, a.cg);
    AllParts(g.cg, s1, a, s');
    GenThen(cg, s, g, s1, Gen(a.cg, VoidOp), s');
    GenInvoke(cg, s, a, s', g.op);
    CallIs(f, args, isVoid, cg);
  }

  lemma AllParts(cg: CG, s: Starts, g: GenAll, s': Starts)
    requires DomGenAll(cg, s, g, s')
    ensures DomGen(cg, s, Gen(g.cg, VoidOp), s') && AllRegs(g.ops) <= Now(g.cg, s')
  {
  }

  /** A call with these arguments. */
  lemma GenInvoke(cg: CG, s: Starts, a: GenAll, s': Starts, f: Operand)
    requires DomGen(cg, s, Gen(a.cg, VoidOp), s') && a.cg.Valid() && RegsOf(f) <= Now(a.cg, s') && AllRegs(a.ops) <= Now(a.cg, s')
    ensures var r := a.cg.nextReg;
            var b := a.cg.Define(Invoke(r, f, a.ops));
            DomGen(cg, s, Gen(b, Reg(r)), s') && DomGen(cg, s, Gen(b, VoidOp), s')
  {
    hide *;
    var r := a.cg.nextReg;
    InvokeReads(r, f, a.ops);
    GenDefine(cg, s, Gen(a.cg, VoidOp), s', Invoke(r, f, a.ops));
    GenVoid(cg, s, Gen(a.cg.Define(Invoke(r, f, a.ops)), Reg(r)), s');
  }

  lemma InvokeReads(r: nat, f: Operand, args: seq<Operand>)
    ensures Reads(Invoke(r, f, args)) == RegsOf(f) + AllRegs(args) && Writes(Invoke(r, f, args)) == {r}
  {
  }

  lemma GenVoid(cg: CG, s: Starts, g: Gen, s': Starts)
    requires DomGen(cg, s, g, s')
    ensures DomGen(cg, s, Gen(g.cg, VoidOp), s')
  {
    hide Dominated, Now;
  }

  // ---------------------------------------------------------------- control flow

  /** Block k is still to be begun, and w will be written where it starts. */
  ghost predicate Awaits(g: CG, s: Starts, k: nat, w: set<nat>) {
    k < |g.p.blocks| && k < |s| && k != g.cur && g.p.blocks[k] == FreshBlock && s[k] == w
  }

  /** A branch to the first of n new blocks, all of which begin with what is written now. */
  lemma DomBranch(a: CG, n: nat, t: Terminator, s: Starts) returns (s': Starts)
    requires a.Valid() && Dominated(a.p, s) && n > 0 && EndReads(t) <= Now(a, s)
    requires forall b: nat | Goes(t, b) :: |a.p.blocks| <= b < |a.p.blocks| + n
    ensures var k := |a.p.blocks|;
            var g := a.Create(n).CloseAt(t, k);
            && g.Valid() && g.vars == a.vars && Dominated(g.p, s') && s <= s' && |s'| == k + n
            && Now(g, s') == Now(a, s) && AtEnd(g.p, s', a.cur) == Now(a, s) && g.cur == k && a.cur < k
            && (s'[k] == Now(a, s)) && forall b | k < b < k + n :: Awaits(g, s', b, Now(a, s))
  {
    hide Written, EndReads, Dominated, Goes, CG.Create, CG.CloseAt;
    var w, k := Now(a, s), |a.p.blocks|;
    assert |s| == k by { Lengths(a.p, s); }
    var more: Starts := seq(n, _ => w);
    s' := s + more;
    DomCreate(a, n, s, more);
    GoodCreate(a, n);
    var a1 := a.Create(n);
    var g := a1.CloseAt(t, k);
    forall b: nat | Goes(t, b) ensures b < |a1.p.blocks| && s'[b] <= Now(a1, s') { }
    DomClose(a1, t, k, s');
    ClosedValid(a1, t, k);
    forall b | k < b < k + n ensures Awaits(g, s', b, w) { }
  }

  lemma Lengths(p: Program, s: Starts)
    requires Dominated(p, s)
    ensures |s| == |p.blocks|
  {
  }

  lemma ClosedValid(a: CG, t: Terminator, at: nat)
    requires a.Valid() && at < |a.p.blocks| && at != a.cur && a.p.blocks[at].term.Open?
    ensures a.CloseAt(t, at).Valid()
    ensures forall k | 0 <= k < |a.p.blocks| && k != a.cur :: a.CloseAt(t, at).p.blocks[k] == a.p.blocks[k]
  {
  }

  /** The end of an arm lowered from a to b: on to the waiting block `at`. */
  lemma DomArm(a: CG, s: Starts, b: CG, s': Starts, t: Terminator, at: nat, w: set<nat>)
    requires Good(a, b) && Dominated(b.p, s') && s <= s' && |s| == |a.p.blocks|
    requires EndReads(t) <= Now(b, s') && Awaits(a, s, at, w)
    requires forall k: nat | Goes(t, k) :: k < |s| && s[k] <= Now(b, s')
    ensures var g := b.CloseAt(t, at);
            && g.Valid() && g.vars == b.vars && Dominated(g.p, s') && Now(g, s') == w && AtEnd(g.p, s', b.cur) == Now(b, s')
            && (forall k | 0 <= k < |a.p.blocks| && k != a.cur && k != at :: AtEnd(g.p, s', k) == AtEnd(a.p, s, k))
            && forall k, w' | k != at && Awaits(a, s, k, w') :: Awaits(g, s', k, w')
  {
    hide Written, EndReads, Dominated, Goes, CG.CloseAt;
    GoodKeeps(a, b);
    Lengths(b.p, s');
    var g := b.CloseAt(t, at);
    forall k: nat | Goes(t, k) ensures k < |b.p.blocks| && s'[k] <= Now(b, s') { }
    DomClose(b, t, at, s');
    ClosedValid(b, t, at);
  }

  /** Lowering from a to b leaves the other blocks of a alone. */
  lemma GoodKeeps(a: CG, b: CG)
    requires Good(a, b)
    ensures a.Valid() && b.Valid() && |a.p.blocks| <= |b.p.blocks| && (b.cur == a.cur || b.cur >= |a.p.blocks|)
    ensures forall k | 0 <= k < |a.p.blocks| && k != a.cur :: b.p.blocks[k] == a.p.blocks[k]
  {
  }

  /** What a block that code generation has left writes does not change. */
  lemma KeptAtEnd(a: CG, s: Starts, b: CG, s': Starts, k: nat)
    requires Good(a, b) && s <= s' && |s| == |a.p.blocks| && k < |a.p.blocks| && k != a.cur && |s'| == |b.p.blocks|
    ensures AtEnd(b.p, s', k) == AtEnd(a.p, s, k) && b.cur != k
  {
    hide Written;
    GoodKeeps(a, b);
  }

  lemma AwaitsIs(g: CG, s: Starts, k: nat, w: set<nat>)
    requires Awaits(g, s, k, w)
    ensures k < |g.p.blocks| && k < |s| && k != g.cur && s[k] == w
  {
  }

  lemma ToOne(k: nat)
    ensures EndReads(Br(k)) == {} && forall b: nat :: Goes(Br(k), b) ==> b == k
  {
  }

  lemma ToTwo(op: Operand, yes: nat, no: nat)
    ensures EndReads(CondBr(op, yes, no)) == RegsOf(op) && forall b: nat :: Goes(CondBr(op, yes, no), b) ==> b == yes || b == no
  {
  }

  lemma ShortReads(isAnd: bool, op: Operand, t: nat)
    ensures EndReads(ShortBranch(isAnd, op, t)) == RegsOf(op) && forall b: nat :: Goes(ShortBranch(isAnd, op, t), b) ==> b == t || b == t + 1
  {
  }

  lemma StartsGrow(s: Starts, s1: Starts, s2: Starts, s3: Starts, s4: Starts)
    requires s <= s1 <= s2 <= s3 <= s4
    ensures s <= s4
  {
  }

  /** A value, and a branch on it to the first of n new blocks. */
  lemma GenBranch(cg: CG, s: Starts, g: Gen, s1: Starts, d: set<Variable>, n: nat, t: Terminator) returns (s2: Starts)
    requires DomGen(cg, s, g, s1) && DomReady(g.cg, d, s1) && n > 0 && EndReads(t) == RegsOf(g.op)
    requires forall b: nat | Goes(t, b) :: |g.cg.p.blocks| <= b < |g.cg.p.blocks| + n
    ensures var k, w := |g.cg.p.blocks|, Now(g.cg, s1);
            var a := g.cg.Create(n).CloseAt(t, k);
            && DomGen(cg, s, Gen(a, VoidOp), s2) && DomReady(a, d, s2) && Now(a, s2) == w && AtEnd(a.p, s2, g.cg.cur) == w
            && a.cur == k && g.cg.cur < k && |s2| == k + n == |a.p.blocks| && forall b | k < b < k + n :: Awaits(a, s2, b, w)
  {
    hide *;
    GenParts(cg, s, g, s1);
    ReadyParts(g.cg, d, s1);
    s2 := DomBranch(g.cg, n, t, s1);
    var a := g.cg.Create(n).CloseAt(t, |g.cg.p.blocks|);
    Lengths(a.p, s2);
    ReadySame(g.cg, d, s1, a, s2);
    VoidReads();
    StartsGrow(s, s, s, s1, s2);
    GenIs(cg, s, Gen(a, VoidOp), s2);
  }

  /** An arm, and a jump at its end to blocks at which no more is needed than where the arm began. */
  lemma GenArm(cg: CG, s: Starts, a: CG, s1: Starts, b: Gen, s2: Starts, t: Terminator, at: nat, w: set<nat>)
    requires DomGen(cg, s, Gen(a, VoidOp), s1) && DomGen(a, s1, b, s2) && Good(a, b.cg) && |s1| == |a.p.blocks|
    requires Awaits(a, s1, at, w) && Now(cg, s) <= w && EndReads(t) <= RegsOf(b.op)
    requires forall k: nat | Goes(t, k) :: k < |s1| && s1[k] <= Now(a, s1)
    ensures DomGen(cg, s, Gen(b.cg.CloseAt(t, at), VoidOp), s2)
  {
    hide *;
    GenParts(cg, s, Gen(a, VoidOp), s1);
    GenParts(a, s1, b, s2);
    DomArm(a, s1, b.cg, s2, t, at, w);
    VoidReads();
    StartsGrow(s, s, s, s1, s2);
    GenIs(cg, s, Gen(b.cg.CloseAt(t, at), VoidOp), s2);
  }

  /** A phi of two values, each written at the end of the block it comes from. */
  lemma GenJoin(cg: CG, s: Starts, a: CG, s': Starts, x: Incoming, y: Incoming)
    requires a.Valid() && Dominated(a.p, s') && s <= s' && Now(cg, s) <= Now(a, s')
    requires x.from < |a.p.blocks| && RegsOf(x.op) <= AtEnd(a.p, s', x.from)
    requires y.from < |a.p.blocks| && RegsOf(y.op) <= AtEnd(a.p, s', y.from)
    ensures DomGen(cg, s, Gen(a.DefinePhi([x, y]), Reg(a.nextReg)), s')
    ensures DomGen(cg, s, JoinIf(x, y, a), s')
  {
    hide Dominated, CG.DefinePhi, AtEnd;
    DomPhi(a, [x, y], s');
    if x.op == VoidOp { GenIs(cg, s, Gen(a, VoidOp), s'); }
  }

  lemma {:induction false} DomAndOr(whole: Expr, l: Expr, r: Expr, isAnd: bool, cg: CG, d: set<Variable>, s: Starts) returns (s': Starts)
    requires whole == if isAnd then And(l, r) else Or(l, r)
    requires DomReady(cg, d, s) && Formed(l, d) && Formed(r, d + Decls(l))
    ensures DomGen(cg, s, CompileAndOr(l, r, isAnd, cg), s')
    decreases whole, 1
  {
    hide *;
    var q := ShortStates(l, r, isAnd, cg);
    var s1 := DomNext(l, false, cg, d, s);
    var k, w := |q.left.cg.p.blocks|, Now(q.left.cg, s1);
    GenParts(cg, s, q.left, s1);
    ShortReads(isAnd, q.left.op, k);
    var s2 := GenBranch(cg, s, q.left, s1, d + Decls(l), 2, ShortBranch(isAnd, q.left.op, k));
    GenParts(cg, s, Gen(q.g1, VoidOp), s2);
    s' := DomNext(r, false, q.g1, d + Decls(l), s2);
    GenParts(q.g1, s2, q.right, s');
    GoodKeeps(q.g1, q.right.cg);
    KeptAtEnd(q.g1, s2, q.right.cg, s', q.left.cg.cur);
    AwaitsIs(q.g1, s2, k + 1, w);
    ToOne(k + 1);
    DomArm(q.g1, s2, q.right.cg, s', Br(k + 1), k + 1, w);
    StartsGrow(s, s, s, s2, s');
    GenJoin(cg, s, q.g2, s', Incoming(q.right.op, q.right.cg.cur), Incoming(q.left.op, q.left.cg.cur));
  }

  lemma {:induction false} DomIf(c: Expr, t: Expr, e: Expr, cg: CG, d: set<Variable>, s: Starts) returns (s': Starts)
    requires DomReady(cg, d, s) && Formed(If(c, t, e), d)
    ensures DomGen(cg, s, CompileIf(c, t, e, cg), s')
    decreases If(c, t, e), 1
  {
    hide *;
    IfFormed(c, t, e, d);
    ReadyParts(cg, d, s);
    var q := IfStates(c, t, e, cg);
    var s1 := DomNext(c, false, cg, d, s);
    var k, w := |q.cond.cg.p.blocks|, Now(q.cond.cg, s1);
    GenNow(cg, s, q.cond, s1);
    ToTwo(q.cond.op, k, k + 1);
    var s2 := GenBranch(cg, s, q.cond, s1, d + Decls(c), 3, CondBr(q.cond.op, k, k + 1));
    GenParts(cg, s, Gen(q.g1, VoidOp), s2);
    var s3 := DomNext(t, false, q.g1, d + Decls(c), s2);
    GenParts(q.g1, s2, q.yes, s3);
    AwaitsIs(q.g1, s2, k + 1, w);
    AwaitsIs(q.g1, s2, k + 2, w);
    ToOne(k + 2);
    DomArm(q.g1, s2, q.yes.cg, s3, Br(k + 2), k + 1, w);
    assert Awaits(q.g2, s3, k + 2, w);
    ReadyAfter(t, q.g1, d + Decls(c), s2, q.yes, s3, q.g2, w);
    s' := DomNext(e, false, q.g2, d + Decls(c) + Decls(t), s3);
    GenParts(q.g2, s3, q.no, s');
    Lengths(q.g2.p, s3);
    AwaitsIs(q.g2, s3, k + 2, w);
    DomArm(q.g2, s3, q.no.cg, s', Br(k + 2), k + 2, w);
    GoodKeeps(q.g2, q.no.cg);
    GoodKeeps(q.g1, q.yes.cg);
    KeptAtEnd(q.g2, s3, q.no.cg, s', q.yes.cg.cur);
    StartsGrow(s, s, s2, s3, s');
    GenJoin(cg, s, q.g3, s', Incoming(q.yes.op, q.yes.cg.cur), Incoming(q.no.op, q.no.cg.cur));
  }

  lemma IfFormed(c: Expr, t: Expr, e: Expr, d: set<Variable>)
    requires Formed(If(c, t, e), d)
    ensures Formed(c, d) && Formed(t, d + Decls(c)) && Formed(e, d + Decls(c) + Decls(t))
  {
  }

  /** At a block beside an arm, what the arm declared is in scope too. */
  lemma ReadyAfter(e: Expr, a: CG, d: set<Variable>, s: Starts, g: Gen, s1: Starts, b: CG, w: set<nat>)
    requires DomReady(a, d, s) && Formed(e, d) && g == Compile(e, false, a) && Now(a, s) == w
    requires b.Valid() && b.vars == g.cg.vars && Dominated(b.p, s1) && Now(b, s1) == w
    ensures DomReady(b, d + Decls(e), s1)
  {
    hide Compile, Formed, Decls, Ordered, Dominated, Now, CG.Valid, Scoped, Kept;
    ScopeOf(e, false, a, d);
    DeclsAreDeclared(e, d);
    HoldsAfter(d, d + Decls(e), a.vars, b.vars, w, w);
  }

  lemma {:induction false} DomIfThen(c: Expr, t: Expr, cg: CG, d: set<Variable>, s: Starts) returns (s': Starts)
    requires DomReady(cg, d, s) && Formed(c, d) && Formed(t, d + Decls(c))
    ensures DomGen(cg, s, CompileIfThen(c, t, cg), s')
    decreases IfThen(c, t), 1
  {
    hide *;
    ReadyParts(cg, d, s);
    var q := IfThenStates(c, t, cg);
    var s1 := DomNext(c, false, cg, d, s);
    var k, w := |q.cond.cg.p.blocks|, Now(q.cond.cg, s1);
    ToTwo(q.cond.op, k, k + 1);
    var s2 := GenBranch(cg, s, q.cond, s1, d + Decls(c), 2, CondBr(q.cond.op, k, k + 1));
    s' := DomNext(t, false, q.g1, d + Decls(c), s2);
    AwaitsIs(q.g1, s2, k + 1, w);
    ToOne(k + 1);
    GenNow(cg, s, Gen(q.g1, VoidOp), s2);
    GenArm(cg, s, q.g1, s2, q.yes, s', Br(k + 1), k + 1, w);
  }

  lemma GenNow(cg: CG, s: Starts, g: Gen, s': Starts)
    requires DomGen(cg, s, g, s')
    ensures Now(cg, s) <= Now(g.cg, s')
  {
  }

  lemma VoidReads()
    ensures RegsOf(VoidOp) == {}
  {
  }

  lemma {:induction false} DomWhile(c: Expr, body: Expr, cg: CG, d: set<Variable>, s: Starts) returns (s': Starts)
    requires DomReady(cg, d, s) && Formed(c, d) && Formed(body, d + Decls(c))
    ensures DomGen(cg, s, CompileWhile(c, body, cg), s')
    decreases While(c, body), 1
  {
    hide *;
    ReadyParts(cg, d, s);
    var q := LoopStates(c, body, cg);
    var k, w := |cg.p.blocks|, Now(cg, s);
    ToOne(k);
    var s1 := DomBranch(cg, 3, Br(k), s);
    VoidReads();
    GenIs(cg, s, Gen(q.g1, VoidOp), s1);
    ReadySame(cg, d, s, q.g1, s1);
    var s2 := DomNext(c, false, q.g1, d, s1);
    AwaitsIs(q.g1, s1, k + 1, w);
    AwaitsIs(q.g1, s1, k + 2, w);
    ToTwo(q.cond.op, k + 1, k + 2);
    DomTest(cg, s, q.g1, d, s1, c, q.cond, s2, CondBr(q.cond.op, k + 1, k + 2), k + 1, k + 2, w);
    s' := DomNext(body, false, q.g2, d + Decls(c), s2);
    assert s2[k] == s1[k];
    GenArm(cg, s, q.g2, s2, q.body, s', Br(k), k + 2, w);
  }

  /** The test of a while loop, and the branch to its body. */
  lemma DomTest(cg: CG, s: Starts, a: CG, d: set<Variable>, s1: Starts, e: Expr, g: Gen, s2: Starts, t: Terminator, at: nat, end: nat, w: set<nat>)
    requires DomGen(cg, s, Gen(a, VoidOp), s1) && DomReady(a, d, s1) && Formed(e, d) && g == Compile(e, false, a)
    requires DomGen(a, s1, g, s2) && Good(a, g.cg) && |s1| == |a.p.blocks| && Now(a, s1) == Now(cg, s) == w && EndReads(t) == RegsOf(g.op)
    requires at != end && Awaits(a, s1, at, w) && Awaits(a, s1, end, w) && forall k: nat | Goes(t, k) :: k < |s1| && s1[k] <= w
    ensures var b := g.cg.CloseAt(t, at);
            && DomGen(cg, s, Gen(b, VoidOp), s2) && DomReady(b, d + Decls(e), s2) && Now(b, s2) == w && Awaits(b, s2, end, w)
            && s1 <= s2 && |s2| == |b.p.blocks|
  {
    hide *;
    GenParts(a, s1, g, s2);
    GenArm(cg, s, a, s1, g, s2, t, at, w);
    DomArm(a, s1, g.cg, s2, t, at, w);
    var b := g.cg.CloseAt(t, at);
    Lengths(b.p, s2);
    ReadyAfter(e, a, d, s1, g, s2, b, w);
  }

  // ---------------------------------------------------------------- elements of arrays

  lemma DomDefine(a: CG, i: Instr, s: Starts)
    requires a.Valid() && Dominated(a.p, s) && Reads(i) <= Now(a, s) && !i.Store? && !i.TrapNow? && i.dst == a.nextReg
    ensures a.Define(i).Valid() && Dominated(a.Define(i).p, s) && Now(a.Define(i), s) == Now(a, s) + {a.nextReg}
    ensures forall k, w | Awaits(a, s, k, w) :: Awaits(a.Define(i), s, k, w)
  {
    hide Dominated, CG.Emit, CG.Define, Now, Reads, Ext;
    DomEmit(a, i, s);
    GoodRefl(a);
    GoodEmit(a, a, i);
    EmitFrame(a, i);
  }

  lemma DomCompute(a: CG, prim: Prim, x: Operand, y: Operand, s: Starts)
    requires a.Valid() && Dominated(a.p, s) && RegsOf(x) <= Now(a, s) && RegsOf(y) <= Now(a, s)
    ensures var g := a.Compute(prim, x, y);
            && g.Valid() && g.vars == a.vars && g.nextReg == a.nextReg + 1 && g.cur == a.cur && |g.p.blocks| == |a.p.blocks| && g.p.phis == a.p.phis
            && Dominated(g.p, s) && Now(g, s) == Now(a, s) + {a.nextReg}
    ensures forall k, w | Awaits(a, s, k, w) :: Awaits(a.Compute(prim, x, y), s, k, w)
  {
    hide Dominated, CG.Emit, CG.Define, Now, CG.Valid, Awaits;
    DomDefine(a, Pure(a.nextReg, prim, x, y), s);
  }

  lemma DomTrapIf(cond: Operand, a: CG, s: Starts) returns (s': Starts)
    requires a.Valid() && Dominated(a.p, s) && RegsOf(cond) <= Now(a, s)
    ensures var g := TrapIf(cond, a);
            g.Valid() && Dominated(g.p, s') && s <= s' && Now(g, s') == Now(a, s)
  {
    hide Dominated, CG.Emit, CG.CloseAt, CG.Create, Now, CG.Valid, Awaits, EndReads, Goes, Reads, Writes, AtEnd, Ext;
    var t, w := |a.p.blocks|, Now(a, s);
    ToTwo(cond, t, t + 1);
    s' := DomBranch(a, 2, CondBr(cond, t, t + 1), s);
    var g1 := a.Create(2).CloseAt(CondBr(cond, t, t + 1), t);
    assert Reads(TrapNow) == {} && Writes(TrapNow) == {} by { TrapReads(); }
    DomEmit(g1, TrapNow, s');
    GoodRefl(g1);
    GoodEmit(g1, g1, TrapNow);
    Lengths(g1.p, s');
    assert Awaits(g1, s', t + 1, w);
    assert EndReads(Unreachable) == {} && forall b: nat :: !Goes(Unreachable, b) by { TrapReads(); }
    DomArm(g1, s', g1.Emit(TrapNow), s', Unreachable, t + 1, w);
  }

  lemma TrapReads()
    ensures Reads(TrapNow) == {} && Writes(TrapNow) == {} && EndReads(Unreachable) == {} && forall b: nat :: !Goes(Unreachable, b)
  {
  }

  lemma DomIndexRest(arr: Operand, ix: Operand, ref: bool, cg: CG, s: Starts) returns (s': Starts)
    requires cg.Valid() && Dominated(cg.p, s) && RegsOf(arr) <= Now(cg, s) && RegsOf(ix) <= Now(cg, s)
    ensures DomGen(cg, s, IndexRest(arr, ix, ref, cg), s')
  {
    hide Dominated, CG.Emit, CG.CloseAt, CG.Create, CG.Compute, CG.Define, Now, CG.Valid, Awaits, EndReads, Goes, Writes, AtEnd, Ext, TrapIf;
    var r := cg.nextReg;
    DomCompute(cg, ExtractPtr, arr, arr, s);
    var g1 := cg.Compute(ExtractPtr, arr, arr);
    DomCompute(g1, ExtractSize, arr, arr, s);
    var g2 := g1.Compute(ExtractSize, arr, arr);
    DomCompute(g2, CmpUGE, ix, Reg(r + 1), s);
    var g3 := g2.Compute(CmpUGE, ix, Reg(r + 1));
    assert IndexTest(arr, ix, cg) == g3;
    s' := DomTrapIf(Reg(r + 2), g3, s);
    FrameTrapIf(Reg(r + 2), g3);
    var g4 := TrapIf(Reg(r + 2), g3);
    DomCompute(g4, Gep, Reg(r), ix, s');
    var g5 := g4.Compute(Gep, Reg(r), ix);
    GenIs(cg, s, Gen(g5, Reg(r + 3)), s');
    GenDefine(cg, s, Gen(g5, Reg(r + 3)), s', Load(r + 4, Reg(r + 3))) by { LoadWrites(r + 4, Reg(r + 3)); }
  }

  lemma LoadWrites(r: nat, p: Operand)
    ensures Writes(Load(r, p)) == {r}
  {
  }

  lemma {:induction false} DomIndex(a: Expr, i: Expr, ref: bool, cg: CG, d: set<Variable>, s: Starts) returns (s': Starts)
    requires DomReady(cg, d, s) && Formed(a, d) && Formed(i, d + Decls(a))
    ensures DomGen(cg, s, CompileIndex(a, i, ref, cg), s')
    decreases Index(a, i), 1
  {
    hide *;
    var s1 := DomNext(a, false, cg, d, s);
    var arr := Compile(a, false, cg);
    var s2 := DomNext(i, false, arr.cg, d + Decls(a), s1);
    var ix := Compile(i, false, arr.cg);
    GenParts(arr.cg, s1, ix, s2);
    GoodEnds(arr.cg, ix.cg);
    GenThen(cg, s, arr, s1, ix, s2);
    s' := DomIndexRest(arr.op, ix.op, ref, ix.cg, s2);
    GenThen(cg, s, ix, s2, IndexRest(arr.op, ix.op, ref, ix.cg), s');
    IndexIs(a, i, ref, cg);
  }

  /** Edges into a for loop: the size test ends the block it is in and begins the loop block. */
  lemma DomForTest(arr: Operand, loop: nat, a: CG, s: Starts, b: CG, s': Starts, w: set<nat>, end: set<nat>)
    requires Good(a, b) && Dominated(b.p, s') && s <= s' && |s| == |a.p.blocks| && RegsOf(arr) <= Now(b, s')
    requires Awaits(a, s, loop, w) && Awaits(a, s, loop + 1, end) && end <= Now(b, s') && w <= Now(b, s') + {b.nextReg}
    ensures var g := ForTest(arr, loop, b);
            && g.Valid() && g.vars == b.vars && Dominated(g.p, s') && Now(g, s') == w && Awaits(g, s', loop + 1, end)
  {
    hide Dominated, CG.Emit, CG.CloseAt, CG.Create, CG.Compute, CG.Define, Now, CG.Valid, EndReads, Goes, AtEnd, Ext, Awaits;
    var r := b.nextReg;
    GoodEnds(a, b);
    DomCompute(b, ExtractSize, arr, arr, s');
    var b1 := b.Compute(ExtractSize, arr, arr);
    DomCompute(b1, CmpSGT, Reg(r), Const(VInt(0)), s');
    var b2 := b1.Compute(CmpSGT, Reg(r), Const(VInt(0)));
    GoodEmit(a, b, Pure(r, ExtractSize, arr, arr));
    GoodEmit(a, b1, Pure(r + 1, CmpSGT, Reg(r), Const(VInt(0))));
    AwaitsIs(a, s, loop, w);
    AwaitsIs(a, s, loop + 1, end);
    ToTwo(Reg(r + 1), loop, loop + 1);
    DomArm(a, s, b2, s', CondBr(Reg(r + 1), loop, loop + 1), loop, w);
  }

  lemma DomForBind(x: Variable, ix: Option<Variable>, arr: Operand, entry: nat, a: CG, s: Starts, loop: nat, end: set<nat>)
    requires a.Valid() && Dominated(a.p, s) && RegsOf(arr) <= Now(a, s) && entry < |a.p.blocks| && Awaits(a, s, loop + 1, end)
    ensures var g := ForBind(x, ix, arr, entry, a);
            && g.Valid() && Dominated(g.p, s) && Now(g, s) == Now(a, s) + {a.nextReg, a.nextReg + 1, a.nextReg + 2}
            && Awaits(g, s, loop + 1, end)
  {
    hide Dominated, CG.Emit, CG.Compute, CG.Define, CG.DefinePhi, Now, CG.Valid, Ext, Awaits, AtEnd;
    var r, list := a.nextReg, [Incoming(Const(VInt(0)), entry)];
    DomPhi(a, list, s);
    GoodRefl(a);
    GoodPhi(a, a, list);
    var a1 := a.DefinePhi(list);
    PhiAwaits(a, list, s, loop + 1, end);
    DomCompute(a1, ExtractPtr, arr, arr, s);
    var a2 := a1.Compute(ExtractPtr, arr, arr);
    DomCompute(a2, Gep, Reg(r + 1), Reg(r), s);
    var a3 := a2.Compute(Gep, Reg(r + 1), Reg(r));
    BindSame(a3, x, Reg(r + 2), s, loop + 1, end);
    if ix.Some? { BindSame(a3.Bind(x, Reg(r + 2)), ix.value, Reg(r), s, loop + 1, end); }
  }

  lemma BindSame(a: CG, x: Variable, op: Operand, s: Starts, k: nat, w: set<nat>)
    requires a.Valid() && Below(op, a.nextReg) && Awaits(a, s, k, w)
    ensures var g := a.Bind(x, op); g.Valid() && g.p == a.p && g.nextReg == a.nextReg && Now(g, s) == Now(a, s) && Awaits(g, s, k, w)
  {
  }

  lemma PhiAwaits(a: CG, list: seq<Incoming>, s: Starts, k: nat, w: set<nat>)
    requires a.Valid() && |list| <= 2 && Awaits(a, s, k, w)
    ensures Awaits(a.DefinePhi(list), s, k, w)
  {
    EmitFrame(a, Phi(a.nextReg));
    GoodRefl(a);
    GoodPhi(a, a, list);
  }

  lemma DomForNext(size: nat, phi: nat, loop: nat, a: CG, s: Starts, b: CG, s': Starts, w: set<nat>, end: set<nat>)
    requires Good(a, b) && Dominated(b.p, s') && s <= s' && |s| == |a.p.blocks| && size in Now(b, s') && phi in Now(b, s')
    requires loop < |s| && s[loop] == w && w <= Now(b, s') && Awaits(a, s, loop + 1, end) && end <= Now(b, s')
    ensures var g := ForNext(size, phi, loop, b); Dominated(g.p, s') && Now(g, s') == end
  {
    hide Dominated, CG.Emit, CG.CloseAt, CG.Create, CG.Compute, CG.Define, CG.AddIncoming, Now, CG.Valid, EndReads, Goes, AtEnd, Ext, Awaits;
    var n := b.nextReg;
    GoodEnds(a, b);
    DomCompute(b, Add, Reg(phi), Const(VInt(1)), s');
    var b1 := b.Compute(Add, Reg(phi), Const(VInt(1)));
    DomCompute(b1, CmpSLT, Reg(n), Reg(size), s');
    var b2 := b1.Compute(CmpSLT, Reg(n), Reg(size));
    GoodEmit(a, b, Pure(n, Add, Reg(phi), Const(VInt(1))));
    GoodEmit(a, b1, Pure(n + 1, CmpSLT, Reg(n), Reg(size)));
    AwaitsIs(a, s, loop + 1, end);
    ToTwo(Reg(n + 1), loop, loop + 1);
    DomArm(a, s, b2, s', CondBr(Reg(n + 1), loop, loop + 1), loop + 1, end);
    GoodKeeps(a, b);
    var g := b2.CloseAt(CondBr(Reg(n + 1), loop, loop + 1), loop + 1);
    ValidCur(b);
    DomIncoming(g, phi, Incoming(Reg(n), b.cur), s');
  }

  lemma ValidCur(a: CG)
    requires a.Valid()
    ensures a.cur < |a.p.blocks|
  {
  }

  /** At the body of a for loop, with its variables in scope. */
  lemma ReadyBody(x: Variable, ix: Option<Variable>, arr: Operand, entry: nat, a: CG, s: Starts, d: set<Variable>)
    requires Scoped(d, a.vars) && Holds(d, a.vars, Now(a, s))
    requires x.kind.ForElement? && x !in d && (ix.Some? ==> ix.value.kind.ForIndex? && ix.value !in d)
    requires var g := ForBind(x, ix, arr, entry, a);
             g.Valid() && Dominated(g.p, s) && Now(g, s) == Now(a, s) + {a.nextReg, a.nextReg + 1, a.nextReg + 2}
    ensures DomReady(ForBind(x, ix, arr, entry, a), d + LoopVars(x, ix), s)
  {
    hide Dominated, Now, CG.Valid, ForBind;
    ScopeForBind(x, ix, arr, entry, a, d);
  }

  lemma {:induction false} DomFor(x: Variable, ix: Option<Variable>, a: Expr, body: Expr, cg: CG, d: set<Variable>, s: Starts) returns (s': Starts)
    requires DomReady(cg, d, s) && Formed(For(x, ix, a, body), d)
    ensures DomGen(cg, s, CompileFor(x, ix, a, body, cg), s')
    decreases For(x, ix, a, body), 1
  {
    hide *;
    ReadyParts(cg, d, s);
    ForFormed(x, ix, a, body, d);
    var q := ForStates(x, ix, a, body, cg);
    var loop, now, w := |cg.p.blocks|, Now(cg, s), Now(cg, s) + RegsOf(q.arr.op) + {q.arr.cg.nextReg};
    var s0: Starts := s + [w, now];
    ForCreate(cg, d, s, w, s0);
    var s1 := DomNext(a, false, q.g0, d, s0);
    GenParts(q.g0, s0, q.arr, s1);
    DomForTest(q.arr.op, loop, q.g0, s0, q.arr.cg, s1, w, now);
    AwaitsIs(q.g0, s0, loop, w);
    AwaitsIs(q.g1, s1, loop + 1, now);
    ValidCur(cg);
    DomForBind(x, ix, q.arr.op, cg.cur, q.g1, s1, loop, now);
    ReadyForArray(a, cg, d, s, q.g0, s0, q.arr, q.g1, s1, w);
    ReadyBody(x, ix, q.arr.op, cg.cur, q.g1, s1, d + Decls(a));
    s' := DomNext(body, false, q.g2, d + Decls(a) + LoopVars(x, ix), s1);
    GenParts(q.g2, s1, q.body, s');
    Lengths(q.g2.p, s1);
    DomForNext(q.arr.cg.nextReg, q.g1.nextReg, loop, q.g2, s1, q.body.cg, s', w, now);
    VoidReads();
    StartsGrow(s, s, s0, s1, s');
    GenIs(cg, s, Gen(ForNext(q.arr.cg.nextReg, q.g1.nextReg, loop, q.body.cg), VoidOp), s');
  }

  lemma ForFormed(x: Variable, ix: Option<Variable>, a: Expr, body: Expr, d: set<Variable>)
    requires Formed(For(x, ix, a, body), d)
    ensures Formed(a, d) && x.kind.ForElement? && x !in d + Decls(a) && (ix.Some? ==> ix.value.kind.ForIndex? && ix.value !in d + Decls(a))
    ensures Formed(body, d + Decls(a) + LoopVars(x, ix))
  {
  }

  lemma ForCreate(cg: CG, d: set<Variable>, s: Starts, w: set<nat>, s0: Starts)
    requires DomReady(cg, d, s) && s0 == s + [w, Now(cg, s)] && cg.Create(2).Valid()
    ensures var g, loop := cg.Create(2), |cg.p.blocks|;
            && DomReady(g, d, s0) && s <= s0 && |s0| == loop + 2 && Now(g, s0) == Now(cg, s)
            && Awaits(g, s0, loop, w) && Awaits(g, s0, loop + 1, Now(cg, s))
  {
    hide Dominated, Now, CG.Create, Holds, Scoped;
    ReadyParts(cg, d, s);
    DomCreate(cg, 2, s, [w, Now(cg, s)]);
    GoodCreate(cg, 2);
    ReadySame(cg, d, s, cg.Create(2), s0);
  }

  /** At the loop block what was in scope is. */
  lemma ReadyForArray(a: Expr, cg: CG, d: set<Variable>, s: Starts, g0: CG, s0: Starts, arr: Gen, g1: CG, s1: Starts, w: set<nat>)
    requires DomReady(g0, d, s0) && Formed(a, d) && arr == Compile(a, false, g0) && g1.vars == arr.cg.vars
    requires Now(g0, s0) <= w && Now(g1, s1) == w
    ensures Scoped(d + Decls(a), g1.vars) && Holds(d + Decls(a), g1.vars, Now(g1, s1))
  {
    hide Compile, Formed, Decls, Ordered, Dominated, Now, CG.Valid, Scoped, Kept;
    ScopeOf(a, false, g0, d);
    DeclsAreDeclared(a, d);
    HoldsAfter(d, d + Decls(a), g0.vars, g1.vars, Now(g0, s0), w);
  }

  // ---------------------------------------------------------------- whole functions

  /** A function with the registers written wherever its blocks start. */
  lemma FunctionDominated(params: seq<Variable>, body: Expr) returns (s: Starts)
    requires FunctionOk(params, body)
    ensures var q := CompileFunction(params, body);
            Dominated(q, s) && |q.blocks| > 0 && s[0] <= FirstRegs(|params|) && (forall i :: !PhiAt(q, 0, i))
  {
    hide Compile, Formed, CG.CloseAt, CG.Update, ParamVars, Bound, Ext, ParamRegs, Dominated, EndReads;
    var none := seq(|params|, _ => VVoid);
    ParamsBound(params, none, none);
    var cg := Entry(params);
    EntryDominated(params);
    s := DomOf(body, false, cg, ParamSet(params), [FirstRegs(|params|)]);
    var g := Compile(body, false, cg);
    FrameOf(body, false, cg);
    StartPlain(body, false, cg);
    GenParts(cg, [FirstRegs(|params|)], g, s);
    RetReads(g.op);
    DomClose(g.cg, Ret(g.op), g.cg.cur, s);
    NoPhiAtStart(cg, g.cg, Ret(g.op));
  }

  lemma NoPhiAtStart(a: CG, b: CG, t: Terminator)
    requires NoNewPhi(a, b) && a.p.blocks == [FreshBlock] && b.Valid()
    ensures forall i :: !PhiAt(b.CloseAt(t, b.cur).p, 0, i)
  {
    assert b.CloseAt(t, b.cur).p.blocks[0].instrs == b.p.blocks[0].instrs;
    forall i ensures !PhiAt(b.CloseAt(t, b.cur).p, 0, i) {
      assert PhiAt(b.CloseAt(t, b.cur).p, 0, i) ==> PhiAt(b.p, 0, i);
    }
  }

  lemma RetReads(op: Operand)
    ensures EndReads(Ret(op)) == RegsOf(op) && forall b: nat :: !Goes(Ret(op), b)
  {
  }

  lemma EntryDominated(params: seq<Variable>)
    requires var none := seq(|params|, _ => VVoid);
             Bound(ParamSet(params), ParamVars(params), ParamEnv(params, none), ParamRegs(none))
    requires forall x | x in ParamVars(params) :: x in params && Below(ParamVars(params)[x], |params|)
    ensures DomReady(Entry(params), ParamSet(params), [FirstRegs(|params|)])
  {
    hide ParamVars, ParamEnv, ParamRegs;
    NothingWritten();
  }

  /** On every path through a lowered function, what is read has been written. */
  lemma FunctionReadsWritten(params: seq<Variable>, body: Expr, path: seq<nat>)
    requires FunctionOk(params, body) && IsPath(CompileFunction(params, body), path)
    ensures ReadsWritten(CompileFunction(params, body), |params|, path)
  {
    hide *;
    var s := FunctionDominated(params, body);
    PathReads(CompileFunction(params, body), s, |params|, path);
  }

  // ---------------------------------------------------------------- runs

  /** The registers the next step of the machine reads. */
  function StepReads(p: Program, c: Config): set<nat> {
    if !c.status.Going? || c.blk >= |p.blocks| then {}
    else
      var b := p.blocks[c.blk];
      if c.pc >= |b.instrs| then EndReads(b.term)
      else
        match b.instrs[c.pc]
        case Phi(dst) =>
          if dst !in p.phis then {}
          else
            (match FindIncoming(p.phis[dst], c.prev)
             case Some(op) => RegsOf(op)
             case None => {})
        case i => Reads(i)
  }

  /** Where the machine stands, what is written up to there is in its registers. */
  ghost predicate InStep(p: Program, s: Starts, c: Config) {
    c.status.Going? ==>
      && c.blk < |p.blocks| && c.blk < |s| && c.pc <= |p.blocks[c.blk].instrs|
      && s[c.blk] + Written(p.blocks[c.blk].instrs[..c.pc]) <= c.regs.Keys
      && (AtEnd(p, s, c.prev) <= c.regs.Keys || forall i :: !PhiAt(p, c.blk, i))
  }

  lemma FoundIncoming(list: seq<Incoming>, from: nat)
    requires FindIncoming(list, from).Some?
    ensures exists k :: 0 <= k < |list| && list[k].from == from && list[k].op == FindIncoming(list, from).value
  {
    if list[0].from != from {
      FoundIncoming(list[1..], from);
      var k :| 0 <= k < |list[1..]| && list[1..][k].from == from && list[1..][k].op == FindIncoming(list[1..], from).value;
      assert list[k + 1] == list[1..][k];
    } else {
      assert list[0].op == FindIncoming(list, from).value;
    }
  }

  lemma StepReadsWritten(p: Program, s: Starts, c: Config)
    requires Dominated(p, s) && InStep(p, s, c)
    ensures StepReads(p, c) <= c.regs.Keys
  {
    hide Written, Reads, EndReads;
    if c.status.Going? {
      var b := p.blocks[c.blk];
      assert Ordered(b, s[c.blk]);
      if c.pc == |b.instrs| {
        assert b.instrs[..c.pc] == b.instrs;
      } else if b.instrs[c.pc].Phi? && b.instrs[c.pc].dst in p.phis {
        var list := p.phis[b.instrs[c.pc].dst];
        assert PhiAt(p, c.blk, c.pc);
        assert PhiOk(p, s, list);
        if FindIncoming(list, c.prev).Some? { FoundIncoming(list, c.prev); }
      }
    }
  }

  lemma ExecWrites(p: Program, i: Instr, c: Config, ext: External)
    requires c.status.Going?
    ensures var c' := Exec(p, i, c, ext);
            c'.status.Going? ==> c'.blk == c.blk && c'.pc == c.pc + 1 && c'.prev == c.prev && c.regs.Keys + Writes(i) <= c'.regs.Keys
  {
  }

  lemma StepInStep(p: Program, s: Starts, c: Config, ext: External)
    requires Dominated(p, s) && InStep(p, s, c)
    ensures InStep(p, s, Step(p, c, ext))
  {
    hide Written, Writes, Ordered, Exec;
    if c.status.Going? {
      var b, c' := p.blocks[c.blk], Step(p, c, ext);
      if c.pc < |b.instrs| {
        ExecWrites(p, b.instrs[c.pc], c, ext);
        WrittenMore(b.instrs[..c.pc], b.instrs[c.pc]);
        assert b.instrs[..c.pc + 1] == b.instrs[..c.pc] + [b.instrs[c.pc]];
      } else if c'.status.Going? {
        assert Goes(b.term, c'.blk) && EdgeOk(p, s, c.blk, c'.blk);
        assert b.instrs[..c.pc] == b.instrs;
        NothingWritten();
      }
    }
  }

  lemma {:induction false} RunInStep(p: Program, s: Starts, n: nat, c: Config, ext: External)
    requires Dominated(p, s) && InStep(p, s, c)
    ensures InStep(p, s, Run(p, n, c, ext))
  {
    hide Dominated, InStep, Step;
    if n > 0 {
      StepInStep(p, s, c, ext);
      RunInStep(p, s, n - 1, Step(p, c, ext), ext);
    }
  }

  lemma StartsInStep(q: Program, s: Starts, args: seq<Value>, w: World)
    requires Dominated(q, s) && |q.blocks| > 0 && s[0] <= FirstRegs(|args|) && forall i :: !PhiAt(q, 0, i)
    ensures InStep(q, s, Initial(args, w))
  {
    NothingWritten();
  }

  /** No run of a lowered function reads a register that has not been written, whatever its
      arguments, memory and calls. */
  lemma RunReadsWritten(params: seq<Variable>, body: Expr, args: seq<Value>, w: World, ext: External, n: nat)
    requires FunctionOk(params, body) && |args| == |params|
    ensures var c := Run(CompileFunction(params, body), n, Initial(args, w), ext);
            StepReads(CompileFunction(params, body), c) <= c.regs.Keys
  {
    hide CompileFunction, Dominated, StepReads, FunctionOk, Run;
    var q, c := CompileFunction(params, body), Initial(args, w);
    var s := FunctionDominated(params, body);
    StartsInStep(q, s, args, w);
    RunInStep(q, s, n, c, ext);
    StepReadsWritten(q, s, Run(q, n, c, ext));
  }
}
