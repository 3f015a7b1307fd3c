/** The lowered form: basic blocks with phi nodes, and the machine that runs them.

    A block is a list of instructions followed by at most one terminator.  The incoming
    lists of phi nodes are kept beside the blocks, so that adding an incoming edge later
    (as a loop does) extends a list instead of rewriting an instruction.
 */
module IR {
  import opened Options

  /** What a program variable is, and so what the code generator binds it to. */
  datatype VariableKind = Declared | ForElement | ForIndex | Argument

  datatype Variable = Variable(id: nat, kind: VariableKind)

  /** A storage address: the stack slot of a declared variable, or a heap cell. */
  datatype Addr = Local(x: Variable) | Cell(block: nat, index: int)

  datatype Value =
    | VVoid
    | VBool(b: bool)
    | VInt(n: int)
    | VPtr(a: Addr)
    | VArr(base: Addr, size: int)
    | VFn(name: string)

  type Mem = map<Addr, Value>

  datatype Event = Call(f: Value, args: seq<Value>)

  /** Everything outside the registers: memory, the next fresh heap block, and the calls made so far. */
  datatype World = World(mem: Mem, next: nat, trace: seq<Event>)

  /** What a called function does: it returns a value and a new memory, or traps. */
  datatype CallResult = CallReturns(v: Value, mem: Mem, next: nat) | CallTraps(mem: Mem)

  type External = (Value, seq<Value>, Mem, nat) -> CallResult

  const TWO31: int := 0x8000_0000
  const TWO32: int := 0x1_0000_0000

  /** Reads the low 32 bits as a signed integer. */
  function I32(n: int): int {
    (n + TWO31) % TWO32 - TWO31
  }

  /** Reads the low 32 bits as an unsigned integer. */
  function U32(n: int): int {
    n % TWO32
  }

  function AsBool(v: Value): bool { v == VBool(true) }

  function AsInt(v: Value): int { if v.VInt? then I32(v.n) else 0 }

  function LoadFrom(mem: Mem, p: Value): Value {
    if p.VPtr? && p.a in mem then mem[p.a] else VVoid
  }

  function StoreTo(mem: Mem, p: Value, v: Value): Mem {
    if p.VPtr? then mem[p.a := v] else mem
  }

  /** The element pointers of an array value; element 0 is where the array starts. */
  function ArrayPtr(v: Value): Value {
    if v.VArr? then VPtr(v.base) else VVoid
  }

  function ArraySize(v: Value): int {
    if v.VArr? then I32(v.size) else 0
  }

  function ElementPtr(p: Value, i: Value): Value {
    if p.VPtr? && p.a.Cell? then VPtr(Cell(p.a.block, p.a.index + AsInt(i))) else VVoid
  }

  /** Unsigned comparison: a negative index counts as a huge one. */
  function OutOfBounds(index: int, size: int): bool {
    U32(index) >= U32(size)
  }

  datatype Operand = Const(v: Value) | Reg(r: nat)

  datatype Prim = Not | ExtractPtr | ExtractSize | CmpUGE | CmpSGT | CmpSLT | Add | Gep

  function Apply(p: Prim, a: Value, b: Value): Value {
    match p
    case Not => VBool(!AsBool(a))
    case ExtractPtr => ArrayPtr(a)
    case ExtractSize => VInt(ArraySize(a))
    case CmpUGE => VBool(U32(AsInt(a)) >= U32(AsInt(b)))
    case CmpSGT => VBool(AsInt(a) > AsInt(b))
    case CmpSLT => VBool(AsInt(a) < AsInt(b))
    case Add => VInt(I32(AsInt(a) + AsInt(b)))
    case Gep => ElementPtr(a, b)
  }

  datatype Instr =
    | Pure(dst: nat, prim: Prim, a: Operand, b: Operand)
    | Load(dst: nat, p: Operand)
    | Store(v: Operand, p: Operand)
    | NewCell(dst: nat)
    | Invoke(dst: nat, f: Operand, args: seq<Operand>)
    | Phi(dst: nat)
    | TrapNow

  datatype Terminator =
    | Open
    | Br(to: nat)
    | CondBr(cond: Operand, yes: nat, no: nat)
    | Unreachable
    | Ret(op: Operand)

  /** Whether control may go from t to block b. */
  predicate Goes(t: Terminator, b: nat) {
    match t
    case Br(to) => to == b
    case CondBr(_, yes, no) => yes == b || no == b
    case _ => false
  }

  datatype Block = Block(instrs: seq<Instr>, term: Terminator)

  datatype Incoming = Incoming(op: Operand, from: nat)

  datatype Program = Program(blocks: seq<Block>, phis: map<nat, seq<Incoming>>)

  // ---------------------------------------------------------------- the machine

  type Regs = map<nat, Value>

  datatype Status = Going | Returned(v: Value) | Trapped | Stuck

  /** prev is the block the machine came from. */
  datatype Config = Config(status: Status, blk: nat, pc: nat, prev: nat, regs: Regs, w: World)

  function OpVal(regs: Regs, op: Operand): Value {
    match op
    case Const(v) => v
    case Reg(r) => if r in regs then regs[r] else VVoid
  }

  function OpVals(regs: Regs, ops: seq<Operand>): (vs: seq<Value>)
    ensures |vs| == |ops|
  {
    if ops == [] then [] else [OpVal(regs, ops[0])] + OpVals(regs, ops[1..])
  }

  /** The first incoming operand listed for the block the machine came from. */
  function FindIncoming(list: seq<Incoming>, from: nat): (r: Option<Operand>)
    ensures r.Some? <==> exists i :: 0 <= i < |list| && list[i].from == from
  {
    if list == [] then None
    else if list[0].from == from then Some(list[0].op)
    else FindIncoming(list[1..], from)
  }

  function MakeCell(w: World): (Value, World) {
    (VPtr(Cell(w.next, 0)), w.(next := w.next + 1))
  }

  function Exec(p: Program, i: Instr, c: Config, ext: External): Config {
    match i
    case Pure(dst, prim, a, b) =>
      c.(pc := c.pc + 1, regs := c.regs[dst := Apply(prim, OpVal(c.regs, a), OpVal(c.regs, b))])
    case Load(dst, a) =>
      c.(pc := c.pc + 1, regs := c.regs[dst := LoadFrom(c.w.mem, OpVal(c.regs, a))])
    case Store(v, a) =>
      c.(pc := c.pc + 1, w := c.w.(mem := StoreTo(c.w.mem, OpVal(c.regs, a), OpVal(c.regs, v))))
    case NewCell(dst) =>
      var r := MakeCell(c.w);
      c.(pc := c.pc + 1, regs := c.regs[dst := r.0], w := r.1)
    case Invoke(dst, f, args) =>
      var fv, vs := OpVal(c.regs, f), OpVals(c.regs, args);
      var t := c.w.trace + [Call(fv, vs)];
      (match ext(fv, vs, c.w.mem, c.w.next)
       case CallReturns(v, mem, next) => c.(pc := c.pc + 1, regs := c.regs[dst := v], w := World(mem, next, t))
       case CallTraps(mem) => c.(status := Trapped, w := World(mem, c.w.next, t)))
    case Phi(dst) =>
      if dst !in p.phis then c.(status := Stuck)
      else (match FindIncoming(p.phis[dst], c.prev)
            case None => c.(status := Stuck)
            case Some(op) => c.(pc := c.pc + 1, regs := c.regs[dst := OpVal(c.regs, op)]))
    case TrapNow => c.(status := Trapped)
  }

  function GoTo(to: nat, c: Config): Config {
    c.(blk := to, pc := 0, prev := c.blk)
  }

  function Jump(t: Terminator, c: Config): Config {
    match t
    case Br(to) => GoTo(to, c)
    case CondBr(cond, yes, no) => GoTo(if AsBool(OpVal(c.regs, cond)) then yes else no, c)
    case Ret(op) => c.(status := Returned(OpVal(c.regs, op)))
    case Unreachable => c.(status := Stuck)
    case Open => c.(status := Stuck)
  }

  function Step(p: Program, c: Config, ext: External): Config {
    if !c.status.Going? then c
    else if c.blk >= |p.blocks| then c.(status := Stuck)
    else
      var b := p.blocks[c.blk];
      if c.pc < |b.instrs| then Exec(p, b.instrs[c.pc], c, ext) else Jump(b.term, c)
  }

  /** The configuration after n steps. */
  function Run(p: Program, n: nat, c: Config, ext: External): Config {
    if n == 0 then c else Run(p, n - 1, Step(p, c, ext), ext)
  }

  lemma {:induction false} RunPlus(p: Program, m: nat, n: nat, c: Config, ext: External)
    ensures Run(p, m + n, c, ext) == Run(p, n, Run(p, m, c, ext), ext)
  {
    if m > 0 {
      RunPlus(p, m - 1, n, Step(p, c, ext), ext);
    }
  }

  /** Once the machine has stopped it stays where it is. */
  lemma {:induction false} StoppedStays(p: Program, n: nat, c: Config, ext: External)
    requires !c.status.Going?
    ensures Run(p, n, c, ext) == c
  {
    if n > 0 {
      StoppedStays(p, n - 1, c, ext);
    }
  }

  /** Two runs of the same machine that have both stopped stopped in the same way. */
  lemma StopsOnce(p: Program, m: nat, n: nat, c: Config, ext: External)
    requires !Run(p, m, c, ext).status.Going? && !Run(p, n, c, ext).status.Going?
    ensures Run(p, m, c, ext) == Run(p, n, c, ext)
  {
    if m <= n {
      RunPlus(p, m, n - m, c, ext);
      StoppedStays(p, n - m, Run(p, m, c, ext), ext);
    } else {
      RunPlus(p, n, m - n, c, ext);
      StoppedStays(p, m - n, Run(p, n, c, ext), ext);
    }
  }
}
