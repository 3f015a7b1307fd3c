/** The structured language that is lowered, and its direct evaluation. */
module Source {
  import opened Options
  import opened IR

  datatype Expr =
    | LitVoid
    | LitBool(b: bool)
    | LitInt(n: int)
    | FnRef(name: string)
    | Var(x: Variable)
    | NotE(e: Expr)
    | Deref(e: Expr)
    | New(e: Expr)
    | And(l: Expr, r: Expr)
    | Or(l: Expr, r: Expr)
    | BlockE(es: Exprs)
    | CallE(f: Expr, args: Exprs, isVoid: bool)
    | Index(a: Expr, i: Expr)
    | Assign(l: Expr, r: Expr)
    | If(c: Expr, t: Expr, e: Expr)
    | IfThen(c: Expr, t: Expr)
    | For(x: Variable, ix: Option<Variable>, a: Expr, body: Expr)
    | While(c: Expr, body: Expr)
    | VarDecl(x: Variable, e: Expr)

  datatype Exprs = Nil | Cons(head: Expr, tail: Exprs)

  // ---------------------------------------------------------------- evaluation

  /** The values of the loop variables and arguments in scope. */
  type Env = map<Variable, Value>

  /** Timeout: more than the allowed number of iterations of some while loop.  Broken: a for loop that
      cannot be gone through as it is lowered. */
  datatype Outcome = Done(v: Value, w: World) | Trap(w: World) | Timeout | Broken

  datatype Outcomes = DoneAll(vs: seq<Value>, w: World) | TrapAll(w: World) | TimeoutAll | BrokenAll

  /** Whether evaluation goes through every for loop, as the program is written, or stops at the first
      one whose array has elements and whose array expression spans more than one block. */
  datatype Loops = AsWritten | AsLowered

  function Binding(env: Env, x: Variable): Value {
    if x.kind.Declared? then VPtr(Local(x)) else if x in env then env[x] else VVoid
  }

  /** Declared variables and loop elements are storage; indices and arguments are plain values. */
  predicate IsStorage(x: Variable) { x.kind.Declared? || x.kind.ForElement? }

  function DoCall(f: Value, vs: seq<Value>, isVoid: bool, w: World, ext: External): (r: Outcome)
    ensures !r.Timeout? && !r.Broken?
  {
    var t := w.trace + [Call(f, vs)];
    match ext(f, vs, w.mem, w.next)
    case CallReturns(v, mem, next) => Done(if isVoid then VVoid else v, World(mem, next, t))
    case CallTraps(mem) => Trap(World(mem, w.next, t))
  }

  function LoopEnv(env: Env, x: Variable, ix: Option<Variable>, arr: Value, i: int): Env {
    var env' := env[x := ElementPtr(ArrayPtr(arr), VInt(i))];
    if ix.Some? then env'[ix.value := VInt(i)] else env'
  }

  /** Direct evaluation.  With ref, storage expressions yield their address instead of their contents.
      fuel bounds the iterations of each while loop. */
  function Eval(e: Expr, ref: bool, env: Env, w: World, ext: External, loops: Loops, fuel: nat): Outcome
    decreases fuel, e, 2
  {
    match e
    case LitVoid => Done(VVoid, w)
    case LitBool(b) => Done(VBool(b), w)
    case LitInt(n) => Done(VInt(I32(n)), w)
    case FnRef(name) => Done(VFn(name), w)
    case Var(x) =>
      if IsStorage(x) && !ref then Done(LoadFrom(w.mem, Binding(env, x)), w) else Done(Binding(env, x), w)
    case NotE(e1) => EvalNot(e1, env, w, ext, loops, fuel)
    case Deref(e1) => EvalDeref(e1, ref, env, w, ext, loops, fuel)
    case New(e1) => EvalNew(e1, env, w, ext, loops, fuel)
    case And(l, r) => EvalAndOr(l, r, true, env, w, ext, loops, fuel)
    case Or(l, r) => EvalAndOr(l, r, false, env, w, ext, loops, fuel)
    case BlockE(es) => EvalBody(es, VVoid, env, w, ext, loops, fuel)
    case CallE(f, args, isVoid) => EvalCall(f, args, isVoid, env, w, ext, loops, fuel)
    case Index(a, i) => EvalIndex(a, i, ref, env, w, ext, loops, fuel)
    case Assign(l, r) => EvalAssign(l, r, env, w, ext, loops, fuel)
    case If(c, t, e1) => EvalIf(c, t, e1, env, w, ext, loops, fuel)
    case IfThen(c, t) => EvalIfThen(c, t, env, w, ext, loops, fuel)
    case For(x, ix, a, body) =>
      (match Eval(a, false, env, w, ext, loops, fuel)
       case Done(arr, w1) =>
         if loops.AsLowered? && Opens(a) && ArraySize(arr) > 0 then Broken
         else EvalFor(x, ix, arr, 0, body, env, w1, ext, loops, fuel)
       case stop => stop)
    case While(c, body) => EvalWhile(c, body, env, w, ext, loops, fuel)
    case VarDecl(x, e1) => EvalVarDecl(x, e1, env, w, ext, loops, fuel)
  }

  function EvalNot(e: Expr, env: Env, w: World, ext: External, loops: Loops, fuel: nat): Outcome
    decreases fuel, NotE(e), 1
  {
    match Eval(e, false, env, w, ext, loops, fuel)
    case Done(v, w1) => Done(VBool(!AsBool(v)), w1)
    case stop => stop
  }

  function EvalDeref(e: Expr, ref: bool, env: Env, w: World, ext: External, loops: Loops, fuel: nat): Outcome
    decreases fuel, Deref(e), 1
  {
    match Eval(e, false, env, w, ext, loops, fuel)
    case Done(v, w1) => Done(if ref then v else LoadFrom(w1.mem, v), w1)
    case stop => stop
  }

  function EvalNew(e: Expr, env: Env, w: World, ext: External, loops: Loops, fuel: nat): Outcome
    decreases fuel, New(e), 1
  {
    match Eval(e, false, env, w, ext, loops, fuel)
    case Done(v, w1) =>
      var (p, w2) := MakeCell(w1);
      Done(p, w2.(mem := StoreTo(w2.mem, p, v)))
    case stop => stop
  }

  /** The right side is evaluated only when the left side does not decide the result. */
  function EvalAndOr(l: Expr, r: Expr, isAnd: bool, env: Env, w: World, ext: External, loops: Loops, fuel: nat): Outcome
    decreases fuel, (if isAnd then And(l, r) else Or(l, r)), 1
  {
    match Eval(l, false, env, w, ext, loops, fuel)
    case Done(v, w1) => if AsBool(v) == isAnd then Eval(r, false, env, w1, ext, loops, fuel) else Done(v, w1)
    case stop => stop
  }

  function EvalCall(f: Expr, args: Exprs, isVoid: bool, env: Env, w: World, ext: External, loops: Loops, fuel: nat): Outcome
    decreases fuel, CallE(f, args, isVoid), 1
  {
    match Eval(f, false, env, w, ext, loops, fuel)
    case Done(fv, w1) =>
      (match EvalArgs(args, env, w1, ext, loops, fuel)
       case DoneAll(vs, w2) => DoCall(fv, vs, isVoid, w2, ext)
       case TrapAll(w2) => Trap(w2)
       case TimeoutAll => Timeout
       case BrokenAll => Broken)
    case stop => stop
  }

  /** An index outside the array traps after both operands are evaluated. */
  function EvalIndex(a: Expr, i: Expr, ref: bool, env: Env, w: World, ext: External, loops: Loops, fuel: nat): Outcome
    decreases fuel, Index(a, i), 1
  {
    match Eval(a, false, env, w, ext, loops, fuel)
    case Done(arr, w1) =>
      (match Eval(i, false, env, w1, ext, loops, fuel)
       case Done(iv, w2) => IndexInto(arr, iv, ref, w2)
       case stop => stop)
    case stop => stop
  }

  function IndexInto(arr: Value, iv: Value, ref: bool, w: World): (r: Outcome)
    ensures !r.Timeout? && !r.Broken?
  {
    if OutOfBounds(AsInt(iv), ArraySize(arr)) then Trap(w)
    else
      var p := ElementPtr(ArrayPtr(arr), iv);
      Done(if ref then p else LoadFrom(w.mem, p), w)
  }

  /** The address is evaluated before the value. */
  function EvalAssign(l: Expr, r: Expr, env: Env, w: World, ext: External, loops: Loops, fuel: nat): Outcome
    decreases fuel, Assign(l, r), 1
  {
    match Eval(l, true, env, w, ext, loops, fuel)
    case Done(p, w1) =>
      (match Eval(r, false, env, w1, ext, loops, fuel)
       case Done(v, w2) => Done(VVoid, w2.(mem := StoreTo(w2.mem, p, v)))
       case stop => stop)
    case stop => stop
  }

  function EvalIf(c: Expr, t: Expr, e: Expr, env: Env, w: World, ext: External, loops: Loops, fuel: nat): Outcome
    decreases fuel, If(c, t, e), 1
  {
    match Eval(c, false, env, w, ext, loops, fuel)
    case Done(v, w1) => if AsBool(v) then Eval(t, false, env, w1, ext, loops, fuel) else Eval(e, false, env, w1, ext, loops, fuel)
    case stop => stop
  }

  function EvalIfThen(c: Expr, t: Expr, env: Env, w: World, ext: External, loops: Loops, fuel: nat): Outcome
    decreases fuel, IfThen(c, t), 1
  {
    match Eval(c, false, env, w, ext, loops, fuel)
    case Done(v, w1) =>
      if AsBool(v) then
        (match Eval(t, false, env, w1, ext, loops, fuel)
         case Done(_, w2) => Done(VVoid, w2)
         case stop => stop)
      else Done(VVoid, w1)
    case stop => stop
  }

  function EvalWhile(c: Expr, body: Expr, env: Env, w: World, ext: External, loops: Loops, fuel: nat): Outcome
    decreases fuel, While(c, body), 1
  {
    if fuel == 0 then Timeout
    else
      match Eval(c, false, env, w, ext, loops, fuel)
      case Done(v, w1) =>
        if !AsBool(v) then Done(VVoid, w1)
        else
          (match Eval(body, false, env, w1, ext, loops, fuel)
           case Done(_, w2) => EvalWhile(c, body, env, w2, ext, loops, fuel - 1)
           case stop => stop)
      case stop => stop
  }

  function EvalVarDecl(x: Variable, e: Expr, env: Env, w: World, ext: External, loops: Loops, fuel: nat): Outcome
    decreases fuel, VarDecl(x, e), 1
  {
    match Eval(e, false, env, w, ext, loops, fuel)
    case Done(v, w1) => Done(VVoid, w1.(mem := StoreTo(w1.mem, VPtr(Local(x)), v)))
    case stop => stop
  }

  /** A block's value is its last expression's; an empty block is void. */
  function EvalBody(es: Exprs, last: Value, env: Env, w: World, ext: External, loops: Loops, fuel: nat): Outcome
    decreases fuel, es, 0
  {
    match es
    case Nil => Done(last, w)
    case Cons(e, rest) =>
      (match Eval(e, false, env, w, ext, loops, fuel)
       case Done(v, w1) => EvalBody(rest, v, env, w1, ext, loops, fuel)
       case stop => stop)
  }

  function EvalArgs(es: Exprs, env: Env, w: World, ext: External, loops: Loops, fuel: nat): Outcomes
    decreases fuel, es, 0
  {
    match es
    case Nil => DoneAll([], w)
    case Cons(e, rest) =>
      (match Eval(e, false, env, w, ext, loops, fuel)
       case Done(v, w1) =>
         (match EvalArgs(rest, env, w1, ext, loops, fuel)
          case DoneAll(vs, w2) => DoneAll([v] + vs, w2)
          case stop => stop)
       case Trap(w1) => TrapAll(w1)
       case Timeout => TimeoutAll
       case Broken => BrokenAll)
  }

  /** Elements i, i + 1, ... of arr in order; the array value is fixed before the first iteration. */
  function EvalFor(x: Variable, ix: Option<Variable>, arr: Value, i: nat, body: Expr, env: Env, w: World, ext: External, loops: Loops, fuel: nat): Outcome
    decreases fuel, body, (if i < ArraySize(arr) then ArraySize(arr) - i else 0) + 3
  {
    if i >= ArraySize(arr) then Done(VVoid, w)
    else
      match Eval(body, false, LoopEnv(env, x, ix, arr, i), w, ext, loops, fuel)
      case Done(_, w1) => EvalFor(x, ix, arr, i + 1, body, env, w1, ext, loops, fuel)
      case stop => stop
  }

  /** One iteration of a while loop. */
  lemma WhileMeans(c: Expr, body: Expr, env: Env, w: World, ext: External, loops: Loops, fuel: nat)
    requires fuel > 0
    ensures EvalWhile(c, body, env, w, ext, loops, fuel)
         == match Eval(c, false, env, w, ext, loops, fuel)
            case Done(v, w1) =>
              if !AsBool(v) then Done(VVoid, w1)
              else
                (match Eval(body, false, env, w1, ext, loops, fuel)
                 case Done(_, w2) => EvalWhile(c, body, env, w2, ext, loops, fuel - 1)
                 case stop => stop)
            case stop => stop
  {
    hide Eval;
  }

  // ---------------------------------------------------------------- static conditions

  /** Expressions of type void: the ones lowered to no value at all. */
  predicate IsVoid(e: Expr) {
    match e
    case LitVoid => true
    case Assign(_, _) => true
    case IfThen(_, _) => true
    case For(_, _, _, _) => true
    case While(_, _) => true
    case VarDecl(_, _) => true
    case CallE(_, _, isVoid) => isVoid
    case BlockE(es) => IsVoidBody(es, true)
    case If(_, t, _) => IsVoid(t)
    case _ => false
  }

  predicate IsVoidBody(es: Exprs, last: bool) {
    match es
    case Nil => last
    case Cons(e, rest) => IsVoidBody(rest, IsVoid(e))
  }

  /** Expressions whose code spans more than one block. */
  predicate Opens(e: Expr) {
    match e
    case And(_, _) => true
    case Or(_, _) => true
    case Index(_, _) => true
    case If(_, _, _) => true
    case IfThen(_, _) => true
    case For(_, _, _, _) => true
    case While(_, _) => true
    case NotE(e1) => Opens(e1)
    case Deref(e1) => Opens(e1)
    case New(e1) => Opens(e1)
    case VarDecl(_, e1) => Opens(e1)
    case Assign(l, r) => Opens(l) || Opens(r)
    case BlockE(es) => OpensAny(es)
    case CallE(f, args, _) => Opens(f) || OpensAny(args)
    case _ => false
  }

  predicate OpensAny(es: Exprs) {
    match es
    case Nil => false
    case Cons(e, rest) => Opens(e) || OpensAny(rest)
  }

  /** The variables declared (by a var declaration) anywhere inside. */
  function Decls(e: Expr): set<Variable> {
    match e
    case NotE(e1) => Decls(e1)
    case Deref(e1) => Decls(e1)
    case New(e1) => Decls(e1)
    case VarDecl(x, e1) => Decls(e1) + {x}
    case Assign(l, r) => Decls(l) + Decls(r)
    case And(l, r) => Decls(l) + Decls(r)
    case Or(l, r) => Decls(l) + Decls(r)
    case Index(a, i) => Decls(a) + Decls(i)
    case If(c, t, e1) => Decls(c) + Decls(t) + Decls(e1)
    case IfThen(c, t) => Decls(c) + Decls(t)
    case For(_, _, a, body) => Decls(a) + Decls(body)
    case While(c, body) => Decls(c) + Decls(body)
    case BlockE(es) => DeclsOf(es)
    case CallE(f, args, _) => Decls(f) + DeclsOf(args)
    case _ => {}
  }

  function DeclsOf(es: Exprs): set<Variable> {
    match es
    case Nil => {}
    case Cons(e, rest) => Decls(e) + DeclsOf(rest)
  }

  /** What name resolution and type checking guarantee: every use of a variable comes after its
      declaration, a for loop's variables are new, and the branches of an if agree on being void. */
  predicate Formed(e: Expr, d: set<Variable>) {
    match e
    case Var(x) => x in d
    case NotE(e1) => Formed(e1, d)
    case Deref(e1) => Formed(e1, d) && !IsVoid(e1)
    case New(e1) => Formed(e1, d)
    case VarDecl(x, e1) => x.kind.Declared? && Formed(e1, d)
    case Assign(l, r) => Formed(l, d) && Formed(r, d + Decls(l))
    case And(l, r) => Formed(l, d) && Formed(r, d + Decls(l))
    case Or(l, r) => Formed(l, d) && Formed(r, d + Decls(l))
    case Index(a, i) => Formed(a, d) && Formed(i, d + Decls(a))
    case If(c, t, e1) =>
      && Formed(c, d)
      && Formed(t, d + Decls(c))
      && Formed(e1, d + Decls(c) + Decls(t))
      && (IsVoid(t) <==> IsVoid(e1))
    case IfThen(c, t) => Formed(c, d) && Formed(t, d + Decls(c))
    case For(x, ix, a, body) =>
      && Formed(a, d)
      && x.kind.ForElement? && x !in d + Decls(a)
      && (ix.Some? ==> ix.value.kind.ForIndex? && ix.value !in d + Decls(a))
      && Formed(body, d + Decls(a) + LoopVars(x, ix))
    case While(c, body) => Formed(c, d) && Formed(body, d + Decls(c))
    case BlockE(es) => FormedAll(es, d)
    case CallE(f, args, _) => Formed(f, d) && FormedAll(args, d + Decls(f))
    case _ => true
  }

  predicate FormedAll(es: Exprs, d: set<Variable>) {
    match es
    case Nil => true
    case Cons(e, rest) => Formed(e, d) && FormedAll(rest, d + Decls(e))
  }

  function LoopVars(x: Variable, ix: Option<Variable>): set<Variable> {
    if ix.Some? then {x, ix.value} else {x}
  }

  /** Every for loop's array expression stays inside one block. */
  predicate PlainFors(e: Expr) {
    match e
    case NotE(e1) => PlainFors(e1)
    case Deref(e1) => PlainFors(e1)
    case New(e1) => PlainFors(e1)
    case VarDecl(_, e1) => PlainFors(e1)
    case Assign(l, r) => PlainFors(l) && PlainFors(r)
    case And(l, r) => PlainFors(l) && PlainFors(r)
    case Or(l, r) => PlainFors(l) && PlainFors(r)
    case Index(a, i) => PlainFors(a) && PlainFors(i)
    case If(c, t, e1) => PlainFors(c) && PlainFors(t) && PlainFors(e1)
    case IfThen(c, t) => PlainFors(c) && PlainFors(t)
    case For(_, _, a, body) => !Opens(a) && PlainFors(a) && PlainFors(body)
    case While(c, body) => PlainFors(c) && PlainFors(body)
    case BlockE(es) => PlainForsAll(es)
    case CallE(f, args, _) => PlainFors(f) && PlainForsAll(args)
    case _ => true
  }

  predicate PlainForsAll(es: Exprs) {
    match es
    case Nil => true
    case Cons(e, rest) => PlainFors(e) && PlainForsAll(rest)
  }
}
