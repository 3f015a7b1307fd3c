/** Expression syntax: tokens, operator tables, and syntax trees that keep their parentheses.

    Identifiers the parser singles out (`not`, `and`, `if`, ...) are tokens of their own here. */
module Grammar {
  import opened Options

  datatype Atom =
    | Star | Slash | Percent | Plus | Minus | StarWrap | PlusWrap | MinusWrap
    | Less | LessEqual | Greater | GreaterEqual | EqualEqual | NotEqual
    | Equal | Dot | Comma | DotLess | OtherAtom(text: string)

  datatype Token =
    | AtomTok(a: Atom)
    | LParen | RParen | LBrack | RBrack | LCurly | RCurly
    | NotWord | NewWord | AndWord | OrWord | TrueWord | FalseWord
    | Keyword(word: string)
    | Ident(name: string)
    | Number(text: string)
    | StringLit(text: string)
    | End

  type Tokens = seq<Token>

  /** The token at the front; the end token when there is none. */
  function Head(s: Tokens): Token { if s == [] then End else s[0] }

  datatype UnaryOp = UPlus | UMinus | UNot | UDeref | UNew

  datatype BinaryOp =
    | MultiplyWrap | Multiply | Divide | Modulo
    | AddWrap | Add | SubtractWrap | Subtract
    | Lt | Le | Gt | Ge | Eq | Ne
    | And | Or

  function UnaryOf(t: Token): Option<UnaryOp> {
    match t
    case AtomTok(Plus) => Some(UPlus)
    case AtomTok(Minus) => Some(UMinus)
    case NotWord => Some(UNot)
    case AtomTok(Star) => Some(UDeref)
    case NewWord => Some(UNew)
    case _ => None
  }

  function UnaryToken(op: UnaryOp): (t: Token)
    ensures UnaryOf(t) == Some(op)
  {
    match op
    case UPlus => AtomTok(Plus)
    case UMinus => AtomTok(Minus)
    case UNot => NotWord
    case UDeref => AtomTok(Star)
    case UNew => NewWord
  }

  function BinaryOf(t: Token): (r: Option<BinaryOp>)
    ensures r.Some? ==> BinaryToken(r.value) == t
  {
    match t
    case AtomTok(StarWrap) => Some(MultiplyWrap)
    case AtomTok(Star) => Some(Multiply)
    case AtomTok(Slash) => Some(Divide)
    case AtomTok(Percent) => Some(Modulo)
    case AtomTok(PlusWrap) => Some(AddWrap)
    case AtomTok(Plus) => Some(Add)
    case AtomTok(MinusWrap) => Some(SubtractWrap)
    case AtomTok(Minus) => Some(Subtract)
    case AtomTok(Less) => Some(Lt)
    case AtomTok(LessEqual) => Some(Le)
    case AtomTok(Greater) => Some(Gt)
    case AtomTok(GreaterEqual) => Some(Ge)
    case AtomTok(EqualEqual) => Some(Eq)
    case AtomTok(NotEqual) => Some(Ne)
    case AndWord => Some(And)
    case OrWord => Some(Or)
    case _ => None
  }

  function BinaryToken(op: BinaryOp): Token {
    match op
    case MultiplyWrap => AtomTok(StarWrap)
    case Multiply => AtomTok(Star)
    case Divide => AtomTok(Slash)
    case Modulo => AtomTok(Percent)
    case AddWrap => AtomTok(PlusWrap)
    case Add => AtomTok(Plus)
    case SubtractWrap => AtomTok(MinusWrap)
    case Subtract => AtomTok(Minus)
    case Lt => AtomTok(Less)
    case Le => AtomTok(LessEqual)
    case Gt => AtomTok(Greater)
    case Ge => AtomTok(GreaterEqual)
    case Eq => AtomTok(EqualEqual)
    case Ne => AtomTok(NotEqual)
    case And => AndWord
    case Or => OrWord
  }

  lemma BinaryTokens(op: BinaryOp)
    ensures BinaryOf(BinaryToken(op)) == Some(op)
  {
  }

  function Priority(op: BinaryOp): (p: nat)
    ensures 2 <= p <= 7
  {
    match op
    case MultiplyWrap => 7 case Multiply => 7 case Divide => 7 case Modulo => 7
    case AddWrap => 6 case Add => 6 case SubtractWrap => 6 case Subtract => 6
    case Lt => 5 case Le => 5 case Gt => 5 case Ge => 5
    case Eq => 4 case Ne => 4
    case And => 3
    case Or => 2
  }

  /** The priority of the binary operator at the front, 0 when there is none. */
  function NextPriority(s: Tokens): nat {
    if BinaryOf(Head(s)).Some? then Priority(BinaryOf(Head(s)).value) else 0
  }

  /** Any identifier token, as a field name may be. */
  predicate IsIdent(t: Token) {
    t.NotWord? || t.NewWord? || t.AndWord? || t.OrWord? || t.TrueWord? || t.FalseWord? || t.Keyword? || t.Ident?
  }

  /** Identifiers that name something when they stand where a term is expected. */
  predicate IsName(t: Token) {
    t.Ident? || t.AndWord? || t.OrWord?
  }

  /** Tokens that are a term by themselves. */
  predicate IsWord(t: Token) {
    IsName(t) || t.TrueWord? || t.FalseWord? || t.Number? || t.StringLit?
  }

  // ---------------------------------------------------------------- syntax trees with parentheses

  datatype Expr = Leaf(p: Prim) | Node(op: BinaryOp, l: Expr, r: Expr)

  datatype Prim =
    | Word(t: Token)
    | Paren(items: Items)
    | Unary(uop: UnaryOp, e: Prim)
    | Call(f: Prim, args: Items)
    | Method(self: Prim, name: Token, args: Items)
    | Index(a: Prim, i: Expr)
    | Member(a: Prim, name: Token)
    | Assign(target: Prim, value: Expr)

  /** A comma-separated list; comma tells whether a comma follows the item. */
  datatype Items = Nil | Cons(head: Expr, comma: bool, tail: Items)

  function Text(c: Expr): Tokens {
    match c
    case Leaf(p) => PrimText(p)
    case Node(op, l, r) => Text(l) + [BinaryToken(op)] + Text(r)
  }

  function PrimText(p: Prim): Tokens {
    match p
    case Word(t) => [t]
    case Paren(items) => [LParen] + ItemsText(items) + [RParen]
    case Unary(op, e) => [UnaryToken(op)] + PrimText(e)
    case Call(f, args) => PrimText(f) + ([LParen] + ItemsText(args) + [RParen])
    case Method(self, name, args) => PrimText(self) + ([AtomTok(Dot), name, LParen] + ItemsText(args) + [RParen])
    case Index(a, i) => PrimText(a) + ([LBrack] + Text(i) + [RBrack])
    case Member(a, name) => PrimText(a) + [AtomTok(Dot), name]
    case Assign(target, value) => PrimText(target) + ([AtomTok(Equal)] + Text(value))
  }

  function ItemsText(items: Items): Tokens {
    match items
    case Nil => []
    case Cons(c, comma, tail) => Text(c) + (if comma then [AtomTok(Comma)] else []) + ItemsText(tail)
  }

  /** Ends in an assignment, whose value would take in a following operator. */
  predicate Open(c: Expr) {
    match c
    case Leaf(p) => PrimOpen(p)
    case Node(_, _, r) => Open(r)
  }

  predicate PrimOpen(p: Prim) {
    p.Assign? || (p.Unary? && PrimOpen(p.e))
  }

  predicate FitsLeft(op: BinaryOp, l: Expr) {
    (l.Leaf? || Priority(l.op) >= Priority(op)) && !Open(l)
  }

  predicate FitsRight(op: BinaryOp, r: Expr) {
    r.Leaf? || Priority(r.op) > Priority(op)
  }

  /** A term with calls, indexes and members, but no operator in front of it. */
  predicate IsPostfix(p: Prim) {
    !p.Unary? && !p.Assign?
  }

  /** Operators bind as their priorities say, left to right; a call of a member is a method call. */
  predicate Proper(c: Expr) {
    match c
    case Leaf(p) => PrimProper(p)
    case Node(op, l, r) => Proper(l) && Proper(r) && FitsLeft(op, l) && FitsRight(op, r)
  }

  predicate PrimProper(p: Prim) {
    match p
    case Word(t) => IsWord(t)
    case Paren(items) => ItemsProper(items)
    case Unary(_, e) => PrimProper(e)
    case Call(f, args) => IsPostfix(f) && !f.Member? && PrimProper(f) && ItemsProper(args)
    case Method(self, name, args) => IsPostfix(self) && PrimProper(self) && IsIdent(name) && ItemsProper(args)
    case Index(a, i) => IsPostfix(a) && PrimProper(a) && Proper(i)
    case Member(a, name) => IsPostfix(a) && PrimProper(a) && IsIdent(name)
    case Assign(target, value) => IsPostfix(target) && PrimProper(target) && Proper(value)
  }

  /** Commas separate the items; one more may follow the last. */
  predicate ItemsProper(items: Items) {
    match items
    case Nil => true
    case Cons(c, comma, tail) => Proper(c) && ItemsProper(tail) && (tail.Cons? ==> comma)
  }

  // ---------------------------------------------------------------- what the tree means

  /** The same without parentheses: what the parser hands on. */
  datatype Tree =
    | TWord(t: Token)
    | TVoid
    | TTuple(es: Trees)
    | TUnary(uop: UnaryOp, e: Tree)
    | TBinary(op: BinaryOp, l: Tree, r: Tree)
    | TCall(f: Tree, args: Trees)
    | TMethod(self: Tree, name: Token, args: Trees)
    | TIndex(a: Tree, i: Tree)
    | TMember(a: Tree, name: Token)
    | TAssign(target: Tree, value: Tree)

  datatype Trees = TNil | TCons(head: Tree, tail: Trees)

  function Bare(c: Expr): Tree {
    match c
    case Leaf(p) => PrimBare(p)
    case Node(op, l, r) => TBinary(op, Bare(l), Bare(r))
  }

  function PrimBare(p: Prim): Tree {
    match p
    case Word(t) => TWord(t)
    case Paren(items) => Grouped(ItemsBare(items))
    case Unary(op, e) => TUnary(op, PrimBare(e))
    case Call(f, args) => TCall(PrimBare(f), ItemsBare(args))
    case Method(self, name, args) => TMethod(PrimBare(self), name, ItemsBare(args))
    case Index(a, i) => TIndex(PrimBare(a), Bare(i))
    case Member(a, name) => TMember(PrimBare(a), name)
    case Assign(target, value) => TAssign(PrimBare(target), Bare(value))
  }

  /** Parentheses around nothing are the void value, around one expression that expression, around
      several a tuple. */
  function Grouped(es: Trees): Tree {
    if es.TNil? then TVoid else if es.tail.TNil? then es.head else TTuple(es)
  }

  function ItemsBare(items: Items): Trees {
    match items
    case Nil => TNil
    case Cons(c, _, tail) => TCons(Bare(c), ItemsBare(tail))
  }
}
