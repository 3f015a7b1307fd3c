/** Printing a tree with parentheses only where they are needed, and reading it back. */
module Printer {
  import opened Options
  import opened Grammar
  import opened Parser
  import opened ParserProof

  /** Words are words, names are identifiers, and tuples have at least two elements. */
  predicate Printable(t: Tree) {
    match t
    case TWord(w) => IsWord(w)
    case TVoid => true
    case TTuple(es) => es.TCons? && es.tail.TCons? && AllPrintable(es)
    case TUnary(_, e) => Printable(e)
    case TBinary(_, l, r) => Printable(l) && Printable(r)
    case TCall(f, args) => Printable(f) && AllPrintable(args)
    case TMethod(self, name, args) => Printable(self) && IsIdent(name) && AllPrintable(args)
    case TIndex(a, i) => Printable(a) && Printable(i)
    case TMember(a, name) => Printable(a) && IsIdent(name)
    case TAssign(target, value) => Printable(target) && Printable(value)
  }

  predicate AllPrintable(es: Trees) {
    es.TCons? ==> Printable(es.head) && AllPrintable(es.tail)
  }

  function Group(c: Expr): Prim { Paren(Cons(c, false, Nil)) }

  function Unless(fits: bool, c: Expr): Expr {
    if fits then c else Leaf(Group(c))
  }

  /** An operand is parenthesised only when it does not fit where it stands. */
  function Print(t: Tree): Expr
    decreases t, 2
  {
    match t
    case TBinary(op, l, r) =>
      var left, right := Print(l), Print(r);
      Node(op, Unless(FitsLeft(op, left), left), Unless(FitsRight(op, right), right))
    case _ => Leaf(PrintPrim(t))
  }

  function AsPrim(c: Expr): Prim {
    if c.Leaf? then c.p else Group(c)
  }

  function AsPostfix(p: Prim): Prim {
    if IsPostfix(p) then p else Group(Leaf(p))
  }

  /** The function of a call: a member would make it a method call. */
  function AsCallee(p: Prim): Prim {
    if p.Member? then Group(Leaf(p)) else p
  }

  function PrintPrim(t: Tree): Prim
    requires !t.TBinary?
    decreases t, 1
  {
    match t
    case TWord(w) => Word(w)
    case TVoid => Paren(Nil)
    case TTuple(es) => Paren(PrintAll(es))
    case TUnary(op, e) => Unary(op, AsPrim(Print(e)))
    case TCall(f, args) => Call(AsCallee(AsPostfix(AsPrim(Print(f)))), PrintAll(args))
    case TMethod(self, name, args) => Method(AsPostfix(AsPrim(Print(self))), name, PrintAll(args))
    case TIndex(a, i) => Index(AsPostfix(AsPrim(Print(a))), Print(i))
    case TMember(a, name) => Member(AsPostfix(AsPrim(Print(a))), name)
    case TAssign(target, value) => Assign(AsPostfix(AsPrim(Print(target))), Print(value))
  }

  function PrintAll(es: Trees): Items
    decreases es, 0
  {
    match es
    case TNil => Nil
    case TCons(t, rest) => Cons(Print(t), rest.TCons?, PrintAll(rest))
  }

  lemma GroupBare(c: Expr)
    ensures PrimBare(Group(c)) == Bare(c) && (Proper(c) ==> PrimProper(Group(c)))
    ensures IsPostfix(Group(c)) && !PrimOpen(Group(c))
  {
    assert ItemsBare(Cons(c, false, Nil)) == TCons(Bare(c), TNil);
    assert ItemsProper(Cons(c, false, Nil)) == Proper(c);
  }

  lemma PostfixBare(c: Expr)
    requires Proper(c)
    ensures var p := AsPostfix(AsPrim(c)); PrimProper(p) && IsPostfix(p) && PrimBare(p) == Bare(c)
    ensures PrimProper(AsPrim(c)) && PrimBare(AsPrim(c)) == Bare(c)
    ensures var p := AsCallee(AsPostfix(AsPrim(c))); PrimProper(p) && IsPostfix(p) && !p.Member? && PrimBare(p) == Bare(c)
  {
    hide Proper;
    GroupBare(c);
    if c.Leaf? { LeafProper(c); } else { GroupBare(Leaf(Group(c))); }
    var p := AsPrim(c);
    LeafProper(Leaf(p));
    GroupBare(Leaf(p));
  }

  lemma LeafProper(c: Expr)
    requires c.Leaf?
    ensures Proper(c) <==> PrimProper(c.p)
  {
  }

  /** What is printed is proper and means the tree. */
  lemma {:induction false} PrintProper(t: Tree)
    requires Printable(t)
    ensures Proper(Print(t)) && Bare(Print(t)) == t
    decreases t, 2
  {
    hide IsWord, IsIdent, Open, Priority;
    match t
    case TBinary(op, l, r) =>
      PrintProper(l);
      PrintProper(r);
      GroupBare(Print(l));
      GroupBare(Print(r));
      LeafProper(Leaf(Group(Print(l))));
      LeafProper(Leaf(Group(Print(r))));
      GroupFits(op, Print(l));
    case _ => PrintPrimProper(t);
  }

  lemma GroupFits(op: BinaryOp, c: Expr)
    ensures FitsLeft(op, Leaf(Group(c))) && FitsRight(op, Leaf(Group(c)))
  {
  }

  lemma {:induction false} PrintPrimProper(t: Tree)
    requires Printable(t) && !t.TBinary?
    ensures PrimProper(PrintPrim(t)) && PrimBare(PrintPrim(t)) == t
    decreases t, 1
  {
    hide IsWord, IsIdent, AsPostfix, AsPrim, AsCallee, Print;
    match t
    case TWord(w) =>
    case TVoid =>
    case TTuple(es) => PrintAllProper(es);
    case TUnary(op, e) =>
      PrintProper(e);
      PostfixBare(Print(e));
    case TCall(f, args) =>
      PrintProper(f);
      PostfixBare(Print(f));
      PrintAllProper(args);
    case TMethod(self, name, args) =>
      PrintProper(self);
      PostfixBare(Print(self));
      PrintAllProper(args);
    case TIndex(a, i) =>
      PrintProper(a);
      PostfixBare(Print(a));
      PrintProper(i);
    case TMember(a, name) =>
      PrintProper(a);
      PostfixBare(Print(a));
    case TAssign(target, value) =>
      PrintProper(target);
      PostfixBare(Print(target));
      PrintProper(value);
  }

  lemma {:induction false} PrintAllProper(es: Trees)
    requires AllPrintable(es)
    ensures ItemsProper(PrintAll(es)) && ItemsBare(PrintAll(es)) == es
    decreases es, 0
  {
    hide Print, Proper, Printable;
    match es
    case TNil =>
    case TCons(t, rest) =>
      PrintProper(t);
      PrintAllProper(rest);
  }

  /** Reading what was printed gives the tree back. */
  lemma RoundTrip(t: Tree)
    requires Printable(t)
    ensures var r := ParseExpr(Text(Print(t))); r.Ok? && r.rest == [] && Bare(r.v) == t
  {
    hide ParseExpr, Print, Bare, Proper;
    PrintProper(t);
    ParseExact(Text(Print(t)), Print(t));
  }

  // ---------------------------------------------------------------- no parentheses too many

  /** The number of parentheses around a single expression. */
  function Groups(c: Expr): nat {
    match c
    case Leaf(p) => PrimGroups(p)
    case Node(_, l, r) => Groups(l) + Groups(r)
  }

  function PrimGroups(p: Prim): nat {
    match p
    case Word(_) => 0
    case Paren(items) => ItemsGroups(items) + if items.Cons? && items.tail.Nil? then 1 else 0
    case Unary(_, e) => PrimGroups(e)
    case Call(f, args) => PrimGroups(f) + ItemsGroups(args)
    case Method(self, _, args) => PrimGroups(self) + ItemsGroups(args)
    case Index(a, i) => PrimGroups(a) + Groups(i)
    case Member(a, _) => PrimGroups(a)
    case Assign(target, value) => PrimGroups(target) + Groups(value)
  }

  function ItemsGroups(items: Items): nat {
    match items
    case Nil => 0
    case Cons(c, _, tail) => Groups(c) + ItemsGroups(tail)
  }

  predicate IsGroup(p: Prim) {
    p.Paren? && p.items.Cons? && p.items.tail.Nil?
  }

  lemma GroupCount(c: Expr)
    ensures PrimGroups(Group(c)) == Groups(c) + 1
  {
    assert ItemsGroups(Cons(c, false, Nil)) == Groups(c) + ItemsGroups(Nil);
  }

  /** c has at least as many groups as its tree needs; one more when the printed form must not stay
      open at the end. */
  ghost predicate Enough(n: nat, c: Expr, t: Tree) {
    && Groups(Print(t)) <= n
    && (Open(Print(t)) && !Open(c) ==> Groups(Print(t)) + 1 <= n)
  }

  /** No proper expression for the same tree has fewer parentheses than the printed one. */
  lemma {:induction false} Minimal(c: Expr)
    requires Proper(c)
    ensures Enough(Groups(c), c, Bare(c))
    decreases c, 1
  {
    match c
    case Leaf(p) => MinimalPrim(p); OpenLeaf(p);
    case Node(op, l, r) =>
      Minimal(l);
      Minimal(r);
      if l.Leaf? { MinimalPrim(l.p); OpenLeaf(l.p); }
      if r.Leaf? { MinimalPrim(r.p); OpenLeaf(r.p); }
      MinimalLeft(op, l);
      MinimalRight(op, r);
      MinimalNode(op, l, r);
  }

  lemma OpenLeaf(p: Prim)
    ensures Open(Leaf(p)) == PrimOpen(p) && Groups(Leaf(p)) == PrimGroups(p) && Bare(Leaf(p)) == PrimBare(p)
  {
  }

  /** A binary tree is printed as a node; what is read as a binary tree is a node or a group. */
  lemma PrintedNode(t: Tree)
    ensures Print(t).Node? <==> t.TBinary?
    ensures t.TBinary? ==> Print(t).op == t.op
  {
  }

  lemma MinimalLeft(op: BinaryOp, l: Expr)
    requires FitsLeft(op, l) && Enough(Groups(l), l, Bare(l))
    requires l.Leaf? && Bare(l).TBinary? ==> Groups(Print(Bare(l))) + 1 <= Groups(l)
    ensures var left := Print(Bare(l)); Groups(Unless(FitsLeft(op, left), left)) <= Groups(l)
  {
    hide Print, Open, Groups, Priority;
    GroupCount(Print(Bare(l)));
    PrintedNode(Bare(l));
    OpenLeaf(Group(Print(Bare(l))));
  }

  lemma MinimalRight(op: BinaryOp, r: Expr)
    requires FitsRight(op, r) && Enough(Groups(r), r, Bare(r))
    requires r.Leaf? && Bare(r).TBinary? ==> Groups(Print(Bare(r))) + 1 <= Groups(r)
    ensures var right := Print(Bare(r)); var right' := Unless(FitsRight(op, right), right);
            Groups(right') <= Groups(r) && (Open(right') && !Open(r) ==> Groups(right') + 1 <= Groups(r))
  {
    hide Print, Open, Groups, Priority;
    GroupCount(Print(Bare(r)));
    PrintedNode(Bare(r));
    OpenLeaf(Group(Print(Bare(r))));
    GroupBare(Print(Bare(r)));
  }

  lemma MinimalNode(op: BinaryOp, l: Expr, r: Expr)
    requires var left := Print(Bare(l)); Groups(Unless(FitsLeft(op, left), left)) <= Groups(l)
    requires var right := Print(Bare(r)); var right' := Unless(FitsRight(op, right), right);
             Groups(right') <= Groups(r) && (Open(right') && !Open(r) ==> Groups(right') + 1 <= Groups(r))
    ensures Enough(Groups(Node(op, l, r)), Node(op, l, r), Bare(Node(op, l, r)))
  {
    hide Unless, FitsLeft, FitsRight;
  }

  /** Which trees are printed as a term with postfixes, and which as a member. */
  lemma PrintedPostfix(p: Prim)
    requires IsPostfix(p) && !IsGroup(p)
    ensures var t := PrimBare(p); Print(t).Leaf? && IsPostfix(Print(t).p) && (Print(t).p.Member? <==> p.Member?)
  {
    hide AsPrim, AsPostfix, AsCallee, PrintAll;
    match p
    case Paren(items) =>
      if items.Cons? {
        assert ItemsBare(items) == TCons(Bare(items.head), ItemsBare(items.tail));
        assert ItemsBare(items.tail).TCons?;
      }
    case _ =>
  }

  /** Printing what stands before a call, an index or a member costs no more than it did. */
  lemma MinimalPostfix(p: Prim)
    requires IsPostfix(p) && Groups(Print(PrimBare(p))) <= PrimGroups(p)
    requires IsGroup(p) ==> Groups(Print(PrimBare(p))) + 1 <= PrimGroups(p)
    ensures var c := Print(PrimBare(p));
            PrimGroups(AsPostfix(AsPrim(c))) <= PrimGroups(p)
            && (!p.Member? ==> PrimGroups(AsCallee(AsPostfix(AsPrim(c)))) <= PrimGroups(p))
  {
    hide Print, PrimGroups, Groups;
    var c := Print(PrimBare(p));
    GroupCount(c);
    if c.Leaf? {
      OpenLeaf(c.p);
    }
    if !IsGroup(p) { PrintedPostfix(p); }
    if c.Leaf? { GroupCount(Leaf(c.p)); }
  }

  /** Printing the operand of a unary operator costs no more than it did. */
  lemma MinimalOperand(e: Prim)
    requires Enough(PrimGroups(e), Leaf(e), PrimBare(e))
    requires PrimBare(e).TBinary? ==> Groups(Print(PrimBare(e))) + 1 <= PrimGroups(e)
    ensures var q := AsPrim(Print(PrimBare(e))); PrimGroups(q) <= PrimGroups(e) && (PrimOpen(q) && !PrimOpen(e) ==> PrimGroups(q) + 1 <= PrimGroups(e))
  {
    hide Print, PrimGroups, Groups, PrimOpen, Open;
    var c := Print(PrimBare(e));
    GroupCount(c);
    PrintedNode(PrimBare(e));
    GroupBare(c);
    OpenLeaf(e);
    if c.Leaf? { OpenLeaf(c.p); }
  }

  /** What Enough says of a tree that is not binary. */
  lemma EnoughPrim(n: nat, p: Prim, t: Tree)
    requires !t.TBinary? && PrimGroups(PrintPrim(t)) <= n
    requires PrimOpen(PrintPrim(t)) && !PrimOpen(p) ==> PrimGroups(PrintPrim(t)) + 1 <= n
    ensures Enough(n, Leaf(p), t)
  {
    hide PrintPrim, PrimGroups, PrimOpen;
    OpenLeaf(p);
    OpenLeaf(PrintPrim(t));
  }

  lemma EnoughLeast(n: nat, c: Expr, t: Tree)
    requires Enough(n, c, t)
    ensures Groups(Print(t)) <= n
  {
  }

  lemma {:induction false} MinimalPrim(p: Prim)
    requires PrimProper(p)
    ensures Enough(PrimGroups(p), Leaf(p), PrimBare(p))
    ensures PrimBare(p).TBinary? ==> IsGroup(p)
    ensures IsGroup(p) ==> Groups(Print(PrimBare(p))) + 1 <= PrimGroups(p)
    decreases p, 0
  {
    hide AsPrim, AsPostfix, AsCallee, Enough, Groups, Print;
    match p
    case Word(_) => EnoughPrim(0, p, PrimBare(p));
    case Paren(items) => MinimalParen(items);
    case Unary(op, e) =>
      MinimalPrim(e);
      MinimalOperand(e);
      EnoughPrim(PrimGroups(p), p, PrimBare(p));
    case Call(f, args) =>
      MinimalPrim(f);
      EnoughLeast(PrimGroups(f), Leaf(f), PrimBare(f));
      MinimalPostfix(f);
      MinimalItems(args);
      EnoughPrim(PrimGroups(p), p, PrimBare(p));
    case Method(self, name, args) =>
      MinimalPrim(self);
      EnoughLeast(PrimGroups(self), Leaf(self), PrimBare(self));
      MinimalPostfix(self);
      MinimalItems(args);
      EnoughPrim(PrimGroups(p), p, PrimBare(p));
    case Index(a, i) =>
      MinimalPrim(a);
      EnoughLeast(PrimGroups(a), Leaf(a), PrimBare(a));
      MinimalPostfix(a);
      Minimal(i);
      EnoughLeast(Groups(i), i, Bare(i));
      EnoughPrim(PrimGroups(p), p, PrimBare(p));
    case Member(a, name) =>
      MinimalPrim(a);
      EnoughLeast(PrimGroups(a), Leaf(a), PrimBare(a));
      MinimalPostfix(a);
      EnoughPrim(PrimGroups(p), p, PrimBare(p));
    case Assign(target, value) =>
      MinimalPrim(target);
      EnoughLeast(PrimGroups(target), Leaf(target), PrimBare(target));
      MinimalPostfix(target);
      Minimal(value);
      EnoughLeast(Groups(value), value, Bare(value));
      EnoughPrim(PrimGroups(p), p, PrimBare(p));
  }

  lemma {:induction false} MinimalParen(items: Items)
    requires ItemsProper(items)
    ensures Enough(PrimGroups(Paren(items)), Leaf(Paren(items)), PrimBare(Paren(items)))
    ensures IsGroup(Paren(items)) ==> Groups(Print(PrimBare(Paren(items)))) + 1 <= PrimGroups(Paren(items))
    ensures PrimBare(Paren(items)).TBinary? ==> IsGroup(Paren(items))
    decreases items, 1
  {
    MinimalItems(items);
  }

  lemma {:induction false} MinimalItems(items: Items)
    requires ItemsProper(items)
    ensures ItemsGroups(PrintAll(ItemsBare(items))) <= ItemsGroups(items)
    ensures items.Cons? ==> Enough(Groups(items.head), items.head, Bare(items.head))
    decreases items, 0
  {
    match items
    case Nil =>
    case Cons(c, _, tail) =>
      Minimal(c);
      MinimalItems(tail);
  }

  /** Printing uses the fewest parentheses any proper expression for the tree has. */
  lemma FewestParentheses(c: Expr)
    requires Proper(c)
    ensures Groups(Print(Bare(c))) <= Groups(c)
  {
    hide Print, Groups, Proper;
    Minimal(c);
  }
}
