/** Which operators bind more tightly, as a table of tokens, and what that means for texts. */
module Precedence {
  import opened Options
  import opened Grammar
  import opened Parser
  import opened ParserProof

  /** The binary operators, those that bind least first. */
  const LEVELS: seq<seq<Token>> := [
    [OrWord],
    [AndWord],
    [AtomTok(EqualEqual), AtomTok(NotEqual)],
    [AtomTok(Less), AtomTok(LessEqual), AtomTok(Greater), AtomTok(GreaterEqual)],
    [AtomTok(Plus), AtomTok(Minus), AtomTok(PlusWrap), AtomTok(MinusWrap)],
    [AtomTok(Star), AtomTok(Slash), AtomTok(Percent), AtomTok(StarWrap)]
  ]

  lemma Levels()
    ensures |LEVELS| == 6 && LEVELS[0] == [OrWord] && LEVELS[1] == [AndWord] && LEVELS[2] == [AtomTok(EqualEqual), AtomTok(NotEqual)]
    ensures LEVELS[3] == [AtomTok(Less), AtomTok(LessEqual), AtomTok(Greater), AtomTok(GreaterEqual)]
    ensures LEVELS[4] == [AtomTok(Plus), AtomTok(Minus), AtomTok(PlusWrap), AtomTok(MinusWrap)]
    ensures LEVELS[5] == [AtomTok(Star), AtomTok(Slash), AtomTok(Percent), AtomTok(StarWrap)]
  {
  }

  /** A token is a binary operator if and only if it is in the table, and its priority says where. */
  lemma LevelsExactly(t: Token)
    ensures BinaryOf(t).Some? <==> exists i :: 0 <= i < |LEVELS| && t in LEVELS[i]
    ensures forall i | 0 <= i < |LEVELS| && t in LEVELS[i] :: BinaryOf(t).Some? && Priority(BinaryOf(t).value) == i + 2
  {
    hide LEVELS;
    Levels();
    forall i | 0 <= i < |LEVELS| && t in LEVELS[i]
      ensures BinaryOf(t).Some? && Priority(BinaryOf(t).value) == i + 2
    {
      if i == 0 { } else if i == 1 { } else if i == 2 { } else if i == 3 { } else if i == 4 { } else { assert i == 5; }
    }
    if BinaryOf(t).Some? {
      assert t in LEVELS[Priority(BinaryOf(t).value) - 2];
    }
  }

  lemma TextOfTwo(op: BinaryOp, l: Expr, r: Expr)
    ensures Text(Node(op, l, r)) == Text(l) + [BinaryToken(op)] + Text(r)
    ensures l.Leaf? && l.p.Word? ==> Text(l) == [l.p.t]
    ensures r.Leaf? && r.p.Word? ==> Text(r) == [r.p.t]
  {
  }

  lemma TextOfItems(a: Token, b: Token)
    ensures ItemsText(Cons(Name(a), false, Nil)) == [a]
    ensures ItemsText(Cons(Name(a), true, Cons(Name(b), false, Nil))) == [a, AtomTok(Comma), b]
  {
    assert ItemsText(Nil) == [] && Text(Name(a)) == [a] && Text(Name(b)) == [b];
    assert ItemsText(Cons(Name(b), false, Nil)) == Text(Name(b)) + [] + ItemsText(Nil);
    assert ItemsText(Cons(Name(a), false, Nil)) == Text(Name(a)) + [] + ItemsText(Nil);
  }

  /** The texts of a prefix operator on a term that something follows. */
  lemma TextOfPrefix(op: UnaryOp, a: Token, b: Token)
    ensures PrimText(Unary(op, Word(a))) == [UnaryToken(op), a]
    ensures PrimText(Unary(op, Index(Word(a), Name(b)))) == [UnaryToken(op), a, LBrack, b, RBrack]
    ensures PrimText(Unary(op, Call(Word(a), Cons(Name(b), false, Nil)))) == [UnaryToken(op), a, LParen, b, RParen]
    ensures PrimText(Unary(op, Member(Word(a), b))) == [UnaryToken(op), a, AtomTok(Dot), b]
  {
    TextOfItems(b, b);
    assert PrimText(Word(a)) == [a] && Text(Name(b)) == [b];
    assert PrimText(Index(Word(a), Name(b))) == [a] + ([LBrack] + [b] + [RBrack]);
    assert PrimText(Call(Word(a), Cons(Name(b), false, Nil))) == [a] + ([LParen] + [b] + [RParen]);
    assert PrimText(Member(Word(a), b)) == [a] + [AtomTok(Dot), b];
  }

  function Name(t: Token): Expr { Leaf(Word(t)) }

  /** Of two operators the one of the higher level binds its operands; of equal levels the first does. */
  lemma TwoOperators(a: Token, t1: Token, b: Token, t2: Token, c: Token, i: nat, j: nat)
    requires IsWord(a) && IsWord(b) && IsWord(c) && i < |LEVELS| && j < |LEVELS| && t1 in LEVELS[i] && t2 in LEVELS[j]
    ensures BinaryOf(t1).Some? && BinaryOf(t2).Some?
    ensures var op1, op2 := BinaryOf(t1).value, BinaryOf(t2).value;
            var left, right := Node(op2, Node(op1, Name(a), Name(b)), Name(c)), Node(op1, Name(a), Node(op2, Name(b), Name(c)));
            ParseExpr([a, t1, b, t2, c]) == Ok(if i >= j then left else right, [])
  {
    hide ParseExpr, LEVELS;
    LevelsExactly(t1);
    LevelsExactly(t2);
    var op1, op2 := BinaryOf(t1).value, BinaryOf(t2).value;
    var left, right := Node(op2, Node(op1, Name(a), Name(b)), Name(c)), Node(op1, Name(a), Node(op2, Name(b), Name(c)));
    TextOfTwo(op1, Name(a), Name(b));
    TextOfTwo(op2, Name(b), Name(c));
    TextOfTwo(op2, left.l, Name(c));
    TextOfTwo(op1, Name(a), right.r);
    assert Text(left) == [a, t1, b, t2, c] && Text(right) == [a, t1, b, t2, c];
    assert Proper(Name(a)) && Proper(Name(b)) && Proper(Name(c));
    assert Proper(left.l) && Proper(right.r);
    ParseExact([a, t1, b, t2, c], if i >= j then left else right);
  }

  /** An operator in front of a term binds more tightly than one between terms, */
  lemma PrefixThenBinary(u: Token, a: Token, t: Token, b: Token)
    requires UnaryOf(u).Some? && IsWord(a) && IsWord(b) && BinaryOf(t).Some?
    ensures ParseExpr([u, a, t, b]) == Ok(Node(BinaryOf(t).value, Leaf(Unary(UnaryOf(u).value, Word(a))), Name(b)), [])
  {
    hide ParseExpr;
    UnaryTokens(u);
    var p := Unary(UnaryOf(u).value, Word(a));
    TextOfPrefix(UnaryOf(u).value, a, b);
    var c := Node(BinaryOf(t).value, Leaf(p), Name(b));
    TextOfTwo(c.op, c.l, c.r);
    assert Text(c) == [u, a, t, b];
    assert PrimProper(Word(a)) && !PrimOpen(Word(a));
    assert PrimProper(p) && !PrimOpen(p);
    assert Proper(c.l) && Proper(c.r) && !Open(c.l);
    ParseExact([u, a, t, b], c);
  }

  /** and less tightly than an index, a call or a member. */
  lemma PrefixThenPostfix(u: Token, a: Token, b: Token)
    requires UnaryOf(u).Some? && IsWord(a) && IsWord(b)
    ensures ParseExpr([u, a, LBrack, b, RBrack]) == Ok(Leaf(Unary(UnaryOf(u).value, Index(Word(a), Name(b)))), [])
    ensures ParseExpr([u, a, LParen, b, RParen]) == Ok(Leaf(Unary(UnaryOf(u).value, Call(Word(a), Cons(Name(b), false, Nil)))), [])
    ensures IsIdent(b) ==> ParseExpr([u, a, AtomTok(Dot), b]) == Ok(Leaf(Unary(UnaryOf(u).value, Member(Word(a), b))), [])
  {
    hide ParseExpr;
    UnaryTokens(u);
    var op := UnaryOf(u).value;
    TextOfPrefix(op, a, b);
    PrefixProper(op, Index(Word(a), Name(b)), [u, a, LBrack, b, RBrack]);
    OneItem(b);
    PrefixProper(op, Call(Word(a), Cons(Name(b), false, Nil)), [u, a, LParen, b, RParen]);
    if IsIdent(b) { PrefixProper(op, Member(Word(a), b), [u, a, AtomTok(Dot), b]); }
  }

  lemma OneItem(b: Token)
    requires IsWord(b)
    ensures ItemsProper(Cons(Name(b), false, Nil))
  {
    assert Proper(Name(b));
  }

  lemma PrefixProper(op: UnaryOp, p: Prim, s: Tokens)
    requires PrimProper(p) && PrimText(Unary(op, p)) == s
    ensures ParseExpr(s) == Ok(Leaf(Unary(op, p)), [])
  {
    hide ParseExpr;
    ParseExact(s, Leaf(Unary(op, p)));
  }

  /** The operators in front of a term. */
  lemma PrefixTable(t: Token)
    ensures UnaryOf(t).Some? <==> t in [AtomTok(Plus), AtomTok(Minus), AtomTok(Star), NotWord, NewWord]
    ensures UnaryOf(AtomTok(Minus)) == Some(UMinus) && UnaryOf(AtomTok(Star)) == Some(UDeref) && UnaryOf(NotWord) == Some(UNot)
  {
  }

  /** The value of an assignment takes in every operator after it. */
  lemma AssignTakesAll(a: Token, b: Token, t: Token, c: Token)
    requires IsWord(a) && IsWord(b) && IsWord(c) && BinaryOf(t).Some?
    ensures ParseExpr([a, AtomTok(Equal), b, t, c]) == Ok(Leaf(Assign(Word(a), Node(BinaryOf(t).value, Name(b), Name(c)))), [])
  {
    hide ParseExpr;
    var e := Leaf(Assign(Word(a), Node(BinaryOf(t).value, Name(b), Name(c))));
    var value := Node(BinaryOf(t).value, Name(b), Name(c));
    TextOfTwo(value.op, Name(b), Name(c));
    assert PrimText(Word(a)) == [a];
    assert Text(e) == [a] + ([AtomTok(Equal)] + [b, t, c]) == [a, AtomTok(Equal), b, t, c];
    assert Proper(Name(b)) && Proper(Name(c)) && PrimProper(Word(a));
    assert Proper(value);
    ParseExact([a, AtomTok(Equal), b, t, c], e);
  }

  lemma TreesOf(a: Token, b: Token)
    ensures Bare(Leaf(Paren(Nil))) == TVoid
    ensures Bare(Leaf(Paren(Cons(Name(a), false, Nil)))) == TWord(a)
    ensures Bare(Leaf(Paren(Cons(Name(a), true, Cons(Name(b), false, Nil))))) == TTuple(TCons(TWord(a), TCons(TWord(b), TNil)))
  {
    assert Bare(Name(a)) == TWord(a) && Bare(Name(b)) == TWord(b);
    assert ItemsBare(Cons(Name(b), false, Nil)) == TCons(TWord(b), TNil);
    assert ItemsBare(Cons(Name(a), false, Nil)) == TCons(TWord(a), TNil);
    assert ItemsBare(Cons(Name(a), true, Cons(Name(b), false, Nil))) == TCons(TWord(a), TCons(TWord(b), TNil));
  }

  /** What parentheses come to: nothing, the expression, or a tuple. */
  lemma Parentheses(a: Token, b: Token)
    requires IsWord(a) && IsWord(b)
    ensures ParseExpr([LParen, RParen]).Ok? && Bare(ParseExpr([LParen, RParen]).v) == TVoid
    ensures ParseExpr([LParen, a, RParen]).Ok? && Bare(ParseExpr([LParen, a, RParen]).v) == TWord(a)
    ensures ParseExpr([LParen, a, AtomTok(Comma), b, RParen]).Ok?
            && Bare(ParseExpr([LParen, a, AtomTok(Comma), b, RParen]).v) == TTuple(TCons(TWord(a), TCons(TWord(b), TNil)))
  {
    hide *;
    TreesOf(a, b);
    TextOfItems(a, b);
    TwoItems(a, b);
    Parenthesized(Nil, []);
    Parenthesized(Cons(Name(a), false, Nil), [a]);
    Parenthesized(Cons(Name(a), true, Cons(Name(b), false, Nil)), [a, AtomTok(Comma), b]);
    assert [LParen] + [] + [RParen] == [LParen, RParen];
    assert [LParen] + [a] + [RParen] == [LParen, a, RParen];
    assert [LParen] + [a, AtomTok(Comma), b] + [RParen] == [LParen, a, AtomTok(Comma), b, RParen];
  }

  lemma TwoItems(a: Token, b: Token)
    requires IsWord(a) && IsWord(b)
    ensures ItemsText(Nil) == [] && ItemsProper(Nil)
    ensures ItemsProper(Cons(Name(a), false, Nil)) && ItemsProper(Cons(Name(a), true, Cons(Name(b), false, Nil)))
  {
    OneItem(a);
    OneItem(b);
    assert Proper(Name(a));
  }

  lemma Parenthesized(items: Items, s: Tokens)
    requires ItemsProper(items) && ItemsText(items) == s
    ensures ParseExpr([LParen] + s + [RParen]) == Ok(Leaf(Paren(items)), [])
  {
    hide ParseExpr;
    ParseExact([LParen] + s + [RParen], Leaf(Paren(items)));
  }

  /** The tokens that are an expression by themselves. */
  lemma SingleTokens(t: Token)
    ensures ParseExpr([t]).Ok? && ParseExpr([t]).rest == [] <==>
              t.Ident? || t.AndWord? || t.OrWord? || t.TrueWord? || t.FalseWord? || t.Number? || t.StringLit?
    ensures t.Ident? ==> ParseExpr([t]) == Ok(Name(t), [])
  {
    hide ParseExpr;
    if IsWord(t) {
      WordProper(t);
      ParseExact([t], Name(t));
    }
    if ParseExpr([t]).Ok? && ParseExpr([t]).rest == [] {
      var c := ParseExpr([t]).v;
      assert ParseExpr([t]) == Ok(c, []);
      ParseExact([t], c);
      OneTokenText(c);
      WordText(c.p);
      assert c == Leaf(Word(t));
    }
    WordProper(t);
  }

  lemma WordText(p: Prim)
    requires p.Word?
    ensures Text(Leaf(p)) == [p.t]
  {
  }

  lemma WordProper(t: Token)
    ensures Proper(Name(t)) <==> IsWord(t)
    ensures Text(Name(t)) == [t]
  {
  }

  lemma OneTokenText(c: Expr)
    requires Proper(c) && |Text(c)| == 1
    ensures c.Leaf? && c.p.Word?
  {
    TextLong(c);
  }

  lemma {:induction false} TextLong(c: Expr)
    ensures |Text(c)| >= 1 && (c.Node? || !c.p.Word? ==> |Text(c)| >= 2)
    decreases c
  {
    match c
    case Node(op, l, r) =>
      TextLong(l);
      assert Text(c) == Text(l) + [BinaryToken(op)] + Text(r);
    case Leaf(p) =>
      PrimLong(p);
      assert Text(c) == PrimText(p);
  }

  lemma {:induction false} PrimLong(p: Prim)
    ensures |PrimText(p)| >= 1 && (!p.Word? ==> |PrimText(p)| >= 2)
    decreases p
  {
    match p
    case Word(t) => assert PrimText(p) == [t];
    case Paren(items) => assert PrimText(p) == [LParen] + ItemsText(items) + [RParen];
    case Unary(op, e) =>
      PrimLong(e);
      assert PrimText(p) == [UnaryToken(op)] + PrimText(e);
    case Call(f, args) =>
      PrimLong(f);
      assert PrimText(p) == PrimText(f) + ([LParen] + ItemsText(args) + [RParen]);
    case Method(self, name, args) =>
      PrimLong(self);
      assert PrimText(p) == PrimText(self) + ([AtomTok(Dot), name, LParen] + ItemsText(args) + [RParen]);
    case Index(a, i) =>
      PrimLong(a);
      assert PrimText(p) == PrimText(a) + ([LBrack] + Text(i) + [RBrack]);
    case Member(a, name) =>
      PrimLong(a);
      assert PrimText(p) == PrimText(a) + [AtomTok(Dot), name];
    case Assign(target, value) =>
      PrimLong(target);
      assert PrimText(p) == PrimText(target) + ([AtomTok(Equal)] + Text(value));
  }
}
