/** The parser as it runs: a token stream whose index moves forward, with the loops of precedence
    climbing, of postfixes and of lists.  Each method is proved to return what the functions of
    Parser.dfy give on the remaining tokens. */
module Streaming {
  import opened Options
  import opened Grammar
  import opened Parser
  import opened ParserProof

  /** Climbing with a high limit first and a lower one afterwards is climbing with the lower one. */
  lemma {:induction false} ClimbSplit(s: Tokens, left: Expr, low: nat, high: nat)
    requires low <= high
    ensures Climb(s, left, low) == match Climb(s, left, high)
                                   case Ok(c, rest) => Climb(rest, c, low)
                                   case Fail => Fail
    decreases |s|
  {
    hide ParsePrimary;
    var p := NextPriority(s);
    if p > 0 && p >= high && ParsePrimary(s[1..]).Ok? {
      var q := ParsePrimary(s[1..]);
      var right := Climb(q.rest, Leaf(q.v), p + 1);
      if right.Ok? {
        ClimbSplit(right.rest, Node(BinaryOf(s[0]).value, left, right.v), low, high);
      }
    }
  }

  /** The elements of s, then those of es. */
  function Append(s: seq<Tree>, es: Trees): Trees {
    if s == [] then es else TCons(s[0], Append(s[1..], es))
  }

  lemma {:induction false} AppendSnoc(s: seq<Tree>, t: Tree, es: Trees)
    ensures Append(s + [t], es) == Append(s, TCons(t, es))
  {
    if s == [] {
      assert ([] + [t])[1..] == [];
    } else {
      AppendSnoc(s[1..], t, es);
      assert (s + [t])[1..] == s[1..] + [t];
    }
  }

  class TokenStream {
    const tokens: Tokens
    var index: nat

    predicate Valid()
      reads this
    {
      index <= |tokens|
    }

    function Rest(): Tokens
      requires Valid()
      reads this
    {
      tokens[index..]
    }

    constructor (tokens: Tokens)
      ensures Valid() && Rest() == tokens && this.tokens == tokens
    {
      this.tokens := tokens;
      index := 0;
    }

    function Get(offset: nat): Token
      requires Valid()
      reads this
      ensures offset <= |Rest()| ==> Get(offset) == Head(Rest()[offset..])
      ensures offset > |Rest()| ==> Get(offset) == End
    {
      if index + offset < |tokens| then tokens[index + offset] else End
    }

    method Move()
      requires Valid() && Rest() != []
      modifies `index
      ensures Valid() && Rest() == old(Rest())[1..] && index == old(index) + 1
    {
      index := index + 1;
    }

    /** Moves past t if it is next. */
    method Eat(t: Token) returns (ok: bool)
      requires Valid() && t != End
      modifies `index
      ensures Valid() && ok == (old(Head(Rest())) == t)
      ensures if ok then old(Rest()) != [] && Rest() == old(Rest())[1..] && index == old(index) + 1 else index == old(index)
    {
      ok := Get(0) == t;
      if ok {
        Move();
      }
    }

    method ParsePrim() returns (ok: bool, t: Tree, ghost p: Prim)
      requires Valid()
      modifies `index
      ensures Valid() && ok == ParsePrimary(old(Rest())).Ok?
      ensures ok ==> ParsePrimary(old(Rest())) == Ok(p, Rest()) && t == PrimBare(p) && index > old(index)
      decreases |tokens| - index, 2
    {
      var uop := UnaryOf(Get(0));
      if uop.Some? {
        Move();
        ok, t, p := ParsePrim();
        if ok {
          t, p := TUnary(uop.value, t), Unary(uop.value, p);
        }
        return;
      }
      ok, t, p := ParseTermTree();
      if !ok { return; }
      ok, t, p := ParsePostfixes(t, p);
    }

    method ParseTermTree() returns (ok: bool, t: Tree, ghost p: Prim)
      requires Valid()
      modifies `index
      ensures Valid() && ok == ParseTerm(old(Rest())).Ok?
      ensures ok ==> ParseTerm(old(Rest())) == Ok(p, Rest()) && t == PrimBare(p) && index > old(index)
      decreases |tokens| - index, 1
    {
      hide ParseItems;
      p := Word(End);
      if IsWord(Get(0)) {
        ok, t, p := !IsName(Get(0)) || EndsName(Rest()[1..]), TWord(Get(0)), Word(Get(0));
        if ok {
          Move();
        }
      } else if Get(0).LParen? {
        Move();
        ghost var items;
        var fields;
        ok, fields, items := ParseList();
        t, p := Grouped(fields), Paren(items);
      } else {
        ok, t := false, TVoid;
      }
    }

    /** Items up to the closing parenthesis. */
    method ParseList() returns (ok: bool, es: Trees, ghost items: Items)
      requires Valid()
      modifies `index
      ensures Valid() && ok == ParseItems(old(Rest())).Ok?
      ensures ok ==> ParseItems(old(Rest())) == Ok(items, Rest()) && es == ItemsBare(items) && index > old(index)
      decreases |tokens| - index, 4
    {
      hide ParseExpr, Bare;
      var fields: seq<Tree> := [];
      ghost var all := ParseItems(Rest());
      ok := true;
      while !Get(0).RParen?
        invariant Valid() && index >= old(index)
        invariant all.Ok? == ParseItems(Rest()).Ok?
        invariant all.Ok? ==> all.rest == ParseItems(Rest()).rest
        invariant all.Ok? ==> ItemsBare(all.v) == Append(fields, ItemsBare(ParseItems(Rest()).v))
        decreases |tokens| - index
      {
        ghost var s := Rest();
        var t;
        ghost var c;
        ok, t, c := ParseExpression();
        if !ok { es, items := TNil, Nil; return; }
        if ParseItems(s).Ok? {
          AppendSnoc(fields, t, ItemsBare(ParseItems(s).v.tail));
        }
        fields := fields + [t];
        if !Get(0).RParen? {
          ok := Eat(AtomTok(Comma));
          if !ok { es, items := TNil, Nil; return; }
        }
      }
      Move();
      es := Append(fields, TNil);
      items := all.v;
    }

    /** Calls, indexes and members, then at most one assignment. */
    method ParsePostfixes(t0: Tree, ghost p0: Prim) returns (ok: bool, t: Tree, ghost p: Prim)
      requires Valid() && t0 == PrimBare(p0)
      modifies `index
      ensures Valid() && ok == ParsePostfix(p0, old(Rest())).Ok?
      ensures ok ==> ParsePostfix(p0, old(Rest())) == Ok(p, Rest()) && t == PrimBare(p) && index >= old(index)
      decreases |tokens| - index, 0
    {
      hide ParsePostfix, PrimBare;
      t, p, ok := t0, p0, true;
      while true
        invariant Valid() && index >= old(index) && t == PrimBare(p)
        invariant ParsePostfix(p, Rest()) == ParsePostfix(p0, old(Rest()))
        decreases |tokens| - index
      {
        if Get(0).LParen? {
          ok, t, p := ParseCall(t, p);
        } else if Get(0).LBrack? {
          ok, t, p := ParseIndex(t, p);
        } else if Get(0) == AtomTok(Dot) {
          ok, t, p := ParseMember(t, p);
        } else {
          break;
        }
        if !ok { return; }
      }
      if Get(0) == AtomTok(Equal) {
        ok, t, p := ParseAssign(t, p);
      } else {
        PostfixEnds(p, Rest());
      }
    }

    method ParseCall(t0: Tree, ghost p0: Prim) returns (ok: bool, t: Tree, ghost p: Prim)
      requires Valid() && t0 == PrimBare(p0) && Get(0).LParen?
      modifies `index
      ensures Valid() && t == PrimBare(p) && (ok ==> index > old(index))
      ensures ParsePostfix(p0, old(Rest())) == if ok then ParsePostfix(p, Rest()) else Fail
      decreases |tokens| - index, 0, 0
    {
      hide ParseItems, ParseExpr, ItemsBare, Bare;
      Move();
      var args;
      ghost var items;
      ok, args, items := ParseList();
      if ok {
        t, p := TCall(t0, args), Call(p0, items);
      } else {
        t, p := t0, p0;
      }
    }

    method ParseIndex(t0: Tree, ghost p0: Prim) returns (ok: bool, t: Tree, ghost p: Prim)
      requires Valid() && t0 == PrimBare(p0) && Get(0).LBrack?
      modifies `index
      ensures Valid() && t == PrimBare(p) && (ok ==> index > old(index))
      ensures ParsePostfix(p0, old(Rest())) == if ok then ParsePostfix(p, Rest()) else Fail
      decreases |tokens| - index, 0, 0
    {
      hide ParseItems, ParseExpr, ItemsBare, Bare;
      t, p := t0, p0;
      Move();
      var i;
      ghost var c;
      ok, i, c := ParseExpression();
      if ok {
        ok := Eat(RBrack);
        if ok {
          t, p := TIndex(t0, i), Index(p0, c);
        }
      }
    }

    method ParseMember(t0: Tree, ghost p0: Prim) returns (ok: bool, t: Tree, ghost p: Prim)
      requires Valid() && t0 == PrimBare(p0) && Get(0) == AtomTok(Dot)
      modifies `index
      ensures Valid() && t == PrimBare(p) && (ok ==> index > old(index))
      ensures ParsePostfix(p0, old(Rest())) == if ok then ParsePostfix(p, Rest()) else Fail
      decreases |tokens| - index, 0, 0
    {
      hide ParseItems, ParseExpr, ItemsBare, Bare;
      ghost var s := Rest();
      t, p, ok := t0, p0, false;
      Move();
      var name := Get(0);
      if !IsIdent(name) { return; }
      Move();
      assert Rest() == s[2..];
      if Get(0) == AtomTok(DotLess) { return; }
      ok := true;
      if Get(0).LParen? {
        Move();
        assert Rest() == s[3..];
        var args;
        ghost var items;
        ok, args, items := ParseList();
        if ok {
          t, p := TMethod(t0, name, args), Method(p0, name, items);
        }
      } else {
        t, p := TMember(t0, name), Member(p0, name);
      }
    }

    method ParseAssign(t0: Tree, ghost p0: Prim) returns (ok: bool, t: Tree, ghost p: Prim)
      requires Valid() && t0 == PrimBare(p0) && Get(0) == AtomTok(Equal)
      modifies `index
      ensures Valid() && t == PrimBare(p) && (ok ==> index > old(index))
      ensures ParsePostfix(p0, old(Rest())) == if ok then Ok(p, Rest()) else Fail
      decreases |tokens| - index, 0, 0
    {
      hide ParseItems, ParseExpr, ItemsBare, Bare;
      Move();
      var value;
      ghost var c;
      ok, value, c := ParseExpression();
      if ok {
        t, p := TAssign(t0, value), Assign(p0, c);
      } else {
        t, p := t0, p0;
      }
    }

    method ParseExpression() returns (ok: bool, t: Tree, ghost c: Expr)
      requires Valid()
      modifies `index
      ensures Valid() && ok == ParseExpr(old(Rest())).Ok?
      ensures ok ==> ParseExpr(old(Rest())) == Ok(c, Rest()) && t == Bare(c) && index > old(index)
      decreases |tokens| - index, 3
    {
      hide ParsePrimary, Climb;
      ghost var p;
      ok, t, p := ParsePrim();
      c := Leaf(p);
      if !ok { return; }
      ok, t, c := ParseExprClimb(t, c, 0);
    }

    /** The operator loop with its inner loop: while the next operator binds more tightly than this
        one, it and its like are taken into the right operand first. */
    method ParseExprClimb(left: Tree, ghost cleft: Expr, limit: nat) returns (ok: bool, t: Tree, ghost c: Expr)
      requires Valid() && left == Bare(cleft)
      modifies `index
      ensures Valid() && ok == Climb(old(Rest()), cleft, limit).Ok?
      ensures ok ==> Climb(old(Rest()), cleft, limit) == Ok(c, Rest()) && t == Bare(c) && index >= old(index)
      ensures ok && 0 < old(NextPriority(Rest())) && old(NextPriority(Rest())) >= limit ==> index > old(index)
      decreases |tokens| - index, 0
    {
      hide ParsePrimary, BinaryOf, Climb, NextPriority, Bare;
      t, c, ok := left, cleft, true;
      var op := BinaryOf(Get(0));
      NextIs(Rest());
      while op.Some? && Priority(op.value) >= limit
        invariant Valid() && index >= old(index) && t == Bare(c)
        invariant op == BinaryOf(Head(Rest())) && NextPriority(Rest()) == if op.Some? then Priority(op.value) else 0
        invariant Climb(Rest(), c, limit) == Climb(old(Rest()), cleft, limit)
        invariant index > old(index) || (Rest() == old(Rest()) && op == old(BinaryOf(Head(Rest()))))
        decreases |tokens| - index
      {
        ghost var s := Rest();
        NextIs(s);
        Move();
        var right;
        ghost var q;
        ok, right, q := ParsePrim();
        if !ok {
          ClimbFails(s, c, limit);
          return;
        }
        ghost var r0, cright := Rest(), Leaf(q);
        LeafBare(q);
        var nextop := BinaryOf(Get(0));
        NextIs(Rest());
        while nextop.Some? && Priority(nextop.value) > Priority(op.value)
          invariant Valid() && index > old(index) && |Rest()| < |s| && right == Bare(cright)
          invariant nextop == BinaryOf(Head(Rest())) && NextPriority(Rest()) == if nextop.Some? then Priority(nextop.value) else 0
          invariant Climb(Rest(), cright, Priority(op.value) + 1) == Climb(r0, Leaf(q), Priority(op.value) + 1)
          decreases |tokens| - index
        {
          ClimbSplit(Rest(), cright, Priority(op.value) + 1, Priority(nextop.value));
          ok, right, cright := ParseExprClimb(right, cright, Priority(nextop.value));
          if !ok {
            ClimbFails(s, c, limit);
            return;
          }
          nextop := BinaryOf(Get(0));
          NextIs(Rest());
        }
        ClimbUnfold(s, c, limit, op.value, q, r0, cright, Rest());
        NodeBare(op.value, c, cright);
        t, c := TBinary(op.value, t, right), Node(op.value, c, cright);
        op := BinaryOf(Get(0));
        NextIs(Rest());
      }
      ClimbStops(Rest(), c, limit);
    }

    lemma NextIs(s: Tokens)
      ensures NextPriority(s) == if BinaryOf(Head(s)).Some? then Priority(BinaryOf(Head(s)).value) else 0
      ensures BinaryOf(Head(s)).Some? ==> s != [] && BinaryOf(s[0]) == BinaryOf(Head(s))
    {
    }

    lemma LeafBare(q: Prim)
      ensures Bare(Leaf(q)) == PrimBare(q)
    {
    }

    lemma NodeBare(op: BinaryOp, l: Expr, r: Expr)
      ensures Bare(Node(op, l, r)) == TBinary(op, Bare(l), Bare(r))
    {
    }

    lemma ClimbStops(s: Tokens, c: Expr, limit: nat)
      requires NextPriority(s) == 0 || NextPriority(s) < limit
      ensures Climb(s, c, limit) == Ok(c, s)
    {
    }

    /** Climbing fails when reading the operand does, or climbing on from it. */
    lemma ClimbFails(s: Tokens, c: Expr, limit: nat)
      requires NextPriority(s) > 0 && NextPriority(s) >= limit
      requires ParsePrimary(s[1..]).Fail?
            || Climb(ParsePrimary(s[1..]).rest, Leaf(ParsePrimary(s[1..]).v), NextPriority(s) + 1).Fail?
      ensures Climb(s, c, limit).Fail?
    {
      hide ParsePrimary, NextPriority;
    }
  }
}
