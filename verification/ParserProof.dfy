/** The parser reads exactly the proper expressions: what it returns spells the tokens it read and
    respects the priorities, and every proper expression is read back. */
module ParserProof {
  import opened Options
  import opened Grammar
  import opened Parser

  // ---------------------------------------------------------------- soundness

  /** A primary read from s: it spells what was read, and reading stopped where it had to. */
  ghost predicate ReadPrim(s: Tokens, p: Prim, rest: Tokens) {
    PrimText(p) + rest == s && PrimProper(p) && Ends(rest) && (PrimOpen(p) ==> NextPriority(rest) == 0)
  }

  ghost predicate ReadExpr(s: Tokens, c: Expr, rest: Tokens) {
    Text(c) + rest == s && Proper(c) && Ends(rest) && NextPriority(rest) == 0
  }

  lemma {:induction false} SoundPrimary(s: Tokens)
    requires ParsePrimary(s).Ok?
    ensures ReadPrim(s, ParsePrimary(s).v, ParsePrimary(s).rest)
    decreases |s|, 2
  {
    hide ParseTerm, ParsePostfix, Ends, NextPriority;
    if UnaryOf(Head(s)).Some? {
      SoundPrimary(s[1..]);
      var e := ParsePrimary(s[1..]);
      UnaryTokens(Head(s));
      assert [s[0]] + s[1..] == s;
      assert [s[0]] + PrimText(e.v) + e.rest == [s[0]] + (PrimText(e.v) + e.rest);
    } else {
      SoundTerm(s);
      var p := ParseTerm(s);
      SoundPostfix(p.v, p.rest);
    }
  }

  lemma UnaryTokens(t: Token)
    ensures UnaryOf(t).Some? ==> UnaryToken(UnaryOf(t).value) == t
  {
  }

  lemma {:induction false} SoundTerm(s: Tokens)
    requires ParseTerm(s).Ok?
    ensures var r := ParseTerm(s); PrimText(r.v) + r.rest == s && PrimProper(r.v) && IsPostfix(r.v) && !r.v.Member?
    decreases |s|, 1
  {
    hide ParseItems, EndsName;
    if IsWord(Head(s)) {
      assert [s[0]] + s[1..] == s;
    } else {
      SoundItems(s[1..]);
      var r := ParseItems(s[1..]);
      Bracketed(LParen, s, ItemsText(r.v), RParen, r.rest);
    }
  }

  lemma Bracketed(open: Token, s: Tokens, inner: Tokens, close: Token, rest: Tokens)
    requires s != [] && s[0] == open && s[1..] == inner + [close] + rest
    ensures [open] + inner + [close] + rest == s
  {
    assert [open] + s[1..] == s;
  }

  lemma {:induction false} SoundItems(s: Tokens)
    requires ParseItems(s).Ok?
    ensures var r := ParseItems(s); ItemsText(r.v) + [RParen] + r.rest == s && ItemsProper(r.v)
    decreases |s|, 4
  {
    hide ParseExpr, Ends, NextPriority;
    if Head(s).RParen? {
      assert [] + [RParen] + s[1..] == s;
    } else {
      SoundExpr(s);
      var c := ParseExpr(s);
      assert [c.rest[0]] + c.rest[1..] == c.rest;
      hide Text;
      if Head(c.rest).RParen? {
        LastItem(Text(c.v), c.rest[1..]);
      } else {
        SoundItems(c.rest[1..]);
        var t := ParseItems(c.rest[1..]);
        ItemCut(Text(c.v), ItemsText(t.v), t.rest);
      }
    }
  }

  lemma LastItem(a: Tokens, rest: Tokens)
    ensures a + [] + [] + [RParen] + rest == a + ([RParen] + rest)
  {
  }

  lemma ItemCut(a: Tokens, b: Tokens, rest: Tokens)
    ensures a + [AtomTok(Comma)] + b + [RParen] + rest == a + ([AtomTok(Comma)] + (b + [RParen] + rest))
  {
  }

  lemma {:induction false} SoundPostfix(p: Prim, s: Tokens)
    requires ParsePostfix(p, s).Ok? && IsPostfix(p) && PrimProper(p) && (p.Member? ==> !Head(s).LParen?)
    ensures var r := ParsePostfix(p, s); ReadPrim(PrimText(p) + s, r.v, r.rest)
    decreases |s|, 0
  {
    hide ParseItems, ParseExpr, NextPriority;
    if Head(s).LParen? {
      SoundCall(p, s);
    } else if Head(s).LBrack? {
      SoundIndex(p, s);
    } else if Head(s) == AtomTok(Dot) {
      SoundDot(p, s);
    } else if Head(s) == AtomTok(Equal) {
      SoundAssign(p, s);
    }
  }

  lemma {:induction false} SoundCall(p: Prim, s: Tokens)
    requires ParsePostfix(p, s).Ok? && IsPostfix(p) && PrimProper(p) && !p.Member? && Head(s).LParen?
    ensures var r := ParsePostfix(p, s); ReadPrim(PrimText(p) + s, r.v, r.rest)
    decreases |s|, 0, 0
  {
    hide ParseItems, ParseExpr, NextPriority, Ends;
    SoundItems(s[1..]);
    var r := ParseItems(s[1..]);
    Bracketed(LParen, s, ItemsText(r.v), RParen, r.rest);
    Regroup(PrimText(p), [LParen] + ItemsText(r.v) + [RParen], r.rest);
    SoundPostfix(Call(p, r.v), r.rest);
  }

  lemma {:induction false} SoundIndex(p: Prim, s: Tokens)
    requires ParsePostfix(p, s).Ok? && IsPostfix(p) && PrimProper(p) && Head(s).LBrack?
    ensures var r := ParsePostfix(p, s); ReadPrim(PrimText(p) + s, r.v, r.rest)
    decreases |s|, 0, 0
  {
    hide ParseItems, ParseExpr, NextPriority, Ends;
    SoundExpr(s[1..]);
    var r := ParseExpr(s[1..]);
    assert [r.rest[0]] + r.rest[1..] == r.rest;
    assert s[1..] == Text(r.v) + [RBrack] + r.rest[1..];
    Bracketed(LBrack, s, Text(r.v), RBrack, r.rest[1..]);
    Regroup(PrimText(p), [LBrack] + Text(r.v) + [RBrack], r.rest[1..]);
    SoundPostfix(Index(p, r.v), r.rest[1..]);
  }

  lemma {:induction false} SoundAssign(p: Prim, s: Tokens)
    requires ParsePostfix(p, s).Ok? && IsPostfix(p) && PrimProper(p) && Head(s) == AtomTok(Equal)
    ensures var r := ParsePostfix(p, s); ReadPrim(PrimText(p) + s, r.v, r.rest)
    decreases |s|, 0, 0
  {
    hide ParseItems, ParseExpr, NextPriority, Ends;
    SoundExpr(s[1..]);
    var r := ParseExpr(s[1..]);
    assert [s[0]] + s[1..] == s;
    assert PrimText(p) + ([AtomTok(Equal)] + Text(r.v)) + r.rest == PrimText(p) + ([AtomTok(Equal)] + (Text(r.v) + r.rest));
  }

  lemma Regroup(a: Tokens, b: Tokens, c: Tokens)
    ensures a + b + c == a + (b + c)
  {
  }

  lemma {:induction false} SoundDot(p: Prim, s: Tokens)
    requires ParsePostfix(p, s).Ok? && IsPostfix(p) && PrimProper(p) && Head(s) == AtomTok(Dot)
    ensures var r := ParsePostfix(p, s); ReadPrim(PrimText(p) + s, r.v, r.rest)
    decreases |s|, 0, 0
  {
    hide ParseItems, ParseExpr, NextPriority, Ends;
    assert s == [AtomTok(Dot), s[1]] + s[2..];
    if Head(s[2..]).LParen? {
      SoundItems(s[3..]);
      var r := ParseItems(s[3..]);
      assert s == [AtomTok(Dot), s[1], LParen] + s[3..];
      assert [AtomTok(Dot), s[1], LParen] + ItemsText(r.v) + [RParen] + r.rest == s;
      Regroup(PrimText(p), [AtomTok(Dot), s[1], LParen] + ItemsText(r.v) + [RParen], r.rest);
      SoundPostfix(Method(p, s[1], r.v), r.rest);
    } else {
      Regroup(PrimText(p), [AtomTok(Dot), s[1]], s[2..]);
      SoundPostfix(Member(p, s[1]), s[2..]);
    }
  }

  lemma {:induction false} SoundExpr(s: Tokens)
    requires ParseExpr(s).Ok?
    ensures ReadExpr(s, ParseExpr(s).v, ParseExpr(s).rest)
    decreases |s|, 3
  {
    hide ParsePrimary, Ends, NextPriority, Climb;
    SoundPrimary(s);
    var p := ParsePrimary(s);
    SoundClimb(p.rest, Leaf(p.v), 0);
  }

  /** Climbing from left over s may be taken up: left is proper and no operator in it binds less
      tightly than the next one. */
  ghost predicate Extends(left: Expr, s: Tokens) {
    && Proper(left) && Ends(s)
    && (left.Leaf? || Priority(left.op) >= NextPriority(s))
    && (Open(left) ==> NextPriority(s) == 0)
  }

  /** Climbing reads exactly up to the first operator below the limit, and all it adds to left are
      operators of at least that priority. */
  lemma {:induction false} SoundClimb(s: Tokens, left: Expr, limit: nat)
    requires Climb(s, left, limit).Ok? && Extends(left, s)
    ensures var r := Climb(s, left, limit);
            && Text(r.v) + r.rest == Text(left) + s && Extends(r.v, r.rest)
            && (NextPriority(r.rest) == 0 || NextPriority(r.rest) < limit)
            && (r.v == left || (r.v.Node? && Priority(r.v.op) >= limit))
    decreases |s|, 0
  {
    hide ParsePrimary, Ends, Extends, BinaryOf, Priority;
    var p := NextPriority(s);
    if p > 0 && p >= limit {
      var q := ParsePrimary(s[1..]);
      SoundPrimary(s[1..]);
      LeafExtends(s[1..], q.v, q.rest);
      SoundClimb(q.rest, Leaf(q.v), p + 1);
      var right := Climb(q.rest, Leaf(q.v), p + 1);
      ClimbStep(s, left, right.v, right.rest);
      SoundClimb(right.rest, Node(BinaryOf(s[0]).value, left, right.v), limit);
    }
  }

  lemma LeafExtends(s: Tokens, p: Prim, rest: Tokens)
    requires ReadPrim(s, p, rest)
    ensures Extends(Leaf(p), rest)
  {
    hide PrimText, Ends, NextPriority;
  }

  /** One operator and its right operand taken in. */
  lemma ClimbStep(s: Tokens, left: Expr, right: Expr, rest: Tokens)
    requires NextPriority(s) > 0 && Extends(left, s) && Extends(right, rest) && Text(right) + rest == s[1..]
    requires NextPriority(rest) <= NextPriority(s) && FitsRight(BinaryOf(s[0]).value, right)
    ensures var node := Node(BinaryOf(s[0]).value, left, right);
            Text(node) + rest == Text(left) + s && Extends(node, rest) && Priority(node.op) == NextPriority(s)
  {
    hide Ends;
    var op := BinaryOf(s[0]).value;
    assert s == [s[0]] + s[1..];
    assert Text(left) + [BinaryToken(op)] + Text(right) + rest == Text(left) + ([s[0]] + (Text(right) + rest));
  }

  // ---------------------------------------------------------------- completeness

  /** The leftmost primary, and the tokens after it. */
  function First(c: Expr): Prim {
    match c
    case Leaf(p) => p
    case Node(_, l, _) => First(l)
  }

  function Tail(c: Expr): Tokens {
    match c
    case Leaf(_) => []
    case Node(op, l, r) => Tail(l) + [BinaryToken(op)] + Text(r)
  }

  lemma {:induction false} FirstAndTail(c: Expr)
    requires Proper(c)
    ensures Text(c) == PrimText(First(c)) + Tail(c) && PrimProper(First(c))
    ensures if c.Leaf? then Tail(c) == [] else Tail(c) != [] && BinaryOf(Tail(c)[0]).Some? && !PrimOpen(First(c))
  {
    match c
    case Leaf(_) =>
    case Node(op, l, r) =>
      FirstAndTail(l);
      BinaryTokens(op);
      assert PrimText(First(l)) + Tail(l) + [BinaryToken(op)] + Text(r) == PrimText(First(l)) + (Tail(l) + [BinaryToken(op)] + Text(r));
      if l.Leaf? { assert Tail(c) == [BinaryToken(op)] + Text(r); }
  }

  /** What may follow c so that it is read as a whole. */
  ghost predicate Follows(c: Expr, rest: Tokens) {
    && Ends(rest) && EndsName(rest)
    && (c.Leaf? || NextPriority(rest) <= Priority(c.op))
    && (Open(c) ==> NextPriority(rest) == 0)
  }

  ghost predicate PrimFollows(p: Prim, rest: Tokens) {
    Ends(rest) && EndsName(rest) && (PrimOpen(p) ==> NextPriority(rest) == 0)
  }

  lemma OperatorFollows(s: Tokens)
    requires BinaryOf(Head(s)).Some?
    ensures Ends(s) && EndsName(s)
  {
  }

  lemma {:induction false} StartToken(p: Prim, rest: Tokens)
    requires PrimProper(p)
    ensures PrimText(p) != [] && (PrimText(p) + rest)[0] == PrimText(p)[0] && !PrimText(p)[0].RParen?
    ensures IsPostfix(p) || p.Assign? ==> UnaryOf(PrimText(p)[0]).None?
  {
    match p
    case Word(_) =>
    case Paren(_) =>
    case Unary(_, _) =>
    case Call(f, _) => StartToken(f, rest);
    case Method(f, _, _) => StartToken(f, rest);
    case Index(f, _) => StartToken(f, rest);
    case Member(f, _) => StartToken(f, rest);
    case Assign(f, _) => StartToken(f, rest);
  }

  /** Climbing over the tokens of c builds c. */
  lemma {:induction false} CompleteClimb(c: Expr, limit: nat, rest: Tokens)
    requires Proper(c) && Follows(c, rest) && (c.Leaf? || Priority(c.op) >= limit)
    ensures Climb(Tail(c) + rest, Leaf(First(c)), limit) == Climb(rest, c, limit)
    decreases |Text(c)|, 3
  {
    hide *;
    match c
    case Leaf(_) => LeafTail(c, rest);
    case Node(op, l, r) =>
      NodeParts(c, rest);
      NodeTail(c, rest);
      var rest1 := [BinaryToken(op)] + Text(r) + rest;
      CompleteClimb(l, limit, rest1);
      FirstAndTail(r);
      LeafFollows(r, rest);
      CompletePrim(First(r), Tail(r) + rest);
      CompleteClimb(r, Priority(op) + 1, rest);
      ClimbUnfold(rest1, l, limit, op, First(r), Tail(r) + rest, r, rest);
  }

  lemma LeafTail(c: Expr, rest: Tokens)
    requires c.Leaf?
    ensures Tail(c) + rest == rest && First(c) == c.p
  {
  }

  lemma NodeTail(c: Expr, rest: Tokens)
    requires c.Node? && Proper(c.r)
    ensures First(c) == First(c.l) && Tail(c) + rest == Tail(c.l) + ([BinaryToken(c.op)] + Text(c.r) + rest)
    ensures ([BinaryToken(c.op)] + Text(c.r) + rest)[1..] == PrimText(First(c.r)) + (Tail(c.r) + rest)
  {
    hide BinaryToken, PrimText, Proper;
    FirstAndTail(c.r);
    CutTail(Tail(c.l), BinaryToken(c.op), PrimText(First(c.r)), Tail(c.r), rest);
  }

  lemma CutTail(a: Tokens, x: Token, p: Tokens, t: Tokens, rest: Tokens)
    ensures a + [x] + (p + t) + rest == a + ([x] + (p + t) + rest)
    ensures ([x] + (p + t) + rest)[1..] == p + (t + rest)
  {
  }

  lemma NodeParts(c: Expr, rest: Tokens)
    requires c.Node? && Proper(c) && Follows(c, rest)
    ensures var rest1 := [BinaryToken(c.op)] + Text(c.r) + rest;
            && Proper(c.l) && Proper(c.r) && Follows(c.l, rest1) && NextPriority(rest1) == Priority(c.op) && BinaryOf(rest1[0]) == Some(c.op)
            && (c.l.Leaf? || Priority(c.l.op) >= Priority(c.op)) && Follows(c.r, rest) && NextPriority(rest) <= Priority(c.op)
            && (c.r.Leaf? || Priority(c.r.op) >= Priority(c.op) + 1)
            && |Text(c.l)| < |Text(c)| && |Text(c.r)| < |Text(c)|
  {
    BinaryTokens(c.op);
    OperatorFollows([BinaryToken(c.op)] + Text(c.r) + rest);
  }

  lemma LeafFollows(c: Expr, rest: Tokens)
    requires Proper(c) && Follows(c, rest)
    ensures PrimFollows(First(c), Tail(c) + rest) && |PrimText(First(c))| <= |Text(c)|
  {
    hide Ends, EndsName, PrimText;
    FirstAndTail(c);
    if c.Leaf? {
      assert [] + rest == rest;
    } else {
      OperatorFollows(Tail(c) + rest);
    }
  }

  /** One round of climbing, when its parts are known. */
  lemma ClimbUnfold(s: Tokens, l: Expr, limit: nat, op: BinaryOp, q: Prim, s': Tokens, r: Expr, rest: Tokens)
    requires s != [] && BinaryOf(s[0]) == Some(op) && NextPriority(s) == Priority(op) >= limit
    requires ParsePrimary(s[1..]) == Ok(q, s') && Climb(s', Leaf(q), Priority(op) + 1) == Climb(rest, r, Priority(op) + 1)
    requires NextPriority(rest) <= Priority(op)
    ensures Climb(s, l, limit) == Climb(rest, Node(op, l, r), limit)
  {
    hide ParsePrimary, BinaryOf, Priority, NextPriority;
  }

  lemma {:induction false} CompleteExpr(c: Expr, rest: Tokens)
    requires Proper(c) && Ends(rest) && EndsName(rest) && NextPriority(rest) == 0
    ensures ParseExpr(Text(c) + rest) == Ok(c, rest)
    decreases |Text(c)|, 4
  {
    hide ParsePrimary, Ends, EndsName, Proper;
    FirstAndTail(c);
    LeafFollows(c, rest);
    CompletePrim(First(c), Tail(c) + rest);
    assert Text(c) + rest == PrimText(First(c)) + (Tail(c) + rest);
    CompleteClimb(c, 0, rest);
  }

  lemma {:induction false} CompletePrim(p: Prim, rest: Tokens)
    requires PrimProper(p) && PrimFollows(p, rest)
    ensures ParsePrimary(PrimText(p) + rest) == Ok(p, rest)
    decreases |PrimText(p)|, 2
  {
    hide ParseTerm, ParsePostfix, EndsName, NextPriority, UnaryOf, Proper;
    match p
    case Unary(op, e) =>
      CompletePrim(e, rest);
      assert (PrimText(p) + rest)[1..] == PrimText(e) + rest;
      assert (PrimText(p) + rest)[0] == UnaryToken(op);
    case Assign(target, value) => CompleteAssign(p, rest);
    case _ =>
      StartToken(p, rest);
      CompletePost(p, rest);
      PostfixEnds(p, rest);
  }

  lemma PostfixEnds(p: Prim, rest: Tokens)
    requires Ends(rest)
    ensures ParsePostfix(p, rest) == Ok(p, rest)
  {
  }

  lemma {:induction false} CompleteAssign(p: Prim, rest: Tokens)
    requires p.Assign? && PrimProper(p) && PrimFollows(p, rest)
    ensures ParsePrimary(PrimText(p) + rest) == Ok(p, rest)
    decreases |PrimText(p)|, 1
  {
    hide *;
    var rest' := [AtomTok(Equal)] + Text(p.value) + rest;
    AssignParts(p, rest);
    CompletePost(p.target, rest');
    CompleteExpr(p.value, rest);
    AssignUnfold(p.target, rest');
    TermFirst(PrimText(p) + rest);
  }

  lemma AssignParts(p: Prim, rest: Tokens)
    requires p.Assign? && PrimProper(p) && PrimFollows(p, rest)
    ensures var rest' := [AtomTok(Equal)] + Text(p.value) + rest;
            && PrimText(p) + rest == PrimText(p.target) + rest' && rest'[1..] == Text(p.value) + rest
            && Head(rest') == AtomTok(Equal) && EndsName(rest') && !Head(rest').LParen?
    ensures Ends(rest) && EndsName(rest) && NextPriority(rest) == 0 && Proper(p.value) && IsPostfix(p.target) && PrimProper(p.target)
    ensures UnaryOf(Head(PrimText(p) + rest)).None?
    ensures |PrimText(p.target)| < |PrimText(p)| && |Text(p.value)| < |PrimText(p)|
  {
    hide Proper, Text, NextPriority, UnaryOf, Ends, PrimProper;
    JoinAssign(PrimText(p.target), Text(p.value), rest);
    AssignProper(p);
    StartToken(p, rest);
    EqualFollows([AtomTok(Equal)] + Text(p.value) + rest);
  }

  lemma AssignProper(p: Prim)
    requires p.Assign? && PrimProper(p)
    ensures Proper(p.value) && IsPostfix(p.target) && PrimProper(p.target)
  {
    hide Proper;
  }

  lemma JoinAssign(a: Tokens, b: Tokens, rest: Tokens)
    ensures a + ([AtomTok(Equal)] + b) + rest == a + ([AtomTok(Equal)] + b + rest)
    ensures ([AtomTok(Equal)] + b + rest)[1..] == b + rest
  {
  }

  lemma AssignUnfold(p: Prim, s: Tokens)
    requires Head(s) == AtomTok(Equal) && ParseExpr(s[1..]).Ok?
    ensures ParsePostfix(p, s) == Ok(Assign(p, ParseExpr(s[1..]).v), ParseExpr(s[1..]).rest)
  {
    hide ParseExpr;
  }

  lemma TermFirst(s: Tokens)
    requires UnaryOf(Head(s)).None? && ParseTerm(s).Ok?
    ensures ParsePrimary(s) == ParsePostfix(ParseTerm(s).v, ParseTerm(s).rest)
  {
    hide ParseTerm, ParsePostfix, UnaryOf;
  }

  lemma EqualFollows(s: Tokens)
    requires Head(s) == AtomTok(Equal) || Head(s).LParen? || Head(s).LBrack? || Head(s) == AtomTok(Dot)
    ensures EndsName(s)
  {
  }

  /** Reading a term and what follows it comes to the same as having read p. */
  lemma {:induction false} CompletePost(p: Prim, rest: Tokens)
    requires IsPostfix(p) && PrimProper(p) && EndsName(rest) && (p.Member? ==> !Head(rest).LParen?)
    ensures var t := ParseTerm(PrimText(p) + rest);
            t.Ok? && ParsePostfix(t.v, t.rest) == ParsePostfix(p, rest)
    decreases |PrimText(p)|, 1
  {
    hide ParseItems, EndsName, Proper, ItemsProper, ParsePostfix;
    match p
    case Word(t) => assert ([t] + rest)[1..] == rest;
    case Paren(items) =>
      CompleteItems(items, rest);
      assert (PrimText(p) + rest)[1..] == ItemsText(items) + [RParen] + rest;
    case Call(f, args) => CompleteCall(p, rest);
    case Index(a, i) => CompleteIndex(p, rest);
    case Method(a, name, args) => CompleteMethod(p, rest);
    case Member(a, name) => CompleteMember(p, rest);
  }

  lemma {:induction false} CompleteCall(p: Prim, rest: Tokens)
    requires p.Call? && PrimProper(p)
    ensures var t := ParseTerm(PrimText(p) + rest);
            t.Ok? && ParsePostfix(t.v, t.rest) == ParsePostfix(p, rest)
    decreases |PrimText(p)|, 0
  {
    hide ParseItems, ParseExpr, EndsName, Proper, ItemsProper, ParseTerm;
    var rest' := [LParen] + ItemsText(p.args) + [RParen] + rest;
    assert PrimText(p) + rest == PrimText(p.f) + rest';
    EqualFollows(rest');
    CompletePost(p.f, rest');
    CompleteItems(p.args, rest);
    assert rest'[1..] == ItemsText(p.args) + [RParen] + rest;
  }

  lemma {:induction false} CompleteIndex(p: Prim, rest: Tokens)
    requires p.Index? && PrimProper(p)
    ensures var t := ParseTerm(PrimText(p) + rest);
            t.Ok? && ParsePostfix(t.v, t.rest) == ParsePostfix(p, rest)
    decreases |PrimText(p)|, 0
  {
    hide ParseItems, ParseExpr, EndsName, Proper, ItemsProper, ParseTerm;
    var rest' := [LBrack] + Text(p.i) + [RBrack] + rest;
    assert PrimText(p) + rest == PrimText(p.a) + rest';
    EqualFollows(rest');
    CompletePost(p.a, rest');
    SeparatorFollows([RBrack] + rest);
    CompleteExpr(p.i, [RBrack] + rest);
    assert rest'[1..] == Text(p.i) + ([RBrack] + rest);
    assert ([RBrack] + rest)[1..] == rest;
  }

  lemma {:induction false} CompleteMember(p: Prim, rest: Tokens)
    requires p.Member? && PrimProper(p) && EndsName(rest) && !Head(rest).LParen?
    ensures var t := ParseTerm(PrimText(p) + rest);
            t.Ok? && ParsePostfix(t.v, t.rest) == ParsePostfix(p, rest)
    decreases |PrimText(p)|, 0
  {
    hide ParseItems, ParseExpr, EndsName, Proper, ItemsProper, ParseTerm;
    var rest' := [AtomTok(Dot), p.name] + rest;
    assert PrimText(p) + rest == PrimText(p.a) + rest';
    EqualFollows(rest');
    CompletePost(p.a, rest');
    assert rest'[2..] == rest;
    NotLess(rest);
  }

  lemma NotLess(s: Tokens)
    requires EndsName(s)
    ensures Head(s) != AtomTok(DotLess)
  {
  }

  lemma {:induction false} CompleteMethod(p: Prim, rest: Tokens)
    requires p.Method? && PrimProper(p)
    ensures var t := ParseTerm(PrimText(p) + rest);
            t.Ok? && ParsePostfix(t.v, t.rest) == ParsePostfix(p, rest)
    decreases |PrimText(p)|, 0
  {
    hide ParseItems, ParseExpr, EndsName, Proper, ItemsProper, ParseTerm;
    var rest' := [AtomTok(Dot), p.name, LParen] + ItemsText(p.args) + [RParen] + rest;
    assert PrimText(p) + rest == PrimText(p.self) + rest';
    EqualFollows(rest');
    CompletePost(p.self, rest');
    CompleteItems(p.args, rest);
    assert rest'[3..] == ItemsText(p.args) + [RParen] + rest;
    assert Head(rest'[2..]) == LParen;
  }

  lemma {:induction false} CompleteItems(items: Items, rest: Tokens)
    requires ItemsProper(items)
    ensures ParseItems(ItemsText(items) + [RParen] + rest) == Ok(items, rest)
    decreases |ItemsText(items)|, 5
  {
    hide ParseExpr, Proper, Text, PrimText, Ends, EndsName, NextPriority, ParseItems;
    match items
    case Nil => ItemsEnd(rest);
    case Cons(c, comma, tail) =>
      var sep: Tokens := if comma then [AtomTok(Comma)] else [];
      var rest' := sep + ItemsText(tail) + [RParen] + rest;
      var s := ItemsText(items) + [RParen] + rest;
      assert s == Text(c) + rest';
      ItemsHead(c, rest');
      if !comma { assert rest' == [RParen] + rest; }
      SeparatorFollows(rest');
      CompleteExpr(c, rest');
      if comma {
        CompleteItems(tail, rest);
        assert rest'[1..] == ItemsText(tail) + [RParen] + rest;
      } else {
        assert rest'[1..] == rest;
      }
      ItemsUnfold(s, c, rest');
  }

  lemma ItemsEnd(rest: Tokens)
    ensures ParseItems([] + [RParen] + rest) == Ok(Nil, rest)
  {
    assert ([] + [RParen] + rest)[1..] == rest;
  }

  lemma ItemsHead(c: Expr, rest: Tokens)
    requires Proper(c)
    ensures !Head(Text(c) + rest).RParen?
  {
    FirstAndTail(c);
    StartToken(First(c), []);
  }

  lemma ItemsUnfold(s: Tokens, c: Expr, rest: Tokens)
    requires !Head(s).RParen? && ParseExpr(s) == Ok(c, rest)
    ensures ParseItems(s) == if Head(rest).RParen? then Ok(Cons(c, false, Nil), rest[1..])
                             else if Head(rest) == AtomTok(Comma) then
                               (match ParseItems(rest[1..])
                                case Ok(tail, rest') => Ok(Cons(c, true, tail), rest')
                                case Fail => Fail)
                             else Fail
  {
    hide ParseExpr;
  }

  lemma SeparatorFollows(s: Tokens)
    requires Head(s) == AtomTok(Comma) || Head(s).RParen? || Head(s).RBrack?
    ensures Ends(s) && EndsName(s) && NextPriority(s) == 0
  {
  }

  // ---------------------------------------------------------------- the results

  /** The parser accepts exactly the texts of proper expressions, and returns the expression. */
  lemma ParseExact(s: Tokens, c: Expr)
    ensures ParseExpr(s) == Ok(c, []) <==> Proper(c) && Text(c) == s
  {
    hide ParseExpr, Proper;
    if ParseExpr(s) == Ok(c, []) {
      SoundExpr(s);
      assert Text(c) + [] == Text(c);
    }
    if Proper(c) && Text(c) == s {
      CompleteExpr(c, []);
      assert Text(c) + [] == s;
    }
  }

  /** No text has two readings. */
  lemma Unambiguous(c: Expr, d: Expr)
    requires Proper(c) && Proper(d) && Text(c) == Text(d)
    ensures c == d
  {
    ParseExact(Text(c), c);
    ParseExact(Text(c), d);
  }
}
