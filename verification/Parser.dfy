/** The expression parser as functions on the remaining tokens. */
module Parser {
  import opened Options
  import opened Grammar

  datatype Got<T> = Ok(v: T, rest: Tokens) | Fail

  /** A call, index, member or assignment does not follow. */
  predicate Ends(s: Tokens) {
    !Head(s).LParen? && !Head(s).LBrack? && Head(s) != AtomTok(Dot) && Head(s) != AtomTok(Equal)
  }

  /** Nor does a struct literal or a list of type arguments. */
  predicate EndsName(s: Tokens) {
    !Head(s).LCurly? && Head(s) != AtomTok(DotLess)
  }

  function ParsePrimary(s: Tokens): (r: Got<Prim>)
    ensures r.Ok? ==> |r.rest| < |s|
    decreases |s|, 2
  {
    if UnaryOf(Head(s)).Some? then
      match ParsePrimary(s[1..])
      case Ok(e, rest) => Ok(Unary(UnaryOf(Head(s)).value, e), rest)
      case Fail => Fail
    else
      match ParseTerm(s)
      case Ok(p, rest) => ParsePostfix(p, rest)
      case Fail => Fail
  }

  /** A term is a word or parentheses. */
  function ParseTerm(s: Tokens): (r: Got<Prim>)
    ensures r.Ok? ==> |r.rest| < |s|
    decreases |s|, 1
  {
    if IsWord(Head(s)) then
      if IsName(Head(s)) && !EndsName(s[1..]) then Fail else Ok(Word(s[0]), s[1..])
    else if Head(s).LParen? then
      match ParseItems(s[1..])
      case Ok(items, rest) => Ok(Paren(items), rest)
      case Fail => Fail
    else Fail
  }

  /** The items up to the closing parenthesis. */
  function ParseItems(s: Tokens): (r: Got<Items>)
    ensures r.Ok? ==> |r.rest| < |s|
    decreases |s|, 4
  {
    if Head(s).RParen? then Ok(Nil, s[1..])
    else
      match ParseExpr(s)
      case Fail => Fail
      case Ok(c, rest) =>
        if Head(rest).RParen? then Ok(Cons(c, false, Nil), rest[1..])
        else if Head(rest) == AtomTok(Comma) then
          match ParseItems(rest[1..])
          case Ok(tail, rest') => Ok(Cons(c, true, tail), rest')
          case Fail => Fail
        else Fail
  }

  /** The calls, indexes, members and at most one assignment after p. */
  function ParsePostfix(p: Prim, s: Tokens): (r: Got<Prim>)
    ensures r.Ok? ==> |r.rest| <= |s|
    decreases |s|, 0
  {
    if Head(s).LParen? then
      match ParseItems(s[1..])
      case Ok(args, rest) => ParsePostfix(Call(p, args), rest)
      case Fail => Fail
    else if Head(s).LBrack? then
      match ParseExpr(s[1..])
      case Ok(i, rest) => if Head(rest).RBrack? then ParsePostfix(Index(p, i), rest[1..]) else Fail
      case Fail => Fail
    else if Head(s) == AtomTok(Dot) then
      if |s| < 2 || !IsIdent(s[1]) || Head(s[2..]) == AtomTok(DotLess) then Fail
      else if Head(s[2..]).LParen? then
        match ParseItems(s[3..])
        case Ok(args, rest) => ParsePostfix(Method(p, s[1], args), rest)
        case Fail => Fail
      else ParsePostfix(Member(p, s[1]), s[2..])
    else if Head(s) == AtomTok(Equal) then
      match ParseExpr(s[1..])
      case Ok(value, rest) => Ok(Assign(p, value), rest)
      case Fail => Fail
    else Ok(p, s)
  }

  function ParseExpr(s: Tokens): (r: Got<Expr>)
    ensures r.Ok? ==> |r.rest| < |s|
    decreases |s|, 3
  {
    match ParsePrimary(s)
    case Ok(p, rest) => Climb(rest, Leaf(p), 0)
    case Fail => Fail
  }

  /** Precedence climbing: takes in every operator of priority at least limit; the right operand
      takes in the operators that bind more tightly. */
  function Climb(s: Tokens, left: Expr, limit: nat): (r: Got<Expr>)
    ensures r.Ok? ==> |r.rest| <= |s| && (r.rest == s ==> r.v == left)
    ensures r.Ok? && 0 < NextPriority(s) && NextPriority(s) >= limit ==> |r.rest| < |s|
    decreases |s|, 0
  {
    var p := NextPriority(s);
    if p > 0 && p >= limit then
      match ParsePrimary(s[1..])
      case Fail => Fail
      case Ok(q, rest) =>
        match Climb(rest, Leaf(q), p + 1)
        case Fail => Fail
        case Ok(right, rest') => Climb(rest', Node(BinaryOf(s[0]).value, left, right), limit)
    else Ok(left, s)
  }
}
