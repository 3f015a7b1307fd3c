/** Lines, locations and tokens of a source text. */
module Tokenizer {
  import opened Options

  // ---------------------------------------------------------------- characters

  predicate IsSpace(c: char) { c == ' ' || c == '\r' || c == '\n' }

  predicate IsDigit(c: char) { '0' <= c <= '9' }

  predicate IsNumber(c: char) { IsDigit(c) || c == '_' || c == '.' || c == 'e' || c == 'E' || c == '+' || c == '-' }

  predicate IsIdentStart(c: char) { 'a' <= c <= 'z' || 'A' <= c <= 'Z' || c == '_' }

  predicate IsIdent(c: char) { IsIdentStart(c) || IsDigit(c) }

  predicate IsBracket(c: char) { c == '(' || c == ')' || c == '[' || c == ']' || c == '{' || c == '}' }

  predicate IsAtom(c: char) { c in "!$%&*+,-./:;<=>?@\\^`|~" }

  /** The classes of characters by their codes. */
  lemma Classes(c: char)
    ensures var n := c as int;
            && (IsIdentStart(c) <==> 65 <= n <= 90 || 97 <= n <= 122 || n == 95)
            && (IsDigit(c) <==> 48 <= n <= 57)
            && (IsIdent(c) <==> 65 <= n <= 90 || 97 <= n <= 122 || n == 95 || 48 <= n <= 57)
            && (IsNumber(c) <==> 48 <= n <= 57 || n in [95, 46, 101, 69, 43, 45])
            && (IsBracket(c) <==> n in [40, 41, 91, 93, 123, 125])
            && (IsAtom(c) <==> n == 33 || 36 <= n <= 38 || 42 <= n <= 47 || 58 <= n <= 64 || n in [92, 94, 96, 124, 126])
            && (IsSpace(c) <==> n in [32, 13, 10])
  {
  }

  /** Any character but c. */
  function Not(c: char): char -> bool { x => x != c }

  // ---------------------------------------------------------------- lines

  datatype Line = Line(indent: nat, offset: nat)

  /** The number of newlines among the first n characters. */
  function Newlines(data: string, n: nat): nat
    requires n <= |data|
  {
    if n == 0 then 0 else Newlines(data, n - 1) + if data[n - 1] == '\n' then 1 else 0
  }

  lemma {:induction false} NewlinesMono(data: string, m: nat, n: nat)
    requires m <= n <= |data|
    ensures Newlines(data, m) <= Newlines(data, n)
    ensures (forall i | m <= i < n :: data[i] != '\n') ==> Newlines(data, m) == Newlines(data, n)
    decreases n
  {
    if m < n { NewlinesMono(data, m, n - 1); }
  }

  lemma NewlinesOrder(data: string, m: nat, n: nat)
    requires m <= |data| && n <= |data| && Newlines(data, m) < Newlines(data, n)
    ensures m < n
  {
    if n <= m { NewlinesMono(data, n, m); }
  }

  /** A line starts at the beginning or after a newline. */
  predicate LineStart(data: string, o: nat) {
    o < |data| && (o == 0 || data[o - 1] == '\n')
  }

  /** o is where line k starts, and indent its leading spaces. */
  ghost predicate IsLine(data: string, k: nat, l: Line) {
    && LineStart(data, l.offset) && Newlines(data, l.offset) == k
    && l.offset + l.indent <= |data|
    && (forall i | l.offset <= i < l.offset + l.indent :: data[i] == ' ')
    && (l.offset + l.indent < |data| ==> data[l.offset + l.indent] != ' ')
  }

  /** The lines are those that start before o, in order. */
  ghost predicate LinesTo(data: string, lines: seq<Line>, o: nat) {
    && o <= |data|
    && (forall k | 0 <= k < |lines| :: IsLine(data, k, lines[k]) && lines[k].offset < o)
    && (forall p | 0 <= p < o && LineStart(data, p) :: Newlines(data, p) < |lines| && lines[Newlines(data, p)].offset == p)
  }

  /** Finds the lines; fails exactly when there is a tab. */
  method ParseLines(data: string) returns (ok: bool, lines: seq<Line>)
    ensures ok <==> '\t' !in data
    ensures ok ==> LinesTo(data, lines, |data|)
  {
    lines := [];
    var offset := 0;
    while offset < |data|
      invariant 0 <= offset <= |data| && (offset < |data| ==> LineStart(data, offset))
      invariant LinesTo(data, lines, offset) && (offset < |data| ==> Newlines(data, offset) == |lines|)
      invariant '\t' !in data[..offset]
    {
      var start := offset;
      var indent := 0;
      while offset < |data| && data[offset] == ' '
        invariant start <= offset <= |data| && offset == start + indent
        invariant forall i | start <= i < offset :: data[i] == ' '
      {
        offset := offset + 1;
        indent := indent + 1;
      }
      while offset < |data| && data[offset] != '\n'
        invariant start + indent <= offset <= |data|
        invariant forall i | start <= i < offset :: data[i] != '\n' && data[i] != '\t'
        invariant start + indent < |data| ==> data[start + indent] != ' '
      {
        if data[offset] == '\t' {
          return false, lines;
        }
        offset := offset + 1;
      }
      ghost var before := lines;
      lines := lines + [Line(indent, start)];
      ghost var end := offset;
      if offset < |data| {
        offset := offset + 1;
      }
      NewlinesMono(data, start, end);
      LineAdded(data, before, start, indent, end, offset);
      NoTab(data, start, end, offset);
    }
    assert data[..offset] == data;
    ok := true;
  }

  lemma NoTab(data: string, start: nat, end: nat, offset: nat)
    requires start <= end <= offset <= |data| && '\t' !in data[..start]
    requires (forall i | start <= i < end :: data[i] != '\t') && (forall i | end <= i < offset :: data[i] == '\n')
    ensures '\t' !in data[..offset]
  {
    forall i | 0 <= i < offset ensures data[..offset][i] != '\t' {
      if i < start { assert data[..start][i] == data[i]; }
    }
  }

  /** The line from start is added; the next one starts at offset. */
  lemma LineAdded(data: string, lines: seq<Line>, start: nat, indent: nat, end: nat, offset: nat)
    requires LinesTo(data, lines, start) && LineStart(data, start) && Newlines(data, start) == |lines|
    requires start + indent <= end <= |data| && (forall i | start <= i < end :: data[i] != '\n')
    requires offset == (if end < |data| then end + 1 else end) && (end < |data| ==> data[end] == '\n')
    requires forall i | start <= i < start + indent :: data[i] == ' '
    requires start + indent < |data| ==> data[start + indent] != ' '
    ensures LinesTo(data, lines + [Line(indent, start)], offset)
    ensures offset < |data| ==> LineStart(data, offset) && Newlines(data, offset) == |lines| + 1
  {
    var lines' := lines + [Line(indent, start)];
    NewlinesMono(data, start, end);
    forall p | 0 <= p < offset && LineStart(data, p)
      ensures Newlines(data, p) < |lines'| && lines'[Newlines(data, p)].offset == p
    {
    }
  }

  datatype Location = Location(line: nat, column: nat, offset: nat, length: nat)

  /** The last line that starts at or before the offset, by binary search. */
  method GetLocation(data: string, lines: seq<Line>, offset: nat, length: nat) returns (loc: Location)
    requires LinesTo(data, lines, |data|) && offset < |data|
    ensures loc.offset == offset && loc.length == length
    ensures loc.line == Newlines(data, offset) < |lines|
    ensures lines[loc.line].offset + loc.column == offset
  {
    LinesAscend(data, lines);
    var lo, hi := 0, |lines|;
    while lo < hi
      invariant 0 <= lo <= hi <= |lines|
      invariant forall k | 0 <= k < lo :: lines[k].offset <= offset
      invariant forall k | hi <= k < |lines| :: lines[k].offset > offset
    {
      var mid := (lo + hi) / 2;
      if lines[mid].offset <= offset {
        lo := mid + 1;
      } else {
        hi := mid;
      }
    }
    ghost var p := StartOf(data, offset);
    assert lines[Newlines(data, p)].offset == p <= offset;
    assert lo > Newlines(data, p);
    assert IsLine(data, lo - 1, lines[lo - 1]);
    NewlinesMono(data, lines[lo - 1].offset, offset);
    loc := Location(lo - 1, offset - lines[lo - 1].offset, offset, length);
  }

  lemma LinesAscend(data: string, lines: seq<Line>)
    requires LinesTo(data, lines, |data|)
    ensures forall j, k | 0 <= j < k < |lines| :: lines[j].offset < lines[k].offset
  {
    forall j, k | 0 <= j < k < |lines|
      ensures lines[j].offset < lines[k].offset
    {
      assert IsLine(data, j, lines[j]) && IsLine(data, k, lines[k]);
      NewlinesOrder(data, lines[j].offset, lines[k].offset);
    }
  }

  /** Where the line of an offset starts. */
  lemma {:induction false} StartOf(data: string, o: nat) returns (p: nat)
    requires o < |data|
    ensures p <= o && LineStart(data, p) && Newlines(data, p) == Newlines(data, o)
    decreases o
  {
    if o == 0 || data[o - 1] == '\n' {
      p := o;
    } else {
      p := StartOf(data, o - 1);
    }
  }

  // ---------------------------------------------------------------- tokens

  datatype Kind = AtomKind | BracketKind | IdentKind | StringKind | CharacterKind | NumberKind | LineKind

  /** A token: where it starts, and where its text lies. */
  datatype Token = Token(kind: Kind, start: nat, from: nat, to: nat)

  datatype Lexed = Lexed(tokens: seq<Token>) | BadCharacter(offset: nat)

  /** The first position at or after o whose character is not in the class. */
  function ScanEnd(data: string, o: nat, within: char -> bool): (e: nat)
    requires o <= |data|
    ensures o <= e <= |data| && (forall i | o <= i < e :: within(data[i])) && (e < |data| ==> !within(data[e]))
    decreases |data| - o
  {
    if o < |data| && within(data[o]) then ScanEnd(data, o + 1, within) else o
  }

  /** What starts at o: a token or nothing, and where to go on. */
  datatype Piece = Piece(token: Option<Token>, next: nat) | Bad

  function Next(data: string, o: nat): (p: Piece)
    requires o < |data|
    ensures p.Piece? ==> p.next > o
  {
    var c := data[o];
    if IsSpace(c) then Piece(None, o + 1)
    else if c == '#' then Piece(None, ScanEnd(data, o, Not('\n')))
    else if IsIdentStart(c) then
      var e := ScanEnd(data, o, IsIdent);
      Piece(Some(Token(IdentKind, o, o, e)), e)
    else if IsDigit(c) then
      var e := ScanEnd(data, o, IsNumber);
      Piece(Some(Token(NumberKind, o, o, e)), e)
    else if c == '"' || c == '\'' then
      var e := ScanEnd(data, o + 1, Not(c));
      Piece(Some(Token(if c == '"' then StringKind else CharacterKind, o, o + 1, e)), e + 1)
    else if IsBracket(c) then Piece(Some(Token(BracketKind, o, o, o + 1)), o + 1)
    else if IsAtom(c) then
      var e := ScanEnd(data, o, IsAtom);
      Piece(Some(Token(AtomKind, o, o, e)), e)
    else Bad
  }

  /** The tokens from o on. */
  function Lex(data: string, o: nat): Lexed
    decreases |data| - o
  {
    if o >= |data| then Lexed([])
    else
      match Next(data, o)
      case Bad => BadCharacter(o)
      case Piece(token, next) =>
        match Lex(data, next)
        case BadCharacter(b) => BadCharacter(b)
        case Lexed(tokens) => Lexed((if token.Some? then [token.value] else []) + tokens)
  }

  method Scan(data: string, o: nat, within: char -> bool) returns (end: nat)
    requires o <= |data|
    ensures end == ScanEnd(data, o, within)
  {
    end := o;
    while end < |data| && within(data[end])
      invariant o <= end <= |data| && ScanEnd(data, end, within) == ScanEnd(data, o, within)
    {
      end := end + 1;
    }
  }

  method ParseTokens(data: string) returns (r: Lexed)
    ensures r == Lex(data, 0)
  {
    var result := [];
    var offset := 0;
    while offset < |data|
      invariant Lexing(Lex(data, 0), result, Lex(data, offset))
      decreases |data| - offset
    {
      var token, next := ParseToken(data, offset);
      LexStep(data, offset, result);
      if next == offset {
        return BadCharacter(offset);
      }
      if token.Some? {
        result := result + [token.value];
      }
      offset := next;
    }
    assert result + [] == result;
    r := Lexed(result);
  }

  /** The whole is what has been found and what the rest gives. */
  predicate Lexing(whole: Lexed, found: seq<Token>, rest: Lexed) {
    whole == match rest case Lexed(tokens) => Lexed(found + tokens) case BadCharacter(b) => BadCharacter(b)
  }

  lemma LexStep(data: string, o: nat, found: seq<Token>)
    requires o < |data|
    ensures Next(data, o).Bad? ==> Lex(data, o) == BadCharacter(o)
    ensures Next(data, o).Piece? ==>
              var p := Next(data, o);
              forall whole | Lexing(whole, found, Lex(data, o)) ::
                Lexing(whole, if p.token.Some? then found + [p.token.value] else found, Lex(data, p.next))
  {
    var p := Next(data, o);
    hide Next;
    if p.Piece? && Lex(data, p.next).Lexed? {
      var rest := Lex(data, p.next).tokens;
      if p.token.Some? {
        assert found + ([p.token.value] + rest) == found + [p.token.value] + rest;
      } else {
        assert [] + rest == rest;
      }
    }
  }

  /** Reads one token, or passes over a space or a comment; stays in place at an unknown character. */
  method ParseToken(data: string, o: nat) returns (token: Option<Token>, offset: nat)
    requires o < |data|
    ensures match Next(data, o) case Piece(t, n) => token == t && offset == n case Bad => offset == o
  {
    var c := data[o];
    token, offset := None, o;
    if IsSpace(c) {
      offset := offset + 1;
    } else if c == '#' {
      offset := Scan(data, offset, Not('\n'));
    } else if IsIdentStart(c) {
      offset := Scan(data, offset, IsIdent);
      token := Some(Token(IdentKind, o, o, offset));
    } else if IsDigit(c) {
      offset := Scan(data, offset, IsNumber);
      token := Some(Token(NumberKind, o, o, offset));
    } else if c == '"' || c == '\'' {
      offset := Scan(data, offset + 1, Not(c));
      token := Some(Token(if c == '"' then StringKind else CharacterKind, o, o + 1, offset));
      offset := offset + 1;
    } else if IsBracket(c) {
      offset := offset + 1;
      token := Some(Token(BracketKind, o, o, offset));
    } else if IsAtom(c) {
      offset := Scan(data, offset, IsAtom);
      token := Some(Token(AtomKind, o, o, offset));
    }
  }

  /** Tokens start where their text starts, or one before for quoted ones; their text is in their
      class and as long as possible. */
  ghost predicate TokenOk(data: string, t: Token) {
    && t.start < t.to <= |data| && t.from <= t.to
    && match t.kind
       case IdentKind => t.from == t.start && IsIdentStart(data[t.from]) && Longest(data, t, IsIdent)
       case NumberKind => t.from == t.start && IsDigit(data[t.from]) && Longest(data, t, IsNumber)
       case AtomKind => t.from == t.start && Longest(data, t, IsAtom)
       case BracketKind => t.from == t.start && t.to == t.from + 1 && IsBracket(data[t.from])
       case StringKind => t.from == t.start + 1 && data[t.start] == '"' && Longest(data, t, Not('"'))
       case CharacterKind => t.from == t.start + 1 && data[t.start] == '\'' && Longest(data, t, Not('\''))
       case LineKind => false
  }

  ghost predicate Longest(data: string, t: Token, within: char -> bool)
    requires t.from <= t.to <= |data|
  {
    (forall i | t.from <= i < t.to :: within(data[i])) && (t.to < |data| ==> !within(data[t.to]))
  }

  /** Tokens come in order, do not overlap, and lie at or after o. */
  ghost predicate Ordered(tokens: seq<Token>, o: nat) {
    && (forall i | 0 <= i < |tokens| :: o <= tokens[i].start < tokens[i].to)
    && (forall i, j | 0 <= i < j < |tokens| :: tokens[i].to <= tokens[j].start)
  }

  lemma NextOk(data: string, o: nat)
    requires o < |data| && Next(data, o).Piece? && Next(data, o).token.Some?
    ensures var p := Next(data, o); TokenOk(data, p.token.value) && p.token.value.start == o && p.token.value.to <= p.next
  {
    NextClasses(data[o]);
  }

  /** The classes of first characters overlap only where the first one tried is meant. */
  lemma NextClasses(c: char)
    ensures IsIdentStart(c) ==> IsIdent(c)
    ensures IsDigit(c) ==> IsNumber(c)
  {
  }

  /** Every token is well formed, and the tokens are ordered and do not overlap. */
  lemma {:induction false} LexOk(data: string, o: nat)
    requires Lex(data, o).Lexed?
    ensures (forall i | 0 <= i < |Lex(data, o).tokens| :: TokenOk(data, Lex(data, o).tokens[i])) && Ordered(Lex(data, o).tokens, o)
    decreases |data| - o
  {
    hide Next, TokenOk;
    if o < |data| {
      NextMoves(data, o);
      var p := Next(data, o);
      LexOk(data, p.next);
      if p.token.Some? { NextOk(data, o); }
    }
  }

  lemma NextMoves(data: string, o: nat)
    requires o < |data|
    ensures Next(data, o).Piece? ==> Next(data, o).next > o
  {
  }

  // ---------------------------------------------------------------- what the tokens of a text are

  /** Where a token ends, its closing quote included. */
  function End(t: Token): nat {
    t.to + if t.kind.StringKind? || t.kind.CharacterKind? then 1 else 0
  }

  predicate Covers(t: Token, p: nat) { t.start <= p < End(t) }

  predicate InToken(ts: seq<Token>, p: nat) {
    exists i :: 0 <= i < |ts| && Covers(ts[i], p)
  }

  predicate OneLine(data: string, q: nat, p: nat) {
    p <= |data| && forall r | q <= r < p :: data[r] != '\n'
  }

  /** A comment sign outside every token. */
  predicate OpensComment(data: string, ts: seq<Token>, q: nat) {
    q < |data| && data[q] == '#' && !InToken(ts, q)
  }

  ghost predicate InComment(data: string, o: nat, ts: seq<Token>, p: nat) {
    exists q: nat :: o <= q <= p && OpensComment(data, ts, q) && OneLine(data, q, p + 1)
  }

  ghost predicate AllOk(data: string, o: nat, ts: seq<Token>) {
    forall i | 0 <= i < |ts| :: TokenOk(data, ts[i]) && o <= ts[i].start
  }

  predicate TokensApart(ts: seq<Token>) {
    forall i, j | 0 <= i < j < |ts| :: End(ts[i]) <= ts[j].start
  }

  /** What is in no token is space or comment. */
  ghost predicate AllCovered(data: string, o: nat, ts: seq<Token>) {
    forall p: nat | o <= p < |data| :: InToken(ts, p) || IsSpace(data[p]) || InComment(data, o, ts, p)
  }

  /** No token starts in a comment. */
  ghost predicate CommentsSkipped(data: string, o: nat, ts: seq<Token>) {
    forall q: nat, i | o <= q && 0 <= i < |ts| && q < ts[i].start && OpensComment(data, ts, q) :: !OneLine(data, q, ts[i].start)
  }

  /** ts are the tokens from o on: each is as long as possible, they are apart, what lies between
      them is space or comment, and none starts in a comment. */
  ghost predicate AreTokens(data: string, o: nat, ts: seq<Token>) {
    AllOk(data, o, ts) && TokensApart(ts) && AllCovered(data, o, ts) && CommentsSkipped(data, o, ts)
  }

  /** No token starts at a space, a comment sign or an unknown character. */
  lemma TokenStarts(data: string, t: Token)
    requires TokenOk(data, t)
    ensures t.start < |data| && !IsSpace(data[t.start]) && data[t.start] != '#' && End(t) > t.start && !Next(data, t.start).Bad?
  {
  }

  lemma NextGoes(data: string, o: nat)
    requires o < |data| && Next(data, o).Piece?
    ensures var n := Next(data, o).next;
            match Next(data, o).token
            case Some(t) => TokenOk(data, t) && t.start == o && End(t) == n && data[o] != '#' && !IsSpace(data[o])
            case None => Gap(data, o, n)
  {
    if Next(data, o).token.Some? { NextOk(data, o); }
  }

  lemma LongestEnds(data: string, t: Token, within: char -> bool)
    requires t.from <= t.to <= |data| && Longest(data, t, within)
    ensures ScanEnd(data, t.from, within) == t.to
  {
  }

  /** What starts where a piece does is that piece. */
  lemma TokenSame(data: string, t: Token)
    requires TokenOk(data, t)
    ensures Next(data, t.start) == Piece(Some(t), End(t))
  {
    hide Longest, ScanEnd;
    match t.kind
    case IdentKind => LongestEnds(data, t, IsIdent);
    case NumberKind => LongestEnds(data, t, IsNumber);
    case AtomKind =>
      LongestEnds(data, t, IsAtom);
      AtomStarts(data, t);
    case BracketKind =>
    case StringKind => LongestEnds(data, t, Not('"'));
    case CharacterKind => LongestEnds(data, t, Not('\''));
  }

  lemma AtomStarts(data: string, t: Token)
    requires t.start == t.from < t.to <= |data| && Longest(data, t, IsAtom)
    ensures IsAtom(data[t.start])
  {
  }

  lemma StartsOk(data: string, o: nat, ts: seq<Token>, i: nat)
    requires AllOk(data, o, ts) && i < |ts|
    ensures o <= ts[i].start < |data| && !IsSpace(data[ts[i].start]) && data[ts[i].start] != '#' && End(ts[i]) > ts[i].start && TokenOk(data, ts[i])
  {
    hide TokenOk, Next;
    TokenStarts(data, ts[i]);
  }

  lemma NotInside(data: string, o: nat, ts: seq<Token>)
    requires AllOk(data, o, ts) && o < |data| && (IsSpace(data[o]) || data[o] == '#')
    ensures !InToken(ts, o)
  {
    hide AllOk;
    if i :| 0 <= i < |ts| && Covers(ts[i], o) { StartsOk(data, o, ts, i); }
  }

  lemma FirstLeast(data: string, o: nat, ts: seq<Token>, i: nat)
    requires AllOk(data, o, ts) && TokensApart(ts) && i < |ts|
    ensures ts[0].start <= ts[i].start
  {
    hide AllOk;
    StartsOk(data, o, ts, 0);
  }

  /** A position that is neither space nor comment sign is where the first token starts. */
  lemma FirstStarts(data: string, o: nat, ts: seq<Token>)
    requires AllOk(data, o, ts) && TokensApart(ts) && AllCovered(data, o, ts)
    requires o < |data| && !IsSpace(data[o]) && data[o] != '#'
    ensures ts != [] && ts[0].start == o && TokenOk(data, ts[0])
  {
    hide AllOk, TokensApart, OneLine;
    assert InToken(ts, o);
    var i :| 0 <= i < |ts| && Covers(ts[i], o);
    FirstLeast(data, o, ts, i);
    StartsOk(data, o, ts, 0);
  }

  /** Going over a space or a comment. */
  lemma SkipPiece(data: string, o: nat, ts: seq<Token>)
    requires o < |data| && Next(data, o).Piece? && Next(data, o).token.None?
    ensures AreTokens(data, o, ts) <==> AreTokens(data, Next(data, o).next, ts)
  {
    hide Next, AllOk, AllCovered, CommentsSkipped, TokensApart;
    NextGoes(data, o);
    var n := Next(data, o).next;
    if AreTokens(data, o, ts) {
      SkipOk(data, o, n, ts);
      SkipCovered(data, o, n, ts);
      assert CommentsSkipped(data, n, ts) by { SkipLater(data, o, n, ts); }
    }
    if AreTokens(data, n, ts) {
      BackOk(data, o, n, ts);
      BackCovered(data, o, n, ts);
      BackSkipped(data, o, n, ts);
    }
  }

  /** From o to n there is one space, or a comment up to the end of the line. */
  predicate Gap(data: string, o: nat, n: nat) {
    && o < n <= |data|
    && if data[o] == '#' then OneLine(data, o, n) && (n < |data| ==> data[n] == '\n') else n == o + 1 && IsSpace(data[o])
  }

  lemma SkipOk(data: string, o: nat, n: nat, ts: seq<Token>)
    requires Gap(data, o, n) && AllOk(data, o, ts) && CommentsSkipped(data, o, ts)
    ensures AllOk(data, n, ts)
  {
    hide TokenOk, Next;
    NotInside(data, o, ts);
    forall i | 0 <= i < |ts| ensures n <= ts[i].start {
      StartsOk(data, o, ts, i);
      if data[o] == '#' {
        assert OpensComment(data, ts, o);
      }
    }
  }

  lemma SkipCovered(data: string, o: nat, n: nat, ts: seq<Token>)
    requires Gap(data, o, n) && AllCovered(data, o, ts)
    ensures AllCovered(data, n, ts)
  {
    hide InToken, InComment, Gap;
    forall p: nat | n <= p < |data| ensures InToken(ts, p) || IsSpace(data[p]) || InComment(data, n, ts, p) {
      GapStart(data, o, n);
      assert InToken(ts, p) || IsSpace(data[p]) || InComment(data, o, ts, p);
      if InComment(data, o, ts, p) { SkipComment(data, o, n, ts, p); }
    }
  }

  lemma GapStart(data: string, o: nat, n: nat)
    requires Gap(data, o, n)
    ensures o < n <= |data|
  {
  }

  lemma SkipComment(data: string, o: nat, n: nat, ts: seq<Token>, p: nat)
    requires Gap(data, o, n) && n <= p < |data| && InComment(data, o, ts, p)
    ensures InComment(data, n, ts, p)
  {
    hide InToken;
    var q: nat :| o <= q <= p && OpensComment(data, ts, q) && OneLine(data, q, p + 1);
    assert q >= n;
  }

  lemma SkipLater(data: string, o: nat, n: nat, ts: seq<Token>)
    requires o <= n && CommentsSkipped(data, o, ts)
    ensures CommentsSkipped(data, n, ts)
  {
    hide OpensComment, OneLine;
  }

  lemma BackOk(data: string, o: nat, n: nat, ts: seq<Token>)
    requires o <= n && AllOk(data, n, ts)
    ensures AllOk(data, o, ts)
  {
    hide TokenOk;
  }

  lemma BackCovered(data: string, o: nat, n: nat, ts: seq<Token>)
    requires Gap(data, o, n) && AllOk(data, n, ts) && AllCovered(data, n, ts)
    ensures AllCovered(data, o, ts)
  {
    hide TokenOk, Next;
    assert !InToken(ts, o);
    forall p: nat | o <= p < |data| ensures InToken(ts, p) || IsSpace(data[p]) || InComment(data, o, ts, p) {
      if p < n {
        assert data[o] == '#' ==> OpensComment(data, ts, o) && OneLine(data, o, p + 1);
      } else if InComment(data, n, ts, p) {
        var q: nat :| n <= q <= p && OpensComment(data, ts, q) && OneLine(data, q, p + 1);
        assert o <= q;
      }
    }
  }

  lemma BackSkipped(data: string, o: nat, n: nat, ts: seq<Token>)
    requires Gap(data, o, n) && AllOk(data, n, ts) && CommentsSkipped(data, n, ts)
    ensures CommentsSkipped(data, o, ts)
  {
    hide TokenOk, Next, InToken;
    forall q: nat, i | o <= q && 0 <= i < |ts| && q < ts[i].start && OpensComment(data, ts, q) ensures !OneLine(data, q, ts[i].start) {
      StartsOk(data, n, ts, i);
    }
  }

  /** Going over a token. */
  lemma TakeForth(data: string, o: nat, ts: seq<Token>)
    requires o < |data| && Next(data, o).Piece? && Next(data, o).token.Some? && AreTokens(data, o, ts)
    ensures ts != [] && ts[0] == Next(data, o).token.value && AreTokens(data, Next(data, o).next, ts[1..])
  {
    hide TokenOk, Next;
    NextGoes(data, o);
    var n := Next(data, o).next;
    FirstStarts(data, o, ts);
    TokenSame(data, ts[0]);
    var rest := ts[1..];
    forall p: nat | n <= p ensures InToken(ts, p) <==> InToken(rest, p) {
      RestCovers(ts, p);
    }
    forall p: nat | n <= p < |data| && InComment(data, o, ts, p) ensures InComment(data, n, rest, p) {
      var q: nat :| o <= q <= p && OpensComment(data, ts, q) && OneLine(data, q, p + 1);
      assert Covers(ts[0], q) ==> InToken(ts, q);
      assert OpensComment(data, rest, q);
    }
    forall q: nat, i | n <= q && 0 <= i < |rest| && q < rest[i].start && OpensComment(data, rest, q) ensures !OneLine(data, q, rest[i].start) {
      assert OpensComment(data, ts, q) && rest[i] == ts[i + 1];
    }
  }

  lemma TakeBack(data: string, o: nat, ts: seq<Token>)
    requires o < |data| && Next(data, o).Piece? && Next(data, o).token.Some? && ts != [] && ts[0] == Next(data, o).token.value
    requires AreTokens(data, Next(data, o).next, ts[1..])
    ensures AreTokens(data, o, ts)
  {
    hide TokenOk, Next;
    NextGoes(data, o);
    NextMoves(data, o);
    var n := Next(data, o).next;
    var rest := ts[1..];
    forall p: nat | n <= p ensures InToken(ts, p) <==> InToken(rest, p) {
      RestCovers(ts, p);
    }
    forall i | 0 <= i < |ts| ensures TokenOk(data, ts[i]) && o <= ts[i].start {
      assert i > 0 ==> ts[i] == rest[i - 1];
    }
    forall i, j | 0 <= i < j < |ts| ensures End(ts[i]) <= ts[j].start {
      assert ts[j] == rest[j - 1] && (i > 0 ==> ts[i] == rest[i - 1]);
    }
    forall p: nat | o <= p < |data| ensures InToken(ts, p) || IsSpace(data[p]) || InComment(data, o, ts, p) {
      if p < n {
        assert Covers(ts[0], p);
      } else if InComment(data, n, rest, p) {
        var q: nat :| n <= q <= p && OpensComment(data, rest, q) && OneLine(data, q, p + 1);
        assert OpensComment(data, ts, q);
      }
    }
    forall q: nat, i | o <= q && 0 <= i < |ts| && q < ts[i].start && OpensComment(data, ts, q) ensures !OneLine(data, q, ts[i].start) {
      assert Covers(ts[0], q) ==> InToken(ts, q);
      assert OpensComment(data, rest, q) && ts[i] == rest[i - 1];
    }
  }

  lemma RestCovers(ts: seq<Token>, p: nat)
    requires ts != [] && !Covers(ts[0], p)
    ensures InToken(ts, p) <==> InToken(ts[1..], p)
  {
    forall i | 0 < i < |ts| ensures ts[i] == ts[1..][i - 1] {
    }
  }

  /** Lexing gives a token list if and only if it is the list of the text's tokens. */
  lemma {:induction false} LexExact(data: string, o: nat, ts: seq<Token>)
    ensures Lex(data, o) == Lexed(ts) <==> AreTokens(data, o, ts)
    decreases |data| - o
  {
    hide AreTokens, TokenOk, Next;
    if o >= |data| {
      NoTokens(data, o, ts);
    } else if AreTokens(data, o, ts) && Next(data, o).Bad? {
      BadStart(data, o, ts);
      assert false;
    } else if Next(data, o).Piece? {
      var p := Next(data, o);
      NextMoves(data, o);
      if p.token.None? {
        SkipPiece(data, o, ts);
        LexExact(data, p.next, ts);
      } else {
        if AreTokens(data, o, ts) { TakeForth(data, o, ts); }
        if ts != [] {
          LexExact(data, p.next, ts[1..]);
          assert ts == [ts[0]] + ts[1..];
          if ts[0] == p.token.value && AreTokens(data, p.next, ts[1..]) { TakeBack(data, o, ts); }
        }
        assert forall rest: seq<Token> :: ([p.token.value] + rest)[1..] == rest;
      }
    }
  }

  lemma NoTokens(data: string, o: nat, ts: seq<Token>)
    requires o >= |data|
    ensures AreTokens(data, o, ts) <==> ts == []
  {
    if AreTokens(data, o, ts) && ts != [] { StartsOk(data, o, ts, 0); }
  }

  lemma BadStart(data: string, o: nat, ts: seq<Token>)
    requires o < |data| && AreTokens(data, o, ts)
    ensures !Next(data, o).Bad?
  {
    hide AllOk, TokensApart, AllCovered, CommentsSkipped, TokenOk;
    if !IsSpace(data[o]) && data[o] != '#' {
      FirstStarts(data, o, ts);
      TokenStarts(data, ts[0]);
    }
  }

  // ---------------------------------------------------------------- brackets

  datatype Shape = Round | Square | Curly

  /** What a token means to the bracket check. */
  datatype Mark = Plain | Opening(s: Shape) | Closing(s: Shape)

  function MarkOf(c: char): Mark {
    match c
    case '(' => Opening(Round)
    case '[' => Opening(Square)
    case '{' => Opening(Curly)
    case ')' => Closing(Round)
    case ']' => Closing(Square)
    case '}' => Closing(Curly)
    case _ => Plain
  }

  /** A closing bracket goes with the opening one of its kind only. */
  lemma BracketPairs(o: char, c: char)
    requires MarkOf(o).Opening? && MarkOf(c).Closing?
    ensures o in "([{" && c in ")]}"
    ensures MarkOf(o).s == MarkOf(c).s <==> (o == '(' && c == ')') || (o == '[' && c == ']') || (o == '{' && c == '}')
  {
  }

  /** The outcome of the check: the first closing bracket without an opening one, or of another
      shape than the opening one, or the last opening bracket left over. */
  datatype Verdict = Matched | Unmatched(close: nat) | Mismatched(close: nat, open: nat) | Unclosed(open: nat)

  /** The check of marks i and up; the stack holds the places of open brackets, last on top. */
  function Check(marks: seq<Mark>, i: nat, stack: seq<nat>): Verdict
    requires i <= |marks| && forall k | k in stack :: k < |marks| && marks[k].Opening?
    decreases |marks| - i
  {
    if i == |marks| then (if stack == [] then Matched else Unclosed(stack[|stack| - 1]))
    else
      match marks[i]
      case Plain => Check(marks, i + 1, stack)
      case Opening(_) => Check(marks, i + 1, stack + [i])
      case Closing(s) =>
        if stack == [] then Unmatched(i)
        else
          var open := stack[|stack| - 1];
          assert open in stack && forall k | k in stack[..|stack| - 1] :: k in stack;
          if marks[open].s != s then Mismatched(i, open) else Check(marks, i + 1, stack[..|stack| - 1])
  }

  method MatchBrackets(marks: seq<Mark>) returns (v: Verdict)
    ensures v == Check(marks, 0, [])
  {
    var brackets: seq<nat> := [];
    var i := 0;
    while i < |marks|
      invariant 0 <= i <= |marks| && forall k | k in brackets :: k < |marks| && marks[k].Opening?
      invariant Check(marks, i, brackets) == Check(marks, 0, [])
    {
      if marks[i].Opening? {
        brackets := brackets + [i];
      } else if marks[i].Closing? {
        if brackets == [] {
          return Unmatched(i);
        }
        var open := brackets[|brackets| - 1];
        assert open in brackets;
        if marks[open].s != marks[i].s {
          return Mismatched(i, open);
        }
        brackets := brackets[..|brackets| - 1];
      }
      i := i + 1;
    }
    if brackets != [] {
      return Unclosed(brackets[|brackets| - 1]);
    }
    return Matched;
  }

  /** Well-nested marks: plain ones, and bracket pairs of one shape around well-nested marks. */
  datatype Nest = Done | Skip(rest: Nest) | Pair(s: Shape, inner: Nest, rest: Nest)

  function Marks(n: Nest): seq<Mark> {
    match n
    case Done => []
    case Skip(rest) => [Plain] + Marks(rest)
    case Pair(s, inner, rest) => [Opening(s)] + Marks(inner) + [Closing(s)] + Marks(rest)
  }

  ghost predicate WellNested(marks: seq<Mark>) {
    exists n :: Marks(n) == marks
  }

  /** The check passes over well-nested marks without changing the stack. */
  lemma {:induction false} CheckPasses(marks: seq<Mark>, pre: seq<Mark>, n: Nest, post: seq<Mark>, stack: seq<nat>)
    requires marks == pre + Marks(n) + post
    requires forall k | k in stack :: k < |marks| && marks[k].Opening?
    ensures Check(marks, |pre|, stack) == Check(marks, |pre| + |Marks(n)|, stack)
    decreases n
  {
    hide Check;
    match n
    case Done =>
    case Skip(rest) =>
      Parts3(pre, [Plain], Marks(rest), post);
      CheckPasses(marks, pre + [Plain], rest, post, stack);
      CheckPlain(marks, |pre|, stack);
    case Pair(s, inner, rest) =>
      var o, c := [Opening(s)], [Closing(s)];
      Parts5(pre, o, Marks(inner), c, Marks(rest), post);
      var j := |pre| + 1 + |Marks(inner)|;
      assert marks[|pre|] == Opening(s) && marks[j] == Closing(s);
      CheckOpens(marks, |pre|, stack);
      CheckPasses(marks, pre + o, inner, c + Marks(rest) + post, stack + [|pre|]);
      CheckPops(marks, j, stack, |pre|);
      CheckPasses(marks, pre + o + Marks(inner) + c, rest, post, stack);
  }

  lemma Parts3(a: seq<Mark>, b: seq<Mark>, c: seq<Mark>, d: seq<Mark>)
    ensures a + (b + c) + d == a + b + c + d
  {
  }

  lemma Parts5(a: seq<Mark>, b: seq<Mark>, c: seq<Mark>, d: seq<Mark>, e: seq<Mark>, f: seq<Mark>)
    ensures a + (b + c + d + e) + f == (a + b) + c + (d + e + f) == (a + b + c + d) + e + f
  {
  }

  lemma CheckPlain(marks: seq<Mark>, i: nat, stack: seq<nat>)
    requires i < |marks| && marks[i].Plain? && forall k | k in stack :: k < |marks| && marks[k].Opening?
    ensures Check(marks, i, stack) == Check(marks, i + 1, stack)
  {
  }

  lemma CheckOpens(marks: seq<Mark>, i: nat, stack: seq<nat>)
    requires i < |marks| && marks[i].Opening? && forall k | k in stack :: k < |marks| && marks[k].Opening?
    ensures Check(marks, i, stack) == Check(marks, i + 1, stack + [i])
  {
  }

  lemma CheckPops(marks: seq<Mark>, j: nat, stack: seq<nat>, i: nat)
    requires i < |marks| && j < |marks| && marks[i].Opening? && marks[j] == Closing(marks[i].s)
    requires forall k | k in stack :: k < |marks| && marks[k].Opening?
    ensures Check(marks, j, stack + [i]) == Check(marks, j + 1, stack)
  {
    assert (stack + [i])[..|stack + [i]| - 1] == stack;
  }

  /** What the marks from i on must look like for the check to pass: for each open bracket, from the
      top, a nest and its closing bracket, and a last nest. */
  function Closes(marks: seq<Mark>, stack: seq<nat>, nests: seq<Nest>): seq<Mark>
    requires |nests| == |stack| + 1 && forall k | k in stack :: k < |marks| && marks[k].Opening?
    decreases |stack|
  {
    if stack == [] then Marks(nests[0])
    else
      var top := stack[|stack| - 1];
      assert top in stack;
      Marks(nests[0]) + [Closing(marks[top].s)] + Closes(marks, stack[..|stack| - 1], nests[1..])
  }

  /** When the check passes, the marks it has gone through are nested. */
  lemma {:induction false} CheckNests(marks: seq<Mark>, i: nat, stack: seq<nat>) returns (nests: seq<Nest>)
    requires i <= |marks| && forall k | k in stack :: k < |marks| && marks[k].Opening?
    requires Check(marks, i, stack) == Matched
    ensures |nests| == |stack| + 1 && marks[i..] == Closes(marks, stack, nests)
    decreases |marks| - i
  {
    hide Check, Closes, Marks;
    if i == |marks| {
      CheckEnds(marks, stack);
      nests := [Done];
      ClosesNone(marks, [Done]);
    } else {
      assert marks[i..] == [marks[i]] + marks[i + 1..];
      match marks[i]
      case Plain =>
        CheckPlain(marks, i, stack);
        var rest := CheckNests(marks, i + 1, stack);
        nests := [Skip(rest[0])] + rest[1..];
        NestMarks(rest[0], rest[0], Round);
        PutFirst(marks, stack, rest, nests, [Plain]);
      case Opening(s) =>
        CheckOpens(marks, i, stack);
        var rest := CheckNests(marks, i + 1, stack + [i]);
        nests := [Pair(s, rest[0], rest[1])] + rest[2..];
        ClosesMore(marks, stack, i, rest);
        NestMarks(rest[0], rest[1], s);
        PutFirst(marks, stack, rest[1..], nests, [Opening(s)] + Marks(rest[0]) + [Closing(s)]);
        Front([Opening(s)], Marks(rest[0]), [Closing(s)], Closes(marks, stack, rest[1..]));
      case Closing(s) =>
        ClosingChecks(marks, i, stack);
        var stack' := stack[..|stack| - 1];
        assert forall k | k in stack' :: k in stack;
        var rest := CheckNests(marks, i + 1, stack');
        nests := [Done] + rest;
        ClosesDone(marks, stack, rest);
    }
  }

  lemma CheckEnds(marks: seq<Mark>, stack: seq<nat>)
    requires (forall k | k in stack :: k < |marks| && marks[k].Opening?) && Check(marks, |marks|, stack) == Matched
    ensures stack == []
  {
  }

  lemma ClosesNone(marks: seq<Mark>, nests: seq<Nest>)
    requires nests == [Done]
    ensures Closes(marks, [], nests) == []
  {
  }

  lemma NestMarks(inner: Nest, rest: Nest, s: Shape)
    ensures Marks(Skip(rest)) == [Plain] + Marks(rest)
    ensures Marks(Pair(s, inner, rest)) == [Opening(s)] + Marks(inner) + [Closing(s)] + Marks(rest)
  {
  }

  lemma ClosesMore(marks: seq<Mark>, stack: seq<nat>, i: nat, nests: seq<Nest>)
    requires i < |marks| && marks[i].Opening? && |nests| == |stack| + 2 && forall k | k in stack :: k < |marks| && marks[k].Opening?
    ensures forall k | k in stack + [i] :: k < |marks| && marks[k].Opening?
    ensures Closes(marks, stack + [i], nests) == Marks(nests[0]) + [Closing(marks[i].s)] + Closes(marks, stack, nests[1..])
  {
    assert (stack + [i])[..|stack + [i]| - 1] == stack && (stack + [i])[|stack + [i]| - 1] == i;
  }

  lemma ClosesDone(marks: seq<Mark>, stack: seq<nat>, rest: seq<Nest>)
    requires stack != [] && |rest| == |stack| && forall k | k in stack :: k < |marks| && marks[k].Opening?
    ensures stack[|stack| - 1] in stack && (forall k | k in stack[..|stack| - 1] :: k in stack)
    ensures Closes(marks, stack, [Done] + rest) == [Closing(marks[stack[|stack| - 1]].s)] + Closes(marks, stack[..|stack| - 1], rest)
  {
    assert ([Done] + rest)[1..] == rest;
    assert [] + [Closing(marks[stack[|stack| - 1]].s)] == [Closing(marks[stack[|stack| - 1]].s)];
  }

  /** Marks in front of the first nest. */
  lemma PutFirst(marks: seq<Mark>, stack: seq<nat>, nests: seq<Nest>, nests': seq<Nest>, front: seq<Mark>)
    requires |nests| == |nests'| == |stack| + 1 && (forall k | k in stack :: k < |marks| && marks[k].Opening?)
    requires nests'[1..] == nests[1..] && Marks(nests'[0]) == front + Marks(nests[0])
    ensures Closes(marks, stack, nests') == front + Closes(marks, stack, nests)
  {
    if stack != [] {
      var top := stack[|stack| - 1];
      assert top in stack;
      Front(front, Marks(nests[0]), [Closing(marks[top].s)], Closes(marks, stack[..|stack| - 1], nests[1..]));
    }
  }

  lemma Front(a: seq<Mark>, b: seq<Mark>, c: seq<Mark>, d: seq<Mark>)
    ensures (a + b) + c + d == a + (b + c + d)
  {
  }

  /** What the check says of a closing bracket that it accepts. */
  lemma ClosingChecks(marks: seq<Mark>, i: nat, stack: seq<nat>)
    requires i < |marks| && marks[i].Closing? && forall k | k in stack :: k < |marks| && marks[k].Opening?
    requires Check(marks, i, stack) == Matched
    ensures stack != [] && stack[|stack| - 1] in stack && marks[stack[|stack| - 1]].s == marks[i].s
    ensures forall k | k in stack[..|stack| - 1] :: k < |marks| && marks[k].Opening?
    ensures Check(marks, i + 1, stack[..|stack| - 1]) == Matched
  {
  }

  /** The bracket check accepts exactly the well-nested token lists. */
  lemma CheckExact(marks: seq<Mark>)
    ensures Check(marks, 0, []) == Matched <==> WellNested(marks)
  {
    if Check(marks, 0, []) == Matched {
      var nests := CheckNests(marks, 0, []);
      assert marks[0..] == marks;
    }
    if WellNested(marks) {
      var n :| Marks(n) == marks;
      assert [] + Marks(n) + [] == marks;
      CheckPasses(marks, [], n, [], []);
    }
  }

  function Joined(n: Nest, m: Nest): Nest {
    match n
    case Done => m
    case Skip(rest) => Skip(Joined(rest, m))
    case Pair(s, inner, rest) => Pair(s, inner, Joined(rest, m))
  }

  lemma {:induction false} JoinedMarks(n: Nest, m: Nest)
    ensures Marks(Joined(n, m)) == Marks(n) + Marks(m)
  {
    match n
    case Done => assert [] + Marks(m) == Marks(m);
    case Skip(rest) =>
      JoinedMarks(rest, m);
      assert [Plain] + (Marks(rest) + Marks(m)) == [Plain] + Marks(rest) + Marks(m);
    case Pair(s, inner, rest) =>
      JoinedMarks(rest, m);
      var front := [Opening(s)] + Marks(inner) + [Closing(s)];
      assert front + (Marks(rest) + Marks(m)) == front + Marks(rest) + Marks(m);
  }

  lemma NestedNone()
    ensures WellNested([])
  {
    assert Marks(Done) == [];
  }

  lemma NestedPlain(a: seq<Mark>)
    requires WellNested(a)
    ensures WellNested(a + [Plain])
  {
    var n :| Marks(n) == a;
    JoinedMarks(n, Skip(Done));
    assert Marks(Skip(Done)) == [Plain];
  }

  lemma NestedPair(a: seq<Mark>, s: Shape, b: seq<Mark>)
    requires WellNested(a) && WellNested(b)
    ensures WellNested(a + ([Opening(s)] + b + [Closing(s)]))
  {
    var n :| Marks(n) == a;
    var m :| Marks(m) == b;
    JoinedMarks(n, Pair(s, m, Done));
    assert Marks(Pair(s, m, Done)) == [Opening(s)] + b + [Closing(s)];
  }

  /** Up to i exactly the brackets of the stack are open, and all else is nested. */
  ghost predicate OpenUpTo(marks: seq<Mark>, i: nat, stack: seq<nat>)
    decreases |stack|
  {
    i <= |marks|
    && if stack == [] then WellNested(marks[..i])
       else
         var top := stack[|stack| - 1];
         top < i && marks[top].Opening? && WellNested(marks[top + 1..i]) && OpenUpTo(marks, top, stack[..|stack| - 1])
  }

  lemma {:induction false} OpenMarks(marks: seq<Mark>, i: nat, stack: seq<nat>)
    requires OpenUpTo(marks, i, stack)
    ensures forall k | k in stack :: k < |marks| && marks[k].Opening?
    decreases |stack|
  {
    if stack != [] {
      OpenMarks(marks, stack[|stack| - 1], stack[..|stack| - 1]);
      assert stack == stack[..|stack| - 1] + [stack[|stack| - 1]];
    }
  }

  lemma OpenPlain(marks: seq<Mark>, i: nat, stack: seq<nat>)
    requires OpenUpTo(marks, i, stack) && i < |marks| && marks[i] == Plain
    ensures OpenUpTo(marks, i + 1, stack)
  {
    var from := if stack == [] then 0 else stack[|stack| - 1] + 1;
    assert marks[from..i + 1] == marks[from..i] + [Plain];
    NestedPlain(marks[from..i]);
    assert marks[0..i] == marks[..i] && marks[0..i + 1] == marks[..i + 1];
  }

  lemma OpenMore(marks: seq<Mark>, i: nat, stack: seq<nat>)
    requires OpenUpTo(marks, i, stack) && i < |marks| && marks[i].Opening?
    ensures OpenUpTo(marks, i + 1, stack + [i])
  {
    NestedNone();
    assert marks[i + 1..i + 1] == [] && (stack + [i])[..|stack + [i]| - 1] == stack;
  }

  lemma OpenLess(marks: seq<Mark>, i: nat, stack: seq<nat>)
    requires OpenUpTo(marks, i, stack) && i < |marks| && stack != []
    requires var top := stack[|stack| - 1]; top < |marks| && marks[top].Opening? && marks[i] == Closing(marks[top].s)
    ensures OpenUpTo(marks, i + 1, stack[..|stack| - 1])
  {
    hide WellNested;
    var top, rest := stack[|stack| - 1], stack[..|stack| - 1];
    if rest == [] {
      NestedSlice(marks, 0, top, i);
      assert marks[0..top] == marks[..top] && marks[0..i + 1] == marks[..i + 1];
    } else {
      NestedSlice(marks, rest[|rest| - 1] + 1, top, i);
    }
  }

  /** Nested marks, then a pair around nested marks. */
  lemma NestedSlice(marks: seq<Mark>, from: nat, top: nat, i: nat)
    requires from <= top < i < |marks| && marks[top].Opening? && marks[i] == Closing(marks[top].s)
    ensures WellNested(marks[from..top]) && WellNested(marks[top + 1..i]) ==> WellNested(marks[from..i + 1])
  {
    hide WellNested;
    if WellNested(marks[from..top]) && WellNested(marks[top + 1..i]) {
      NestedPair(marks[from..top], marks[top].s, marks[top + 1..i]);
      assert marks[from..i + 1] == marks[from..top] + ([Opening(marks[top].s)] + marks[top + 1..i] + [Closing(marks[top].s)]);
    }
  }

  /** What a verdict says about the marks. */
  ghost predicate VerdictHolds(marks: seq<Mark>, v: Verdict) {
    match v
    case Matched => WellNested(marks)
    case Unmatched(c) => c < |marks| && marks[c].Closing? && WellNested(marks[..c])
    case Mismatched(c, o) => o < c < |marks| && marks[o].Opening? && marks[c].Closing? && marks[o].s != marks[c].s && WellNested(marks[o + 1..c])
    case Unclosed(o) => o < |marks| && marks[o].Opening? && WellNested(marks[o + 1..])
  }

  lemma {:induction false} VerdictFrom(marks: seq<Mark>, i: nat, stack: seq<nat>)
    requires OpenUpTo(marks, i, stack) && forall k | k in stack :: k < |marks| && marks[k].Opening?
    ensures VerdictHolds(marks, Check(marks, i, stack))
    decreases |marks| - i
  {
    hide WellNested;
    if i == |marks| {
      assert marks[..i] == marks;
      if stack != [] { assert marks[stack[|stack| - 1] + 1..i] == marks[stack[|stack| - 1] + 1..]; }
    } else {
      match marks[i]
      case Plain =>
        OpenPlain(marks, i, stack);
        VerdictFrom(marks, i + 1, stack);
      case Opening(_) =>
        OpenMore(marks, i, stack);
        OpenMarks(marks, i + 1, stack + [i]);
        VerdictFrom(marks, i + 1, stack + [i]);
      case Closing(s) =>
        if stack != [] && marks[stack[|stack| - 1]].s == s {
          OpenLess(marks, i, stack);
          OpenMarks(marks, i + 1, stack[..|stack| - 1]);
          VerdictFrom(marks, i + 1, stack[..|stack| - 1]);
        }
    }
  }

  /** Every verdict names the brackets it is about: a closing one before which all is nested, a closing
      and an opening one of another shape with all nested between them, or an opening one after which
      all is nested. */
  lemma VerdictExactly(marks: seq<Mark>)
    ensures VerdictHolds(marks, Check(marks, 0, []))
  {
    NestedNone();
    assert marks[..0] == [];
    VerdictFrom(marks, 0, []);
  }

  // ---------------------------------------------------------------- line ends

  datatype Located = Located(t: Token, loc: Location, text: string)

  /** After these a line break does not end the expression. */
  predicate ContinueLine(t: Located) {
    (t.t.kind == AtomKind && t.text != ">") || (t.t.kind == BracketKind && (t.text == "(" || t.text == "[" || t.text == "{"))
  }

  /** The line token after t. */
  function LineToken(t: Located): Located {
    var o := t.t.start + |t.text|;
    Located(Token(LineKind, o, o, o), Location(t.loc.line, t.loc.column + |t.text|, t.loc.offset + |t.text|, 0), "")
  }

  predicate BreaksBefore(ts: seq<Located>, i: nat)
    requires i < |ts|
  {
    i > 0 && ts[i - 1].loc.line < ts[i].loc.line && !ContinueLine(ts[i - 1])
  }

  /** Line tokens between the tokens before i. */
  function WithBreaks(ts: seq<Located>, i: nat): seq<Located>
    requires i <= |ts|
  {
    if i == 0 then []
    else WithBreaks(ts, i - 1) + (if BreaksBefore(ts, i - 1) then [LineToken(ts[i - 2])] else []) + [ts[i - 1]]
  }

  /** Line tokens where a line ends that is not continued, and at the end. */
  function WithNewlines(ts: seq<Located>): seq<Located> {
    WithBreaks(ts, |ts|) + if ts == [] then [] else [LineToken(ts[|ts| - 1])]
  }

  method InsertNewline(ts: seq<Located>) returns (result: seq<Located>)
    ensures result == WithNewlines(ts)
  {
    result := [];
    var i := 0;
    while i < |ts|
      invariant 0 <= i <= |ts| && result == WithBreaks(ts, i)
    {
      if i > 0 && ts[i - 1].loc.line < ts[i].loc.line && !ContinueLine(ts[i - 1]) {
        result := result + [LineToken(ts[i - 1])];
      }
      result := result + [ts[i]];
      i := i + 1;
    }
    if |ts| > 0 {
      result := result + [LineToken(ts[|ts| - 1])];
    }
  }

  function WithoutLines(ts: seq<Located>): seq<Located> {
    if ts == [] then []
    else WithoutLines(ts[..|ts| - 1]) + if ts[|ts| - 1].t.kind == LineKind then [] else [ts[|ts| - 1]]
  }

  lemma {:induction false} LinesRemoved(ts: seq<Located>, i: nat)
    requires i <= |ts| && forall k | 0 <= k < |ts| :: ts[k].t.kind != LineKind
    ensures WithoutLines(WithBreaks(ts, i)) == ts[..i]
    decreases i
  {
    if i > 0 {
      hide *;
      LinesRemoved(ts, i - 1);
      LinesStep(ts, i);
    }
  }

  lemma LinesStep(ts: seq<Located>, i: nat)
    requires 0 < i <= |ts| && ts[i - 1].t.kind != LineKind && WithoutLines(WithBreaks(ts, i - 1)) == ts[..i - 1]
    ensures WithoutLines(WithBreaks(ts, i)) == ts[..i]
  {
    hide WithoutLines, BreaksBefore;
    var a := WithBreaks(ts, i - 1);
    if BreaksBefore(ts, i - 1) {
      BreakNotFirst(ts, i - 1);
      LinesSnoc(a, LineToken(ts[i - 2]));
      LinesSnoc(a + [LineToken(ts[i - 2])], ts[i - 1]);
      assert ts[..i - 1] + [] == ts[..i - 1];
    } else {
      assert a + [] == a;
      LinesSnoc(a, ts[i - 1]);
    }
    assert ts[..i] == ts[..i - 1] + [ts[i - 1]];
  }

  lemma BreakNotFirst(ts: seq<Located>, i: nat)
    requires i < |ts| && BreaksBefore(ts, i)
    ensures i > 0
  {
  }

  lemma LinesSnoc(s: seq<Located>, x: Located)
    ensures WithoutLines(s + [x]) == WithoutLines(s) + if x.t.kind == LineKind then [] else [x]
  {
    assert (s + [x])[..|s + [x]| - 1] == s;
  }

  /** Inserting line tokens neither drops, adds nor reorders other tokens. */
  lemma NewlinesOnly(ts: seq<Located>)
    requires forall k | 0 <= k < |ts| :: ts[k].t.kind != LineKind
    ensures WithoutLines(WithNewlines(ts)) == ts
  {
    LinesRemoved(ts, |ts|);
    assert ts[..|ts|] == ts;
    var w := WithBreaks(ts, |ts|);
    if ts != [] {
      LinesSnoc(w, LineToken(ts[|ts| - 1]));
    } else {
      assert WithNewlines(ts) == w;
    }
  }

  /** Where token i stands once line tokens are inserted. */
  function Place(ts: seq<Located>, i: nat): nat
    requires i < |ts|
  {
    if i == 0 then 0 else Place(ts, i - 1) + if BreaksBefore(ts, i) then 2 else 1
  }

  /** Token i stands at its place; the next one follows after a line token if it is on a later line,
      unless token i is an atom other than > or an opening bracket, and directly otherwise; and a line
      token follows the last token. */
  lemma LinesExactly(ts: seq<Located>, i: nat)
    requires i < |ts|
    ensures Place(ts, i) + 1 < |WithNewlines(ts)| && WithNewlines(ts)[Place(ts, i)] == ts[i]
    ensures i == 0 ==> Place(ts, i) == 0
    ensures i + 1 < |ts| ==> Place(ts, i + 1) == Place(ts, i) + if ts[i].loc.line < ts[i + 1].loc.line && !Continued(ts[i]) then 2 else 1
    ensures i + 1 == |ts| ==> |WithNewlines(ts)| == Place(ts, i) + 2
    ensures i + 1 == |ts| || Place(ts, i + 1) == Place(ts, i) + 2 ==> IsLineAfter(WithNewlines(ts)[Place(ts, i) + 1], ts[i])
  {
    hide BreaksBefore, LineToken, IsLineAfter, Continued, WithBreaks;
    PlaceLast(ts, |ts|);
    LineIs(ts[i]);
    if i + 1 < |ts| {
      BreaksMean(ts, i + 1);
      PlaceLast(ts, i + 2);
      BreaksGrow(ts, i + 2, |ts|);
      PlaceLast(ts, i + 1);
      BreaksGrow(ts, i + 1, i + 2);
    }
  }

  lemma {:induction false} PlaceLast(ts: seq<Located>, n: nat)
    requires 0 < n <= |ts|
    ensures |WithBreaks(ts, n)| == Place(ts, n - 1) + 1 && WithBreaks(ts, n)[Place(ts, n - 1)] == ts[n - 1]
    ensures n > 1 && BreaksBefore(ts, n - 1) ==>
              Place(ts, n - 1) == Place(ts, n - 2) + 2 && WithBreaks(ts, n)[Place(ts, n - 2) + 1] == LineToken(ts[n - 2])
    decreases n
  {
    hide LineToken;
    if n == 1 {
      FirstBreaks(ts);
    } else {
      PlaceLast(ts, n - 1);
    }
  }

  lemma {:induction false} BreaksGrow(ts: seq<Located>, m: nat, n: nat)
    requires m <= n <= |ts|
    ensures WithBreaks(ts, m) <= WithBreaks(ts, n)
    decreases n
  {
    hide BreaksBefore, LineToken;
    if m < n { BreaksGrow(ts, m, n - 1); }
  }

  /** An operator or an opening bracket at the end of a line. */
  predicate Continued(t: Located) {
    if t.t.kind == AtomKind then t.text != ">" else t.t.kind == BracketKind && t.text in ["(", "[", "{"]
  }

  /** x is an empty line token at the end of t. */
  predicate IsLineAfter(x: Located, t: Located) {
    && x.t.kind == LineKind && x.text == "" && x.t.start == x.t.from == x.t.to == t.t.start + |t.text|
    && x.loc.line == t.loc.line && x.loc.column == t.loc.column + |t.text| && x.loc.offset == t.loc.offset + |t.text| && x.loc.length == 0
  }

  lemma LineIs(t: Located)
    ensures IsLineAfter(LineToken(t), t)
  {
  }

  lemma BreaksMean(ts: seq<Located>, i: nat)
    requires 0 < i < |ts|
    ensures BreaksBefore(ts, i) <==> ts[i - 1].loc.line < ts[i].loc.line && !Continued(ts[i - 1])
  {
  }

  lemma FirstBreaks(ts: seq<Located>)
    requires ts != []
    ensures WithBreaks(ts, 1) == [ts[0]]
  {
    assert WithBreaks(ts, 0) == [];
  }

  // ---------------------------------------------------------------- the whole

  datatype Outcome = Tokens(lines: seq<Line>, tokens: seq<Located>) | TabFound | UnknownCharacter(offset: nat) | BadBrackets(v: Verdict)

  function MarkAt(data: string, t: Token): Mark {
    if t.kind == BracketKind && t.from < |data| then MarkOf(data[t.from]) else Plain
  }

  function MarksOf(data: string, tokens: seq<Token>): seq<Mark> {
    seq(|tokens|, i requires 0 <= i < |tokens| => MarkAt(data, tokens[i]))
  }

  /** The location and the text of a token of the source. */
  ghost predicate WellLocated(data: string, lines: seq<Line>, x: Located) {
    && x.t.start < x.t.to <= |data| && x.t.from <= x.t.to && x.text == data[x.t.from..x.t.to]
    && x.loc.offset == x.t.start && x.loc.length == x.t.to - x.t.start
    && x.loc.line == Newlines(data, x.t.start) < |lines| && lines[x.loc.line].offset + x.loc.column == x.t.start
  }

  /** A character that no token, space or comment starts with. */
  predicate InNoClass(c: char) {
    !IsSpace(c) && !IsIdentStart(c) && !IsDigit(c) && !IsBracket(c) && !IsAtom(c) && c != '#' && c != '"' && c != '\''
  }

  lemma {:induction false} BadMeans(data: string, o: nat)
    requires Lex(data, o).BadCharacter?
    ensures o <= Lex(data, o).offset < |data| && InNoClass(data[Lex(data, o).offset])
    decreases |data| - o
  {
    if Next(data, o).Piece? { BadMeans(data, Next(data, o).next); }
  }

  /** Tokenising: lines, tokens, locations, bracket check, line tokens. */
  method Tokenize(data: string) returns (r: Outcome)
    ensures r.TabFound? <==> '\t' in data
    ensures r.UnknownCharacter? ==> Lex(data, 0) == BadCharacter(r.offset)
    ensures r.UnknownCharacter? ==> r.offset < |data| && InNoClass(data[r.offset])
    ensures r.BadBrackets? ==> Lex(data, 0).Lexed? && !WellNested(MarksOf(data, Lex(data, 0).tokens))
    ensures r.BadBrackets? ==> VerdictHolds(MarksOf(data, Lex(data, 0).tokens), r.v) && r.v != Matched
    ensures r.Tokens? ==>
              && Lex(data, 0).Lexed? && WellNested(MarksOf(data, Lex(data, 0).tokens)) && LinesTo(data, r.lines, |data|)
              && exists ts :: r.tokens == WithNewlines(ts) && Bare(ts) == Lex(data, 0).tokens
                              && forall i | 0 <= i < |ts| :: WellLocated(data, r.lines, ts[i])
  {
    hide LinesTo, WellNested, WithNewlines, Lex, WellLocated, VerdictHolds;
    var ok, lines := ParseLines(data);
    if !ok {
      return TabFound;
    }
    var lexed := ParseTokens(data);
    if lexed.BadCharacter? {
      BadMeans(data, 0);
      return UnknownCharacter(lexed.offset);
    }
    var ts := Locate(data, lines, lexed.tokens);
    var v := MatchBrackets(MarksOf(data, lexed.tokens));
    CheckExact(MarksOf(data, lexed.tokens));
    VerdictExactly(MarksOf(data, lexed.tokens));
    if v != Matched {
      return BadBrackets(v);
    }
    var result := InsertNewline(ts);
    r := Tokens(lines, result);
  }

  /** Gives every token its location. */
  method Locate(data: string, lines: seq<Line>, tokens: seq<Token>) returns (ts: seq<Located>)
    requires LinesTo(data, lines, |data|) && Lex(data, 0) == Lexed(tokens)
    ensures Bare(ts) == tokens && forall i | 0 <= i < |ts| :: WellLocated(data, lines, ts[i])
  {
    hide LinesTo, Lex;
    LexOk(data, 0);
    ts := [];
    var i := 0;
    while i < |tokens|
      invariant 0 <= i <= |tokens| && Bare(ts) == tokens[..i]
      invariant forall k | 0 <= k < |ts| :: WellLocated(data, lines, ts[k])
    {
      var t := tokens[i];
      assert TokenOk(data, t);
      var loc := GetLocation(data, lines, t.start, t.to - t.start);
      ts := ts + [Located(t, loc, data[t.from..t.to])];
      i := i + 1;
    }
    assert tokens[..i] == tokens;
  }

  function Bare(ts: seq<Located>): seq<Token> {
    seq(|ts|, i requires 0 <= i < |ts| => ts[i].t)
  }
}
