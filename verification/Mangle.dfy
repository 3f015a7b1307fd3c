/** Name mangling of types and functions (Itanium C++ ABI, section 5.1): the string is the key under
    which instances of generic functions are kept. */
module Mangle {
  import opened Options
  import opened Types

  // ---------------------------------------------------------------- numbers and names

  function Digit(d: nat): (c: char)
    requires d < 10
    ensures IsDigit(c)
  {
    ('0' as int + d) as char
  }

  predicate IsDigit(c: char) { '0' <= c <= '9' }

  function DigitValue(c: char): (d: nat)
    requires IsDigit(c)
    ensures d < 10 && Digit(d) == c
  {
    c as int - '0' as int
  }

  function Decimal(n: nat): (s: string)
    ensures |s| > 0 && forall i | 0 <= i < |s| :: IsDigit(s[i])
  {
    if n < 10 then [Digit(n)] else Decimal(n / 10) + [Digit(n % 10)]
  }

  /** The number a string of digits stands for. */
  function Value(s: string): nat
    requires forall i | 0 <= i < |s| :: IsDigit(s[i])
  {
    if s == [] then 0 else Value(s[..|s| - 1]) * 10 + DigitValue(s[|s| - 1])
  }

  lemma {:induction false} DecimalValue(n: nat)
    ensures Value(Decimal(n)) == n
    decreases n
  {
    if n >= 10 {
      DecimalValue(n / 10);
      assert Decimal(n)[..|Decimal(n)| - 1] == Decimal(n / 10);
    } else {
      assert [Digit(n)][..0] == [];
    }
  }

  predicate NoDigit(s: string) { s == [] || !IsDigit(s[0]) }

  /** The number of digits at the front. */
  function LeadingDigits(s: string): nat {
    if s == [] || !IsDigit(s[0]) then 0 else 1 + LeadingDigits(s[1..])
  }

  lemma {:induction false} LeadingDigitsOf(a: string, s: string)
    requires NoDigit(s) && forall i | 0 <= i < |a| :: IsDigit(a[i])
    ensures LeadingDigits(a + s) == |a|
  {
    if a == [] {
      assert a + s == s;
    } else {
      LeadingDigitsOf(a[1..], s);
      assert (a + s)[1..] == a[1..] + s;
    }
  }

  /** Digits followed by something else are read in one way. */
  lemma DigitsUnique(a: string, s: string, b: string, t: string)
    requires a + s == b + t && NoDigit(s) && NoDigit(t)
    requires forall i | 0 <= i < |a| :: IsDigit(a[i])
    requires forall i | 0 <= i < |b| :: IsDigit(b[i])
    ensures a == b && s == t
  {
    LeadingDigitsOf(a, s);
    LeadingDigitsOf(b, t);
    SplitAt(a, s, b, t);
  }

  lemma SplitAt(a: string, s: string, b: string, t: string)
    requires a + s == b + t && |a| == |b|
    ensures a == b && s == t
  {
    assert a == (a + s)[..|a|] && b == (b + t)[..|b|];
    assert s == (a + s)[|a|..] && t == (b + t)[|b|..];
  }

  /** The length in decimal, then the name. */
  function MangleName(name: string): string {
    Decimal(|name|) + name
  }

  /** A name that can be told from the length in front of it. */
  predicate GoodName(name: string) {
    NoDigit(name)
  }

  /** No decimal starts with zero but zero itself. */
  lemma {:induction false} DecimalZero(n: nat)
    ensures Decimal(n)[0] == '0' <==> n == 0
    decreases n
  {
    if n >= 10 { DecimalZero(n / 10); }
  }

  lemma NameText(m: string, s: string)
    requires GoodName(m)
    ensures MangleName(m) + s == Decimal(|m|) + (m + s)
    ensures (MangleName(m) + s)[0] == '0' <==> m == ""
    ensures m != "" ==> NoDigit(m + s)
  {
    DecimalZero(|m|);
  }

  /** A mangled name can be read off the front of any string in one way only. */
  lemma NameUnique(m: string, s: string, n: string, t: string)
    requires MangleName(m) + s == MangleName(n) + t && GoodName(m) && GoodName(n)
    ensures m == n && s == t
  {
    hide Decimal, MangleName;
    NameText(m, s);
    NameText(n, t);
    if m == "" {
      SplitAt(MangleName(m), s, MangleName(n), t);
    } else {
      DigitsUnique(Decimal(|m|), m + s, Decimal(|n|), n + t);
      DecimalValue(|m|);
      DecimalValue(|n|);
      SplitAt(m, s, n, t);
    }
  }

  // ---------------------------------------------------------------- types

  /** Closed: no unknown and no generic parameter is left. */
  predicate Closed(t: Ty) {
    match t
    case Unknown(_) => false
    case Tuple(fields) => AllClosed(fields)
    case Array(e) => Closed(e)
    case Pointer(e) => Closed(e)
    case Function(args, ret, _) => AllClosed(args) && Closed(ret)
    case Instance(decl, tyargs) => decl.Struct? && AllClosed(tyargs)
    case _ => true
  }

  predicate AllClosed(ts: Tys) {
    ts.Cons? ==> Closed(ts.head) && AllClosed(ts.tail)
  }

  /** Mangling a closed type. */
  function MangleClosed(t: Ty): string
    decreases t, 0
  {
    match t
    case Void => "v"
    case Bool => "b"
    case Integer => "i"
    case Float => "f"
    case String => "N6stringE"
    case Tuple(fields) => "N5tupleI" + MangleAllClosed(fields) + "EE"
    case Array(e) => "U5array" + MangleClosed(e)
    case Pointer(e) => "U3ptr" + MangleClosed(e)
    case Function(args, ret, varargs) =>
      "F" + MangleClosed(ret) + MangleAllClosed(args) + (if varargs then "z" else "") + "E"
    case Instance(decl, tyargs) => NestedText(decl.name, tyargs.Cons?, tyargs)
    case Unknown(_) => ""
  }

  /** A nested name, with its template arguments if it has any. */
  function NestedText(name: string, withArgs: bool, args: Tys): string
    decreases args, 1
  {
    "N" + MangleName(name) + (if withArgs then "I" + MangleAllClosed(args) + "E" else "") + "E"
  }

  function MangleAllClosed(ts: Tys): string
    decreases ts, 0
  {
    if ts.Nil? then "" else MangleClosed(ts.head) + MangleAllClosed(ts.tail)
  }

  /** What every generic parameter in use stands for, and it is closed. */
  ghost predicate Covers(inst: Instances, t: Ty) {
    match t
    case Unknown(_) => false
    case Tuple(fields) => CoversAll(inst, fields)
    case Array(e) => Covers(inst, e)
    case Pointer(e) => Covers(inst, e)
    case Function(args, ret, _) => CoversAll(inst, args) && Covers(inst, ret)
    case Instance(decl, tyargs) =>
      if decl.Param? then inst(decl).Some? && Closed(inst(decl).value) else CoversAll(inst, tyargs)
    case _ => true
  }

  ghost predicate CoversAll(inst: Instances, ts: Tys) {
    ts.Cons? ==> Covers(inst, ts.head) && CoversAll(inst, ts.tail)
  }

  /** Instantiating with a table that covers the type closes it. */
  lemma {:induction false} InstantiateCloses(t: Ty, inst: Instances)
    requires Covers(inst, t)
    ensures Closed(Instantiate(t, inst))
    decreases t
  {
    match t
    case Tuple(fields) => InstantiateClosesAll(fields, inst);
    case Array(e) => InstantiateCloses(e, inst);
    case Pointer(e) => InstantiateCloses(e, inst);
    case Function(args, ret, _) =>
      InstantiateClosesAll(args, inst);
      InstantiateCloses(ret, inst);
    case Instance(decl, tyargs) => if !decl.Param? { InstantiateClosesAll(tyargs, inst); }
    case _ =>
  }

  lemma {:induction false} InstantiateClosesAll(ts: Tys, inst: Instances)
    requires CoversAll(inst, ts)
    ensures AllClosed(InstantiateAll(ts, inst))
    decreases ts
  {
    if ts.Cons? {
      InstantiateCloses(ts.head, inst);
      InstantiateClosesAll(ts.tail, inst);
    }
  }

  // ---------------------------------------------------------------- appending to a buffer

  /** Mangling as it is done: appending to a shared buffer, looking generic parameters up on the way. */
  class Mangler {
    var buffer: string

    constructor ()
      ensures buffer == ""
    {
      buffer := "";
    }

    method Append(s: string)
      modifies this
      ensures buffer == old(buffer) + s
    {
      buffer := buffer + s;
    }

    method MangleType(t: Ty, inst: Instances)
      requires Covers(inst, t)
      modifies this
      ensures buffer == old(buffer) + MangleClosed(Instantiate(t, inst))
      decreases !Closed(t), t, 1
    {
      hide MangleAllClosed, InstantiateAll, NestedText, MangleName;
      match t
      case Void => Append("v");
      case Bool => Append("b");
      case Integer => Append("i");
      case Float => Append("f");
      case String => Append("N6stringE");
      case Tuple(fields) =>
        Append("N5tupleI");
        MangleList(fields, inst);
        Append("EE");
        Joined(old(buffer), "N5tupleI", MangleAllClosed(InstantiateAll(fields, inst)), "EE");
      case Array(e) =>
        Append("U5array");
        MangleType(e, inst);
        Joined(old(buffer), "U5array", MangleClosed(Instantiate(e, inst)), "");
      case Pointer(e) =>
        Append("U3ptr");
        MangleType(e, inst);
        Joined(old(buffer), "U3ptr", MangleClosed(Instantiate(e, inst)), "");
      case Function(args, ret, varargs) => MangleFunction(args, ret, varargs, inst);
      case Instance(decl, tyargs) =>
        if decl.Param? {
          ClosedInstance(inst(decl).value, inst);
          MangleType(inst(decl).value, inst);
        } else {
          MangleInstance(decl.name, tyargs, inst);
          SameShape(tyargs, inst);
        }
    }

    method MangleFunction(args: Tys, ret: Ty, varargs: bool, inst: Instances)
      requires CoversAll(inst, args) && Covers(inst, ret)
      modifies this
      ensures buffer == old(buffer) + MangleClosed(Instantiate(Function(args, ret, varargs), inst))
      decreases !Closed(Function(args, ret, varargs)), Function(args, ret, varargs), 0
    {
      hide MangleAllClosed, InstantiateAll;
      Append("F");
      MangleType(ret, inst);
      MangleList(args, inst);
      if varargs {
        Append("z");
      }
      Append("E");
      ghost var b := old(buffer);
      ghost var r, a := MangleClosed(Instantiate(ret, inst)), MangleAllClosed(InstantiateAll(args, inst));
      Joined5(b, "F", r, a, if varargs then "z" else "", "E");
      if !varargs { JoinedNone(b + "F" + r + a); }
    }

    method MangleInstance(name: string, tyargs: Tys, inst: Instances)
      requires CoversAll(inst, tyargs)
      modifies this
      ensures buffer == old(buffer) + NestedText(name, tyargs.Cons?, InstantiateAll(tyargs, inst))
      decreases !AllClosed(tyargs), tyargs, 1
    {
      hide MangleAllClosed, InstantiateAll, MangleName;
      Append("N");
      Append(MangleName(name));
      ghost var b, n := old(buffer), MangleName(name);
      ghost var a := MangleAllClosed(InstantiateAll(tyargs, inst));
      if tyargs.Cons? {
        Append("I");
        MangleList(tyargs, inst);
        Append("E");
        Joined(b + "N" + n, "I", a, "E");
      } else {
        JoinedNone(b + "N" + n);
      }
      ghost var mid := if tyargs.Cons? then "I" + a + "E" else "";
      Append("E");
      Joined4(b, "N", n, mid, "E");
    }

    method MangleList(ts: Tys, inst: Instances)
      requires CoversAll(inst, ts)
      modifies this
      ensures buffer == old(buffer) + MangleAllClosed(InstantiateAll(ts, inst))
      decreases !AllClosed(ts), ts, 0
    {
      var rest := ts;
      while rest.Cons?
        invariant CoversAll(inst, rest) && (rest == ts || rest < ts) && (AllClosed(ts) ==> AllClosed(rest))
        invariant buffer + MangleAllClosed(InstantiateAll(rest, inst)) == old(buffer) + MangleAllClosed(InstantiateAll(ts, inst))
        decreases rest
      {
        ghost var b, h, a := buffer, MangleClosed(Instantiate(rest.head, inst)), MangleAllClosed(InstantiateAll(rest.tail, inst));
        assert b + (h + a) == b + h + a;
        MangleType(rest.head, inst);
        rest := rest.tail;
      }
      assert buffer + "" == buffer;
    }
  }

  lemma SameShape(ts: Tys, inst: Instances)
    ensures InstantiateAll(ts, inst).Cons? <==> ts.Cons?
  {
  }

  lemma Joined(a: string, b: string, c: string, d: string)
    ensures a + b + c + d == a + (b + c + d) && a + b + c == a + (b + c)
  {
  }

  lemma Joined4(b: string, x1: string, x2: string, x3: string, x4: string)
    ensures b + x1 + x2 + x3 + x4 == b + (x1 + x2 + x3 + x4)
  {
  }

  lemma Joined5(b: string, x1: string, x2: string, x3: string, x4: string, x5: string)
    ensures b + x1 + x2 + x3 + x4 + x5 == b + (x1 + x2 + x3 + x4 + x5)
  {
  }

  lemma JoinedNone(a: string)
    ensures a + "" == a
  {
  }

  /** A closed type is covered by any table, and instantiating leaves it alone. */
  lemma {:induction false} ClosedInstance(t: Ty, inst: Instances)
    requires Closed(t)
    ensures Covers(inst, t) && Instantiate(t, inst) == t
    decreases t
  {
    match t
    case Tuple(fields) => ClosedInstances(fields, inst);
    case Array(e) => ClosedInstance(e, inst);
    case Pointer(e) => ClosedInstance(e, inst);
    case Function(args, ret, _) =>
      ClosedInstances(args, inst);
      ClosedInstance(ret, inst);
    case Instance(decl, tyargs) => ClosedInstances(tyargs, inst);
    case _ =>
  }

  lemma {:induction false} ClosedInstances(ts: Tys, inst: Instances)
    requires AllClosed(ts)
    ensures CoversAll(inst, ts) && InstantiateAll(ts, inst) == ts
    decreases ts
  {
    if ts.Cons? {
      ClosedInstance(ts.head, inst);
      ClosedInstances(ts.tail, inst);
    }
  }

  // ---------------------------------------------------------------- unique decodability

  /** The type as its mangled form shows it: declarations are known by their names only, and a struct
      called string without arguments, or one called tuple with some, is the built-in type. */
  function Plain(t: Ty): Ty {
    match t
    case Tuple(fields) => Tuple(PlainAll(fields))
    case Array(e) => Array(Plain(e))
    case Pointer(e) => Pointer(Plain(e))
    case Function(args, ret, varargs) => Function(PlainAll(args), Plain(ret), varargs)
    case Instance(decl, tyargs) => PlainInstance(decl.name, PlainAll(tyargs))
    case _ => t
  }

  function PlainInstance(name: string, args: Tys): Ty {
    if name == "string" && args.Nil? then String
    else if name == "tuple" && args.Cons? then Tuple(args)
    else Instance(Struct(name, 0), args)
  }

  function PlainAll(ts: Tys): Tys {
    if ts.Nil? then Nil else Cons(Plain(ts.head), PlainAll(ts.tail))
  }

  /** No declared name starts with a digit, as no identifier does. */
  predicate GoodNames(t: Ty) {
    match t
    case Tuple(fields) => AllGoodNames(fields)
    case Array(e) => GoodNames(e)
    case Pointer(e) => GoodNames(e)
    case Function(args, ret, _) => AllGoodNames(args) && GoodNames(ret)
    case Instance(decl, tyargs) => GoodName(decl.name) && AllGoodNames(tyargs)
    case _ => true
  }

  predicate AllGoodNames(ts: Tys) {
    ts.Cons? ==> GoodNames(ts.head) && AllGoodNames(ts.tail)
  }

  /** A struct with the name of a built-in type collides with it. */
  lemma BuiltinsCollide(a: Tys, id: nat)
    requires a.Cons?
    ensures MangleClosed(Instance(Struct("string", id), Nil)) == MangleClosed(String)
    ensures MangleClosed(Instance(Struct("tuple", id), a)) == MangleClosed(Tuple(a))
  {
    BuiltinTexts(a);
  }

  /** The built-in types are written as nested names. */
  lemma BuiltinTexts(a: Tys)
    ensures MangleClosed(String) == NestedText("string", false, Nil)
    ensures MangleClosed(Tuple(a)) == NestedText("tuple", true, a)
  {
    hide MangleAllClosed;
    assert Decimal(6) == "6" && Decimal(5) == "5";
    assert "N" + ("6" + "string") + "" + "E" == "N6stringE";
    assert "N" + ("5" + "tuple") + ("I" + MangleAllClosed(a) + "E") + "E" == "N5tupleI" + MangleAllClosed(a) + "EE";
  }

  predicate IsNested(t: Ty) { t.String? || t.Tuple? || t.Instance? }

  function NestedName(t: Ty): string
    requires IsNested(t)
  {
    if t.String? then "string" else if t.Tuple? then "tuple" else t.decl.name
  }

  predicate NestedWithArgs(t: Ty)
    requires IsNested(t)
  {
    t.Tuple? || (t.Instance? && t.tyargs.Cons?)
  }

  function NestedArgs(t: Ty): Tys
    requires IsNested(t)
  {
    if t.String? then Nil else if t.Tuple? then t.fields else t.tyargs
  }

  lemma NestedIs(t: Ty)
    requires IsNested(t) && GoodNames(t) && Closed(t)
    ensures MangleClosed(t) == NestedText(NestedName(t), NestedWithArgs(t), NestedArgs(t))
    ensures GoodName(NestedName(t)) && AllGoodNames(NestedArgs(t)) && AllClosed(NestedArgs(t))
    ensures NestedArgs(t) < t || NestedArgs(t).Nil?
  {
    hide NestedText, MangleAllClosed;
    BuiltinTexts(NestedArgs(t));
  }

  /** Name and arguments fix a nested type. */
  lemma NestedPlain(t: Ty, u: Ty)
    requires IsNested(t) && IsNested(u)
    requires NestedName(t) == NestedName(u) && NestedWithArgs(t) == NestedWithArgs(u)
    requires NestedWithArgs(t) ==> PlainAll(NestedArgs(t)) == PlainAll(NestedArgs(u))
    ensures Plain(t) == Plain(u)
  {
    NestedIsPlain(t);
    NestedIsPlain(u);
  }

  lemma NestedIsPlain(t: Ty)
    requires IsNested(t)
    ensures Plain(t) == if NestedWithArgs(t) && NestedArgs(t).Nil? then Tuple(Nil) else PlainInstance(NestedName(t), PlainAll(NestedArgs(t)))
  {
    assert "string" != "tuple";
  }

  /** The first character tells the kinds of types apart, from each other and from what may follow. */
  function Tag(t: Ty): char {
    match t
    case Void => 'v'
    case Bool => 'b'
    case Integer => 'i'
    case Float => 'f'
    case Function(_, _, _) => 'F'
    case Array(_) => 'U'
    case Pointer(_) => 'U'
    case _ => 'N'
  }

  lemma Tagged(t: Ty)
    requires Closed(t)
    ensures MangleClosed(t) != "" && MangleClosed(t)[0] == Tag(t)
  {
    hide MangleName, MangleAllClosed;
  }

  predicate Stops(s: string) { s != [] && (s[0] == 'E' || s[0] == 'z') }

  /** A mangled type can be read off the front of any string in one way only. */
  lemma {:induction false} TypeUnique(t: Ty, s: string, u: Ty, s': string)
    requires Closed(t) && Closed(u) && GoodNames(t) && GoodNames(u)
    requires MangleClosed(t) + s == MangleClosed(u) + s'
    ensures Plain(t) == Plain(u) && s == s'
    decreases t, 1
  {
    hide MangleClosed, GoodNames, Plain;
    Tagged(t);
    Tagged(u);
    assert Tag(t) == (MangleClosed(t) + s)[0] == (MangleClosed(u) + s')[0] == Tag(u);
    if IsNested(t) {
      NestedUnique(t, s, u, s');
    } else if t.Function? {
      FunctionUnique(t, s, u, s');
    } else if t.Array? || t.Pointer? {
      WrappedUnique(t, s, u, s');
    } else {
      PlainTag(t, s, u, s');
    }
  }

  lemma PlainTag(t: Ty, s: string, u: Ty, s': string)
    requires Closed(t) && Closed(u) && Tag(t) == Tag(u) && MangleClosed(t) + s == MangleClosed(u) + s'
    requires t.Void? || t.Bool? || t.Integer? || t.Float?
    ensures Plain(t) == Plain(u) && s == s'
  {
    SplitAt(MangleClosed(t), s, MangleClosed(u), s');
  }

  lemma {:induction false} WrappedUnique(t: Ty, s: string, u: Ty, s': string)
    requires Closed(t) && Closed(u) && GoodNames(t) && GoodNames(u) && Tag(t) == Tag(u)
    requires MangleClosed(t) + s == MangleClosed(u) + s' && (t.Array? || t.Pointer?)
    ensures Plain(t) == Plain(u) && s == s'
    decreases t, 0
  {
    WrappedText(t, s);
    WrappedText(u, s');
    assert (MangleClosed(t) + s)[1] == (MangleClosed(u) + s')[1];
    TypeUnique(t.element, s, u.element, s');
  }

  lemma WrappedText(t: Ty, s: string)
    requires t.Array? || t.Pointer?
    ensures var n := if t.Array? then 7 else 5;
            && |MangleClosed(t) + s| >= n && (MangleClosed(t) + s)[1] == (if t.Array? then '5' else '3')
            && (MangleClosed(t) + s)[n..] == MangleClosed(t.element) + s
  {
    var e := MangleClosed(t.element);
    hide MangleClosed;
    if t.Array? {
      Prefixed("U5array", e, s);
    } else {
      Prefixed("U3ptr", e, s);
    }
    WrappedIs(t);
  }

  lemma WrappedIs(t: Ty)
    requires t.Array? || t.Pointer?
    ensures MangleClosed(t) == (if t.Array? then "U5array" else "U3ptr") + MangleClosed(t.element)
  {
  }

  lemma Prefixed(p: string, e: string, s: string)
    ensures p + e + s == p + (e + s) && (p + e + s)[|p|..] == e + s
    ensures forall i | 0 <= i < |p| :: (p + e + s)[i] == p[i]
  {
  }

  lemma {:induction false} NestedUnique(t: Ty, s: string, u: Ty, s': string)
    requires Closed(t) && Closed(u) && GoodNames(t) && GoodNames(u) && Tag(t) == Tag(u)
    requires MangleClosed(t) + s == MangleClosed(u) + s' && IsNested(t)
    ensures Plain(t) == Plain(u) && s == s'
    decreases t, 0
  {
    hide MangleClosed, GoodNames, Plain, Closed, MangleName, GoodName, NestedText, MangleAllClosed;
    assert IsNested(u) by { NestedTag(t, u); }
    NestedIs(t);
    NestedIs(u);
    var n, n' := NestedName(t), NestedName(u);
    var w, w' := NestedRest(t, s), NestedRest(u, s');
    NestedSplit(t, s);
    NestedSplit(u, s');
    assert MangleName(n) + w == (MangleClosed(t) + s)[1..] == (MangleClosed(u) + s')[1..] == MangleName(n') + w';
    NameUnique(n, w, n', w');
    assert w[0] == w'[0];
    if NestedWithArgs(t) {
      var r, r' := "E" + ("E" + s), "E" + ("E" + s');
      assert w[1..] == w'[1..];
      ListUnique(NestedArgs(t), r, NestedArgs(u), r');
      assert r[2..] == s && r'[2..] == s';
    } else {
      assert w[1..] == s && w'[1..] == s';
    }
    NestedPlain(t, u);
  }

  lemma NestedTag(t: Ty, u: Ty)
    requires IsNested(t) && Tag(t) == Tag(u) && Closed(u)
    ensures IsNested(u)
  {
  }

  /** What follows the name in a nested type. */
  function NestedRest(t: Ty, s: string): string
    requires IsNested(t)
  {
    if NestedWithArgs(t) then "I" + (MangleAllClosed(NestedArgs(t)) + ("E" + ("E" + s))) else "E" + s
  }

  lemma NestedSplit(t: Ty, s: string)
    requires IsNested(t) && GoodNames(t) && Closed(t)
    ensures |MangleClosed(t) + s| > 0 && (MangleClosed(t) + s)[1..] == MangleName(NestedName(t)) + NestedRest(t, s)
    ensures NestedRest(t, s) != [] && NoDigit(NestedRest(t, s)) && NestedRest(t, s)[0] == (if NestedWithArgs(t) then 'I' else 'E')
    ensures NestedRest(t, s)[1..] == if NestedWithArgs(t) then MangleAllClosed(NestedArgs(t)) + ("E" + ("E" + s)) else s
  {
    hide MangleClosed, GoodNames, Closed, MangleName, MangleAllClosed;
    NestedIs(t);
    var n, a := MangleName(NestedName(t)), MangleAllClosed(NestedArgs(t));
    if NestedWithArgs(t) {
      assert "N" + n + ("I" + a + "E") + "E" + s == "N" + (n + ("I" + (a + ("E" + ("E" + s)))));
    } else {
      assert "N" + n + "" + "E" + s == "N" + (n + ("E" + s));
    }
  }

  lemma {:induction false} FunctionUnique(t: Ty, s: string, u: Ty, s': string)
    requires Closed(t) && Closed(u) && GoodNames(t) && GoodNames(u) && Tag(t) == Tag(u)
    requires MangleClosed(t) + s == MangleClosed(u) + s' && t.Function?
    ensures Plain(t) == Plain(u) && s == s'
    decreases t, 0
  {
    FunctionSplit(t, s);
    FunctionSplit(u, s');
    var w, w' := FunctionRest(t, s), FunctionRest(u, s');
    assert MangleClosed(t.ret) + (MangleAllClosed(t.args) + w) == (MangleClosed(t) + s)[1..] == (MangleClosed(u) + s')[1..];
    TypeUnique(t.ret, MangleAllClosed(t.args) + w, u.ret, MangleAllClosed(u.args) + w');
    ListUnique(t.args, w, u.args, w');
    assert w[0] == w'[0];
    assert t.varargs == u.varargs;
    assert s == w[if t.varargs then 2 else 1..];
  }

  function FunctionRest(t: Ty, s: string): string
    requires t.Function?
  {
    if t.varargs then "z" + ("E" + s) else "E" + s
  }

  lemma FunctionSplit(t: Ty, s: string)
    requires t.Function?
    ensures |MangleClosed(t) + s| > 0 && (MangleClosed(t) + s)[1..] == MangleClosed(t.ret) + (MangleAllClosed(t.args) + FunctionRest(t, s))
    ensures Stops(FunctionRest(t, s)) && FunctionRest(t, s)[0] == (if t.varargs then 'z' else 'E')
    ensures |FunctionRest(t, s)| >= (if t.varargs then 2 else 1) && FunctionRest(t, s)[if t.varargs then 2 else 1..] == s
  {
    var r, a := MangleClosed(t.ret), MangleAllClosed(t.args);
    hide MangleAllClosed;
    if t.varargs {
      assert "F" + r + a + "z" + "E" + s == "F" + (r + (a + ("z" + ("E" + s))));
    } else {
      assert "F" + r + a + "" + "E" + s == "F" + (r + (a + ("E" + s)));
    }
  }

  /** So can a list of mangled types that something else follows. */
  lemma {:induction false} ListUnique(ts: Tys, s: string, us: Tys, s': string)
    requires AllClosed(ts) && AllClosed(us) && AllGoodNames(ts) && AllGoodNames(us) && Stops(s) && Stops(s')
    requires MangleAllClosed(ts) + s == MangleAllClosed(us) + s'
    ensures PlainAll(ts) == PlainAll(us) && s == s'
    decreases ts, 0
  {
    hide MangleClosed, GoodNames, Plain, Closed;
    if ts.Cons? && us.Cons? {
      var r, r' := MangleAllClosed(ts.tail) + s, MangleAllClosed(us.tail) + s';
      assert MangleClosed(ts.head) + r == MangleAllClosed(ts) + s;
      assert MangleClosed(us.head) + r' == MangleAllClosed(us) + s';
      TypeUnique(ts.head, r, us.head, r');
      ListUnique(ts.tail, s, us.tail, s');
    } else if ts.Cons? {
      assert MangleAllClosed(us) + s' == s';
      ListStarts(ts, s);
    } else if us.Cons? {
      assert MangleAllClosed(ts) + s == s;
      ListStarts(us, s');
    } else {
      assert "" + s == s && "" + s' == s';
    }
  }

  /** A list with an element does not start like what follows a list. */
  lemma ListStarts(ts: Tys, s: string)
    requires AllClosed(ts) && ts.Cons?
    ensures !Stops(MangleAllClosed(ts) + s)
  {
    hide MangleClosed;
    Tagged(ts.head);
    assert (MangleAllClosed(ts) + s)[0] == MangleClosed(ts.head)[0];
  }

  /** What the plain form tells apart: structs by name and arguments, and a struct from a built-in
      type unless it has that type's name, and arguments as that type has. */
  lemma PlainMeans(c: Decl, a: Tys, d: Decl, b: Tys, fields: Tys)
    ensures Plain(Instance(c, a)) == Plain(Instance(d, b)) <==> c.name == d.name && PlainAll(a) == PlainAll(b)
    ensures Plain(Instance(c, a)) == Plain(String) <==> c.name == "string" && a.Nil?
    ensures Plain(Instance(c, a)) == Plain(Tuple(fields)) <==> c.name == "tuple" && a.Cons? && PlainAll(a) == PlainAll(fields)
  {
    hide PlainAll, PlainInstance;
    SameLength(a);
    PlainKind(c.name, PlainAll(a));
    PlainKind(d.name, PlainAll(b));
    assert "string" != "tuple" by { NamesDiffer(); }
  }

  lemma NamesDiffer()
    ensures "string" != "tuple"
  {
    assert |"string"| != |"tuple"|;
  }

  lemma PlainKind(name: string, args: Tys)
    ensures var p := PlainInstance(name, args);
            if name == "string" && args.Nil? then p == String
            else if name == "tuple" && args.Cons? then p == Tuple(args)
            else p.Instance? && p.decl.name == name && p == Instance(Struct(name, 0), args)
  {
  }

  lemma SameLength(ts: Tys)
    ensures PlainAll(ts).Cons? <==> ts.Cons?
  {
  }

  // ---------------------------------------------------------------- exactly when two mangled forms are the same

  /** Mangling shows no more of a type than its plain form. */
  lemma {:induction false} MangledByName(t: Ty)
    requires Closed(t)
    ensures MangleClosed(Plain(t)) == MangleClosed(t)
    decreases t
  {
    hide MangleName;
    match t
    case Tuple(fields) => MangledAllByName(fields);
    case Array(e) => MangledByName(e);
    case Pointer(e) => MangledByName(e);
    case Function(args, ret, _) =>
      MangledAllByName(args);
      MangledByName(ret);
    case Instance(decl, tyargs) =>
      MangledAllByName(tyargs);
      PlainInstanceText(decl.name, PlainAll(tyargs));
    case _ =>
  }

  lemma {:induction false} MangledAllByName(ts: Tys)
    requires AllClosed(ts)
    ensures MangleAllClosed(PlainAll(ts)) == MangleAllClosed(ts) && (PlainAll(ts).Cons? <==> ts.Cons?)
    decreases ts
  {
    if ts.Cons? {
      MangledByName(ts.head);
      MangledAllByName(ts.tail);
    }
  }

  lemma PlainInstanceText(name: string, args: Tys)
    ensures MangleClosed(PlainInstance(name, args)) == NestedText(name, args.Cons?, args)
  {
    hide NestedText, MangleAllClosed;
    BuiltinTexts(args);
  }

  /** Two mangled types, each followed by anything, are the same text if and only if the types have
      the same plain form and the same text follows. */
  lemma TypeExactly(t: Ty, s: string, u: Ty, s': string)
    requires Closed(t) && Closed(u) && GoodNames(t) && GoodNames(u)
    ensures MangleClosed(t) + s == MangleClosed(u) + s' <==> Plain(t) == Plain(u) && s == s'
  {
    hide MangleClosed, Plain, Closed, GoodNames;
    if MangleClosed(t) + s == MangleClosed(u) + s' { TypeUnique(t, s, u, s'); }
    if Plain(t) == Plain(u) {
      MangledByName(t);
      MangledByName(u);
    }
  }

  lemma ListExactly(ts: Tys, s: string, us: Tys, s': string)
    requires AllClosed(ts) && AllClosed(us) && AllGoodNames(ts) && AllGoodNames(us) && Stops(s) && Stops(s')
    ensures MangleAllClosed(ts) + s == MangleAllClosed(us) + s' <==> PlainAll(ts) == PlainAll(us) && s == s'
  {
    hide MangleAllClosed, PlainAll, AllClosed, AllGoodNames;
    if MangleAllClosed(ts) + s == MangleAllClosed(us) + s' { ListUnique(ts, s, us, s'); }
    if PlainAll(ts) == PlainAll(us) {
      MangledAllByName(ts);
      MangledAllByName(us);
    }
  }

  // ---------------------------------------------------------------- the forms themselves

  /** What each kind of type is written as: built-in types, */
  lemma BuiltinForms()
    ensures MangleClosed(Void) == "v" && MangleClosed(Bool) == "b" && MangleClosed(Integer) == "i" && MangleClosed(Float) == "f"
    ensures MangleClosed(String) == "N6stringE"
  {
  }

  /** arrays, pointers and tuples, */
  lemma CompoundForms()
    ensures MangleClosed(Array(Integer)) == "U5arrayi" && MangleClosed(Pointer(Bool)) == "U3ptrb"
    ensures MangleClosed(Tuple(Cons(Integer, Cons(Bool, Nil)))) == "N5tupleIibEE"
  {
    ListForms();
  }

  lemma ListForms()
    ensures MangleAllClosed(Cons(Integer, Nil)) == "i" && MangleAllClosed(Cons(Integer, Cons(Bool, Nil))) == "ib"
    ensures MangleAllClosed(Cons(Integer, Cons(Float, Nil))) == "if"
  {
    assert MangleAllClosed(Cons(Bool, Nil)) == "b" && MangleAllClosed(Cons(Float, Nil)) == "f";
  }

  /** functions, result first, with a mark for variable arguments, */
  lemma FunctionForms()
    ensures MangleClosed(Function(Cons(Integer, Cons(Float, Nil)), Bool, false)) == "FbifE"
    ensures MangleClosed(Function(Cons(Integer, Nil), Void, true)) == "FvizE"
  {
    ListForms();
    assert MangleClosed(Bool) == "b" && MangleClosed(Void) == "v";
    assert "F" + "b" + "if" + "" + "E" == "FbifE" && "F" + "v" + "i" + "z" + "E" == "FvizE";
  }

  /** and structs, with their arguments if they have any. */
  lemma StructForms(id: nat)
    ensures MangleClosed(Instance(Struct("Point", id), Nil)) == "N5PointE"
    ensures MangleClosed(Instance(Struct("Box", id), Cons(Integer, Nil))) == "N3BoxIiEE"
  {
    hide MangleName;
    ListForms();
    NameForms();
    assert "N" + "5Point" + "" + "E" == "N5PointE" && "N" + "3Box" + ("I" + "i" + "E") + "E" == "N3BoxIiEE";
  }

  lemma NameForms()
    ensures MangleName("Point") == "5Point" && MangleName("Box") == "3Box"
  {
    assert Decimal(5) == "5" && Decimal(3) == "3";
  }

  /** A length of several digits, the highest first. */
  lemma LongName()
    ensures MangleName("abcdefghijkl") == "12abcdefghijkl"
  {
    assert Decimal(1) == "1" && Decimal(12) == Decimal(1) + "2" == "12";
  }
}
