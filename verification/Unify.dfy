/** Unification into a table of constraints, and rewriting by the table. */
module Unify {
  import opened Options
  import opened Types

  /** What the unknowns are constrained to. */
  type Table = map<nat, Ty>

  /** An assignment of types to unknowns that satisfies every entry. */
  ghost predicate Solves(s: Assignment, data: Table) {
    forall u | u in data :: s(u) == Apply(s, data[u])
  }

  datatype Result = Result(ok: bool, data: Table)

  /** Adds the constraint that l and r are the same, one of them being unknown. */
  function TryAdd(l: Ty, r: Ty, data: Table): Result
    requires l != r && (l.Unknown? || r.Unknown?)
  {
    if l.Unknown? && r.Unknown? then
      if l.u !in data && r.u !in data then Result(true, data[l.u := r])
      else if l.u !in data && data[r.u] != l then Result(true, data[l.u := data[r.u]])
      else if r.u !in data && data[l.u] != r then Result(true, data[r.u := data[l.u]])
      else Result(false, data)
    else
      var x, t := if l.Unknown? then l else r, if l.Unknown? then r else l;
      if x.u in data then Result(Equals(data[x.u], t), data)
      else if !Occurs(t, x) then Result(true, data[x.u := t])
      else Result(false, data)
  }

  function Unified(l: Ty, r: Ty, data: Table): Result {
    if l == r then Result(true, data)
    else if l.Unknown? || r.Unknown? then TryAdd(l, r, data)
    else
      match l
      case Tuple(ls) => if r.Tuple? then UnifiedAll(ls, r.fields, data) else Result(false, data)
      case Array(e) => if r.Array? then Unified(e, r.element, data) else Result(false, data)
      case Pointer(e) => if r.Pointer? then Unified(e, r.element, data) else Result(false, data)
      case Function(args, ret, varargs) =>
        if !r.Function? || Length(args) != Length(r.args) || varargs != r.varargs then Result(false, data)
        else
          var u := UnifiedAll(args, r.args, data);
          if u.ok then Unified(ret, r.ret, u.data) else u
      case Instance(decl, tyargs) =>
        if r.Instance? && decl == r.decl then UnifiedAll(tyargs, r.tyargs, data) else Result(false, data)
      case _ => Result(false, data)
  }

  /** Lists of the same length, element by element until one fails. */
  function UnifiedAll(ls: Tys, rs: Tys, data: Table): Result {
    if Length(ls) != Length(rs) then Result(false, data)
    else if ls.Nil? then Result(true, data)
    else
      var u := Unified(ls.head, rs.head, data);
      if u.ok then UnifiedAll(ls.tail, rs.tail, u.data) else u
  }

  // ---------------------------------------------------------------- never commits too much

  /** Entries stay, and every assignment that solves the table and makes both sides equal still
      solves it. */
  ghost predicate Commits(data: Table, data': Table, s: Assignment, same: bool) {
    && (forall u | u in data :: u in data' && data'[u] == data[u])
    && (Solves(s, data) && same ==> Solves(s, data'))
  }

  lemma AddCommits(l: Ty, r: Ty, data: Table, s: Assignment)
    requires l != r && (l.Unknown? || r.Unknown?)
    ensures Commits(data, TryAdd(l, r, data).data, s, Apply(s, l) == Apply(s, r))
  {
  }

  /** On success or failure unification excludes no assignment that solves the table and equates the
      two types, and changes no entry. */
  lemma {:induction false} UnifyCommits(l: Ty, r: Ty, data: Table, s: Assignment)
    ensures Commits(data, Unified(l, r, data).data, s, Apply(s, l) == Apply(s, r))
    decreases l
  {
    hide TryAdd;
    if l != r && (l.Unknown? || r.Unknown?) {
      AddCommits(l, r, data, s);
    } else if l != r {
      match l
      case Tuple(ls) => if r.Tuple? { UnifyAllCommits(ls, r.fields, data, s); }
      case Array(e) => if r.Array? { UnifyCommits(e, r.element, data, s); }
      case Pointer(e) => if r.Pointer? { UnifyCommits(e, r.element, data, s); }
      case Function(args, ret, varargs) =>
        if r.Function? && Length(args) == Length(r.args) && varargs == r.varargs {
          UnifyAllCommits(args, r.args, data, s);
          UnifyCommits(ret, r.ret, UnifiedAll(args, r.args, data).data, s);
        }
      case Instance(decl, tyargs) =>
        if r.Instance? && decl == r.decl { UnifyAllCommits(tyargs, r.tyargs, data, s); }
      case _ =>
    }
  }

  lemma {:induction false} UnifyAllCommits(ls: Tys, rs: Tys, data: Table, s: Assignment)
    ensures Commits(data, UnifiedAll(ls, rs, data).data, s, ApplyAll(s, ls) == ApplyAll(s, rs))
    decreases ls
  {
    hide Unified;
    if Length(ls) == Length(rs) && ls.Cons? {
      UnifyCommits(ls.head, rs.head, data, s);
      UnifyAllCommits(ls.tail, rs.tail, Unified(ls.head, rs.head, data).data, s);
    }
  }

  // ---------------------------------------------------------------- success equates

  /** Every comparison of a new type with a table entry involves a known type. */
  predicate ComparesKnown(l: Ty, r: Ty, data: Table) {
    if l == r then true
    else if l.Unknown? || r.Unknown? then
      if l.Unknown? && r.Unknown? then true
      else
        var x, t := if l.Unknown? then l else r, if l.Unknown? then r else l;
        x.u in data ==> Known(data[x.u]) || Known(t)
    else
      match l
      case Tuple(ls) => r.Tuple? ==> ComparesAllKnown(ls, r.fields, data)
      case Array(e) => r.Array? ==> ComparesKnown(e, r.element, data)
      case Pointer(e) => r.Pointer? ==> ComparesKnown(e, r.element, data)
      case Function(args, ret, varargs) =>
        r.Function? && Length(args) == Length(r.args) ==>
          ComparesAllKnown(args, r.args, data) && ComparesKnown(ret, r.ret, UnifiedAll(args, r.args, data).data)
      case Instance(decl, tyargs) => r.Instance? && decl == r.decl ==> ComparesAllKnown(tyargs, r.tyargs, data)
      case _ => true
  }

  predicate ComparesAllKnown(ls: Tys, rs: Tys, data: Table) {
    Length(ls) == Length(rs) && ls.Cons? ==>
      ComparesKnown(ls.head, rs.head, data) && ComparesAllKnown(ls.tail, rs.tail, Unified(ls.head, rs.head, data).data)
  }

  lemma SolvesLess(s: Assignment, data: Table, data': Table)
    requires Solves(s, data') && forall u | u in data :: u in data' && data'[u] == data[u]
    ensures Solves(s, data)
  {
  }

  lemma AddEquates(l: Ty, r: Ty, data: Table, s: Assignment)
    requires l != r && (l.Unknown? || r.Unknown?) && ComparesKnown(l, r, data)
    requires TryAdd(l, r, data).ok && Solves(s, TryAdd(l, r, data).data)
    ensures Apply(s, l) == Apply(s, r)
  {
    var data' := TryAdd(l, r, data).data;
    if l.Unknown? && r.Unknown? {
      if l.u !in data { assert l.u in data'; } else { assert r.u in data'; }
      if l.u in data { assert data'[l.u] == data[l.u]; }
      if r.u in data { assert data'[r.u] == data[r.u]; }
    } else {
      var x, t := if l.Unknown? then l else r, if l.Unknown? then r else l;
      assert x.u in data';
      if x.u in data { EqualsKnown(data[x.u], t); }
    }
  }

  /** When unification succeeds, every assignment that solves the new table makes the types equal. */
  lemma {:induction false} UnifyEquates(l: Ty, r: Ty, data: Table, s: Assignment)
    requires ComparesKnown(l, r, data)
    requires Unified(l, r, data).ok && Solves(s, Unified(l, r, data).data)
    ensures Apply(s, l) == Apply(s, r)
    decreases l
  {
    hide TryAdd, Solves;
    if l != r && (l.Unknown? || r.Unknown?) {
      AddEquates(l, r, data, s);
    } else if l != r {
      match l
      case Tuple(ls) => UnifyAllEquates(ls, r.fields, data, s);
      case Array(e) => UnifyEquates(e, r.element, data, s);
      case Pointer(e) => UnifyEquates(e, r.element, data, s);
      case Function(args, ret, varargs) =>
        var u := UnifiedAll(args, r.args, data);
        UnifyCommits(ret, r.ret, u.data, s);
        SolvesLess(s, u.data, Unified(l, r, data).data);
        UnifyAllEquates(args, r.args, data, s);
        UnifyEquates(ret, r.ret, u.data, s);
      case Instance(decl, tyargs) => UnifyAllEquates(tyargs, r.tyargs, data, s);
    }
  }

  lemma {:induction false} UnifyAllEquates(ls: Tys, rs: Tys, data: Table, s: Assignment)
    requires ComparesAllKnown(ls, rs, data)
    requires UnifiedAll(ls, rs, data).ok && Solves(s, UnifiedAll(ls, rs, data).data)
    ensures ApplyAll(s, ls) == ApplyAll(s, rs)
    decreases ls
  {
    hide Unified, Solves, ComparesKnown;
    if ls.Cons? {
      var u := Unified(ls.head, rs.head, data);
      UnifyAllCommits(ls.tail, rs.tail, u.data, s);
      SolvesLess(s, u.data, UnifiedAll(ls, rs, data).data);
      UnifyEquates(ls.head, rs.head, data, s);
      UnifyAllEquates(ls.tail, rs.tail, u.data, s);
    }
  }

  /** Without the condition success does not equate: an unknown bound to an array of one unknown is
      unified with an array of another, and the two need not be the same. */
  lemma SuccessNeedNotEquate()
    ensures exists l: Ty, r: Ty, data: Table, s: Assignment ::
              !ComparesKnown(l, r, data) && Unified(l, r, data).ok && Solves(s, Unified(l, r, data).data) && Apply(s, l) != Apply(s, r)
  {
    var l, r := Unknown(0), Array(Unknown(2));
    var data: Table := map[0 := Array(Unknown(1))];
    var s: Assignment := u => if u == 0 then Array(Bool) else if u == 1 then Bool else Integer;
    assert Equals(data[0], r);
    assert Unified(l, r, data) == Result(true, data);
    assert Solves(s, data);
    assert Apply(s, l) != Apply(s, r);
    assert !ComparesKnown(l, r, data);
  }

  // ---------------------------------------------------------------- matching a known type

  ghost predicate KnownTable(data: Table) {
    forall u | u in data :: Known(data[u])
  }

  lemma {:induction false} KnownFixed(t: Ty, s: Assignment)
    requires Known(t)
    ensures Apply(s, t) == t
    decreases t
  {
    match t
    case Tuple(fields) => AllKnownFixed(fields, s);
    case Array(e) => KnownFixed(e, s);
    case Pointer(e) => KnownFixed(e, s);
    case Function(args, ret, _) =>
      AllKnownFixed(args, s);
      KnownFixed(ret, s);
    case Instance(_, tyargs) => AllKnownFixed(tyargs, s);
    case _ =>
  }

  lemma {:induction false} AllKnownFixed(ts: Tys, s: Assignment)
    requires AllKnown(ts)
    ensures ApplyAll(s, ts) == ts
    decreases ts
  {
    if ts.Cons? {
      KnownFixed(ts.head, s);
      AllKnownFixed(ts.tail, s);
    }
  }

  /** Unifying with a known type only makes known entries and only compares with a known type. */
  lemma {:induction false} MatchKeeps(l: Ty, r: Ty, data: Table)
    requires Known(r) && KnownTable(data)
    ensures KnownTable(Unified(l, r, data).data) && ComparesKnown(l, r, data)
    decreases l
  {
    if l != r && !l.Unknown? {
      match l
      case Tuple(ls) => if r.Tuple? { MatchAllKeeps(ls, r.fields, data); }
      case Array(e) => if r.Array? { MatchKeeps(e, r.element, data); }
      case Pointer(e) => if r.Pointer? { MatchKeeps(e, r.element, data); }
      case Function(args, ret, varargs) =>
        if r.Function? {
          MatchAllKeeps(args, r.args, data);
          MatchKeeps(ret, r.ret, UnifiedAll(args, r.args, data).data);
        }
      case Instance(decl, tyargs) => if r.Instance? { MatchAllKeeps(tyargs, r.tyargs, data); }
      case _ =>
    }
  }

  lemma {:induction false} MatchAllKeeps(ls: Tys, rs: Tys, data: Table)
    requires AllKnown(rs) && KnownTable(data)
    ensures KnownTable(UnifiedAll(ls, rs, data).data) && ComparesAllKnown(ls, rs, data)
    decreases ls
  {
    hide Unified, ComparesKnown;
    if Length(ls) == Length(rs) && ls.Cons? {
      MatchKeeps(ls.head, rs.head, data);
      MatchAllKeeps(ls.tail, rs.tail, Unified(ls.head, rs.head, data).data);
    }
  }

  /** If some assignment that solves the table makes l the known type r, unification succeeds. */
  lemma {:induction false} MatchSucceeds(l: Ty, r: Ty, data: Table, s: Assignment)
    requires Known(r) && KnownTable(data) && Solves(s, data) && Apply(s, l) == r
    ensures Unified(l, r, data).ok
    decreases l
  {
    hide Solves, KnownTable;
    if l != r {
      match l
      case Unknown(u) => MatchUnknown(u, r, data, s);
      case Tuple(ls) => MatchAllSucceeds(ls, r.fields, data, s);
      case Array(e) => MatchSucceeds(e, r.element, data, s);
      case Pointer(e) => MatchSucceeds(e, r.element, data, s);
      case Function(args, ret, varargs) =>
        MatchAllSucceeds(args, r.args, data, s);
        AllKnownFixed(r.args, s);
        UnifyAllCommits(args, r.args, data, s);
        MatchAllKeeps(args, r.args, data);
        MatchSucceeds(ret, r.ret, UnifiedAll(args, r.args, data).data, s);
      case Instance(decl, tyargs) => MatchAllSucceeds(tyargs, r.tyargs, data, s);
      case _ =>
    }
  }

  lemma MatchUnknown(u: nat, r: Ty, data: Table, s: Assignment)
    requires Known(r) && KnownTable(data) && Solves(s, data) && s(u) == r
    ensures TryAdd(Unknown(u), r, data).ok
  {
    if u in data {
      KnownFixed(data[u], s);
      EqualsKnown(data[u], r);
    } else {
      OccursUnknown(r, u);
      KnownMeans(r);
    }
  }

  lemma {:induction false} MatchAllSucceeds(ls: Tys, rs: Tys, data: Table, s: Assignment)
    requires AllKnown(rs) && KnownTable(data) && Solves(s, data) && ApplyAll(s, ls) == rs
    ensures UnifiedAll(ls, rs, data).ok
    decreases ls
  {
    hide Unified, Solves, KnownTable;
    if ls.Cons? {
      MatchSucceeds(ls.head, rs.head, data, s);
      KnownFixed(rs.head, s);
      UnifyCommits(ls.head, rs.head, data, s);
      MatchKeeps(ls.head, rs.head, data);
      MatchAllSucceeds(ls.tail, rs.tail, Unified(ls.head, rs.head, data).data, s);
    }
  }

  /** With known entries, unifying with a known type succeeds if and only if some assignment that
      solves the table makes the other type the known one. */
  lemma MatchExact(l: Ty, r: Ty, data: Table)
    requires Known(r) && KnownTable(data)
    ensures Unified(l, r, data).ok <==> exists s: Assignment :: Solves(s, data) && Apply(s, l) == r
    ensures Unified(l, r, data) == Unified(r, l, data)
  {
    hide Unified, ComparesKnown, Apply;
    MatchSymmetric(l, r, data);
    MatchKeeps(l, r, data);
    var data' := Unified(l, r, data).data;
    if Unified(l, r, data).ok {
      var s: Assignment := u => if u in data' then data'[u] else Void;
      forall u | u in data' ensures s(u) == Apply(s, data'[u]) {
        KnownFixed(data'[u], s);
      }
      UnifyEquates(l, r, data, s);
      UnifyCommits(l, r, data, s);
      SolvesLess(s, data, data');
      KnownFixed(r, s);
      assert Solves(s, data) && Apply(s, l) == r;
    }
    if s: Assignment :| Solves(s, data) && Apply(s, l) == r {
      MatchSucceeds(l, r, data, s);
    }
  }

  /** It does not matter on which side the known type stands. */
  lemma {:induction false} MatchSymmetric(l: Ty, r: Ty, data: Table)
    requires Known(r)
    ensures Unified(l, r, data) == Unified(r, l, data)
    decreases l
  {
    if l != r && !l.Unknown? {
      match l
      case Tuple(ls) => if r.Tuple? { MatchAllSymmetric(ls, r.fields, data); }
      case Array(e) => if r.Array? { MatchSymmetric(e, r.element, data); }
      case Pointer(e) => if r.Pointer? { MatchSymmetric(e, r.element, data); }
      case Function(args, ret, varargs) =>
        if r.Function? {
          MatchAllSymmetric(args, r.args, data);
          MatchSymmetric(ret, r.ret, UnifiedAll(args, r.args, data).data);
        }
      case Instance(decl, tyargs) => if r.Instance? { MatchAllSymmetric(tyargs, r.tyargs, data); }
      case _ =>
    }
  }

  lemma {:induction false} MatchAllSymmetric(ls: Tys, rs: Tys, data: Table)
    requires AllKnown(rs)
    ensures UnifiedAll(ls, rs, data) == UnifiedAll(rs, ls, data)
    decreases ls
  {
    hide Unified;
    if Length(ls) == Length(rs) && ls.Cons? {
      MatchSymmetric(ls.head, rs.head, data);
      MatchAllSymmetric(ls.tail, rs.tail, Unified(ls.head, rs.head, data).data);
    }
  }

  // ---------------------------------------------------------------- acyclic tables and rewriting

  /** All unknowns of the type rank below b. */
  ghost predicate Below(t: Ty, rank: nat -> nat, b: nat) {
    forall v | v in Unknowns(t) :: rank(v) < b
  }

  ghost predicate AllBelow(ts: Tys, rank: nat -> nat, b: nat) {
    forall v | v in UnknownsOf(ts) :: rank(v) < b
  }

  /** Every entry mentions only unknowns of smaller rank than its own. */
  ghost predicate Ranked(data: Table, rank: nat -> nat) {
    forall u | u in data :: Below(data[u], rank, rank(u))
  }

  /** No ranking orders two arrays of each other. */
  lemma CycleUnranked(rank: nat -> nat)
    ensures !Ranked(map[0 := Array(Unknown(1)), 1 := Array(Unknown(0))], rank)
  {
    var data: Table := map[0 := Array(Unknown(1)), 1 := Array(Unknown(0))];
    assert 1 in Unknowns(data[0]) && 0 in Unknowns(data[1]);
    assert !Below(data[0], rank, rank(0)) || !Below(data[1], rank, rank(1));
  }

  /** The occurs check looks at the new type only, not through the table: an acyclic table can
      become one that no ranking orders. */
  lemma OccursCheckMissesCycle(rank: nat -> nat)
    ensures var data: Table := map[0 := Array(Unknown(1))];
            var added := Unified(Unknown(1), Array(Unknown(0)), data);
            Ranked(data, u => if u == 0 then 1 else 0) && added.ok && !Ranked(added.data, rank)
  {
    var data: Table := map[0 := Array(Unknown(1))];
    assert !Occurs(Array(Unknown(0)), Unknown(1));
    assert data[1 := Array(Unknown(0))] == map[0 := Array(Unknown(1)), 1 := Array(Unknown(0))];
    assert Unified(Unknown(1), Array(Unknown(0)), data) == Result(true, data[1 := Array(Unknown(0))]);
    CycleUnranked(rank);
  }

  /** Some unknown of the type has an entry. */
  predicate Bound(t: Ty, data: Table) {
    exists u :: u in Unknowns(t) && u in data
  }

  datatype Rewritten = Rewritten(t: Ty, rewrites: nat)
  datatype RewrittenAll = RewrittenAll(ts: Tys, rewrites: nat)

  /** Replaces bound unknowns, and rewrites the parts of what replaces them: a replacement that is
      itself an unknown is left as it is.  Counts the replacements. */
  ghost function Rewrite(t: Ty, data: Table, rank: nat -> nat, b: nat): Rewritten
    requires Ranked(data, rank) && Below(t, rank, b)
    decreases b, t
  {
    if t.Unknown? then
      if t.u in data then
        var r := RewriteParts(data[t.u], data, rank, rank(t.u));
        Rewritten(r.t, r.rewrites + 1)
      else Rewritten(t, 0)
    else RewriteParts(t, data, rank, b)
  }

  ghost function RewriteParts(t: Ty, data: Table, rank: nat -> nat, b: nat): Rewritten
    requires Ranked(data, rank) && Below(t, rank, b)
    decreases b, t, 0
  {
    match t
    case Tuple(fields) => var r := RewriteAll(fields, data, rank, b); Rewritten(Tuple(r.ts), r.rewrites)
    case Array(e) => var r := Rewrite(e, data, rank, b); Rewritten(Array(r.t), r.rewrites)
    case Pointer(e) => var r := Rewrite(e, data, rank, b); Rewritten(Pointer(r.t), r.rewrites)
    case Function(args, ret, varargs) =>
      assert forall v | v in UnknownsOf(args) + Unknowns(ret) :: v in Unknowns(t);
      var a := RewriteAll(args, data, rank, b);
      var r := Rewrite(ret, data, rank, b);
      Rewritten(Function(a.ts, r.t, varargs), a.rewrites + r.rewrites)
    case Instance(decl, tyargs) => var r := RewriteAll(tyargs, data, rank, b); Rewritten(Instance(decl, r.ts), r.rewrites)
    case _ => Rewritten(t, 0)
  }

  ghost function RewriteAll(ts: Tys, data: Table, rank: nat -> nat, b: nat): RewrittenAll
    requires Ranked(data, rank) && AllBelow(ts, rank, b)
    decreases b, ts
  {
    match ts
    case Nil => RewrittenAll(Nil, 0)
    case Cons(t, rest) =>
      assert forall v | v in Unknowns(t) + UnknownsOf(rest) :: v in UnknownsOf(ts);
      var h := Rewrite(t, data, rank, b);
      var r := RewriteAll(rest, data, rank, b);
      RewrittenAll(Cons(h.t, r.ts), h.rewrites + r.rewrites)
  }

  lemma PartBelow(t: Ty, data: Table, rank: nat -> nat)
    requires Ranked(data, rank) && t.Unknown? && t.u in data
    ensures Below(data[t.u], rank, rank(t.u))
  {
  }

  /** Rewriting by an acyclic table changes nothing under any assignment that solves the table. */
  lemma {:induction false} RewriteMeans(t: Ty, data: Table, rank: nat -> nat, b: nat, s: Assignment)
    requires Ranked(data, rank) && Below(t, rank, b) && Solves(s, data)
    ensures Apply(s, Rewrite(t, data, rank, b).t) == Apply(s, t)
    decreases b, t
  {
    hide RewriteParts, Ranked, Below;
    if t.Unknown? {
      if t.u in data {
        PartBelow(t, data, rank);
        assert rank(t.u) < b by { UnknownBelow(t, rank, b); }
        RewritePartsMean(data[t.u], data, rank, rank(t.u), s);
      }
    } else {
      RewritePartsMean(t, data, rank, b, s);
    }
  }

  lemma UnknownBelow(t: Ty, rank: nat -> nat, b: nat)
    requires t.Unknown? && Below(t, rank, b)
    ensures rank(t.u) < b
  {
    assert t.u in Unknowns(t);
  }

  lemma FunctionBelow(t: Ty, rank: nat -> nat, b: nat)
    requires t.Function? && Below(t, rank, b)
    ensures AllBelow(t.args, rank, b) && Below(t.ret, rank, b)
  {
    assert forall v | v in UnknownsOf(t.args) + Unknowns(t.ret) :: v in Unknowns(t);
  }

  lemma ListBelow(ts: Tys, rank: nat -> nat, b: nat)
    requires ts.Cons? && AllBelow(ts, rank, b)
    ensures Below(ts.head, rank, b) && AllBelow(ts.tail, rank, b)
  {
    assert forall v | v in Unknowns(ts.head) + UnknownsOf(ts.tail) :: v in UnknownsOf(ts);
  }

  lemma {:induction false} RewritePartsMean(t: Ty, data: Table, rank: nat -> nat, b: nat, s: Assignment)
    requires Ranked(data, rank) && Below(t, rank, b) && Solves(s, data)
    ensures Apply(s, RewriteParts(t, data, rank, b).t) == Apply(s, t)
    decreases b, t, 0
  {
    hide Rewrite, RewriteAll, Ranked, Solves;
    match t
    case Tuple(fields) => RewriteAllMeans(fields, data, rank, b, s);
    case Array(e) => RewriteMeans(e, data, rank, b, s);
    case Pointer(e) => RewriteMeans(e, data, rank, b, s);
    case Function(args, ret, varargs) =>
      FunctionBelow(t, rank, b);
      RewriteAllMeans(args, data, rank, b, s);
      RewriteMeans(ret, data, rank, b, s);
    case Instance(decl, tyargs) => RewriteAllMeans(tyargs, data, rank, b, s);
    case _ =>
  }

  lemma {:induction false} RewriteAllMeans(ts: Tys, data: Table, rank: nat -> nat, b: nat, s: Assignment)
    requires Ranked(data, rank) && AllBelow(ts, rank, b) && Solves(s, data)
    ensures ApplyAll(s, RewriteAll(ts, data, rank, b).ts) == ApplyAll(s, ts)
    decreases b, ts
  {
    hide Rewrite, Ranked, Solves;
    if ts.Cons? {
      ListBelow(ts, rank, b);
      RewriteMeans(ts.head, data, rank, b, s);
      RewriteAllMeans(ts.tail, data, rank, b, s);
    }
  }

  ghost predicate AnyBound(ts: Tys, data: Table) {
    exists u :: u in UnknownsOf(ts) && u in data
  }

  /** The counter stays unchanged exactly when no unknown of the type has an entry, and then the type
      comes back as it was. */
  lemma {:induction false} RewriteCounts(t: Ty, data: Table, rank: nat -> nat, b: nat)
    requires Ranked(data, rank) && Below(t, rank, b)
    ensures var r := Rewrite(t, data, rank, b); (r.rewrites == 0 <==> !Bound(t, data)) && (r.rewrites == 0 ==> r.t == t)
    decreases b, t
  {
    hide RewriteParts, Ranked, Below;
    if t.Unknown? {
      assert t.u in Unknowns(t) && Unknowns(t) == {t.u};
    } else {
      RewritePartsCount(t, data, rank, b);
    }
  }

  lemma {:induction false} RewritePartsCount(t: Ty, data: Table, rank: nat -> nat, b: nat)
    requires Ranked(data, rank) && Below(t, rank, b) && !t.Unknown?
    ensures var r := RewriteParts(t, data, rank, b); (r.rewrites == 0 <==> !Bound(t, data)) && (r.rewrites == 0 ==> r.t == t)
    decreases b, t, 0
  {
    hide Rewrite, RewriteAll, Ranked;
    match t
    case Tuple(fields) => RewriteAllCounts(fields, data, rank, b);
    case Array(e) => RewriteCounts(e, data, rank, b);
    case Pointer(e) => RewriteCounts(e, data, rank, b);
    case Function(args, ret, varargs) =>
      FunctionBelow(t, rank, b);
      RewriteAllCounts(args, data, rank, b);
      RewriteCounts(ret, data, rank, b);
      assert Bound(t, data) <==> AnyBound(args, data) || Bound(ret, data) by {
        assert forall v :: v in Unknowns(t) <==> v in UnknownsOf(args) || v in Unknowns(ret);
      }
    case Instance(decl, tyargs) => RewriteAllCounts(tyargs, data, rank, b);
    case _ =>
  }

  lemma {:induction false} RewriteAllCounts(ts: Tys, data: Table, rank: nat -> nat, b: nat)
    requires Ranked(data, rank) && AllBelow(ts, rank, b)
    ensures var r := RewriteAll(ts, data, rank, b); (r.rewrites == 0 <==> !AnyBound(ts, data)) && (r.rewrites == 0 ==> r.ts == ts)
    decreases b, ts
  {
    hide Rewrite, Ranked;
    if ts.Cons? {
      ListBelow(ts, rank, b);
      RewriteCounts(ts.head, data, rank, b);
      RewriteAllCounts(ts.tail, data, rank, b);
      assert AnyBound(ts, data) <==> Bound(ts.head, data) || AnyBound(ts.tail, data) by {
        assert forall v :: v in UnknownsOf(ts) <==> v in Unknowns(ts.head) || v in UnknownsOf(ts.tail);
      }
    }
  }

  // ---------------------------------------------------------------- the table as it is updated

  /** The types of s, then those of ts. */
  function Append(s: seq<Ty>, ts: Tys): Tys {
    if s == [] then ts else Cons(s[0], Append(s[1..], ts))
  }

  lemma {:induction false} AppendSnoc(s: seq<Ty>, t: Ty, ts: Tys)
    ensures Append(s + [t], ts) == Append(s, Cons(t, ts))
  {
    if s == [] {
      assert ([] + [t])[1..] == [];
    } else {
      AppendSnoc(s[1..], t, ts);
      assert (s + [t])[1..] == s[1..] + [t];
    }
  }

  class TypeConstraints {
    var data: Table
    var rewrites: nat

    constructor ()
      ensures data == map[] && rewrites == 0
    {
      data, rewrites := map[], 0;
    }

    method Add(l: Ty, r: Ty) returns (ok: bool)
      requires l != r && (l.Unknown? || r.Unknown?)
      modifies `data
      ensures Result(ok, data) == TryAdd(l, r, old(data))
    {
      if l.Unknown? && r.Unknown? {
        if l.u !in data && r.u !in data {
          data := data[l.u := r];
        } else if l.u !in data && data[r.u] != l {
          data := data[l.u := data[r.u]];
        } else if r.u !in data && data[l.u] != r {
          data := data[r.u := data[l.u]];
        } else {
          return false;
        }
      } else {
        var lhs, rhs := l, r;
        if !lhs.Unknown? {
          lhs, rhs := rhs, lhs;
        }
        if lhs.u in data {
          return Equals(data[lhs.u], rhs);
        } else if !Occurs(rhs, lhs) {
          data := data[lhs.u := rhs];
        } else {
          return false;
        }
      }
      return true;
    }

    method UnifyTypes(l: Ty, r: Ty) returns (ok: bool)
      modifies `data
      ensures Result(ok, data) == Unified(l, r, old(data))
      decreases l, 1
    {
      hide TryAdd, UnifiedAll;
      if l == r {
        return true;
      }
      if l.Unknown? || r.Unknown? {
        ok := Add(l, r);
        return;
      }
      match l
      case Tuple(ls) => if !r.Tuple? { return false; } ok := UnifyLists(ls, r.fields);
      case Array(e) => if !r.Array? { return false; } ok := UnifyTypes(e, r.element);
      case Pointer(e) => if !r.Pointer? { return false; } ok := UnifyTypes(e, r.element);
      case Function(args, ret, varargs) =>
        if !r.Function? || Length(args) != Length(r.args) || varargs != r.varargs { return false; }
        ok := UnifyLists(args, r.args);
        if !ok { return; }
        ok := UnifyTypes(ret, r.ret);
      case Instance(decl, tyargs) =>
        if !r.Instance? || decl != r.decl { return false; }
        ok := UnifyLists(tyargs, r.tyargs);
      case _ => return false;
    }

    method UnifyLists(ls: Tys, rs: Tys) returns (ok: bool)
      modifies `data
      ensures Result(ok, data) == UnifiedAll(ls, rs, old(data))
      decreases ls, 0
    {
      hide Unified;
      if Length(ls) != Length(rs) {
        return false;
      }
      var i, j := ls, rs;
      while i.Cons?
        invariant Length(i) == Length(j) && (i == ls || i < ls)
        invariant UnifiedAll(i, j, data) == UnifiedAll(ls, rs, old(data))
        decreases i
      {
        ok := UnifyTypes(i.head, j.head);
        if !ok {
          return;
        }
        i, j := i.tail, j.tail;
      }
      return true;
    }

    method RewriteType(t: Ty, ghost rank: nat -> nat, ghost b: nat) returns (r: Ty)
      requires Ranked(data, rank) && Below(t, rank, b)
      modifies `rewrites
      ensures r == Rewrite(t, data, rank, b).t && rewrites == old(rewrites) + Rewrite(t, data, rank, b).rewrites
      decreases b, t, 1
    {
      hide Below, RewriteAll;
      var u := t;
      ghost var b' := b;
      if t.Unknown? && t.u in data {
        rewrites := rewrites + 1;
        PartBelow(t, data, rank);
        UnknownBelow(t, rank, b);
        u, b' := data[t.u], rank(t.u);
      }
      r := RewriteWithin(u, rank, b', t, b);
    }

    /** Rewrites the parts of u, which is the type asked for or what replaces it. */
    method RewriteWithin(u: Ty, ghost rank: nat -> nat, ghost b: nat, ghost t: Ty, ghost b0: nat) returns (r: Ty)
      requires Ranked(data, rank) && Below(u, rank, b) && (b < b0 || (b == b0 && u == t))
      modifies `rewrites
      ensures r == RewriteParts(u, data, rank, b).t && rewrites == old(rewrites) + RewriteParts(u, data, rank, b).rewrites
      decreases b, u, 0
    {
      hide Rewrite, RewriteAll;
      match u
      case Tuple(fields) =>
        var fields' := RewriteList(fields, rank, b);
        r := Tuple(fields');
      case Array(e) =>
        var e' := RewriteType(e, rank, b);
        r := Array(e');
      case Pointer(e) =>
        var e' := RewriteType(e, rank, b);
        r := Pointer(e');
      case Function(args, ret, varargs) =>
        FunctionBelow(u, rank, b);
        var args' := RewriteList(args, rank, b);
        var ret' := RewriteType(ret, rank, b);
        r := Function(args', ret', varargs);
      case Instance(decl, tyargs) =>
        var tyargs' := RewriteList(tyargs, rank, b);
        r := Instance(decl, tyargs');
      case _ => r := u;
    }

    method RewriteList(ts: Tys, ghost rank: nat -> nat, ghost b: nat) returns (r: Tys)
      requires Ranked(data, rank) && AllBelow(ts, rank, b)
      modifies `rewrites
      ensures r == RewriteAll(ts, data, rank, b).ts && rewrites == old(rewrites) + RewriteAll(ts, data, rank, b).rewrites
      decreases b, ts, 0
    {
      hide Rewrite, AllBelow, Below, Ranked;
      var done: seq<Ty> := [];
      var rest := ts;
      while rest.Cons?
        invariant AllBelow(rest, rank, b) && (rest == ts || rest < ts)
        invariant RewriteAll(ts, data, rank, b).ts == Append(done, RewriteAll(rest, data, rank, b).ts)
        invariant old(rewrites) + RewriteAll(ts, data, rank, b).rewrites == rewrites + RewriteAll(rest, data, rank, b).rewrites
        decreases rest
      {
        ListBelow(rest, rank, b);
        var h := RewriteType(rest.head, rank, b);
        AppendSnoc(done, h, RewriteAll(rest.tail, data, rank, b).ts);
        done := done + [h];
        rest := rest.tail;
      }
      r := Append(done, Nil);
    }
  }
}
