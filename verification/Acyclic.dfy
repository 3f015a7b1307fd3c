/** When the table of constraints stays acyclic, and when successful unification equates. */
module Acyclic {
  import opened Options
  import opened Types
  import opened Unify

  // ---------------------------------------------------------------- acyclic tables

  /** No unknown leads back to itself: some ranking orders the entries. */
  ghost predicate Acyclic(data: Table) {
    exists rank: nat -> nat :: Ranked(data, rank)
  }

  /** The unknown u is met by looking unknowns of t up in the table k times. */
  ghost predicate Meets(data: Table, k: nat, t: Ty, u: nat)
    decreases k
  {
    if k == 0 then u in Unknowns(t)
    else exists v :: v in Unknowns(t) && v in data && Meets(data, k - 1, data[v], u)
  }

  ghost predicate LeadsTo(data: Table, t: Ty, u: nat) {
    exists k: nat :: Meets(data, k, t, u)
  }

  /** The new entry that adding a constraint makes, if it makes one. */
  datatype Entry = Entry(u: nat, t: Ty)

  function NewEntry(l: Ty, r: Ty, data: Table): Option<Entry>
    requires l != r && (l.Unknown? || r.Unknown?)
  {
    if l.Unknown? && r.Unknown? then
      if l.u !in data && r.u !in data then Some(Entry(l.u, r))
      else if l.u !in data && data[r.u] != l then Some(Entry(l.u, data[r.u]))
      else if r.u !in data && data[l.u] != r then Some(Entry(r.u, data[l.u]))
      else None
    else
      var x, t := if l.Unknown? then l else r, if l.Unknown? then r else l;
      if x.u !in data && x.u !in Unknowns(t) then Some(Entry(x.u, t)) else None
  }

  lemma EntryIsNew(l: Ty, r: Ty, data: Table)
    requires l != r && (l.Unknown? || r.Unknown?)
    ensures TryAdd(l, r, data).data == match NewEntry(l, r, data) case Some(e) => data[e.u := e.t] case None => data
    ensures NewEntry(l, r, data).Some? ==> NewEntry(l, r, data).value.u !in data
  {
    if l.Unknown? { OccursUnknown(r, l.u); }
    if r.Unknown? { OccursUnknown(l, r.u); }
  }

  lemma {:induction false} MeetsBelow(data: Table, rank: nat -> nat, k: nat, t: Ty, b: nat, u: nat)
    requires Ranked(data, rank) && Below(t, rank, b) && Meets(data, k, t, u)
    ensures rank(u) < b
    decreases k
  {
    if k > 0 {
      var v :| v in Unknowns(t) && v in data && Meets(data, k - 1, data[v], u);
      MeetsBelow(data, rank, k - 1, data[v], rank(v), u);
    }
  }

  lemma {:induction false} MeetsMore(data: Table, data': Table, k: nat, t: Ty, u: nat)
    requires Meets(data, k, t, u) && forall v | v in data :: v in data' && data'[v] == data[v]
    ensures Meets(data', k, t, u)
    decreases k
  {
    if k > 0 {
      var v :| v in Unknowns(t) && v in data && Meets(data, k - 1, data[v], u);
      MeetsMore(data, data', k - 1, data[v], u);
    }
  }

  /** All unknowns of a finite set rank below some bound. */
  lemma {:induction false} SomeBound(us: set<nat>, rank: nat -> nat) returns (b: nat)
    ensures forall v | v in us :: rank(v) < b
    decreases |us|
  {
    if us == {} {
      b := 0;
    } else {
      var v :| v in us;
      b := SomeBound(us - {v}, rank);
      b := if rank(v) < b then b else rank(v) + 1;
    }
  }

  /** A new entry for u keeps the table acyclic if and only if its type does not lead back to u. */
  lemma EntryAcyclic(data: Table, u: nat, t: Ty)
    requires Acyclic(data) && u !in data
    ensures Acyclic(data[u := t]) <==> !LeadsTo(data, t, u)
  {
    var data' := data[u := t];
    if Acyclic(data') && LeadsTo(data, t, u) {
      var rank: nat -> nat :| Ranked(data', rank);
      var k: nat :| Meets(data, k, t, u);
      MeetsMore(data, data', k, t, u);
      assert data'[u] == t;
      MeetsBelow(data', rank, k, t, rank(u), u);
      assert false;
    }
    if !LeadsTo(data, t, u) {
      var rank: nat -> nat :| Ranked(data, rank);
      var b := SomeBound(Unknowns(t), rank);
      var rank' := Raised(data, u, rank, b);
      RaisedRanks(data, u, t, rank, b);
      assert Ranked(data', rank');
    }
  }

  /** The ranking with everything that leads to u moved above b. */
  ghost function Raised(data: Table, u: nat, rank: nat -> nat, b: nat): nat -> nat {
    v => if LeadsTo(data, Unknown(v), u) then rank(v) + b else rank(v)
  }

  lemma RaisedRanks(data: Table, u: nat, t: Ty, rank: nat -> nat, b: nat)
    requires Ranked(data, rank) && u !in data && !LeadsTo(data, t, u) && Below(t, rank, b)
    ensures Ranked(data[u := t], Raised(data, u, rank, b))
  {
    var data', rank' := data[u := t], Raised(data, u, rank, b);
    assert Meets(data, 0, Unknown(u), u);
    forall v, w | v in data' && w in Unknowns(data'[v]) ensures rank'(w) < rank'(v) {
      if v == u {
        if LeadsTo(data, Unknown(w), u) { LeadsFrom(data, t, w, u); }
      } else {
        assert Below(data[v], rank, rank(v));
        if LeadsTo(data, Unknown(w), u) {
          LeadsFrom(data, data[v], w, u);
          LeadsThrough(data, v, u);
        }
      }
    }
  }

  /** What an unknown of t leads to, t leads to. */
  lemma LeadsFrom(data: Table, t: Ty, w: nat, u: nat)
    requires w in Unknowns(t) && LeadsTo(data, Unknown(w), u)
    ensures LeadsTo(data, t, u)
  {
    var k: nat :| Meets(data, k, Unknown(w), u);
    if k == 0 {
      assert Meets(data, 0, t, u);
    } else {
      assert Meets(data, k, t, u);
    }
  }

  lemma LeadsThrough(data: Table, v: nat, u: nat)
    requires v in data && LeadsTo(data, data[v], u)
    ensures LeadsTo(data, Unknown(v), u)
  {
    var k: nat :| Meets(data, k, data[v], u);
    assert v in Unknowns(Unknown(v));
    assert Meets(data, k + 1, Unknown(v), u);
  }

  // ---------------------------------------------------------------- unification

  /** The new entry, if there is one, does not lead back to its unknown. */
  ghost predicate EntryClear(l: Ty, r: Ty, data: Table)
    requires l != r && (l.Unknown? || r.Unknown?)
  {
    match NewEntry(l, r, data)
    case Some(e) => !LeadsTo(data, e.t, e.u)
    case None => true
  }

  /** Adding a constraint to an acyclic table leaves it acyclic if and only if the new entry is clear. */
  lemma AddAcyclic(l: Ty, r: Ty, data: Table)
    requires Acyclic(data) && l != r && (l.Unknown? || r.Unknown?)
    ensures Acyclic(TryAdd(l, r, data).data) <==> EntryClear(l, r, data)
  {
    hide Acyclic, LeadsTo, TryAdd, NewEntry;
    EntryIsNew(l, r, data);
    match NewEntry(l, r, data)
    case Some(e) => EntryAcyclic(data, e.u, e.t);
    case None =>
  }

  /** Every entry that unifying makes on its way is clear. */
  ghost predicate EntriesClear(l: Ty, r: Ty, data: Table) {
    if l == r then true
    else if l.Unknown? || r.Unknown? then EntryClear(l, r, data)
    else
      match l
      case Tuple(ls) => r.Tuple? ==> AllEntriesClear(ls, r.fields, data)
      case Array(e) => r.Array? ==> EntriesClear(e, r.element, data)
      case Pointer(e) => r.Pointer? ==> EntriesClear(e, r.element, data)
      case Function(args, ret, varargs) =>
        r.Function? && Length(args) == Length(r.args) && varargs == r.varargs ==>
          && AllEntriesClear(args, r.args, data)
          && (UnifiedAll(args, r.args, data).ok ==> EntriesClear(ret, r.ret, UnifiedAll(args, r.args, data).data))
      case Instance(decl, tyargs) => r.Instance? && decl == r.decl ==> AllEntriesClear(tyargs, r.tyargs, data)
      case _ => true
  }

  ghost predicate AllEntriesClear(ls: Tys, rs: Tys, data: Table) {
    Length(ls) == Length(rs) && ls.Cons? ==>
      && EntriesClear(ls.head, rs.head, data)
      && (Unified(ls.head, rs.head, data).ok ==> AllEntriesClear(ls.tail, rs.tail, Unified(ls.head, rs.head, data).data))
  }

  /** Fewer entries of an acyclic table are acyclic. */
  lemma AcyclicLess(data: Table, data': Table)
    requires Acyclic(data') && forall u | u in data :: u in data' && data'[u] == data[u]
    ensures Acyclic(data)
  {
    var rank: nat -> nat :| Ranked(data', rank);
    assert Ranked(data, rank);
  }

  lemma UnifyKeeps(l: Ty, r: Ty, data: Table)
    ensures forall u | u in data :: u in Unified(l, r, data).data && Unified(l, r, data).data[u] == data[u]
  {
    UnifyCommits(l, r, data, u => Void);
  }

  lemma UnifyAllKeeps(ls: Tys, rs: Tys, data: Table)
    ensures forall u | u in data :: u in UnifiedAll(ls, rs, data).data && UnifiedAll(ls, rs, data).data[u] == data[u]
  {
    UnifyAllCommits(ls, rs, data, u => Void);
  }

  /** Unification leaves an acyclic table acyclic if and only if every entry it makes is clear: it
      looks for the unknown in the new type only, not through the table, and between two unknowns
      it does not look at all. */
  lemma {:induction false} UnifyAcyclic(l: Ty, r: Ty, data: Table)
    requires Acyclic(data)
    ensures Acyclic(Unified(l, r, data).data) <==> EntriesClear(l, r, data)
    decreases l
  {
    hide Acyclic, TryAdd, EntryClear;
    if l != r && (l.Unknown? || r.Unknown?) {
      AddAcyclic(l, r, data);
    } else if l != r {
      match l
      case Tuple(ls) => if r.Tuple? { UnifyAllAcyclic(ls, r.fields, data); }
      case Array(e) => if r.Array? { UnifyAcyclic(e, r.element, data); }
      case Pointer(e) => if r.Pointer? { UnifyAcyclic(e, r.element, data); }
      case Function(args, ret, varargs) =>
        if r.Function? && Length(args) == Length(r.args) && varargs == r.varargs {
          UnifyAllAcyclic(args, r.args, data);
          var u := UnifiedAll(args, r.args, data);
          if u.ok {
            UnifyKeeps(ret, r.ret, u.data);
            if Acyclic(u.data) {
              UnifyAcyclic(ret, r.ret, u.data);
            } else if Acyclic(Unified(ret, r.ret, u.data).data) {
              AcyclicLess(u.data, Unified(ret, r.ret, u.data).data);
            }
          }
        }
      case Instance(decl, tyargs) => if r.Instance? && decl == r.decl { UnifyAllAcyclic(tyargs, r.tyargs, data); }
      case _ =>
    }
  }

  lemma {:induction false} UnifyAllAcyclic(ls: Tys, rs: Tys, data: Table)
    requires Acyclic(data)
    ensures Acyclic(UnifiedAll(ls, rs, data).data) <==> AllEntriesClear(ls, rs, data)
    decreases ls
  {
    hide Acyclic, Unified, EntriesClear;
    if Length(ls) == Length(rs) && ls.Cons? {
      UnifyAcyclic(ls.head, rs.head, data);
      var u := Unified(ls.head, rs.head, data);
      if u.ok {
        UnifyAllKeeps(ls.tail, rs.tail, u.data);
        if Acyclic(u.data) {
          UnifyAllAcyclic(ls.tail, rs.tail, u.data);
        } else if Acyclic(UnifiedAll(ls.tail, rs.tail, u.data).data) {
          AcyclicLess(u.data, UnifiedAll(ls.tail, rs.tail, u.data).data);
        }
      }
    }
  }

  // ---------------------------------------------------------------- full resolution

  /** t with every bound unknown replaced, over and over. */
  ghost function FullyResolved(t: Ty, data: Table, rank: nat -> nat, b: nat): Ty
    requires Ranked(data, rank) && Below(t, rank, b)
    decreases b, t
  {
    match t
    case Unknown(u) =>
      assert u in Unknowns(t);
      if u in data then FullyResolved(data[u], data, rank, rank(u)) else t
    case Tuple(fields) => Tuple(AllResolved(fields, data, rank, b))
    case Array(e) => Array(FullyResolved(e, data, rank, b))
    case Pointer(e) => Pointer(FullyResolved(e, data, rank, b))
    case Function(args, ret, varargs) =>
      assert forall v | v in UnknownsOf(args) + Unknowns(ret) :: v in Unknowns(t);
      Function(AllResolved(args, data, rank, b), FullyResolved(ret, data, rank, b), varargs)
    case Instance(decl, tyargs) => Instance(decl, AllResolved(tyargs, data, rank, b))
    case _ => t
  }

  ghost function AllResolved(ts: Tys, data: Table, rank: nat -> nat, b: nat): Tys
    requires Ranked(data, rank) && AllBelow(ts, rank, b)
    decreases b, ts
  {
    match ts
    case Nil => Nil
    case Cons(t, rest) =>
      assert forall v | v in Unknowns(t) + UnknownsOf(rest) :: v in UnknownsOf(ts);
      Cons(FullyResolved(t, data, rank, b), AllResolved(rest, data, rank, b))
  }

  /** Every unknown as what it resolves to. */
  ghost function Resolution(data: Table, rank: nat -> nat): Assignment
    requires Ranked(data, rank)
  {
    (u: nat) => if u in data then FullyResolved(data[u], data, rank, rank(u)) else Unknown(u)
  }

  /** Resolving is applying the resolution of every unknown. */
  lemma {:induction false} ResolvedIs(t: Ty, data: Table, rank: nat -> nat, b: nat)
    requires Ranked(data, rank) && Below(t, rank, b)
    ensures FullyResolved(t, data, rank, b) == Apply(Resolution(data, rank), t)
    decreases t
  {
    hide Ranked;
    match t
    case Tuple(fields) => AllResolvedIs(fields, data, rank, b);
    case Array(e) => ResolvedIs(e, data, rank, b);
    case Pointer(e) => ResolvedIs(e, data, rank, b);
    case Function(args, ret, _) =>
      FunctionBelow(t, rank, b);
      AllResolvedIs(args, data, rank, b);
      ResolvedIs(ret, data, rank, b);
    case Instance(_, tyargs) => AllResolvedIs(tyargs, data, rank, b);
    case _ =>
  }

  lemma {:induction false} AllResolvedIs(ts: Tys, data: Table, rank: nat -> nat, b: nat)
    requires Ranked(data, rank) && AllBelow(ts, rank, b)
    ensures AllResolved(ts, data, rank, b) == ApplyAll(Resolution(data, rank), ts)
    decreases ts
  {
    hide Ranked, FullyResolved;
    if ts.Cons? {
      ListBelow(ts, rank, b);
      ResolvedIs(ts.head, data, rank, b);
      AllResolvedIs(ts.tail, data, rank, b);
    }
  }

  /** The resolution solves the table. */
  lemma ResolutionSolves(data: Table, rank: nat -> nat)
    requires Ranked(data, rank)
    ensures Solves(Resolution(data, rank), data)
  {
    forall u | u in data ensures Resolution(data, rank)(u) == Apply(Resolution(data, rank), data[u]) {
      ResolvedIs(data[u], data, rank, rank(u));
    }
  }

  /** Resolving changes nothing under any assignment that solves the table. */
  lemma {:induction false} ResolvedMeans(t: Ty, data: Table, rank: nat -> nat, b: nat, s: Assignment)
    requires Ranked(data, rank) && Below(t, rank, b) && Solves(s, data)
    ensures Apply(s, FullyResolved(t, data, rank, b)) == Apply(s, t)
    decreases b, t
  {
    hide Ranked, Solves;
    match t
    case Unknown(u) =>
      if u in data {
        PartBelow(t, data, rank);
        UnknownBelow(t, rank, b);
        ResolvedMeans(data[u], data, rank, rank(u), s);
        assert s(u) == Apply(s, data[u]) by { SolvesAt(s, data, u); }
      }
    case Tuple(fields) => AllResolvedMean(fields, data, rank, b, s);
    case Array(e) => ResolvedMeans(e, data, rank, b, s);
    case Pointer(e) => ResolvedMeans(e, data, rank, b, s);
    case Function(args, ret, _) =>
      FunctionBelow(t, rank, b);
      AllResolvedMean(args, data, rank, b, s);
      ResolvedMeans(ret, data, rank, b, s);
    case Instance(_, tyargs) => AllResolvedMean(tyargs, data, rank, b, s);
    case _ =>
  }

  lemma SolvesAt(s: Assignment, data: Table, u: nat)
    requires Solves(s, data) && u in data
    ensures s(u) == Apply(s, data[u])
  {
  }

  lemma {:induction false} AllResolvedMean(ts: Tys, data: Table, rank: nat -> nat, b: nat, s: Assignment)
    requires Ranked(data, rank) && AllBelow(ts, rank, b) && Solves(s, data)
    ensures ApplyAll(s, AllResolved(ts, data, rank, b)) == ApplyAll(s, ts)
    decreases b, ts
  {
    hide Ranked, Solves, FullyResolved;
    if ts.Cons? {
      ListBelow(ts, rank, b);
      ResolvedMeans(ts.head, data, rank, b, s);
      AllResolvedMean(ts.tail, data, rank, b, s);
    }
  }

  /** Every assignment that solves the table makes the two types the same. */
  ghost predicate Equates(data: Table, l: Ty, r: Ty) {
    forall s: Assignment | Solves(s, data) :: Apply(s, l) == Apply(s, r)
  }

  /** An acyclic table equates two types if and only if they resolve to the same type. */
  lemma EquatesExactly(data: Table, rank: nat -> nat, l: Ty, r: Ty)
    requires Ranked(data, rank)
    ensures Equates(data, l, r) <==> Apply(Resolution(data, rank), l) == Apply(Resolution(data, rank), r)
  {
    hide Ranked, Solves, Resolution;
    ResolutionSolves(data, rank);
    if Apply(Resolution(data, rank), l) == Apply(Resolution(data, rank), r) {
      forall s: Assignment | Solves(s, data) ensures Apply(s, l) == Apply(s, r) {
        ResolvedSame(data, rank, l, s);
        ResolvedSame(data, rank, r, s);
      }
    }
  }

  lemma ResolvedSame(data: Table, rank: nat -> nat, t: Ty, s: Assignment)
    requires Ranked(data, rank) && Solves(s, data)
    ensures Apply(s, Apply(Resolution(data, rank), t)) == Apply(s, t)
  {
    hide Ranked, Solves, Resolution;
    var b := SomeBound(Unknowns(t), rank);
    ResolvedIs(t, data, rank, b);
    ResolvedMeans(t, data, rank, b, s);
  }

  // ---------------------------------------------------------------- exactly when success equates

  /** At every comparison of a new type with an entry the two have the same resolution in fin. */
  ghost predicate ComparesSame(l: Ty, r: Ty, data: Table, fin: Assignment) {
    if l == r then true
    else if l.Unknown? || r.Unknown? then
      if l.Unknown? && r.Unknown? then true
      else
        var x, t := if l.Unknown? then l else r, if l.Unknown? then r else l;
        x.u in data ==> Apply(fin, data[x.u]) == Apply(fin, t)
    else
      match l
      case Tuple(ls) => r.Tuple? ==> ComparesAllSame(ls, r.fields, data, fin)
      case Array(e) => r.Array? ==> ComparesSame(e, r.element, data, fin)
      case Pointer(e) => r.Pointer? ==> ComparesSame(e, r.element, data, fin)
      case Function(args, ret, varargs) =>
        r.Function? && Length(args) == Length(r.args) ==>
          ComparesAllSame(args, r.args, data, fin) && ComparesSame(ret, r.ret, UnifiedAll(args, r.args, data).data, fin)
      case Instance(decl, tyargs) => r.Instance? && decl == r.decl ==> ComparesAllSame(tyargs, r.tyargs, data, fin)
      case _ => true
  }

  ghost predicate ComparesAllSame(ls: Tys, rs: Tys, data: Table, fin: Assignment) {
    Length(ls) == Length(rs) && ls.Cons? ==>
      ComparesSame(ls.head, rs.head, data, fin) && ComparesAllSame(ls.tail, rs.tail, Unified(ls.head, rs.head, data).data, fin)
  }

  lemma AddSame(l: Ty, r: Ty, data: Table, s: Assignment)
    requires l != r && (l.Unknown? || r.Unknown?)
    requires TryAdd(l, r, data).ok && Solves(s, TryAdd(l, r, data).data)
    ensures Apply(s, l) == Apply(s, r) <==> ComparesSame(l, r, data, s)
  {
    var data' := TryAdd(l, r, data).data;
    if l.Unknown? && r.Unknown? {
      if l.u !in data { assert l.u in data'; } else { assert r.u in data'; }
      if l.u in data { assert data'[l.u] == data[l.u]; }
      if r.u in data { assert data'[r.u] == data[r.u]; }
    } else {
      var x, t := if l.Unknown? then l else r, if l.Unknown? then r else l;
      assert x.u in data' && s(x.u) == Apply(s, data'[x.u]);
    }
  }

  /** An assignment that solves the table after a success makes the two types the same if and only if
      it does so for every pair of types compared on the way. */
  lemma {:induction false} UnifySame(l: Ty, r: Ty, data: Table, s: Assignment)
    requires Unified(l, r, data).ok && Solves(s, Unified(l, r, data).data)
    ensures Apply(s, l) == Apply(s, r) <==> ComparesSame(l, r, data, s)
    decreases l
  {
    hide TryAdd, Solves;
    if l != r && (l.Unknown? || r.Unknown?) {
      AddSame(l, r, data, s);
    } else if l != r {
      match l
      case Tuple(ls) => UnifyAllSame(ls, r.fields, data, s);
      case Array(e) => UnifySame(e, r.element, data, s);
      case Pointer(e) => UnifySame(e, r.element, data, s);
      case Function(args, ret, varargs) =>
        var u := UnifiedAll(args, r.args, data);
        UnifyKeeps(ret, r.ret, u.data);
        SolvesLess(s, u.data, Unified(l, r, data).data);
        UnifyAllSame(args, r.args, data, s);
        UnifySame(ret, r.ret, u.data, s);
      case Instance(decl, tyargs) => UnifyAllSame(tyargs, r.tyargs, data, s);
    }
  }

  lemma {:induction false} UnifyAllSame(ls: Tys, rs: Tys, data: Table, s: Assignment)
    requires UnifiedAll(ls, rs, data).ok && Solves(s, UnifiedAll(ls, rs, data).data)
    ensures ApplyAll(s, ls) == ApplyAll(s, rs) <==> ComparesAllSame(ls, rs, data, s)
    decreases ls
  {
    hide Unified, Solves, ComparesSame;
    if ls.Cons? {
      var u := Unified(ls.head, rs.head, data);
      UnifyAllKeeps(ls.tail, rs.tail, u.data);
      SolvesLess(s, u.data, UnifiedAll(ls, rs, data).data);
      UnifySame(ls.head, rs.head, data, s);
      UnifyAllSame(ls.tail, rs.tail, u.data, s);
    }
  }

  /** After a success that leaves the table acyclic, the following say the same: every assignment that
      solves the table makes the two types the same; the two types resolve to one type; at every
      comparison on the way the two types compared resolve to one type. */
  lemma UnifyEquatesExactly(l: Ty, r: Ty, data: Table, rank: nat -> nat)
    requires Unified(l, r, data).ok && Ranked(Unified(l, r, data).data, rank)
    ensures var fin := Unified(l, r, data).data;
            && (Equates(fin, l, r) <==> Apply(Resolution(fin, rank), l) == Apply(Resolution(fin, rank), r))
            && (Equates(fin, l, r) <==> ComparesSame(l, r, data, Resolution(fin, rank)))
  {
    hide Unified, ComparesSame, Equates, Ranked, Resolution, Solves;
    var fin := Unified(l, r, data).data;
    EquatesExactly(fin, rank, l, r);
    ResolutionSolves(fin, rank);
    UnifySame(l, r, data, Resolution(fin, rank));
  }

  /** A resolved type has no bound unknown left. */
  lemma {:induction false} ResolvedFree(t: Ty, data: Table, rank: nat -> nat, b: nat)
    requires Ranked(data, rank) && Below(t, rank, b)
    ensures Unknowns(FullyResolved(t, data, rank, b)) !! data.Keys
    decreases b, t
  {
    hide Ranked;
    match t
    case Unknown(u) =>
      if u in data {
        PartBelow(t, data, rank);
        UnknownBelow(t, rank, b);
        ResolvedFree(data[u], data, rank, rank(u));
      }
    case Tuple(fields) => AllResolvedFree(fields, data, rank, b);
    case Array(e) => ResolvedFree(e, data, rank, b);
    case Pointer(e) => ResolvedFree(e, data, rank, b);
    case Function(args, ret, _) =>
      FunctionBelow(t, rank, b);
      AllResolvedFree(args, data, rank, b);
      ResolvedFree(ret, data, rank, b);
    case Instance(_, tyargs) => AllResolvedFree(tyargs, data, rank, b);
    case _ =>
  }

  lemma {:induction false} AllResolvedFree(ts: Tys, data: Table, rank: nat -> nat, b: nat)
    requires Ranked(data, rank) && AllBelow(ts, rank, b)
    ensures UnknownsOf(AllResolved(ts, data, rank, b)) !! data.Keys
    decreases b, ts
  {
    hide Ranked, FullyResolved;
    if ts.Cons? {
      ListBelow(ts, rank, b);
      ResolvedFree(ts.head, data, rank, b);
      AllResolvedFree(ts.tail, data, rank, b);
    }
  }
}
