/** What rewriting comes to when it is repeated. */
module Rewriting {
  import opened Options
  import opened Types
  import opened Unify
  import opened Acyclic

  /** The bound unknowns of the type rank below m. */
  ghost predicate BoundBelow(t: Ty, data: Table, rank: nat -> nat, m: nat) {
    forall v | v in Unknowns(t) && v in data :: rank(v) < m
  }

  ghost predicate AllBoundBelow(ts: Tys, data: Table, rank: nat -> nat, m: nat) {
    forall v | v in UnknownsOf(ts) && v in data :: rank(v) < m
  }

  /** One rewriting replaces every bound unknown: those of the result rank below the bound less one.
      And nothing of higher rank comes in. */
  lemma {:induction false} RewriteLowers(t: Ty, data: Table, rank: nat -> nat, b: nat, m: nat)
    requires Ranked(data, rank) && Below(t, rank, b) && BoundBelow(t, data, rank, m + 1)
    ensures var r := Rewrite(t, data, rank, b).t; Below(r, rank, b) && BoundBelow(r, data, rank, m)
    decreases b, t, 1
  {
    hide RewriteParts, Ranked;
    if t.Unknown? {
      if t.u in data {
        assert t.u in Unknowns(t);
        PartBelow(t, data, rank);
        PartsLower(data[t.u], data, rank, rank(t.u), rank(t.u));
      }
    } else {
      PartsLowered(t, data, rank, b, m);
    }
  }

  /** The parts of what replaces an unknown of rank m rank below m, rewritten or not. */
  lemma PartsLower(t: Ty, data: Table, rank: nat -> nat, b: nat, m: nat)
    requires Ranked(data, rank) && Below(t, rank, b) && Below(t, rank, m)
    ensures var r := RewriteParts(t, data, rank, b).t; Below(r, rank, b) && Below(r, rank, m)
    decreases b, t, 1
  {
    hide RewriteParts, Ranked;
    if t.Unknown? {
      UnknownParts(t, data, rank, b);
    } else {
      PartsStay(t, data, rank, b, m);
    }
  }

  lemma UnknownParts(t: Ty, data: Table, rank: nat -> nat, b: nat)
    requires Ranked(data, rank) && Below(t, rank, b) && t.Unknown?
    ensures RewriteParts(t, data, rank, b).t == t
  {
  }

  /** Rewriting brings in nothing of a rank that no unknown of the type has. */
  lemma {:induction false} RewriteStays(t: Ty, data: Table, rank: nat -> nat, b: nat, m: nat)
    requires Ranked(data, rank) && Below(t, rank, b) && Below(t, rank, m)
    ensures Below(Rewrite(t, data, rank, b).t, rank, m)
    decreases b, t, 1
  {
    hide RewriteParts, Ranked;
    if t.Unknown? {
      if t.u in data {
        assert t.u in Unknowns(t);
        PartBelow(t, data, rank);
        PartsLower(data[t.u], data, rank, rank(t.u), rank(t.u));
      }
    } else {
      PartsStay(t, data, rank, b, m);
    }
  }

  lemma {:induction false} PartsStay(t: Ty, data: Table, rank: nat -> nat, b: nat, m: nat)
    requires Ranked(data, rank) && Below(t, rank, b) && Below(t, rank, m) && !t.Unknown?
    ensures Below(RewriteParts(t, data, rank, b).t, rank, m) && Below(RewriteParts(t, data, rank, b).t, rank, b)
    decreases b, t, 0
  {
    hide Rewrite, RewriteAll, Ranked;
    match t
    case Tuple(fields) => AllStay(fields, data, rank, b, m); AllStay(fields, data, rank, b, b);
    case Array(e) => RewriteStays(e, data, rank, b, m); RewriteStays(e, data, rank, b, b);
    case Pointer(e) => RewriteStays(e, data, rank, b, m); RewriteStays(e, data, rank, b, b);
    case Function(args, ret, _) =>
      FunctionBelow(t, rank, b);
      FunctionBelow(t, rank, m);
      AllStay(args, data, rank, b, m);
      AllStay(args, data, rank, b, b);
      RewriteStays(ret, data, rank, b, m);
      RewriteStays(ret, data, rank, b, b);
    case Instance(_, tyargs) => AllStay(tyargs, data, rank, b, m); AllStay(tyargs, data, rank, b, b);
    case _ =>
  }

  lemma {:induction false} AllStay(ts: Tys, data: Table, rank: nat -> nat, b: nat, m: nat)
    requires Ranked(data, rank) && AllBelow(ts, rank, b) && AllBelow(ts, rank, m)
    ensures AllBelow(RewriteAll(ts, data, rank, b).ts, rank, m)
    decreases b, ts, 0
  {
    hide Rewrite, Ranked;
    if ts.Cons? {
      ListBelow(ts, rank, b);
      ListBelow(ts, rank, m);
      RewriteStays(ts.head, data, rank, b, m);
      AllStay(ts.tail, data, rank, b, m);
    }
  }

  lemma {:induction false} PartsLowered(t: Ty, data: Table, rank: nat -> nat, b: nat, m: nat)
    requires Ranked(data, rank) && Below(t, rank, b) && BoundBelow(t, data, rank, m + 1) && !t.Unknown?
    ensures var r := RewriteParts(t, data, rank, b).t; Below(r, rank, b) && BoundBelow(r, data, rank, m)
    decreases b, t, 0
  {
    hide Rewrite, RewriteAll, Ranked;
    match t
    case Tuple(fields) => AllLowered(fields, data, rank, b, m);
    case Array(e) => RewriteLowers(e, data, rank, b, m);
    case Pointer(e) => RewriteLowers(e, data, rank, b, m);
    case Function(args, ret, _) =>
      FunctionBelow(t, rank, b);
      assert forall v | v in UnknownsOf(args) + Unknowns(ret) :: v in Unknowns(t);
      AllLowered(args, data, rank, b, m);
      RewriteLowers(ret, data, rank, b, m);
    case Instance(_, tyargs) => AllLowered(tyargs, data, rank, b, m);
    case _ =>
  }

  lemma {:induction false} AllLowered(ts: Tys, data: Table, rank: nat -> nat, b: nat, m: nat)
    requires Ranked(data, rank) && AllBelow(ts, rank, b) && AllBoundBelow(ts, data, rank, m + 1)
    ensures var rs := RewriteAll(ts, data, rank, b).ts; AllBelow(rs, rank, b) && AllBoundBelow(rs, data, rank, m)
    decreases b, ts, 0
  {
    hide Rewrite, Ranked;
    if ts.Cons? {
      ListBelow(ts, rank, b);
      assert forall v | v in Unknowns(ts.head) + UnknownsOf(ts.tail) :: v in UnknownsOf(ts);
      RewriteLowers(ts.head, data, rank, b, m);
      AllLowered(ts.tail, data, rank, b, m);
    }
  }

  // ---------------------------------------------------------------- repeated rewriting

  /** t rewritten n times. */
  ghost function Times(n: nat, t: Ty, data: Table, rank: nat -> nat, b: nat): (r: Ty)
    requires Ranked(data, rank) && Below(t, rank, b)
    ensures Below(r, rank, b)
    decreases n
  {
    if n == 0 then t
    else
      var r := Rewrite(t, data, rank, b).t;
      RewriteStays(t, data, rank, b, b);
      Times(n - 1, r, data, rank, b)
  }

  /** A type without bound unknowns resolves to itself. */
  lemma FreeResolves(t: Ty, data: Table, rank: nat -> nat, b: nat)
    requires Ranked(data, rank) && Below(t, rank, b) && BoundBelow(t, data, rank, 0)
    ensures FullyResolved(t, data, rank, b) == t
  {
    FreeStays(t, data, rank, b);
  }

  lemma {:induction false} FreeStays(t: Ty, data: Table, rank: nat -> nat, b: nat)
    requires Ranked(data, rank) && Below(t, rank, b) && Unknowns(t) !! data.Keys
    ensures FullyResolved(t, data, rank, b) == t
    decreases b, t
  {
    match t
    case Unknown(u) => assert u in Unknowns(t);
    case Tuple(fields) => AllFreeStay(fields, data, rank, b);
    case Array(e) => FreeStays(e, data, rank, b);
    case Pointer(e) => FreeStays(e, data, rank, b);
    case Function(args, ret, _) =>
      FunctionBelow(t, rank, b);
      assert forall v | v in UnknownsOf(args) + Unknowns(ret) :: v in Unknowns(t);
      AllFreeStay(args, data, rank, b);
      FreeStays(ret, data, rank, b);
    case Instance(_, tyargs) => AllFreeStay(tyargs, data, rank, b);
    case _ =>
  }

  lemma {:induction false} AllFreeStay(ts: Tys, data: Table, rank: nat -> nat, b: nat)
    requires Ranked(data, rank) && AllBelow(ts, rank, b) && UnknownsOf(ts) !! data.Keys
    ensures AllResolved(ts, data, rank, b) == ts
    decreases b, ts
  {
    if ts.Cons? {
      ListBelow(ts, rank, b);
      assert forall v | v in Unknowns(ts.head) + UnknownsOf(ts.tail) :: v in UnknownsOf(ts);
      FreeStays(ts.head, data, rank, b);
      AllFreeStay(ts.tail, data, rank, b);
    }
  }

  /** Rewriting does not change what a type resolves to. */
  lemma RewriteResolves(t: Ty, data: Table, rank: nat -> nat, b: nat)
    requires Ranked(data, rank) && Below(t, rank, b) && Below(Rewrite(t, data, rank, b).t, rank, b)
    ensures FullyResolved(Rewrite(t, data, rank, b).t, data, rank, b) == FullyResolved(t, data, rank, b)
  {
    hide Rewrite, FullyResolved, Ranked, Below, Resolution, Apply;
    ResolutionSolves(data, rank);
    RewriteMeans(t, data, rank, b, Resolution(data, rank));
    ResolvedIs(t, data, rank, b);
    ResolvedIs(Rewrite(t, data, rank, b).t, data, rank, b);
  }

  /** Rewriting a type as many times as its bound unknowns have ranks resolves it: every bound unknown
      has been replaced, over and over, by its entry. */
  lemma {:induction false} RewritingResolves(n: nat, t: Ty, data: Table, rank: nat -> nat, b: nat)
    requires Ranked(data, rank) && Below(t, rank, b) && BoundBelow(t, data, rank, n)
    ensures Times(n, t, data, rank, b) == FullyResolved(t, data, rank, b)
    decreases n
  {
    hide Rewrite, FullyResolved, Ranked, Below;
    if n == 0 {
      FreeResolves(t, data, rank, b);
    } else {
      RewriteLowers(t, data, rank, b, n - 1);
      RewriteResolves(t, data, rank, b);
      RewritingResolves(n - 1, Rewrite(t, data, rank, b).t, data, rank, b);
    }
  }

  /** In particular b times, and once more changes and counts nothing: passes over a type that go on
      until nothing is counted end. */
  lemma RewritingEnds(t: Ty, data: Table, rank: nat -> nat, b: nat)
    requires Ranked(data, rank) && Below(t, rank, b)
    ensures Times(b, t, data, rank, b) == FullyResolved(t, data, rank, b)
    ensures var r := Times(b, t, data, rank, b); Rewrite(r, data, rank, b) == Rewritten(r, 0)
  {
    hide Rewrite, FullyResolved, Ranked, Times;
    RewritingResolves(b, t, data, rank, b);
    ResolvedFree(t, data, rank, b);
    RewriteCounts(Times(b, t, data, rank, b), data, rank, b);
  }
}
