/** Reachability as the collector sees it, and the bookkeeping of the marking loop. */
module GcTrace {
  import opened Options
  import opened GcArith
  import opened GcRegions

  /** The words lo, lo + 1, ..., hi - 1 counted from base, still to be scanned. */
  datatype Range = Range(base: nat, lo: nat, hi: nat)

  /** The address the scan of a range has reached; null marks the bottom of the mark stack. */
  function Ptr(x: Range): nat { x.base + 8 * x.lo }

  const SENTINEL := Range(0, 0, 0)

  /** The conservative pointer test: which object a word refers to, if any. */
  function Resolve(rs: seq<Region>, w: Word): (r: Option<Obj>)
    requires |rs| == NUM_REGIONS
    ensures r.Some? ==> r.value.i < NUM_REGIONS && r.value.k < TWO32 && rs[r.value.i].freeptr > StartPtr(r.value.i)
  {
    if !IsPtr(w) then None
    else
      IsPtrMeaning(w);
      var i: nat := Index(w);
      StartInSlot(i);
      if w >= rs[i].freeptr || w < StartPtr(i) then None else Some(Obj(i, MarkIndex(i, w)))
  }

  function Words(o: Obj): nat { RegionSize(o.i) / 8 }

  /** What word j counted from base refers to. */
  function Target(rs: seq<Region>, mem: Mem, base: nat, j: nat): Option<Obj>
    requires |rs| == NUM_REGIONS
  {
    Resolve(rs, WordAt(mem, base + 8 * j))
  }

  /** A word refers to the object it points into, interior pointers included, wherever the reciprocal
      divides exactly. */
  lemma ResolveInterior(rs: seq<Region>, i: nat, k: nat, o: nat)
    requires |rs| == NUM_REGIONS && i < NUM_REGIONS && o < RegionSize(i)
    requires At(i, k) + RegionSize(i) <= rs[i].freeptr <= SlotEnd(i)
    ensures IsWord(At(i, k) + o)
    ensures Resolve(rs, At(i, k) + o) == Some(Obj(i, k)) <==> DividesExactly(At(i, k) + o, RegionSize(i))
  {
    hide RegionSize, StartPtr, DividesExactly, MarkIndex;
    AtPositive(i, k);
    var p := At(i, k) + o;
    InSlotIndex(i, p);
    InteriorIndex(i, k, o);
    AtFromStart(i, k, o);
  }

  /** The links of the free list are never taken for pointers. */
  lemma LinkIsNoPointer(rs: seq<Region>, p: Word)
    requires |rs| == NUM_REGIONS && (p == 0 || IsPtr(p))
    ensures Resolve(rs, Hide(p)).None?
  {
    HiddenIsNoPointer(p);
  }

  /** Where a word that passes the pointer test points: into object k below the free pointer. */
  lemma ResolveParts(rs: seq<Region>, w: Word, n: nat) returns (i: nat, k: nat, o: nat)
    requires |rs| == NUM_REGIONS && Resolve(rs, w).Some?
    requires var i := Resolve(rs, w).value.i; rs[i].freeptr == At(i, n) <= SlotEnd(i)
    ensures i < NUM_REGIONS && i == Resolve(rs, w).value.i && o < RegionSize(i) && w == At(i, k) + o && k < n
    ensures InSlot(i, w) && InSlot(i, StartPtr(i)) && Resolve(rs, w).value.k == MarkIndex(i, w) && At(i, k) < SlotEnd(i)
  {
    hide MarkIndex, RegionSize, StartPtr, At;
    IsPtrMeaning(w);
    i := Index(w);
    StartInSlot(i);
    var s := RegionSize(i);
    k, o := (w - StartPtr(i)) / s, (w - StartPtr(i)) % s;
    DivMod(w - StartPtr(i), s);
    AtIs(i, k);
    AtInjective(i, k, n);
  }

  /** A reference is to an object below the free pointer, or (inexactly) to one of the first few. */
  lemma ResolveBelow(rs: seq<Region>, w: Word, n: nat)
    requires |rs| == NUM_REGIONS && Resolve(rs, w).Some?
    requires var i := Resolve(rs, w).value.i; rs[i].freeptr == At(i, n) <= SlotEnd(i)
    ensures var o := Resolve(rs, w).value; o.k < n || o.k < 32768
  {
    hide *;
    var i, k, o := ResolveParts(rs, w, n);
    InteriorIndex(i, k, o);
    if !DividesExactly(w, RegionSize(i)) {
      if i <= 522 { SmallRegionsExact(i, w); }
      HugeFew(i, k);
    }
  }

  lemma AtIs(i: nat, k: nat)
    ensures At(i, k) == StartPtr(i) + k * RegionSize(i)
  {
  }

  lemma HugeFew(i: nat, k: nat)
    requires 523 <= i < NUM_REGIONS && At(i, k) < SlotEnd(i)
    ensures k + 1 < 32768
  {
    if k >= 342 {
      MulMono(12582912, RegionSize(i), 342);
      MulMono(342, k, RegionSize(i));
      assert false;
    }
  }

  // ---------------------------------------------------------------- reachability

  /** a is the address of a word of a root range. */
  ghost predicate RootWord(roots: seq<Range>, a: int) {
    exists x :: x in roots && x.base + 8 * x.lo <= a && a + 8 <= x.base + 8 * x.hi && (a - x.base) % 8 == 0
  }

  /** a is the address of a word of o: all of it lies between the object's start and its end. */
  predicate WordIn(o: Obj, a: int) {
    At(o.i, o.k) <= a && a + 8 <= At(o.i, o.k) + RegionSize(o.i) && (a - At(o.i, o.k)) % 8 == 0
  }

  predicate Refers(rs: seq<Region>, mem: Mem, a: int, q: Obj)
    requires |rs| == NUM_REGIONS
  {
    Resolve(rs, WordAt(mem, a)) == Some(q)
  }

  /** o is the target of a path of n + 1 words that starts in a root. */
  ghost predicate Reach(rs: seq<Region>, mem: Mem, roots: seq<Range>, n: nat, o: Obj)
    requires |rs| == NUM_REGIONS
    decreases n
  {
    if n == 0 then exists a: int :: RootWord(roots, a) && Refers(rs, mem, a, o)
    else exists p: Obj, a: int :: Reach(rs, mem, roots, n - 1, p) && WordIn(p, a) && Refers(rs, mem, a, o)
  }

  ghost predicate Reachable(rs: seq<Region>, mem: Mem, roots: seq<Range>, o: Obj)
    requires |rs| == NUM_REGIONS
  {
    exists n: nat :: Reach(rs, mem, roots, n, o)
  }

  /** The heap graph marking works on: it does not change while marking runs. */
  datatype Graph = Graph(rs: seq<Region>, mem: Mem, roots: seq<Range>) {
    ghost predicate Valid() { |rs| == NUM_REGIONS }

    function To(base: nat, j: nat): Option<Obj>
      requires Valid()
    {
      Target(rs, mem, base, j)
    }

    ghost predicate Reaches(o: Obj)
      requires Valid()
    {
      Reachable(rs, mem, roots, o)
    }
  }

  ghost predicate Met(t: Option<Obj>, done: set<Obj>) {
    t.None? || t.value in done
  }

  /** Some range still to be scanned covers the word. */
  ghost predicate Pending(m: multiset<Range>, base: nat, j: nat) {
    exists x :: x in m && x.base == base && x.lo <= j < x.hi
  }

  ghost predicate Covered(g: Graph, done: set<Obj>, m: multiset<Range>, base: nat, j: nat)
    requires g.Valid()
  {
    Met(g.To(base, j), done) || Pending(m, base, j)
  }

  /** Marking in progress: the first `next` roots have been taken up, done is marked, m is pending. */
  ghost predicate Tracing(g: Graph, next: nat, done: set<Obj>, m: multiset<Range>) {
    && g.Valid() && next <= |g.roots|
    && (forall o | o in done :: g.Reaches(o))
    && (forall x, j: nat | x in m && x.lo <= j < x.hi && g.To(x.base, j).Some? :: g.Reaches(g.To(x.base, j).value))
    && (forall o, j: nat | o in done && j < Words(o) :: Covered(g, done, m, At(o.i, o.k), j))
    && (forall i: nat, j: nat | i < next && g.roots[i].lo <= j < g.roots[i].hi :: Covered(g, done, m, g.roots[i].base, j))
  }

  lemma TraceStart(g: Graph)
    requires g.Valid()
    ensures Tracing(g, 0, {}, multiset{})
  {
  }

  lemma PendingStays(m: multiset<Range>, m': multiset<Range>, base: nat, j: nat)
    requires Pending(m, base, j) && forall x | x in m && x.base == base && x.lo <= j < x.hi :: x in m'
    ensures Pending(m', base, j)
  {
    var x :| x in m && x.base == base && x.lo <= j < x.hi;
    assert x in m';
  }

  /** Replacing the pending ranges keeps the invariant when every word is still covered and what is
      new to scan is reachable. */
  lemma TraceChange(g: Graph, next: nat, done: set<Obj>, m: multiset<Range>, done': set<Obj>, m': multiset<Range>)
    requires Tracing(g, next, done, m) && done <= done'
    requires forall o | o in done' :: g.Reaches(o)
    requires forall x, j: nat | x in m' && x.lo <= j < x.hi && g.To(x.base, j).Some? :: g.Reaches(g.To(x.base, j).value)
    requires forall base: nat, j: nat | Covered(g, done, m, base, j) :: Covered(g, done', m', base, j)
    requires forall o, j: nat | o in done' && o !in done && j < Words(o) :: Covered(g, done', m', At(o.i, o.k), j)
    ensures Tracing(g, next, done', m')
  {
    hide Covered, Graph.Reaches, Graph.To, At;
  }

  /** A word whose target is already marked, or that refers to nothing, is passed over. */
  lemma TraceSkip(g: Graph, next: nat, done: set<Obj>, m: multiset<Range>, x: Range)
    requires Tracing(g, next, done, m + multiset{x}) && x.lo < x.hi && Met(g.To(x.base, x.lo), done)
    ensures Tracing(g, next, done, m + multiset{x.(lo := x.lo + 1)})
  {
    hide Graph.Reaches, Graph.To, At, Pending;
    var y := x.(lo := x.lo + 1);
    var m1, m2 := m + multiset{x}, m + multiset{y};
    assert y in m2 && x in m1;
    forall base: nat, j: nat | Covered(g, done, m1, base, j)
      ensures Covered(g, done, m2, base, j)
    {
      if !Met(g.To(base, j), done) {
        PendingShift(m, x, y, base, j);
      }
    }
    TraceChange(g, next, done, m1, done, m2);
  }

  lemma PendingShift(m: multiset<Range>, x: Range, y: Range, base: nat, j: nat)
    requires Pending(m + multiset{x}, base, j) && y == x.(lo := x.lo + 1) && !(base == x.base && j == x.lo)
    ensures Pending(m + multiset{y}, base, j)
  {
    var z :| z in m + multiset{x} && z.base == base && z.lo <= j < z.hi;
    if z in m { assert z in m + multiset{y}; } else { assert y in m + multiset{y}; }
  }

  /** A newly marked object is pushed whole. */
  lemma TracePush(g: Graph, next: nat, done: set<Obj>, m: multiset<Range>, x: Range, o: Obj)
    requires Tracing(g, next, done, m) && x in m && x.lo < x.hi && g.To(x.base, x.lo) == Some(o)
    ensures Tracing(g, next, done + {o}, m + multiset{Range(At(o.i, o.k), 0, Words(o))})
  {
    hide Graph.To, At, Pending, Words;
    var done', y := done + {o}, Range(At(o.i, o.k), 0, Words(o));
    var m' := m + multiset{y};
    assert g.Reaches(o);
    forall base: nat, j: nat | Covered(g, done, m, base, j)
      ensures Covered(g, done', m', base, j)
    {
      if Pending(m, base, j) { PendingStays(m, m', base, j); }
    }
    forall z, j: nat | z in m' && z.lo <= j < z.hi && g.To(z.base, j).Some?
      ensures g.Reaches(g.To(z.base, j).value)
    {
      if z !in m { ReachStep(g, o, j); }
    }
    forall j: nat | j < Words(o)
      ensures Covered(g, done', m', At(o.i, o.k), j)
    {
      assert y in m';
      PendingIn(m', y, j);
    }
    TraceChange(g, next, done, m, done', m');
  }

  lemma PendingIn(m: multiset<Range>, x: Range, j: nat)
    requires x in m && x.lo <= j < x.hi
    ensures Pending(m, x.base, j)
  {
  }

  lemma ReachStep(g: Graph, o: Obj, j: nat)
    requires g.Valid() && g.Reaches(o) && j < Words(o) && g.To(At(o.i, o.k), j).Some?
    ensures g.Reaches(g.To(At(o.i, o.k), j).value)
  {
    WordOf(o, j);
    hide At, Words, WordIn;
    var n: nat :| Reach(g.rs, g.mem, g.roots, n, o);
    assert Refers(g.rs, g.mem, At(o.i, o.k) + 8 * j, g.To(At(o.i, o.k), j).value);
    assert Reach(g.rs, g.mem, g.roots, n + 1, g.To(At(o.i, o.k), j).value);
  }

  lemma WordOf(o: Obj, j: nat)
    requires j < Words(o)
    ensures WordIn(o, At(o.i, o.k) + 8 * j)
  {
    hide At;
  }

  lemma WordNumber(o: Obj, a: int) returns (j: nat)
    requires WordIn(o, a)
    ensures j < Words(o) && a == At(o.i, o.k) + 8 * j
  {
    hide At;
    j := (a - At(o.i, o.k)) / 8;
  }

  /** A range scanned to its end is dropped. */
  lemma TraceDrop(g: Graph, next: nat, done: set<Obj>, m: multiset<Range>, x: Range)
    requires Tracing(g, next, done, m + multiset{x}) && x.lo >= x.hi
    ensures Tracing(g, next, done, m)
  {
    hide Graph.Reaches, Graph.To, At, Pending;
    var m1 := m + multiset{x};
    forall base: nat, j: nat | Covered(g, done, m1, base, j)
      ensures Covered(g, done, m, base, j)
    {
      if Pending(m1, base, j) { PendingStays(m1, m, base, j); }
    }
    assert forall z | z in m :: z in m1;
    TraceChange(g, next, done, m1, done, m);
  }

  /** The next root is taken up. */
  lemma TraceRoot(g: Graph, next: nat, done: set<Obj>, m: multiset<Range>)
    requires Tracing(g, next, done, m) && next < |g.roots|
    ensures Tracing(g, next + 1, done, m + multiset{g.roots[next]})
  {
    hide Graph.To, At, Pending, Words;
    var x := g.roots[next];
    var m' := m + multiset{x};
    assert x in m';
    forall base: nat, j: nat | Covered(g, done, m, base, j)
      ensures Covered(g, done, m', base, j)
    {
      if Pending(m, base, j) { PendingStays(m, m', base, j); }
    }
    forall z, j: nat | z in m' && z.lo <= j < z.hi && g.To(z.base, j).Some?
      ensures g.Reaches(g.To(z.base, j).value)
    {
      if z !in m { RootReaches(g, x, j); }
    }
    TraceChange(g, next, done, m, done, m');
    forall j: nat | x.lo <= j < x.hi
      ensures Covered(g, done, m', x.base, j)
    {
      PendingIn(m', x, j);
    }
  }

  lemma RootReaches(g: Graph, x: Range, j: nat)
    requires g.Valid() && x in g.roots && x.lo <= j < x.hi && g.To(x.base, j).Some?
    ensures g.Reaches(g.To(x.base, j).value)
  {
    var a := x.base + 8 * j;
    assert RootWord(g.roots, a) && Refers(g.rs, g.mem, a, g.To(x.base, j).value);
    assert Reach(g.rs, g.mem, g.roots, 0, g.To(x.base, j).value);
  }

  /** When nothing is pending and every root has been taken up, exactly the reachable objects are marked. */
  lemma TraceEnd(g: Graph, done: set<Obj>)
    requires Tracing(g, |g.roots|, done, multiset{})
    ensures forall o :: o in done <==> g.Reaches(o)
  {
    hide Reach;
    forall o | g.Reaches(o)
      ensures o in done
    {
      var n: nat :| Reach(g.rs, g.mem, g.roots, n, o);
      MarkedAlong(g, done, n, o);
    }
  }

  lemma {:induction false} MarkedAlong(g: Graph, done: set<Obj>, n: nat, o: Obj)
    requires Tracing(g, |g.roots|, done, multiset{}) && Reach(g.rs, g.mem, g.roots, n, o)
    ensures o in done
    decreases n
  {
    hide At, Words, WordIn, Resolve, WordAt;
    if n == 0 {
      var a: int :| RootWord(g.roots, a) && Refers(g.rs, g.mem, a, o);
      var x :| x in g.roots && x.base + 8 * x.lo <= a && a + 8 <= x.base + 8 * x.hi && (a - x.base) % 8 == 0;
      var j: nat := (a - x.base) / 8;
      var i :| 0 <= i < |g.roots| && g.roots[i] == x;
      assert a == x.base + 8 * j;
      assert Covered(g, done, multiset{}, g.roots[i].base, j);
      assert g.To(x.base, j) == Some(o);
    } else {
      var p: Obj, a: int :| Reach(g.rs, g.mem, g.roots, n - 1, p) && WordIn(p, a) && Refers(g.rs, g.mem, a, o);
      MarkedAlong(g, done, n - 1, p);
      var j := WordNumber(p, a);
      assert Covered(g, done, multiset{}, At(p.i, p.k), j);
      assert g.To(At(p.i, p.k), j) == Some(o);
    }
  }

  ghost predicate RootRefers(rs: seq<Region>, mem: Mem, roots: seq<Range>, q: Obj)
    requires |rs| == NUM_REGIONS
  {
    exists a: int :: RootWord(roots, a) && Refers(rs, mem, a, q)
  }

  ghost predicate ObjectRefers(rs: seq<Region>, mem: Mem, roots: seq<Range>, q: Obj)
    requires |rs| == NUM_REGIONS
  {
    exists o: Obj, a: int :: Reachable(rs, mem, roots, o) && WordIn(o, a) && Refers(rs, mem, a, q)
  }

  /** What is reachable is what a root word refers to, or a word of something reachable; and nothing
      else: whatever holds of the targets of root words, and goes over from an object to the targets
      of its words, holds of everything reachable. */
  lemma ReachableStep(rs: seq<Region>, mem: Mem, roots: seq<Range>, q: Obj)
    requires |rs| == NUM_REGIONS
    ensures Reachable(rs, mem, roots, q) <==> RootRefers(rs, mem, roots, q) || ObjectRefers(rs, mem, roots, q)
  {
    hide RootWord, WordIn, Refers;
    if n: nat :| Reach(rs, mem, roots, n, q) {
      if n > 0 {
        var p: Obj, a: int :| Reach(rs, mem, roots, n - 1, p) && WordIn(p, a) && Refers(rs, mem, a, q);
        assert Reachable(rs, mem, roots, p);
      }
    }
    if a: int :| RootWord(roots, a) && Refers(rs, mem, a, q) {
      assert Reach(rs, mem, roots, 0, q);
    }
    if o: Obj, a: int :| Reachable(rs, mem, roots, o) && WordIn(o, a) && Refers(rs, mem, a, q) {
      var n: nat :| Reach(rs, mem, roots, n, o);
      assert Reach(rs, mem, roots, n + 1, q);
    }
  }

  /** Every word of a root range refers to nothing or into s. */
  ghost predicate RootsScanned(rs: seq<Region>, mem: Mem, roots: seq<Range>, s: set<Obj>)
    requires |rs| == NUM_REGIONS
  {
    forall x, a: int | x in roots && x.base + 8 * x.lo <= a && a + 8 <= x.base + 8 * x.hi && (a - x.base) % 8 == 0 && Resolve(rs, WordAt(mem, a)).Some? ::
      Resolve(rs, WordAt(mem, a)).value in s
  }

  /** Every whole word between the start and the end of an object of s refers to nothing or into s. */
  ghost predicate ObjectsScanned(rs: seq<Region>, mem: Mem, s: set<Obj>)
    requires |rs| == NUM_REGIONS
  {
    forall o, a: int | o in s && At(o.i, o.k) <= a && a + 8 <= At(o.i, o.k) + RegionSize(o.i) && (a - At(o.i, o.k)) % 8 == 0 && Resolve(rs, WordAt(mem, a)).Some? ::
      Resolve(rs, WordAt(mem, a)).value in s
  }

  /** Every object of s is referred to by a word of a root range or of an object of s. */
  ghost predicate AllReferred(rs: seq<Region>, mem: Mem, roots: seq<Range>, s: set<Obj>)
    requires |rs| == NUM_REGIONS
  {
    forall q | q in s ::
      || (exists x, a: int :: x in roots && x.base + 8 * x.lo <= a && a + 8 <= x.base + 8 * x.hi && (a - x.base) % 8 == 0 && Resolve(rs, WordAt(mem, a)) == Some(q))
      || (exists o, a: int :: o in s && At(o.i, o.k) <= a && a + 8 <= At(o.i, o.k) + RegionSize(o.i) && (a - At(o.i, o.k)) % 8 == 0 && Resolve(rs, WordAt(mem, a)) == Some(q))
  }

  lemma ReachableWords(rs: seq<Region>, mem: Mem, roots: seq<Range>, s: set<Obj>)
    requires |rs| == NUM_REGIONS && forall o :: o in s <==> Reachable(rs, mem, roots, o)
    ensures RootsScanned(rs, mem, roots, s) && ObjectsScanned(rs, mem, s) && AllReferred(rs, mem, roots, s)
  {
    hide *;
    RootsAre(rs, mem, roots, s);
    ObjectsAre(rs, mem, roots, s);
    ReferredAre(rs, mem, roots, s);
  }

  /** What was live and is referred to by a word of a root range, or by a whole word of an object that
      stays live, stays live. */
  ghost predicate LiveKept(rs: seq<Region>, mem: Mem, roots: seq<Range>, live0: set<Obj>, live: set<Obj>)
    requires |rs| == NUM_REGIONS
  {
    && (forall x, a: int | x in roots && x.base + 8 * x.lo <= a && a + 8 <= x.base + 8 * x.hi && (a - x.base) % 8 == 0 && Resolve(rs, WordAt(mem, a)).Some? ::
          Resolve(rs, WordAt(mem, a)).value in live0 ==> Resolve(rs, WordAt(mem, a)).value in live)
    && forall o, a: int | o in live && At(o.i, o.k) <= a && a + 8 <= At(o.i, o.k) + RegionSize(o.i) && (a - At(o.i, o.k)) % 8 == 0 && Resolve(rs, WordAt(mem, a)).Some? ::
         Resolve(rs, WordAt(mem, a)).value in live0 ==> Resolve(rs, WordAt(mem, a)).value in live
  }

  lemma LiveWords(rs: seq<Region>, mem: Mem, roots: seq<Range>, live0: set<Obj>, live: set<Obj>)
    requires |rs| == NUM_REGIONS && forall o :: o in live <==> o in live0 && Reachable(rs, mem, roots, o)
    ensures LiveKept(rs, mem, roots, live0, live)
  {
    hide Resolve, WordAt, Reachable, At, RegionSize;
    forall x, a: int | x in roots && x.base + 8 * x.lo <= a && a + 8 <= x.base + 8 * x.hi && (a - x.base) % 8 == 0 && Resolve(rs, WordAt(mem, a)).Some?
      ensures Reachable(rs, mem, roots, Resolve(rs, WordAt(mem, a)).value)
    {
      RootMeets(rs, mem, roots, a, Resolve(rs, WordAt(mem, a)).value);
    }
    forall o, a: int | o in live && At(o.i, o.k) <= a && a + 8 <= At(o.i, o.k) + RegionSize(o.i) && (a - At(o.i, o.k)) % 8 == 0 && Resolve(rs, WordAt(mem, a)).Some?
      ensures Reachable(rs, mem, roots, Resolve(rs, WordAt(mem, a)).value)
    {
      ObjectMeets(rs, mem, roots, o, a, Resolve(rs, WordAt(mem, a)).value);
    }
  }

  lemma RootsAre(rs: seq<Region>, mem: Mem, roots: seq<Range>, s: set<Obj>)
    requires |rs| == NUM_REGIONS && forall o :: o in s <==> Reachable(rs, mem, roots, o)
    ensures RootsScanned(rs, mem, roots, s)
  {
    hide Resolve, WordAt, Reachable;
    forall x, a: int | x in roots && x.base + 8 * x.lo <= a && a + 8 <= x.base + 8 * x.hi && (a - x.base) % 8 == 0 && Resolve(rs, WordAt(mem, a)).Some?
      ensures Resolve(rs, WordAt(mem, a)).value in s
    {
      var q := Resolve(rs, WordAt(mem, a)).value;
      assert RootWord(roots, a);
      RootMeets(rs, mem, roots, a, q);
    }
  }

  lemma RootMeets(rs: seq<Region>, mem: Mem, roots: seq<Range>, a: int, q: Obj)
    requires |rs| == NUM_REGIONS && RootWord(roots, a) && Resolve(rs, WordAt(mem, a)) == Some(q)
    ensures Reachable(rs, mem, roots, q)
  {
    hide Resolve, WordAt, Reachable, RootWord;
    assert Refers(rs, mem, a, q);
    ReachableStep(rs, mem, roots, q);
  }

  lemma ObjectMeets(rs: seq<Region>, mem: Mem, roots: seq<Range>, o: Obj, a: int, q: Obj)
    requires |rs| == NUM_REGIONS && Reachable(rs, mem, roots, o) && WordIn(o, a) && Resolve(rs, WordAt(mem, a)) == Some(q)
    ensures Reachable(rs, mem, roots, q)
  {
    hide Resolve, WordAt, Reachable, WordIn;
    assert Refers(rs, mem, a, q);
    ReachableStep(rs, mem, roots, q);
  }

  lemma ObjectsAre(rs: seq<Region>, mem: Mem, roots: seq<Range>, s: set<Obj>)
    requires |rs| == NUM_REGIONS && forall o :: o in s <==> Reachable(rs, mem, roots, o)
    ensures ObjectsScanned(rs, mem, s)
  {
    hide Resolve, WordAt, Reachable, At, RegionSize;
    forall o, a: int | o in s && At(o.i, o.k) <= a && a + 8 <= At(o.i, o.k) + RegionSize(o.i) && (a - At(o.i, o.k)) % 8 == 0 && Resolve(rs, WordAt(mem, a)).Some?
      ensures Resolve(rs, WordAt(mem, a)).value in s
    {
      ObjectMeets(rs, mem, roots, o, a, Resolve(rs, WordAt(mem, a)).value);
    }
  }

  lemma ReferredAre(rs: seq<Region>, mem: Mem, roots: seq<Range>, s: set<Obj>)
    requires |rs| == NUM_REGIONS && forall o :: o in s <==> Reachable(rs, mem, roots, o)
    ensures AllReferred(rs, mem, roots, s)
  {
    hide Resolve, WordAt, Reachable, At, RegionSize;
    forall q | q in s
      ensures (exists x, a: int :: x in roots && x.base + 8 * x.lo <= a && a + 8 <= x.base + 8 * x.hi && (a - x.base) % 8 == 0 && Resolve(rs, WordAt(mem, a)) == Some(q))
           || (exists o, a: int :: o in s && At(o.i, o.k) <= a && a + 8 <= At(o.i, o.k) + RegionSize(o.i) && (a - At(o.i, o.k)) % 8 == 0 && Resolve(rs, WordAt(mem, a)) == Some(q))
    {
      ReachableStep(rs, mem, roots, q);
      if RootRefers(rs, mem, roots, q) {
        var a: int :| RootWord(roots, a) && Refers(rs, mem, a, q);
      } else {
        var o: Obj, a: int :| Reachable(rs, mem, roots, o) && WordIn(o, a) && Refers(rs, mem, a, q);
        assert o in s;
      }
    }
  }

  lemma {:induction false} ReachableLeast(rs: seq<Region>, mem: Mem, roots: seq<Range>, s: set<Obj>, n: nat, q: Obj)
    requires |rs| == NUM_REGIONS && Reach(rs, mem, roots, n, q)
    requires forall a: int, o | RootWord(roots, a) && Refers(rs, mem, a, o) :: o in s
    requires forall p, a: int, o | p in s && WordIn(p, a) && Refers(rs, mem, a, o) :: o in s
    ensures q in s
    decreases n
  {
    hide RootWord, WordIn, Refers;
    if n > 0 {
      var p: Obj, a: int :| Reach(rs, mem, roots, n - 1, p) && WordIn(p, a) && Refers(rs, mem, a, q);
      ReachableLeast(rs, mem, roots, s, n - 1, p);
    }
  }

  // ---------------------------------------------------------------- sizes and counts

  /** The total size of a set of objects. */
  ghost function TotalSize(s: set<Obj>): nat {
    if s == {} then 0 else var o :| o in s; RegionSize(o.i) + TotalSize(s - {o})
  }

  lemma {:induction false} TotalAdds(s: set<Obj>, o: Obj)
    requires o !in s
    ensures TotalSize(s + {o}) == TotalSize(s) + RegionSize(o.i)
    decreases |s|
  {
    hide RegionSize;
    var t := s + {o};
    var p :| p in t && TotalSize(t) == RegionSize(p.i) + TotalSize(t - {p});
    if p == o {
      assert t - {p} == s;
    } else {
      assert t - {p} == (s - {p}) + {o};
      TotalAdds(s - {p}, o);
      TotalAdds(s - {p}, p);
      assert (s - {p}) + {p} == s;
    }
  }

  /** All objects a mark bit can stand for. */
  ghost function AllObjs(): set<Obj> {
    set i: nat, k: nat | i < NUM_REGIONS && k < TWO32 :: Obj(i, k)
  }

  /** How many objects are not in done. */
  ghost function Rest(done: set<Obj>): nat {
    |AllObjs() - done|
  }

  lemma CountDrops(done: set<Obj>, o: Obj)
    requires o.i < NUM_REGIONS && o.k < TWO32 && o !in done
    ensures Rest(done + {o}) < Rest(done)
  {
    assert o in AllObjs();
    assert AllObjs() - (done + {o}) == (AllObjs() - done) - {o};
  }

  // ---------------------------------------------------------------- the mark stack

  /** Exchanging the current range with an entry of the stack keeps the pending ranges. */
  lemma SwapKeeps(stack: seq<Range>, cur: Range, d: nat)
    requires d < |stack|
    ensures multiset(stack[d := cur]) + multiset{stack[d]} == multiset(stack) + multiset{cur}
  {
    assert stack == stack[..d] + [stack[d]] + stack[d + 1..];
    assert stack[d := cur] == stack[..d] + [cur] + stack[d + 1..];
  }
}
