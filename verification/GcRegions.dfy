/** What a region of the collector holds: the objects below its free pointer, the free list threaded
    through free objects, and the window of objects still to be swept lazily. */
module GcRegions {
  import opened Options
  import opened GcArith

  type Word = w: int | 0 <= w < TWO64

  type Mem = map<int, Word>

  /** Memory that was never written reads as zero. */
  function WordAt(mem: Mem, a: int): Word {
    if a in mem then mem[a] else 0
  }

  /** The pointer fields of a region; null is 0. */
  datatype Region = Region(freelist: int, freeptr: int, markstart: int, markend: int, protectptr: int)

  /** The same in object numbers: objects below the free pointer, the window, the free list. */
  datatype View = View(n: nat, ms: nat, me: nat, free: seq<nat>)

  /** Object k of region i. */
  datatype Obj = Obj(i: nat, k: nat)

  function SlotEnd(i: nat): (a: nat)
    ensures a == (i + 3) * TWO32
  {
    SlotStart(i) + REGION_SIZE
  }

  /** The free list: each free object's first word holds the hidden address of the next one. */
  ghost predicate Chain(i: nat, head: int, free: seq<nat>, mem: Mem)
    decreases |free|
  {
    if free == [] then head == 0
    else head == At(i, free[0]) && Chain(i, Unhide(WordAt(mem, head)), free[1..], mem)
  }

  ghost predicate Pointers(i: nat, r: Region, v: View) {
    && v.ms <= v.me <= v.n
    && r.freeptr == At(i, v.n) && r.markstart == At(i, v.ms) && r.markend == At(i, v.me)
    && r.freeptr <= SlotEnd(i)
  }

  /** No object is on the free list twice or at or above the free pointer. */
  ghost predicate Listed(v: View) {
    && (forall x | 0 <= x < |v.free| :: v.free[x] < v.n)
    && (forall x, y | 0 <= x < y < |v.free| :: v.free[x] != v.free[y])
  }

  /** Live objects, free objects, unmarked objects in the window and fresh space are disjoint. */
  ghost predicate Apart(i: nat, v: View, marks: set<Obj>, live: set<Obj>) {
    && (forall k: nat | Obj(i, k) in live :: k < v.n && k !in v.free)
    && (forall k: nat | v.ms <= k < v.me && (Obj(i, k) in live || k in v.free) :: Obj(i, k) in marks)
  }

  ghost predicate RegionOk(i: nat, r: Region, v: View, mem: Mem, marks: set<Obj>, live: set<Obj>) {
    Pointers(i, r, v) && Listed(v) && Chain(i, r.freelist, v.free, mem) && Apart(i, v, marks, live)
  }

  // ---------------------------------------------------------------- addresses

  /** Objects below the end of the slot lie in the slot, and their numbers fit 32 bits. */
  lemma ObjInSlot(i: nat, k: nat)
    requires i < NUM_REGIONS && At(i, k) < SlotEnd(i)
    ensures InSlot(i, At(i, k)) && InSlot(i, StartPtr(i)) && MarkIndex(i, At(i, k)) == k && k + 1 < TWO32
  {
    hide MarkIndex;
    MulMono(16, RegionSize(i), k);
    Assoc(k, RegionSize(i), 1);
    assert At(i, k) >= StartPtr(i) + 16 * k;
    InteriorIndex(i, k, 0);
  }

  lemma AtInjective(i: nat, j: nat, k: nat)
    ensures At(i, j) == At(i, k) <==> j == k
    ensures At(i, j) < At(i, k) <==> j < k
  {
    if j < k { AtMono(i, j, k); } else if k < j { AtMono(i, k, j); }
  }

  lemma AtPositive(i: nat, k: nat)
    ensures At(i, k) >= SlotStart(i) >= MEMORY
  {
    MulMono(0, k, RegionSize(i));
  }

  predicate Inside(o: Obj, a: int) {
    At(o.i, o.k) <= a < At(o.i, o.k) + RegionSize(o.i)
  }

  /** Two objects that end inside their slots share no address. */
  lemma ObjectsApart(o: Obj, p: Obj, a: int)
    requires o != p && At(o.i, o.k + 1) <= SlotEnd(o.i) && At(p.i, p.k + 1) <= SlotEnd(p.i)
    ensures !(Inside(o, a) && Inside(p, a))
  {
    AtPositive(o.i, o.k);
    AtPositive(p.i, p.k);
    AtNext(o.i, o.k);
    AtNext(p.i, p.k);
    if o.i == p.i {
      if o.k < p.k { AtMono(o.i, o.k, p.k); } else { AtMono(o.i, p.k, o.k); }
    }
  }

  lemma BelowMeansEnds(i: nat, k: nat, n: nat)
    requires k < n
    ensures At(i, k + 1) <= At(i, n) && At(i, k) < At(i, n)
  {
    if k + 1 < n { AtMono(i, k + 1, n); }
    AtMono(i, k, n);
  }

  // ---------------------------------------------------------------- what leaves a region as it is

  lemma {:induction false} ChainFrame(i: nat, head: int, free: seq<nat>, mem: Mem, mem': Mem)
    requires Chain(i, head, free, mem)
    requires forall k | k in free :: WordAt(mem', At(i, k)) == WordAt(mem, At(i, k))
    ensures Chain(i, head, free, mem')
    decreases |free|
  {
    hide At, WordAt;
    if free != [] {
      assert free[0] in free;
      ChainFrame(i, Unhide(WordAt(mem, head)), free[1..], mem, mem');
    }
  }

  /** A region is unaffected by writes outside its slot and by what happens to other regions' objects. */
  lemma RegionFrame(i: nat, r: Region, v: View, mem: Mem, marks: set<Obj>, live: set<Obj>, mem': Mem, live': set<Obj>)
    requires i < NUM_REGIONS && RegionOk(i, r, v, mem, marks, live)
    requires forall a | InSlot(i, a) :: WordAt(mem', a) == WordAt(mem, a)
    requires forall k: nat :: Obj(i, k) in live' <==> Obj(i, k) in live
    ensures RegionOk(i, r, v, mem', marks, live')
  {
    hide At, WordAt;
    forall k | k in v.free
      ensures WordAt(mem', At(i, k)) == WordAt(mem, At(i, k))
    {
      BelowMeansEnds(i, k, v.n);
      ObjInSlot(i, k);
    }
    ChainFrame(i, r.freelist, v.free, mem, mem');
  }

  /** Writing outside the free objects keeps the free list. */
  lemma ChainWrite(i: nat, head: int, free: seq<nat>, mem: Mem, a: int, w: Word)
    requires Chain(i, head, free, mem) && forall k | k in free :: At(i, k) != a
    ensures Chain(i, head, free, mem[a := w])
  {
    hide At;
    ChainFrame(i, head, free, mem, mem[a := w]);
  }
}
