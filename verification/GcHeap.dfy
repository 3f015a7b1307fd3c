/** The allocator: free-list allocation, lazy sweeping of the marked window, fresh allocation by
    bumping the free pointer, explicit freeing, and the program's own writes. */
module GcHeap {
  import opened Options
  import opened GcArith
  import opened GcRegions
  import opened GcTrace
  import opened GcMarkBits

  const FREELIST_LEN := 256
  const PROTECT_LEN := 65536
  const PAGE_SIZE := 4096
  const MAX_MARK_PUSH := 1024
  const RETURN_SWEEP := 8

  /** Every region is in order, and live objects belong to regions. */
  ghost predicate HeapOk(rs: seq<Region>, vs: seq<View>, mem: Mem, marks: set<Obj>, live: set<Obj>) {
    && |rs| == |vs| == NUM_REGIONS
    && (forall i: nat | i < NUM_REGIONS :: RegionOk(i, rs[i], vs[i], mem, marks, live))
    && (forall o | o in live :: o.i < NUM_REGIONS)
  }

  /** The free pointers mean what the views say. */
  ghost predicate Geometry(rs: seq<Region>, vs: seq<View>) {
    |rs| == |vs| == NUM_REGIONS && forall i: nat | i < NUM_REGIONS :: rs[i].freeptr == At(i, vs[i].n) <= SlotEnd(i)
  }

  /** The only mark bits above the free pointer are among the first of the region. */
  ghost predicate MarksBelow(vs: seq<View>, marks: set<Obj>) {
    |vs| == NUM_REGIONS && forall o | o in marks :: o.i < NUM_REGIONS && (o.k < vs[o.i].n || o.k < 32768)
  }

  /** A region with a window has mark memory. */
  ghost predicate Windowed(vs: seq<View>, bits: AllBits) {
    |vs| == |bits| == NUM_REGIONS && forall i: nat | i < NUM_REGIONS && vs[i].me > 0 :: bits[i] != null
  }

  /** Every region that holds objects has mark memory. */
  ghost predicate Provided(vs: seq<View>, bits: AllBits) {
    |vs| == |bits| == NUM_REGIONS && forall i: nat | i < NUM_REGIONS && vs[i].n > 0 :: bits[i] != null
  }

  /** No mark bit is set in a region that holds objects. */
  ghost predicate Cleared(vs: seq<View>, marks: set<Obj>) {
    |vs| == NUM_REGIONS && forall o | o in marks :: o.i < NUM_REGIONS && vs[o.i].n == 0
  }

  class Heap {
    var mem: Mem
    var regions: seq<Region>
    var bits: AllBits
    var usedSize: nat
    var sweepCount: nat
    var enabled: bool

    /** What the pointers and the mark bits mean, and the objects handed out and not yet freed or
        found unreachable. */
    ghost var view: seq<View>
    ghost var marks: set<Obj>
    ghost var live: set<Obj>

    ghost predicate Valid()
      reads this, Arrays(bits)
    {
      HeapOk(regions, view, mem, marks, live) && MarksBelow(view, marks) && BitsAre(bits, marks) && Windowed(view, bits)
    }

    constructor ()
      ensures Valid() && live == {} && marks == {} && mem == map[] && enabled && Arrays(bits) == {}
      ensures forall i: nat | i < NUM_REGIONS :: view[i] == View(0, 0, 0, [])
    {
      mem, marks, live := map[], {}, {};
      bits := seq(NUM_REGIONS, i => null);
      usedSize, sweepCount, enabled := 0, 0, true;
      regions := seq(NUM_REGIONS, i requires 0 <= i => Region(0, StartPtr(i), StartPtr(i), StartPtr(i), StartPtr(i)));
      view := seq(NUM_REGIONS, i => View(0, 0, 0, []));
    }

    /** A live object ends inside its slot. */
    lemma LiveEnds(o: Obj)
      requires Valid() && o in live
      ensures o.i < NUM_REGIONS && o.k < view[o.i].n && At(o.i, o.k + 1) <= At(o.i, view[o.i].n) <= SlotEnd(o.i)
    {
      hide At, Chain;
      var v := view[o.i];
      assert RegionOk(o.i, regions[o.i], v, mem, marks, live);
      assert Obj(o.i, o.k) == o;
      BelowMeansEnds(o.i, o.k, v.n);
    }

    /** Distinct live objects share no address. */
    lemma LiveApart(o: Obj, p: Obj, a: int)
      requires Valid() && o in live && p in live && o != p
      ensures !(Inside(o, a) && Inside(p, a))
      ensures !(At(o.i, o.k) <= a < At(o.i, o.k) + RegionSize(o.i) && At(p.i, p.k) <= a < At(p.i, p.k) + RegionSize(p.i))
    {
      LiveEnds(o);
      LiveEnds(p);
      ObjectsApart(o, p, a);
    }

    // -------------------------------------------------------------- changes that leave the mark bits alone

    /** Writes one word. */
    method Store(a: int, w: Word)
      requires BitsAre(bits, marks)
      modifies `mem
      ensures BitsAre(bits, marks) && mem == old(mem)[a := w]
    {
      mem := mem[a := w];
    }

    /** Changes one region, what it means, and which objects are live. */
    method Update(i: nat, r: Region, ghost v: View, ghost live': set<Obj>)
      requires BitsAre(bits, marks) && i < |regions| && i < |view|
      modifies `regions, `view, `live
      ensures BitsAre(bits, marks) && regions == old(regions)[i := r] && view == old(view)[i := v] && live == live'
    {
      regions, view, live := regions[i := r], view[i := v], live';
    }

    // -------------------------------------------------------------- the program's writes

    /** The program writes a word of a live object. */
    method Write(o: Obj, a: int, w: Word)
      requires Valid() && o in live && Inside(o, a)
      modifies `mem
      ensures Valid() && mem == old(mem)[a := w]
    {
      LiveEnds(o);
      WriteKeeps(o, a, w);
      mem := mem[a := w];
    }

    lemma WriteKeeps(o: Obj, a: int, w: Word)
      requires Valid() && o in live && Inside(o, a)
      ensures forall i: nat | i < NUM_REGIONS :: RegionOk(i, regions[i], view[i], mem[a := w], marks, live)
    {
      hide At, Chain, RegionSize;
      forall i: nat | i < NUM_REGIONS
        ensures RegionOk(i, regions[i], view[i], mem[a := w], marks, live)
      {
        assert RegionOk(i, regions[i], view[i], mem, marks, live);
        forall k | k in view[i].free
          ensures At(i, k) != a
        {
          LiveEnds(o);
          assert Obj(o.i, o.k) == o;
          BelowMeansEnds(i, k, view[i].n);
          ObjectsApart(o, Obj(i, k), a);
        }
        ChainWrite(i, regions[i].freelist, view[i].free, mem, a, w);
      }
    }

    // -------------------------------------------------------------- allocation

    /** Takes the first object of a free list that is not empty. */
    method Pop(idx: nat) returns (p: int, ghost o: Obj)
      requires Valid() && idx < NUM_REGIONS && regions[idx].freelist != 0
      modifies `regions, `view, `live
      ensures Valid() && live == old(live) + {o} && o !in old(live)
      ensures old(view[idx].free) != [] && o == Obj(idx, old(view[idx].free[0])) && p == At(idx, o.k) != 0 && o.k < old(view[idx].n)
      ensures view == old(view[idx := view[idx].(free := view[idx].free[1..])])
      ensures var r: Region := old(regions[idx]); regions == old(regions)[idx := r.(freelist := regions[idx].freelist)]
    {
      hide At, WordAt, BitsAre;
      var r := regions[idx];
      ghost var v := view[idx];
      assert RegionOk(idx, r, v, mem, marks, live);
      p := regions[idx].freelist;
      var next := Unhide(WordAt(mem, p));
      PopKeeps(idx, r, v, next, mem, marks, live);
      o := Obj(idx, v.free[0]);
      AtPositive(idx, o.k);
      OthersKeep(idx, regions, view, mem, marks, live, live + {o});
      Update(idx, r.(freelist := next), v.(free := v.free[1..]), live + {o});
    }

    /** Builds a free list from up to 256 unmarked objects at the start of the window. */
    method LazyScan(idx: nat)
      requires Valid() && idx < NUM_REGIONS && regions[idx].freelist == 0 && regions[idx].markstart < regions[idx].markend
      modifies `mem, `regions, `view, `live
      ensures Valid() && Kept(old(mem), mem, live) && live == old(live)
      ensures var v: View := old(view[idx]); view == old(view)[idx := v.(ms := view[idx].ms, free := view[idx].free)]
      ensures var r: Region := old(regions[idx]); regions == old(regions)[idx := r.(markstart := regions[idx].markstart, freelist := regions[idx].freelist)]
      ensures Scanned(idx, old(view[idx]), view[idx], marks)
    {
      hide RegionOk, At, WordAt, MarkIndex, Chain, Scanning, Scanned, Kept, RegionSize, StartPtr, BitsAre, MarkSize;
      ghost var v := view[idx];
      ScanEnter(idx, regions, view, mem, marks, live);
      assert bits[idx] != null;
      var ptr := regions[idx].markstart;
      var ptridx := MarkIndex(idx, ptr);
      var freelist := 0;
      ghost var free: seq<nat> := [];
      var i := 0;
      while i < FREELIST_LEN && ptr < regions[idx].markend
        invariant regions == old(regions) && view == old(view) && live == old(live) && BitsAre(bits, marks)
        invariant Scanning(idx, v, old(mem), mem, marks, ptr, ptridx, freelist, free) && |free| == i <= FREELIST_LEN
        decreases v.me - ptridx
      {
        ScanWindow(idx, v, old(mem), mem, marks, ptr, ptridx, freelist, free, regions[idx].markend);
        ScanBit(idx, v, old(mem), mem, marks, ptr, ptridx, freelist, free);
        BitOf(bits, marks, Obj(idx, ptridx));
        if !bits[idx].IsMarked(ptridx) {
          ScanTake(idx, v, old(mem), mem, marks, ptr, ptridx, freelist, free);
          Store(ptr, Hide(freelist));
          freelist := ptr;
          free := [ptridx] + free;
          i := i + 1;
        } else {
          ScanSkip(idx, v, old(mem), mem, marks, ptr, ptridx, freelist, free);
        }
        ptr := ptr + RegionSize(idx);
        ptridx := (ptridx + 1) % TWO32;
      }
      ScanWindow(idx, v, old(mem), mem, marks, ptr, ptridx, freelist, free, regions[idx].markend);
      ScanLeave(idx, regions, view, old(mem), mem, marks, live, ptr, ptridx, freelist, free);
      Update(idx, regions[idx].(markstart := ptr, freelist := freelist), v.(ms := ptridx, free := free), live);
    }

    /** Takes the next object of fresh space.  The free pointer moves even when the region is full or
        its memory cannot be made accessible. */
    method Fresh(idx: nat, protectOk: bool) returns (p: int, ghost o: Obj)
      requires idx < NUM_REGIONS == |regions| == |view| && BitsAre(bits, marks) && regions[idx].freeptr > 0
      modifies `regions, `view, `live
      ensures |regions| == NUM_REGIONS && o == Obj(idx, old(view[idx]).n) && BitsAre(bits, marks)
      ensures p != 0 <==> old(regions[idx]).freeptr < EndPtr(idx) && (protectOk || old(regions[idx]).freeptr + RegionSize(idx) < old(regions[idx]).protectptr)
      ensures p != 0 ==> p == old(regions[idx]).freeptr
      ensures live == if p != 0 then old(live) + {o} else old(live)
      ensures var v: View := old(view[idx]); view == old(view)[idx := v.(n := v.n + 1)]
      ensures regions[idx].freeptr == old(regions[idx]).freeptr + RegionSize(idx)
      ensures old(Valid()) ==> old(regions[idx]).freeptr == At(idx, o.k) && o !in old(live)
      ensures old(Valid()) && regions[idx].freeptr <= SlotEnd(idx) ==> Valid()
      ensures p != 0 && old(regions[idx]).freeptr <= old(regions[idx]).protectptr ==> regions[idx].freeptr <= regions[idx].protectptr
    {
      hide At, RegionOk, EndPtr, RegionSize, BitsAre;
      ghost var v := view[idx];
      var r := regions[idx];
      o := Obj(idx, v.n);
      p := r.freeptr;
      var size := RegionSize(idx);
      var protectptr := r.protectptr;
      ghost var live' := live;
      if p >= EndPtr(idx) {
        p := 0;
      } else if p + size >= protectptr {
        if protectOk {
          protectptr := protectptr + if PROTECT_LEN < size then size else PROTECT_LEN;
          live' := live + {o};
        } else {
          p := 0;
        }
      } else {
        live' := live + {o};
      }
      if Valid() {
        FreshAddress(idx, regions, view, mem, marks, live);
        FreshKeeps(idx, regions, view, mem, marks, live, live', protectptr);
      }
      Update(idx, r.(freeptr := r.freeptr + size, protectptr := protectptr), v.(n := v.n + 1), live');
    }

    /** Allocates an object of region idx; null when the region is full or its memory inaccessible. */
    method MallocIndex(idx: nat, protectOk: bool) returns (p: int, ghost o: Obj)
      requires Valid() && idx < NUM_REGIONS
      modifies `mem, `regions, `view, `live
      ensures |regions| == NUM_REGIONS && o.i == idx
      ensures live == if p != 0 then old(live) + {o} else old(live)
      ensures p != 0 ==> p == At(idx, o.k) && o !in old(live)
      ensures Kept(old(mem), mem, old(live))
      ensures regions[idx].freeptr <= SlotEnd(idx) ==> Valid()
      ensures old(view[idx]).free != [] ==> p != 0 && o.k == old(view[idx]).free[0]
      ensures o.k >= old(view[idx]).n || p == 0 ==> Exhausted(idx, old(view[idx]), marks)
    {
      hide At, RegionOk, EndPtr, RegionSize, Kept, Chain, WordAt, ScanSoFar, BitsAre;
      ghost var v := view[idx];
      KeptRefl(mem, live);
      ListOrNull(idx, regions, view, mem, marks, live);
      if regions[idx].freelist == 0 && regions[idx].markstart < regions[idx].markend {
        LazyScan(idx);
        ListOrNull(idx, regions, view, mem, marks, live);
        ScanFinds(idx, v, view[idx], marks);
      }
      if regions[idx].freelist != 0 {
        p, o := Pop(idx);
      } else {
        FreshAddress(idx, regions, view, mem, marks, live);
        p, o := Fresh(idx, protectOk);
      }
    }

    /** Allocates at least size bytes, 16-byte aligned; a size of zero or above 256 MB is a fatal error. */
    method Malloc(size: nat, protectOk: bool) returns (fatal: bool, p: int, ghost o: Obj)
      requires Valid() && IsWord(size)
      modifies `mem, `regions, `view, `live
      ensures fatal <==> size == 0 || size > 0x1000_0000
      ensures fatal ==> p == 0 && regions == old(regions) && mem == old(mem) && view == old(view)
      ensures live == if p != 0 then old(live) + {o} else old(live)
      ensures p != 0 ==> p == At(o.i, o.k) && p % 16 == 0 && size <= RegionSize(o.i) < size + SizeUnit(size) && o !in old(live)
      ensures Kept(old(mem), mem, old(live)) && |regions| == NUM_REGIONS
      ensures fatal || (o.i < NUM_REGIONS && (regions[o.i].freeptr <= SlotEnd(o.i) ==> Valid()))
    {
      hide At, RegionOk, EndPtr, RegionSize, Kept, Chain, WordAt, ScanSoFar, MarksBelow, Exhausted, BitsAre;
      MallocFits(size);
      KeptRefl(mem, live);
      var idx := GcArith.MallocIndex(size);
      match idx
      case None => fatal, p, o := true, 0, Obj(0, 0);
      case Some(i) =>
        fatal := false;
        p, o := MallocIndex(i, protectOk);
        ObjectsAligned(o.i, o.k);
    }

    /** Frees a live object: it becomes the head of its region's free list. */
    method Free(p: int, ghost o: Obj)
      requires Valid() && o in live && p == At(o.i, o.k)
      modifies `mem, `regions, `view, `live
      ensures Valid() && live == old(live) - {o} && Kept(old(mem), mem, live)
      ensures o.i < NUM_REGIONS
      ensures var v: View := old(view[o.i]); view == old(view)[o.i := v.(free := [o.k] + v.free)]
    {
      hide At, RegionOk, Kept, Chain, WordAt, Index, BitsAre;
      LiveEnds(o);
      AtNext(o.i, o.k);
      ObjInSlot(o.i, o.k);
      InSlotIndex(o.i, p);
      var idx := Index(p);
      var oldfreelist := regions[idx].freelist;
      ghost var v := view[idx];
      FreeKeeps(o, regions, view, mem, marks, live);
      Store(p, Hide(oldfreelist));
      Update(idx, regions[idx].(freelist := p), v.(free := [o.k] + v.free), live - {o});
    }

    // -------------------------------------------------------------- marking

    /** Clears the mark bits of every region that holds objects, and gives it mark memory when it has
        none. */
    method MarkInit()
      requires Geometry(regions, view) && MarksBelow(view, marks) && BitsAre(bits, marks)
      modifies `bits, `marks, Arrays(bits)
      ensures BitsAre(bits, marks) && Provided(view, bits) && fresh(Arrays(bits) - old(Arrays(bits)))
      ensures Cleared(view, marks) && marks <= old(marks)
    {
      hide At, StartPtr, RegionSize, BitsAre, Arrays;
      BitsLength(bits, marks);
      var i := 0;
      while i < NUM_REGIONS
        invariant 0 <= i <= NUM_REGIONS && marks <= old(marks)
        invariant forall o | o in marks && o.i < i :: view[o.i].n == 0
        invariant |bits| == NUM_REGIONS && forall j: nat | j < i && view[j].n > 0 :: bits[j] != null
        invariant BitsAre(bits, marks) && fresh(Arrays(bits) - old(Arrays(bits)))
      {
        var regionsize := regions[i].freeptr - StartPtr(i);
        ObjectCount(i, view[i].n);
        if regionsize != 0 {
          if bits[i] == null {
            BitOfNone(bits, marks, i);
            bits := NewBits(bits, marks, i);
          } else {
            var marksize := (regionsize / RegionSize(i) + 7) / 8;
            ZeroRegion(bits, marks, i, marksize);
            marks := Zeroed(marks, i, marksize);
          }
        }
        i := i + 1;
      }
    }

    /** Marks from the roots with an explicit stack, top first, whose bottom is a null entry.
        depth is the greatest number of ranges on the stack. */
    method Mark(roots: seq<Range>) returns (ghost depth: nat)
      requires Geometry(regions, view) && Cleared(view, marks) && BitsAre(bits, marks) && Provided(view, bits)
      modifies `marks, `usedSize, Arrays(bits)
      ensures BitsAre(bits, marks)
      ensures forall o :: o in marks - old(marks) <==> Reachable(regions, mem, roots, o)
      ensures RootsScanned(regions, mem, roots, marks - old(marks)) && ObjectsScanned(regions, mem, marks - old(marks))
      ensures AllReferred(regions, mem, roots, marks - old(marks))
      ensures usedSize == TotalSize(marks - old(marks)) && old(marks) <= marks
      ensures depth <= |marks - old(marks)|
    {
      hide *;
      depth := 0;
      ghost var g, vs, m0 := Graph(regions, mem, roots), view, marks;
      ghost var done: set<Obj> := {};
      var stack := [SENTINEL];
      var next := 0;
      usedSize := 0;
      MarkStart(g, vs, marks);
      while true
        invariant Marking(g, vs, m0, next, done, marks, stack, [], usedSize) && BitsAre(bits, marks)
        invariant next <= |roots| && depth <= |done|
        decreases Rest(done), |roots| - next + |stack|
      {
        MarkFacts(g, vs, m0, next, done, marks, stack, [], usedSize);
        var cur := stack[0];
        if Ptr(cur) == 0 {
          if next < |roots| {
            MarkRoot(g, vs, m0, next, done, marks, stack, usedSize);
            cur := roots[next];
            next := next + 1;
          } else {
            MarkEnd(g, vs, m0, next, done, marks, stack, usedSize);
            ReachableWords(regions, mem, roots, marks - m0);
            break;
          }
        } else {
          MarkPop(g, vs, m0, next, done, marks, stack, usedSize);
          stack := stack[1..];
        }
        var pushed := 0;
        ghost var left, height := Rest(done), |stack|;
        while cur.lo < cur.hi
          invariant Rest(done) < left || (Rest(done) == left && |stack| == height)
          invariant next <= |roots| && depth <= |done|
          invariant Marking(g, vs, m0, next, done, marks, stack, [cur], usedSize) && BitsAre(bits, marks)
          invariant 0 <= pushed < |stack|
          decreases Rest(done), cur.hi - cur.lo
        {
          MarkFacts(g, vs, m0, next, done, marks, stack, [cur], usedSize);
          var ptr := WordAt(mem, cur.base + 8 * cur.lo);
          var o := Resolve(regions, ptr);
          ToIs(g, cur.base, cur.lo);
          var unmarked := false;
          if o.Some? {
            TargetBit(g, vs, cur.base, cur.lo, bits);
            unmarked := MarkObject(bits, marks, o.value);
          }
          if !unmarked {
            MarkSkip(g, vs, m0, next, done, marks, stack, cur, usedSize);
            cur := cur.(lo := cur.lo + 1);
          } else {
            MarkPush(g, vs, m0, next, done, marks, stack, cur, usedSize, o.value);
            cur := cur.(lo := cur.lo + 1);
            done := done + {o.value};
            marks := marks + {o.value};
            usedSize := usedSize + RegionSize(o.value.i);
            stack := [Range(At(o.value.i, o.value.k), 0, Words(o.value))] + stack;
            MarkDepth(g, vs, m0, next, done, marks, stack, [cur], usedSize);
            depth := if depth < |stack| - 1 then |stack| - 1 else depth;
            if pushed > MAX_MARK_PUSH {
              MarkSwap(g, vs, m0, next, done, marks, stack, cur, usedSize, pushed);
              stack, cur := stack[pushed := cur], stack[pushed];
              pushed := 0;
            }
            pushed := pushed + 1;
          }
        }
        MarkDrop(g, vs, m0, next, done, marks, stack, cur, usedSize);
      }
    }

    // -------------------------------------------------------------- sweeping

    /** Sweeps region i: trims the free pointer down to the last marked object, at most by half, and
        when returning gives runs of unmarked objects back to the system. */
    method SweepRegion(i: nat, returning: bool) returns (ghost given: seq<Given>)
      requires i < NUM_REGIONS && |regions| == |view| == NUM_REGIONS && view[i].n > 0
      requires regions[i].freeptr == At(i, view[i].n) <= SlotEnd(i)
      requires BitsAre(bits, marks) && i < |bits| && bits[i] != null
      modifies `regions, `view, `live
      ensures BitsAre(bits, marks) && live == old(live)
      ensures |regions| == |view| == NUM_REGIONS
      ensures Trimmed(i, old(view[i]).n, view[i].n, marks) && view[i] == View(view[i].n, 0, view[i].n, [])
      ensures regions[i].freeptr == StartPtr(i) + RegionSize(i) * view[i].n % TWO32
      ensures regions[i].markstart == StartPtr(i) && regions[i].markend == regions[i].freeptr && regions[i].freelist == 0
      ensures forall j | 0 <= j < NUM_REGIONS && j != i :: regions[j] == old(regions[j]) && view[j] == old(view[j])
      ensures forall x | x in given :: GivenOk(i, old(view[i]).n, marks, x)
    {
      hide At, MarkIndex, RegionSize, StartPtr, GivenOk, GivenBack, Trimmed, SlotEnd, Sweeping, Signed32, InSlot, SlotStart, Index, IsPtr, ObjIdx, BitsAre, MarkSize;
      ghost var n := view[i].n;
      given := [];
      LastIndex(i, n, marks);
      var ptr := regions[i].freeptr - RegionSize(i);
      var size := RegionSize(i);
      var ptridx: int := MarkIndex(i, ptr);
      var target := ptridx / 2;
      var freesize := 0;
      var start := true;
      ghost var top: int, trim: nat := n, n;
      while true
        invariant |regions| == |view| == NUM_REGIONS && view == old(view) && live == old(live) && BitsAre(bits, marks)
        invariant Sweeping(i, n, marks, target, ptridx, top, freesize) && target - 1 <= ptridx < n
        invariant forall x | x in given :: GivenOk(i, n, marks, x)
        invariant if start then regions == old(regions) && top == n else Trimmed(i, n, trim, marks)
        invariant !start ==> regions[i].freeptr == StartPtr(i) + size * trim % TWO32
        invariant forall j | 0 <= j < NUM_REGIONS && j != i :: regions[j] == old(regions[j])
        decreases ptridx + 1
      {
        var stop := ptridx < target;
        if !stop {
          SweepBit(i, n, marks, target, ptridx, top, freesize);
          BitOf(bits, marks, Obj(i, ptridx));
          stop := bits[i].IsMarked(ptridx);
        }
        if stop {
          if freesize >= 3 * PAGE_SIZE {
            GivenInRun(i, n, marks, target, ptridx, top, freesize);
            given := given + [GivenBack(i, ptridx, freesize)];
          }
          if start {
            TrimHere(i, n, marks, target, ptridx, freesize);
            trim := ptridx + 1;
            Update(i, regions[i].(freeptr := StartPtr(i) + size * (ptridx + 1) % TWO32), view[i], live);
            if !returning {
              break;
            }
            start := false;
          }
          if ptridx < target {
            break;
          }
          RunStarts(i, n, marks, target, ptridx, top, freesize);
          freesize := 0;
          top := ptridx;
        } else {
          RunGrows(i, n, marks, target, ptridx, top, freesize);
          freesize := Signed32(freesize + size);
        }
        ptridx := ptridx - 1;
      }
      Update(i, regions[i].(markstart := StartPtr(i), markend := regions[i].freeptr, freelist := 0), View(trim, 0, trim, []), live);
    }

    /** Whether this sweep gives memory back. */
    method CountSweep() returns (returning: bool)
      requires BitsAre(bits, marks)
      modifies `sweepCount
      ensures BitsAre(bits, marks) && sweepCount == old(sweepCount) + 1 && returning == (sweepCount % RETURN_SWEEP == 0)
    {
      sweepCount := sweepCount + 1;
      returning := sweepCount % RETURN_SWEEP == 0;
    }

    ghost method KeepMarked()
      requires BitsAre(bits, marks)
      modifies `live
      ensures BitsAre(bits, marks) && live == old(live) * marks
    {
      live := live * marks;
    }

    /** Sweeps every region.  What is not marked is no longer live. */
    method Sweep()
      requires Sweepable(regions, view, live) && MarksBelow(view, marks) && BitsAre(bits, marks) && Provided(view, bits)
      modifies `regions, `view, `sweepCount, `live
      ensures live == old(live) * marks && BitsAre(bits, marks)
      ensures Valid() <==> NoneFull(old(view), marks)
      ensures SweptTo(NUM_REGIONS, old(regions), old(view), regions, view, marks)
    {
      hide At, RegionSize, StartPtr, Trimmed, MarksBelow, GivenOk, SlotEnd, Sweepable, SweptTo, HeapOk, SweptView, NoneFull, BitsAre;
      var returning := CountSweep();
      ghost var rs, vs := regions, view;
      SweepStarts(rs, vs, marks, live);
      var i := 0;
      while i < NUM_REGIONS
        invariant 0 <= i <= NUM_REGIONS && SweptTo(i, rs, vs, regions, view, marks)
        invariant |regions| == |view| == NUM_REGIONS && live == old(live) && BitsAre(bits, marks)
      {
        SweepAt(i, rs, vs, regions, view, marks, live);
        ghost var rs', vs' := regions, view;
        if regions[i].freeptr != StartPtr(i) {
          if i == BIG_OFFSET {
            returning := true;
          }
          SweptSame(i, rs, vs, regions, view, marks);
          ghost var given := SweepRegion(i, returning);
        }
        SweepStep(i, rs, vs, rs', vs', regions, view, marks);
        i := i + 1;
      }
      KeepMarked();
      SweepEnds(rs, vs, regions, view, mem, marks, old(live));
      SweptWindowed(rs, vs, regions, view, marks, bits);
    }

    /** A collection: afterwards exactly the reachable live objects are live.  The heap is in order if
        and only if no region had filled its whole slot with its last object reachable; the free
        pointer of such a region is back at its start. */
    method Collect(roots: seq<Range>)
      requires Valid()
      modifies `bits, `marks, `usedSize, `regions, `view, `sweepCount, `live, Arrays(bits)
      ensures fresh(Arrays(bits) - old(Arrays(bits))) && BitsAre(bits, marks)
      ensures !enabled ==> Valid() && live == old(live) && regions == old(regions) && view == old(view) && marks == old(marks)
      ensures enabled ==> forall o :: o in live <==> o in old(live) && Reachable(old(regions), mem, roots, o)
      ensures enabled ==> |old(regions)| == NUM_REGIONS && LiveKept(old(regions), mem, roots, old(live), live)
      ensures enabled ==> (Valid() <==> forall i: nat | i < NUM_REGIONS && SlotFull(i, old(view[i])) :: !Reachable(old(regions), mem, roots, Obj(i, old(view[i]).n - 1)))
      ensures enabled ==> |regions| == |view| == NUM_REGIONS && forall i: nat | i < NUM_REGIONS && SlotFull(i, old(view[i])) && Reachable(old(regions), mem, roots, Obj(i, old(view[i]).n - 1)) :: regions[i].freeptr == StartPtr(i) && regions[i].freelist == 0
    {
      hide *;
      Parts();
      if !enabled {
        return;
      }
      ghost var rs, vs, live0 := regions, view, live;
      MarkInit();
      ghost var marks0 := marks;
      MarksFewer(vs, old(marks), marks0);
      ghost var _ := Mark(roots);
      CollectMarks(rs, vs, mem, roots, marks0, marks, live);
      Sweep();
      CollectEnds(rs, vs, regions, view, mem, roots, marks, live0);
      LiveWords(rs, mem, roots, live0, live);
    }

    lemma Facts()
      requires Valid()
      ensures |regions| == |view| == NUM_REGIONS && BitsAre(bits, marks)
      ensures forall i: nat | i < NUM_REGIONS :: regions[i].freeptr == At(i, view[i].n) > 0 && regions[i].freeptr <= SlotEnd(i)
    {
      hide HeapOk, BitsAre, At;
      Parts();
      forall i: nat | i < NUM_REGIONS ensures At(i, view[i].n) > 0 { AtPositive(i, view[i].n); }
    }

    lemma Parts()
      requires Valid()
      ensures HeapOk(regions, view, mem, marks, live) && MarksBelow(view, marks) && BitsAre(bits, marks)
      ensures Sweepable(regions, view, live) && Geometry(regions, view) && |view| == NUM_REGIONS
    {
      hide HeapOk, BitsAre;
      ValidParts(regions, view, mem, marks, live);
    }
  }

  /** Changing which objects of region i are live does not disturb the other regions. */
  lemma OthersKeep(i: nat, rs: seq<Region>, vs: seq<View>, mem: Mem, marks: set<Obj>, live: set<Obj>, live': set<Obj>)
    requires HeapOk(rs, vs, mem, marks, live) && forall o: Obj | o.i != i :: o in live' <==> o in live
    ensures forall j: nat | j < NUM_REGIONS && j != i :: RegionOk(j, rs[j], vs[j], mem, marks, live')
  {
    hide At, WordAt, Chain;
    forall j: nat | j < NUM_REGIONS && j != i
      ensures RegionOk(j, rs[j], vs[j], mem, marks, live')
    {
      RegionFrame(j, rs[j], vs[j], mem, marks, live, mem, live');
    }
  }

  lemma NullList(i: nat, head: int, free: seq<nat>, mem: Mem)
    requires Chain(i, head, free, mem)
    ensures head == 0 <==> free == []
  {
    if free != [] { AtPositive(i, free[0]); }
  }

  lemma PopKeeps(i: nat, r: Region, v: View, next: int, mem: Mem, marks: set<Obj>, live: set<Obj>)
    requires RegionOk(i, r, v, mem, marks, live) && r.freelist != 0 && next == Unhide(WordAt(mem, r.freelist))
    ensures v.free != [] && r.freelist == At(i, v.free[0]) && Obj(i, v.free[0]) !in live
    ensures RegionOk(i, r.(freelist := next), v.(free := v.free[1..]), mem, marks, live + {Obj(i, v.free[0])})
  {
    hide At, WordAt;
    NullList(i, r.freelist, v.free, mem);
    assert v.free[0] in v.free;
    assert forall k | k in v.free[1..] :: k in v.free;
  }

  /** Writing a new head into an object that is not on the list. */
  lemma ScanWrite(i: nat, head: int, free: seq<nat>, mem: Mem, k: nat)
    requires Chain(i, head, free, mem) && k !in free && 0 <= head < TWO64
    ensures Chain(i, At(i, k), [k] + free, mem[At(i, k) := Hide(head)])
  {
    hide At;
    forall j | j in free ensures At(i, j) != At(i, k) { AtInjective(i, j, k); }
    ChainWrite(i, head, free, mem, At(i, k), Hide(head));
    assert ([k] + free)[1..] == free;
  }

  /** After a scan the region is in order again. */
  lemma ScanKeepsRegion(i: nat, r: Region, v: View, v': View, r': Region, mem: Mem, mem': Mem, marks: set<Obj>, live: set<Obj>)
    requires RegionOk(i, r, v, mem, marks, live) && v.free == []
    requires v' == v.(ms := v'.ms, free := v'.free) && v.ms <= v'.ms <= v.me && ScanSoFar(i, v, v'.ms, v'.free, marks)
    requires Chain(i, r'.freelist, v'.free, mem') && r' == r.(markstart := At(i, v'.ms), freelist := r'.freelist)
    ensures RegionOk(i, r', v', mem', marks, live)
  {
    hide At, Chain;
    assert forall x | 0 <= x < |v'.free| :: v'.free[x] in v'.free;
  }

  /** A scan writes only into objects that are not live, and only in its own slot. */
  lemma ScanTouches(i: nat, v: View, free: seq<nat>, k: nat, a: int)
    requires i < NUM_REGIONS && v.me <= v.n && At(i, v.n) <= SlotEnd(i) && k <= v.me
    requires forall j | j in free :: v.ms <= j < k
    requires Touched(i, free, a)
    ensures InSlot(i, a)
  {
    var j :| j in free && a == At(i, j);
    BelowMeansEnds(i, j, v.n);
    ObjInSlot(i, j);
  }

  /** What a scan of region idx changes keeps the heap in order and the live words as they are. */
  lemma ScanKeeps(idx: nat, rs: seq<Region>, vs: seq<View>, mem: Mem, marks: set<Obj>, live: set<Obj>, mem': Mem, v': View, r': Region)
    requires HeapOk(rs, vs, mem, marks, live) && idx < NUM_REGIONS
    requires vs[idx].free == [] && v' == vs[idx].(ms := v'.ms, free := v'.free) && vs[idx].ms <= v'.ms <= vs[idx].me
    requires ScanSoFar(idx, vs[idx], v'.ms, v'.free, marks)
    requires Chain(idx, r'.freelist, v'.free, mem') && r' == rs[idx].(markstart := At(idx, v'.ms), freelist := r'.freelist)
    requires forall a | WordAt(mem', a) != WordAt(mem, a) :: Touched(idx, v'.free, a)
    ensures HeapOk(rs[idx := r'], vs[idx := v'], mem', marks, live)
    ensures Kept(mem, mem', live)
  {
    hide At, WordAt, Chain;
    var v := vs[idx];
    ScanKeepsRegion(idx, rs[idx], v, v', r', mem, mem', marks, live);
    forall i: nat | i < NUM_REGIONS && i != idx
      ensures RegionOk(i, rs[i], vs[i], mem', marks, live)
    {
      forall a | InSlot(i, a)
        ensures WordAt(mem', a) == WordAt(mem, a)
      {
        if WordAt(mem', a) != WordAt(mem, a) { ScanTouches(idx, v, v'.free, v'.ms, a); }
      }
      RegionFrame(i, rs[i], vs[i], mem, marks, live, mem', live);
    }
    forall o, a | o in live && Inside(o, a)
      ensures WordAt(mem', a) == WordAt(mem, a)
    {
      if WordAt(mem', a) != WordAt(mem, a) {
        var k :| k in v'.free && a == At(idx, k);
        assert RegionOk(o.i, rs[o.i], vs[o.i], mem, marks, live);
        assert Obj(o.i, o.k) == o;
        BelowMeansEnds(o.i, o.k, vs[o.i].n);
        BelowMeansEnds(idx, k, v.n);
        ObjectsApart(o, Obj(idx, k), a);
      }
    }
  }

  /** A scan of region i in progress: k is the object at ptr, free is on the new list. */
  ghost predicate Scanning(i: nat, v: View, mem0: Mem, mem: Mem, marks: set<Obj>, ptr: int, k: int, head: int, free: seq<nat>) {
    && i < NUM_REGIONS && v.ms <= k <= v.me <= v.n && ptr == At(i, k) && At(i, v.n) <= SlotEnd(i)
    && Chain(i, head, free, mem) && 0 <= head < TWO64
    && ScanSoFar(i, v, k, free, marks)
    && (forall a | WordAt(mem0, a) != WordAt(mem, a) :: Touched(i, free, a))
  }

  lemma ScanEnter(i: nat, rs: seq<Region>, vs: seq<View>, mem: Mem, marks: set<Obj>, live: set<Obj>)
    requires HeapOk(rs, vs, mem, marks, live) && i < NUM_REGIONS && rs[i].freelist == 0 && rs[i].markstart < rs[i].markend
    ensures |rs| == |vs| == NUM_REGIONS && vs[i].free == [] && rs[i].markend == At(i, vs[i].me)
    ensures vs[i].me > 0 && rs[i].markstart >= 0 && InSlot(i, rs[i].markstart) && InSlot(i, StartPtr(i)) && MarkIndex(i, rs[i].markstart) == vs[i].ms
    ensures Scanning(i, vs[i], mem, mem, marks, rs[i].markstart, vs[i].ms, 0, [])
  {
    hide At, WordAt, MarkIndex;
    var r, v := rs[i], vs[i];
    assert RegionOk(i, r, v, mem, marks, live);
    NullList(i, r.freelist, v.free, mem);
    AtInjective(i, v.ms, v.me);
    BelowMeansEnds(i, v.ms, v.n);
    ObjInSlot(i, v.ms);
  }

  /** The pointer comparison is the comparison of object numbers. */
  lemma ScanWindow(i: nat, v: View, mem0: Mem, mem: Mem, marks: set<Obj>, ptr: int, k: int, head: int, free: seq<nat>, markend: int)
    requires Scanning(i, v, mem0, mem, marks, ptr, k, head, free) && markend == At(i, v.me)
    ensures 0 <= k <= v.me && (ptr < markend <==> k < v.me)
  {
    hide At, WordAt, Chain;
    AtInjective(i, k, v.me);
  }

  /** The bit of an object in the window lies in the region's mark memory. */
  lemma ScanBit(i: nat, v: View, mem0: Mem, mem: Mem, marks: set<Obj>, ptr: int, k: nat, head: int, free: seq<nat>)
    requires Scanning(i, v, mem0, mem, marks, ptr, k, head, free) && k < v.me
    ensures i < NUM_REGIONS && k / 64 < MarkSize(i) / 8
  {
    hide At, WordAt, Chain, MarkSize;
    BelowMeansEnds(i, k, v.n);
    BitsFit(i, k);
  }

  lemma ScanNext(i: nat, v: View, k: nat)
    requires i < NUM_REGIONS && k < v.n && At(i, v.n) <= SlotEnd(i)
    ensures At(i, k) + RegionSize(i) == At(i, k + 1) && (k + 1) % TWO32 == k + 1 && 0 <= At(i, k) < TWO64
  {
    hide At, MarkIndex;
    BelowMeansEnds(i, k, v.n);
    ObjInSlot(i, k);
    AtNext(i, k);
  }

  /** A marked object stays off the list. */
  lemma ScanSkip(i: nat, v: View, mem0: Mem, mem: Mem, marks: set<Obj>, ptr: int, k: nat, head: int, free: seq<nat>)
    requires Scanning(i, v, mem0, mem, marks, ptr, k, head, free) && k < v.me && Obj(i, k) in marks
    ensures Scanning(i, v, mem0, mem, marks, ptr + RegionSize(i), (k + 1) % TWO32, head, free)
    ensures (k + 1) % TWO32 == k + 1
  {
    hide At, WordAt, Chain, RegionSize;
    ScanNext(i, v, k);
  }

  /** An unmarked object becomes the new head of the list. */
  lemma ScanTake(i: nat, v: View, mem0: Mem, mem: Mem, marks: set<Obj>, ptr: int, k: nat, head: int, free: seq<nat>)
    requires Scanning(i, v, mem0, mem, marks, ptr, k, head, free) && k < v.me && Obj(i, k) !in marks
    ensures 0 <= Hide(head) < TWO64
    ensures Scanning(i, v, mem0, mem[ptr := Hide(head)], marks, ptr + RegionSize(i), (k + 1) % TWO32, ptr, [k] + free)
    ensures (k + 1) % TWO32 == k + 1
  {
    hide At, Chain, RegionSize, Touched;
    ScanNext(i, v, k);
    ScanWrite(i, head, free, mem, k);
    var free' := [k] + free;
    assert forall j: nat :: j in free' <==> j == k || j in free;
    assert forall y | 0 < y < |free'| :: free'[y] == free[y - 1] && free[y - 1] in free;
    forall a | WordAt(mem0, a) != WordAt(mem[ptr := Hide(head)], a)
      ensures Touched(i, free', a)
    {
      if a == ptr { TouchedOne(i, free', k); } else { TouchedMore(i, k, free, a); }
    }
  }

  lemma TouchedOne(i: nat, free: seq<nat>, k: nat)
    requires k in free
    ensures Touched(i, free, At(i, k))
  {
  }

  lemma TouchedMore(i: nat, k: nat, free: seq<nat>, a: int)
    requires Touched(i, free, a)
    ensures Touched(i, [k] + free, a)
  {
    var j :| j in free && a == At(i, j);
    assert j in [k] + free;
  }

  lemma ScanLeave(i: nat, rs: seq<Region>, vs: seq<View>, mem0: Mem, mem: Mem, marks: set<Obj>, live: set<Obj>, ptr: int, k: nat, head: int, free: seq<nat>)
    requires HeapOk(rs, vs, mem0, marks, live) && i < NUM_REGIONS && vs[i].free == []
    requires Scanning(i, vs[i], mem0, mem, marks, ptr, k, head, free)
    requires |free| <= FREELIST_LEN && (|free| == FREELIST_LEN || k == vs[i].me)
    ensures HeapOk(rs[i := rs[i].(markstart := ptr, freelist := head)], vs[i := vs[i].(ms := k, free := free)], mem, marks, live)
    ensures Kept(mem0, mem, live) && Scanned(i, vs[i], vs[i].(ms := k, free := free), marks)
  {
    hide At, WordAt, Chain, Kept, RegionOk, Touched;
    ScanKeeps(i, rs, vs, mem0, marks, live, mem, vs[i].(ms := k, free := free), rs[i].(markstart := ptr, freelist := head));
  }

  lemma FreshAddress(i: nat, rs: seq<Region>, vs: seq<View>, mem: Mem, marks: set<Obj>, live: set<Obj>)
    requires HeapOk(rs, vs, mem, marks, live) && i < NUM_REGIONS
    ensures rs[i].freeptr == At(i, vs[i].n) > 0 && rs[i].freeptr + RegionSize(i) == At(i, vs[i].n + 1) && Obj(i, vs[i].n) !in live
  {
    hide At, Chain;
    assert RegionOk(i, rs[i], vs[i], mem, marks, live);
    AtPositive(i, vs[i].n);
    AtNext(i, vs[i].n);
  }

  /** Growing region i by one object that becomes live, or is lost. */
  lemma FreshKeeps(i: nat, rs: seq<Region>, vs: seq<View>, mem: Mem, marks: set<Obj>, live: set<Obj>, live': set<Obj>, protectptr: int)
    requires HeapOk(rs, vs, mem, marks, live) && i < NUM_REGIONS
    requires live' == live || live' == live + {Obj(i, vs[i].n)}
    ensures rs[i].freeptr + RegionSize(i) <= SlotEnd(i) ==>
              HeapOk(rs[i := rs[i].(freeptr := rs[i].freeptr + RegionSize(i), protectptr := protectptr)], vs[i := vs[i].(n := vs[i].n + 1)], mem, marks, live')
  {
    hide At, Chain;
    assert RegionOk(i, rs[i], vs[i], mem, marks, live);
    FreshAddress(i, rs, vs, mem, marks, live);
    OthersKeep(i, rs, vs, mem, marks, live, live');
  }

  /** Putting a live object on its region's free list. */
  lemma FreeKeeps(o: Obj, rs: seq<Region>, vs: seq<View>, mem: Mem, marks: set<Obj>, live: set<Obj>)
    requires HeapOk(rs, vs, mem, marks, live) && o in live
    ensures o.i < NUM_REGIONS && 0 <= rs[o.i].freelist < TWO64
    ensures var i, p := o.i, At(o.i, o.k);
            && HeapOk(rs[i := rs[i].(freelist := p)], vs[i := vs[i].(free := [o.k] + vs[i].free)], mem[p := Hide(rs[i].freelist)], marks, live - {o})
            && Kept(mem, mem[p := Hide(rs[i].freelist)], live - {o})
  {
    hide At, WordAt, Chain, RegionSize;
    var i, p := o.i, At(o.i, o.k);
    var r, v := rs[i], vs[i];
    var live' := live - {o};
    assert RegionOk(i, r, v, mem, marks, live);
    assert Obj(i, o.k) == o;
    HeadIsWord(i, r, v, mem);
    var mem' := mem[p := Hide(r.freelist)];
    BelowMeansEnds(i, o.k, v.n);
    ObjInSlot(i, o.k);
    FreeKeepsRegion(o, r, v, mem, marks, live);
    forall j: nat | j < NUM_REGIONS && j != i
      ensures RegionOk(j, rs[j], vs[j], mem', marks, live')
    {
      WordElsewhere(mem, p, Hide(r.freelist));
      RegionFrame(j, rs[j], vs[j], mem, marks, live, mem', live');
    }
    forall q, a | q in live' && Inside(q, a)
      ensures WordAt(mem', a) == WordAt(mem, a)
    {
      assert RegionOk(q.i, rs[q.i], vs[q.i], mem, marks, live);
      assert Obj(q.i, q.k) == q;
      BelowMeansEnds(q.i, q.k, vs[q.i].n);
      ObjectsApart(q, o, a);
      WordElsewhere(mem, p, Hide(r.freelist));
    }
  }

  lemma WordElsewhere(mem: Mem, p: int, w: Word)
    ensures forall a | a != p :: WordAt(mem[p := w], a) == WordAt(mem, a)
  {
  }

  lemma HeadIsWord(i: nat, r: Region, v: View, mem: Mem)
    requires i < NUM_REGIONS && Pointers(i, r, v) && Listed(v) && Chain(i, r.freelist, v.free, mem)
    ensures 0 <= r.freelist < TWO64
  {
    hide At;
    if v.free != [] {
      BelowMeansEnds(i, v.free[0], v.n);
      ObjInSlot(i, v.free[0]);
    }
  }

  lemma FreeKeepsRegion(o: Obj, r: Region, v: View, mem: Mem, marks: set<Obj>, live: set<Obj>)
    requires o.i < NUM_REGIONS && RegionOk(o.i, r, v, mem, marks, live) && o in live && 0 <= r.freelist < TWO64
    ensures var p := At(o.i, o.k);
            RegionOk(o.i, r.(freelist := p), v.(free := [o.k] + v.free), mem[p := Hide(r.freelist)], marks, live - {o})
  {
    hide At, Chain;
    assert Obj(o.i, o.k) == o;
    ScanWrite(o.i, r.freelist, v.free, mem, o.k);
    var free' := [o.k] + v.free;
    assert forall k :: k in free' <==> k == o.k || k in v.free;
    assert forall x | 0 < x < |free'| :: free'[x] == v.free[x - 1] && free'[x] in v.free;
  }

  lemma KeptRefl(mem: Mem, live: set<Obj>)
    ensures Kept(mem, mem, live)
  {
  }

  lemma ListOrNull(i: nat, rs: seq<Region>, vs: seq<View>, mem: Mem, marks: set<Obj>, live: set<Obj>)
    requires HeapOk(rs, vs, mem, marks, live) && i < NUM_REGIONS
    ensures rs[i].freelist == 0 <==> vs[i].free == []
    ensures rs[i].markstart < rs[i].markend <==> vs[i].ms < vs[i].me
    ensures forall k | k in vs[i].free :: k < vs[i].n
    ensures vs[i].ms <= vs[i].me <= vs[i].n
  {
    hide At, Chain;
    assert RegionOk(i, rs[i], vs[i], mem, marks, live);
    NullList(i, rs[i].freelist, vs[i].free, mem);
    AtInjective(i, vs[i].ms, vs[i].me);
  }

  /** Nothing below the free pointer could have been reused: the free list was empty and every object
      in the window was marked. */
  ghost predicate Exhausted(i: nat, v: View, marks: set<Obj>) {
    v.free == [] && forall k: nat | v.ms <= k < v.me :: Obj(i, k) in marks
  }

  /** A scan that finds nothing has seen the whole window. */
  lemma ScanFinds(i: nat, v: View, v': View, marks: set<Obj>)
    requires v.free == [] && Scanned(i, v, v', marks)
    ensures v'.free == [] ==> Exhausted(i, v, marks)
  {
    if v'.free == [] {
      forall k: nat | v.ms <= k < v.me ensures Obj(i, k) in marks { assert k !in v'.free; }
    }
  }

  /** The words of live objects are as they were. */
  ghost predicate Kept(mem: Mem, mem': Mem, live: set<Obj>) {
    forall o, a | o in live && Inside(o, a) :: WordAt(mem', a) == WordAt(mem, a)
  }

  /** The list holds exactly the unmarked objects from the start of the window up to k, last first. */
  ghost predicate ScanSoFar(i: nat, v: View, k: nat, free: seq<nat>, marks: set<Obj>) {
    && (forall j: nat :: j in free <==> v.ms <= j < k && Obj(i, j) !in marks)
    && (forall x, y | 0 <= x < y < |free| :: free[x] > free[y])
  }

  /** A scan stops after 256 finds or at the end of the window. */
  ghost predicate Scanned(i: nat, v: View, v': View, marks: set<Obj>) {
    && v.ms <= v'.ms <= v.me
    && ScanSoFar(i, v, v'.ms, v'.free, marks)
    && |v'.free| <= FREELIST_LEN && (|v'.free| == FREELIST_LEN || v'.ms == v.me)
  }

  ghost predicate Touched(i: nat, free: seq<nat>, a: int) {
    exists k :: k in free && a == At(i, k)
  }

  // ---------------------------------------------------------------- marking

  lemma ObjectCount(i: nat, n: nat)
    ensures At(i, n) - StartPtr(i) >= 0 && (At(i, n) - StartPtr(i)) / RegionSize(i) == n && (At(i, n) == StartPtr(i) <==> n == 0)
  {
    MulMono(0, n, RegionSize(i));
    DivUnique(n * RegionSize(i), RegionSize(i), n, 0);
    if n > 0 { MulMono(1, n, RegionSize(i)); }
  }

  /** The state of the marking loop: cur is the range being scanned, if any.  The stack never holds
      more ranges than objects have been marked. */
  ghost predicate Marking(g: Graph, vs: seq<View>, marks0: set<Obj>, next: nat, done: set<Obj>, marks: set<Obj>, stack: seq<Range>, cur: seq<Range>, used: nat) {
    && |stack| >= 1 && stack[|stack| - 1] == SENTINEL
    && (forall d | 0 <= d < |stack| - 1 :: Ptr(stack[d]) > 0)
    && |stack| - 1 <= |done|
    && Tracing(g, next, done, multiset(stack[..|stack| - 1]) + multiset(cur))
    && Geometry(g.rs, vs) && Cleared(vs, marks0)
    && (forall o | o in done :: o.i < NUM_REGIONS && vs[o.i].n > 0)
    && marks == marks0 + done && marks0 !! done
    && used == TotalSize(done)
  }

  lemma MarkFacts(g: Graph, vs: seq<View>, marks0: set<Obj>, next: nat, done: set<Obj>, marks: set<Obj>, stack: seq<Range>, cur: seq<Range>, used: nat)
    requires Marking(g, vs, marks0, next, done, marks, stack, cur, used)
    ensures |stack| >= 1 && g.Valid() && |g.rs| == NUM_REGIONS && next <= |g.roots|
  {
    hide Tracing, Geometry, Cleared;
    assert Tracing(g, next, done, multiset(stack[..|stack| - 1]) + multiset(cur)) ==> g.Valid() && next <= |g.roots| by { TracingFacts(g, next, done, multiset(stack[..|stack| - 1]) + multiset(cur)); }
  }

  lemma TracingFacts(g: Graph, next: nat, done: set<Obj>, m: multiset<Range>)
    ensures Tracing(g, next, done, m) ==> g.Valid() && next <= |g.roots|
  {
  }

  lemma MarkDepth(g: Graph, vs: seq<View>, marks0: set<Obj>, next: nat, done: set<Obj>, marks: set<Obj>, stack: seq<Range>, cur: seq<Range>, used: nat)
    requires Marking(g, vs, marks0, next, done, marks, stack, cur, used)
    ensures 0 <= |stack| - 1 <= |done|
  {
    hide Tracing, Geometry, Cleared;
  }

  lemma MarkStart(g: Graph, vs: seq<View>, marks: set<Obj>)
    requires Geometry(g.rs, vs) && Cleared(vs, marks)
    ensures Marking(g, vs, marks, 0, {}, marks, [SENTINEL], [], 0)
  {
    hide Tracing;
    TraceStart(g);
    assert [SENTINEL][..0] == [];
    var none: seq<Range> := [];
    assert multiset([SENTINEL][..0]) + multiset(none) == multiset{};
  }

  /** Nothing is pending on a stack that holds only its bottom. */
  lemma BottomOnly(stack: seq<Range>, x: Range)
    requires |stack| == 1
    ensures multiset(stack[..0]) + multiset([]) == multiset{}
    ensures multiset(stack[..0]) + multiset([x]) == multiset{} + multiset{x}
  {
    assert stack[..0] == [];
  }

  /** A null entry is the bottom of the stack. */
  lemma MarkRoot(g: Graph, vs: seq<View>, marks0: set<Obj>, next: nat, done: set<Obj>, marks: set<Obj>, stack: seq<Range>, used: nat)
    requires Marking(g, vs, marks0, next, done, marks, stack, [], used) && Ptr(stack[0]) == 0 && next < |g.roots|
    ensures Marking(g, vs, marks0, next + 1, done, marks, stack, [g.roots[next]], used)
  {
    hide Tracing, Geometry, Cleared, TotalSize, Graph.Valid;
    assert |stack| == 1;
    BottomOnly(stack, g.roots[next]);
    TraceRoot(g, next, done, multiset{});
  }

  lemma MarkEnd(g: Graph, vs: seq<View>, marks0: set<Obj>, next: nat, done: set<Obj>, marks: set<Obj>, stack: seq<Range>, used: nat)
    requires Marking(g, vs, marks0, next, done, marks, stack, [], used) && Ptr(stack[0]) == 0 && next >= |g.roots| && g.Valid()
    ensures forall o :: o in marks - marks0 <==> Reachable(g.rs, g.mem, g.roots, o)
    ensures used == TotalSize(marks - marks0) && marks0 <= marks && marks - marks0 == done
  {
    hide Tracing, Geometry, Cleared, Reachable, TotalSize;
    assert |stack| == 1;
    assert multiset(stack[..0]) + multiset([]) == multiset{};
    TracingFacts(g, next, done, multiset{});
    TraceEnd(g, done);
    assert marks - marks0 == done;
  }

  lemma MarkPop(g: Graph, vs: seq<View>, marks0: set<Obj>, next: nat, done: set<Obj>, marks: set<Obj>, stack: seq<Range>, used: nat)
    requires Marking(g, vs, marks0, next, done, marks, stack, [], used) && Ptr(stack[0]) != 0
    ensures |stack| > 1 && Marking(g, vs, marks0, next, done, marks, stack[1..], [stack[0]], used)
  {
    hide Tracing, Geometry, Cleared;
    var n := |stack| - 1;
    assert stack[..n] == [stack[0]] + stack[1..][..n - 1];
    assert multiset(stack[..n]) + multiset([]) == multiset(stack[1..][..n - 1]) + multiset([stack[0]]);
  }

  lemma MarkDrop(g: Graph, vs: seq<View>, marks0: set<Obj>, next: nat, done: set<Obj>, marks: set<Obj>, stack: seq<Range>, cur: Range, used: nat)
    requires Marking(g, vs, marks0, next, done, marks, stack, [cur], used) && cur.lo >= cur.hi
    ensures Marking(g, vs, marks0, next, done, marks, stack, [], used)
  {
    hide Tracing, Geometry, Cleared;
    var m := multiset(stack[..|stack| - 1]);
    assert m + multiset([cur]) == m + multiset{cur} && m + multiset([]) == m;
    TraceDrop(g, next, done, m, cur);
  }

  lemma MarkSkip(g: Graph, vs: seq<View>, marks0: set<Obj>, next: nat, done: set<Obj>, marks: set<Obj>, stack: seq<Range>, cur: Range, used: nat)
    requires Marking(g, vs, marks0, next, done, marks, stack, [cur], used) && cur.lo < cur.hi && g.Valid()
    requires g.To(cur.base, cur.lo).None? || g.To(cur.base, cur.lo).value in marks
    ensures Marking(g, vs, marks0, next, done, marks, stack, [cur.(lo := cur.lo + 1)], used)
  {
    hide Tracing, Target, At;
    var m := multiset(stack[..|stack| - 1]);
    var cur' := cur.(lo := cur.lo + 1);
    assert m + multiset([cur]) == m + multiset{cur} && m + multiset([cur']) == m + multiset{cur'};
    if g.To(cur.base, cur.lo).Some? { TargetFacts(g, vs, cur.base, cur.lo); }
    TraceSkip(g, next, done, m, cur);
  }

  /** A word refers only to regions that hold objects. */
  lemma TargetFacts(g: Graph, vs: seq<View>, base: nat, j: nat)
    requires Geometry(g.rs, vs) && g.Valid() && g.To(base, j).Some?
    ensures var o := g.To(base, j).value; o.i < NUM_REGIONS && o.k < TWO32 && vs[o.i].n > 0
  {
    hide At, StartPtr, MarkIndex, WordAt;
    var o := g.To(base, j).value;
    ObjectCount(o.i, vs[o.i].n);
  }

  /** The bit of whatever a word refers to lies in mark memory. */
  lemma TargetBit(g: Graph, vs: seq<View>, base: nat, j: nat, bits: AllBits)
    requires Geometry(g.rs, vs) && Provided(vs, bits) && g.Valid() && g.To(base, j).Some?
    ensures var o := g.To(base, j).value;
            o.i < |bits| == NUM_REGIONS && bits[o.i] != null && o.k / 64 < MarkSize(o.i) / 8
  {
    hide At, MarkIndex, Resolve, MarkSize, RegionSize, StartPtr;
    TargetFacts(g, vs, base, j);
    ToIs(g, base, j);
    var w := WordAt(g.mem, base + 8 * j);
    var q := Resolve(g.rs, w).value;
    var i, k, off := ResolveParts(g.rs, w, vs[q.i].n);
    InteriorIndex(i, k, off);
    BitsFit(i, k);
  }

  lemma ToIs(g: Graph, base: nat, j: nat)
    requires g.Valid()
    ensures |g.rs| == NUM_REGIONS && g.To(base, j) == Resolve(g.rs, WordAt(g.mem, base + 8 * j))
  {
  }

  lemma MarkPush(g: Graph, vs: seq<View>, marks0: set<Obj>, next: nat, done: set<Obj>, marks: set<Obj>, stack: seq<Range>, cur: Range, used: nat, o: Obj)
    requires Marking(g, vs, marks0, next, done, marks, stack, [cur], used) && cur.lo < cur.hi && g.Valid()
    requires g.To(cur.base, cur.lo) == Some(o) && o !in marks
    ensures Marking(g, vs, marks0, next, done + {o}, marks + {o}, [Range(At(o.i, o.k), 0, Words(o))] + stack,
                    [cur.(lo := cur.lo + 1)], used + RegionSize(o.i))
    ensures Rest(done + {o}) < Rest(done) && |done + {o}| > |done|
  {
    hide Tracing, At, TotalSize, AllObjs, Rest, RegionSize, Words, Graph.To, Geometry, Cleared, Graph.Valid;
    var x := Range(At(o.i, o.k), 0, Words(o));
    TargetFacts(g, vs, cur.base, cur.lo);
    CountDrops(done, o);
    TotalAdds(done, o);
    assert |done + {o}| == |done| + 1;
    AtPositive(o.i, o.k);
    PushTrace(g, next, done, stack, cur, o, x);
    var stack' := [x] + stack;
    assert forall d | 0 < d < |stack| :: stack'[d] == stack[d - 1];
  }

  lemma PushTrace(g: Graph, next: nat, done: set<Obj>, stack: seq<Range>, cur: Range, o: Obj, x: Range)
    requires |stack| >= 1 && Tracing(g, next, done, multiset(stack[..|stack| - 1]) + multiset([cur]))
    requires cur.lo < cur.hi && g.Valid() && g.To(cur.base, cur.lo) == Some(o) && x == Range(At(o.i, o.k), 0, Words(o))
    ensures var stack' := [x] + stack;
            Tracing(g, next, done + {o}, multiset(stack'[..|stack'| - 1]) + multiset([cur.(lo := cur.lo + 1)]))
  {
    hide Tracing, At, Words, Graph.To;
    var n := |stack| - 1;
    var m := multiset(stack[..n]);
    var cur' := cur.(lo := cur.lo + 1);
    assert m + multiset([cur]) == m + multiset{cur};
    TracePush(g, next, done, m + multiset{cur}, cur, o);
    assert m + multiset{cur} + multiset{x} == m + multiset{x} + multiset{cur};
    TraceSkip(g, next, done + {o}, m + multiset{x}, cur);
    var stack' := [x] + stack;
    assert stack'[..n + 1] == [x] + stack[..n];
    assert multiset(stack'[..n + 1]) + multiset([cur']) == m + multiset{x} + multiset{cur'};
  }

  /** The entry exchanged with the current range is one of those pushed, never the bottom. */
  lemma MarkSwap(g: Graph, vs: seq<View>, marks0: set<Obj>, next: nat, done: set<Obj>, marks: set<Obj>, stack: seq<Range>, cur: Range, used: nat, pushed: nat)
    requires Marking(g, vs, marks0, next, done, marks, stack, [cur], used) && cur.lo > 0 && pushed < |stack| - 1
    ensures Marking(g, vs, marks0, next, done, marks, stack[pushed := cur], [stack[pushed]], used)
  {
    hide Tracing, Geometry, Cleared;
    var n := |stack| - 1;
    SwapKeeps(stack[..n], cur, pushed);
    assert stack[pushed := cur][..n] == stack[..n][pushed := cur];
    assert multiset(stack[..n]) + multiset([cur]) == multiset(stack[..n]) + multiset{cur};
    assert multiset(stack[..n][pushed := cur]) + multiset([stack[pushed]]) == multiset(stack[..n][pushed := cur]) + multiset{stack[pushed]};
  }

  // ---------------------------------------------------------------- sweeping

  /** Reads the low 32 bits as a signed integer. */
  function Signed32(n: int): int {
    (n + 0x8000_0000) % TWO32 - 0x8000_0000
  }

  /** A range of addresses given back to the system. */
  datatype Given = Given(a: int, length: int)

  /** The last object, with its number as the sweep computes it. */
  lemma LastIndex(i: nat, n: nat, marks: set<Obj>)
    requires i < NUM_REGIONS && n > 0 && At(i, n) <= SlotEnd(i)
    ensures At(i, n) - RegionSize(i) == At(i, n - 1) && InSlot(i, At(i, n - 1)) && InSlot(i, StartPtr(i)) && MarkIndex(i, At(i, n - 1)) == n - 1
    ensures Sweeping(i, n, marks, (n - 1) / 2, n - 1, n, 0)
  {
    hide At, MarkIndex;
    AtNext(i, n - 1);
    BelowMeansEnds(i, n - 1, n);
    ObjInSlot(i, n - 1);
  }

  /** The new object count: everything cut off is unmarked, and the cut is at the half or just above
      a marked object. */
  ghost predicate Trimmed(i: nat, n: nat, n': nat, marks: set<Obj>) {
    && n > 0 && (n - 1) / 2 <= n' <= n
    && (forall k: nat | n' <= k < n :: Obj(i, k) !in marks)
    && (n' == (n - 1) / 2 || (n' > 0 && Obj(i, n' - 1) in marks))
  }

  /** The range lies within a run of unmarked objects below the old free pointer, is whole pages long,
      and starts whole pages after the start of the region. */
  ghost predicate GivenOk(i: nat, n: nat, marks: set<Obj>, x: Given) {
    exists lo: nat, hi: nat :: GivenIn(i, n, marks, x, lo, hi)
  }

  ghost predicate GivenIn(i: nat, n: nat, marks: set<Obj>, x: Given, lo: nat, hi: nat) {
    && lo < hi <= n && At(i, lo) <= x.a && x.a + x.length <= At(i, hi)
    && x.length > 0 && x.length % PAGE_SIZE == 0
    && (x.a - StartPtr(i)) % PAGE_SIZE == 0
    && forall k: nat | lo <= k < hi :: Obj(i, k) !in marks
  }

  /** The sweep has come down to object k; the objects above it and below top are unmarked, and
      freesize is their size in 32 bits. */
  ghost predicate Sweeping(i: nat, n: nat, marks: set<Obj>, target: int, k: int, top: int, freesize: int) {
    && i < NUM_REGIONS && n > 0 && At(i, n) <= SlotEnd(i) && target == (n - 1) / 2
    && target - 1 <= k < top <= n
    && (forall j: nat | k < j < top :: Obj(i, j) !in marks)
    && freesize == Signed32(RegionSize(i) * (top - 1 - k))
  }

  /** All objects of a slot together take at most 2^32 bytes. */
  lemma CountFits(i: nat, n: nat)
    requires At(i, n) <= SlotEnd(i)
    ensures RegionSize(i) * n <= TWO32
  {
    Assoc(n, RegionSize(i), 1);
  }

  /** The whole pages of the freesize bytes after object k, with offsets in 32 bits. */
  function GivenBack(i: nat, k: int, freesize: int): Given {
    var offset := RegionSize(i) * (k + 1) % TWO32;
    var diff := if offset % PAGE_SIZE == 0 then 0 else PAGE_SIZE - offset % PAGE_SIZE;
    var length := freesize - diff;
    Given(StartPtr(i) + (offset + diff) % TWO32, length - length % PAGE_SIZE)
  }

  lemma GivenInRun(i: nat, n: nat, marks: set<Obj>, target: int, k: int, top: int, freesize: int)
    requires Sweeping(i, n, marks, target, k, top, freesize) && freesize >= 3 * PAGE_SIZE
    ensures GivenOk(i, n, marks, GivenBack(i, k, freesize))
  {
    hide Sweeping, At, RegionSize, StartPtr, GivenOk, GivenIn, Signed32, SlotEnd;
    SweepingFacts(i, n, marks, target, k, top, freesize);
    var a, b := RegionSize(i) * (k + 1), RegionSize(i) * top;
    RunBytes(i, n, k, top);
    var length := GivenPages(StartPtr(i), a, b, freesize);
    var diff := if a % TWO32 % PAGE_SIZE == 0 then 0 else PAGE_SIZE - a % TWO32 % PAGE_SIZE;
    GivenMake(i, n, marks, Given(StartPtr(i) + (a % TWO32 + diff) % TWO32, length), k + 1, top);
  }

  lemma SweepingFacts(i: nat, n: nat, marks: set<Obj>, target: int, k: int, top: int, freesize: int)
    requires Sweeping(i, n, marks, target, k, top, freesize)
    ensures -1 <= k < top <= n && At(i, n) <= SlotEnd(i) && freesize == Signed32(RegionSize(i) * (top - 1 - k))
    ensures forall j: nat | k < j < top :: Obj(i, j) !in marks
  {
    hide At, RegionSize, Signed32;
  }

  lemma GivenMake(i: nat, n: nat, marks: set<Obj>, x: Given, lo: nat, hi: nat)
    requires lo < hi <= n && At(i, lo) <= x.a && x.a + x.length <= At(i, hi) && x.length > 0 && x.length % PAGE_SIZE == 0
    requires (x.a - StartPtr(i)) % PAGE_SIZE == 0
    requires forall k: nat | lo <= k < hi :: Obj(i, k) !in marks
    ensures GivenOk(i, n, marks, x)
  {
    assert GivenIn(i, n, marks, x, lo, hi);
  }

  /** The bytes of a run of objects. */
  lemma RunBytes(i: nat, n: nat, k: int, top: int)
    requires -1 <= k < top <= n && At(i, n) <= SlotEnd(i)
    ensures var s := RegionSize(i);
            && 0 <= s * (k + 1) <= s * top <= TWO32 && s * (top - 1 - k) == s * top - s * (k + 1)
            && At(i, k + 1) == StartPtr(i) + s * (k + 1) && At(i, top) == StartPtr(i) + s * top
            && (s * top - s * (k + 1) > 0 ==> top > k + 1)
  {
    hide RegionSize, StartPtr;
    var s := RegionSize(i);
    CountFits(i, n);
    MulMono(0, k + 1, s);
    MulMono(k + 1, top, s);
    MulMono(top, n, s);
    Distribute(top, -(k + 1), s);
  }

  /** The whole pages of the bytes from a to b. */
  lemma GivenPages(start: int, a: int, b: int, freesize: int) returns (pages: int)
    requires 0 <= a <= b <= TWO32 && freesize == Signed32(b - a) >= 3 * PAGE_SIZE
    ensures var diff := if a % TWO32 % PAGE_SIZE == 0 then 0 else PAGE_SIZE - a % TWO32 % PAGE_SIZE;
            var length := freesize - diff;
            && pages == length - length % PAGE_SIZE && pages > 0 && pages % PAGE_SIZE == 0
            && start + a <= start + (a % TWO32 + diff) % TWO32
            && start + (a % TWO32 + diff) % TWO32 + pages <= start + b
            && (a % TWO32 + diff) % TWO32 % PAGE_SIZE == 0
    ensures b - a > 0
  {
    var diff := if a % TWO32 % PAGE_SIZE == 0 then 0 else PAGE_SIZE - a % TWO32 % PAGE_SIZE;
    var length := freesize - diff;
    pages := length - length % PAGE_SIZE;
    assert a % TWO32 == a;
  }

  /** The bit of an object that the sweep looks at lies in the region's mark memory. */
  lemma SweepBit(i: nat, n: nat, marks: set<Obj>, target: int, k: int, top: int, freesize: int)
    requires Sweeping(i, n, marks, target, k, top, freesize) && k >= target
    ensures i < NUM_REGIONS && k >= 0 && k / 64 < MarkSize(i) / 8
  {
    hide At, MarkSize;
    BelowMeansEnds(i, k, n);
    BitsFit(i, k);
  }

  /** A range given back starts at a page if and only if the region does. */
  lemma GivenAligned(i: nat, n: nat, marks: set<Obj>, x: Given)
    requires GivenOk(i, n, marks, x)
    ensures x.a % PAGE_SIZE == 0 <==> StartPtr(i) % PAGE_SIZE == 0
  {
    hide StartPtr, At;
    var lo: nat, hi: nat :| GivenIn(i, n, marks, x, lo, hi);
    SamePageOffset(StartPtr(i), x.a);
  }

  lemma SamePageOffset(a: int, b: int)
    requires (b - a) % PAGE_SIZE == 0
    ensures a % PAGE_SIZE == 0 <==> b % PAGE_SIZE == 0
  {
  }

  /** Regions of big and huge objects start at a page; region 2, of 48-byte objects, does not. */
  lemma PageStarts(i: nat)
    ensures i > BIG_OFFSET ==> StartPtr(i) % PAGE_SIZE == 0
    ensures StartPtr(2) % PAGE_SIZE != 0
  {
    if i > BIG_OFFSET { BigAligned(i); }
    assert RegionSize(2) == 48 && SlotStart(2) == 0x4_0000_0000;
  }

  lemma BigAligned(i: nat)
    requires i > BIG_OFFSET
    ensures StartPtr(i) % PAGE_SIZE == 0
  {
    hide StartPtr;
    StartAligned(i);
    var s := RegionSize(i);
    var u := s / PAGE_SIZE;
    assert s == u * PAGE_SIZE by { BigSizes(i); DivMod(s, PAGE_SIZE); }
    DivMod(StartPtr(i), s);
    var q := StartPtr(i) / s;
    Assoc(q, u, PAGE_SIZE);
    MultipleOfPage(q * u);
  }

  lemma BigSizes(i: nat)
    requires i > BIG_OFFSET
    ensures RegionSize(i) % PAGE_SIZE == 0
  {
  }

  lemma MultipleOfPage(x: int)
    ensures x * PAGE_SIZE % PAGE_SIZE == 0
  {
  }

  lemma TrimHere(i: nat, n: nat, marks: set<Obj>, target: int, k: int, freesize: int)
    requires Sweeping(i, n, marks, target, k, n, freesize) && (k < target || Obj(i, k) in marks)
    ensures k + 1 >= 0 && Trimmed(i, n, k + 1, marks)
  {
    hide At, RegionSize, Signed32;
  }

  lemma RunStarts(i: nat, n: nat, marks: set<Obj>, target: int, k: int, top: int, freesize: int)
    requires Sweeping(i, n, marks, target, k, top, freesize) && k >= target
    ensures k - 1 >= target - 1 && Sweeping(i, n, marks, target, k - 1, k, 0)
  {
    hide At, RegionSize;
  }

  lemma RunGrows(i: nat, n: nat, marks: set<Obj>, target: int, k: int, top: int, freesize: int)
    requires Sweeping(i, n, marks, target, k, top, freesize) && k >= target && Obj(i, k) !in marks
    ensures Sweeping(i, n, marks, target, k - 1, top, Signed32(freesize + RegionSize(i)))
  {
    hide At, RegionSize, Signed32;
    var s := RegionSize(i);
    assert s * (top - 1 - (k - 1)) == s * (top - 1 - k) + s by { Distribute(top - 1 - k, 1, s); }
    SignedAdd(s * (top - 1 - k), s);
  }

  lemma SignedAdd(x: int, s: int)
    ensures Signed32(Signed32(x) + s) == Signed32(x + s)
  {
  }

  /** What sweeping needs: pointers in order, and live objects below the free pointers. */
  ghost predicate Sweepable(rs: seq<Region>, vs: seq<View>, live: set<Obj>) {
    && |rs| == |vs| == NUM_REGIONS
    && (forall i: nat | i < NUM_REGIONS :: Pointers(i, rs[i], vs[i]) && (vs[i].n == 0 ==> vs[i].free == [] && rs[i].freelist == 0))
    && (forall o | o in live :: o.i < NUM_REGIONS && o.k < vs[o.i].n)
  }

  /** The objects of the region take up the whole slot. */
  predicate SlotFull(i: nat, v: View) {
    v.n > 0 && RegionSize(i) * v.n == TWO32
  }

  /** No region is full with its last object marked: then the 32-bit offset of the new free pointer
      does not wrap around. */
  ghost predicate NoneFull(vs: seq<View>, marks: set<Obj>)
    requires |vs| == NUM_REGIONS
  {
    forall i: nat | i < NUM_REGIONS && SlotFull(i, vs[i]) :: Obj(i, vs[i].n - 1) !in marks
  }

  ghost predicate SweptView(i: nat, v: View, v': View, marks: set<Obj>) {
    if v.n == 0 then v' == v else Trimmed(i, v.n, v'.n, marks) && v' == View(v'.n, 0, v'.n, [])
  }

  ghost predicate SweptRegion(i: nat, v: View, r: Region, r': Region, v': View) {
    if v.n == 0 then r' == r
    else r'.freeptr == StartPtr(i) + RegionSize(i) * v'.n % TWO32 && r'.markstart == StartPtr(i) && r'.markend == r'.freeptr && r'.freelist == 0
  }

  lemma MarksFewer(vs: seq<View>, marks: set<Obj>, marks': set<Obj>)
    requires MarksBelow(vs, marks) && marks' <= marks
    ensures MarksBelow(vs, marks')
  {
  }

  /** Regions below i are swept, the others untouched. */
  ghost predicate SweptTo(i: nat, rs: seq<Region>, vs: seq<View>, rs': seq<Region>, vs': seq<View>, marks: set<Obj>) {
    && |rs| == |vs| == |rs'| == |vs'| == NUM_REGIONS && i <= NUM_REGIONS
    && (forall j: nat | i <= j < NUM_REGIONS :: rs'[j] == rs[j] && vs'[j] == vs[j])
    && (forall j: nat | j < i :: SweptView(j, vs[j], vs'[j], marks) && SweptRegion(j, vs[j], rs[j], rs'[j], vs'[j]))
  }

  lemma SweepStarts(rs: seq<Region>, vs: seq<View>, marks: set<Obj>, live: set<Obj>)
    requires Sweepable(rs, vs, live)
    ensures |rs| == |vs| == NUM_REGIONS && SweptTo(0, rs, vs, rs, vs, marks)
  {
  }

  lemma SweepAt(i: nat, rs: seq<Region>, vs: seq<View>, rs': seq<Region>, vs': seq<View>, marks: set<Obj>, live: set<Obj>)
    requires SweptTo(i, rs, vs, rs', vs', marks) && Sweepable(rs, vs, live) && i < NUM_REGIONS
    ensures |rs'| == |vs'| == NUM_REGIONS && rs'[i].freeptr == At(i, vs'[i].n) <= SlotEnd(i)
    ensures rs'[i].freeptr == StartPtr(i) <==> vs'[i].n == 0
  {
    hide At, SweptView, SweptRegion, StartPtr, RegionSize;
    PointersMean(i, rs[i], vs[i]);
    ObjectCount(i, vs[i].n);
  }

  lemma SweptSame(i: nat, rs: seq<Region>, vs: seq<View>, rs': seq<Region>, vs': seq<View>, marks: set<Obj>)
    requires SweptTo(i, rs, vs, rs', vs', marks) && i < NUM_REGIONS
    ensures |vs| == |vs'| == NUM_REGIONS && vs'[i] == vs[i]
  {
  }

  /** A swept region with a window held objects before. */
  lemma SweptWindowed(rs: seq<Region>, vs: seq<View>, rs': seq<Region>, vs': seq<View>, marks: set<Obj>, bits: AllBits)
    requires SweptTo(NUM_REGIONS, rs, vs, rs', vs', marks) && Provided(vs, bits)
    requires forall i: nat | i < NUM_REGIONS && vs[i].n == 0 :: vs[i].me == 0
    ensures Windowed(vs', bits)
  {
    hide Trimmed, SweptRegion;
    forall i: nat | i < NUM_REGIONS && vs'[i].me > 0 ensures bits[i] != null {
      assert SweptView(i, vs[i], vs'[i], marks);
    }
  }

  lemma WrappedAt(i: nat, rs: seq<Region>, vs: seq<View>, rs': seq<Region>, vs': seq<View>, marks: set<Obj>)
    requires SweptTo(NUM_REGIONS, rs, vs, rs', vs', marks) && i < NUM_REGIONS && |vs| == NUM_REGIONS && SlotFull(i, vs[i]) && Obj(i, vs[i].n - 1) in marks
    ensures |rs'| == NUM_REGIONS && rs'[i].freeptr == StartPtr(i) && rs'[i].freelist == 0
  {
    hide At, Trimmed, RegionSize, StartPtr;
    assert SweptView(i, vs[i], vs'[i], marks) && SweptRegion(i, vs[i], rs[i], rs'[i], vs'[i]);
    SweepWraps(i, vs[i], marks, vs'[i].n);
  }

  lemma SweepStep(i: nat, rs: seq<Region>, vs: seq<View>, rs0: seq<Region>, vs0: seq<View>, rs': seq<Region>, vs': seq<View>, marks: set<Obj>)
    requires SweptTo(i, rs, vs, rs0, vs0, marks) && i < NUM_REGIONS && |rs'| == |vs'| == NUM_REGIONS
    requires forall j | 0 <= j < NUM_REGIONS && j != i :: rs'[j] == rs0[j] && vs'[j] == vs0[j]
    requires if vs0[i].n == 0 then rs'[i] == rs0[i] && vs'[i] == vs0[i]
             else Trimmed(i, vs0[i].n, vs'[i].n, marks) && vs'[i] == View(vs'[i].n, 0, vs'[i].n, [])
                  && rs'[i].freeptr == StartPtr(i) + RegionSize(i) * vs'[i].n % TWO32 && rs'[i].markstart == StartPtr(i)
                  && rs'[i].markend == rs'[i].freeptr && rs'[i].freelist == 0
    ensures SweptTo(i + 1, rs, vs, rs', vs', marks)
  {
    hide Trimmed, RegionSize, StartPtr;
  }

  lemma PointersMean(i: nat, r: Region, v: View)
    requires Pointers(i, r, v)
    ensures r.freeptr == At(i, v.n) <= SlotEnd(i)
  {
    hide At;
  }

  lemma ValidParts(rs: seq<Region>, vs: seq<View>, mem: Mem, marks: set<Obj>, live: set<Obj>)
    requires HeapOk(rs, vs, mem, marks, live)
    ensures Sweepable(rs, vs, live) && Geometry(rs, vs)
  {
    hide At, Chain;
    forall i: nat | i < NUM_REGIONS
      ensures Pointers(i, rs[i], vs[i]) && (vs[i].n == 0 ==> vs[i].free == [] && rs[i].freelist == 0)
    {
      assert RegionOk(i, rs[i], vs[i], mem, marks, live);
      NullList(i, rs[i].freelist, vs[i].free, mem);
      if vs[i].free != [] { assert vs[i].free[0] < vs[i].n; }
    }
    forall o | o in live
      ensures o.i < NUM_REGIONS && o.k < vs[o.i].n
    {
      assert RegionOk(o.i, rs[o.i], vs[o.i], mem, marks, live);
      assert Obj(o.i, o.k) == o;
    }
  }

  /** Marking from cleared bits leaves the reachable objects marked among those of nonempty regions. */
  lemma CollectMarks(rs: seq<Region>, vs: seq<View>, mem: Mem, roots: seq<Range>, marks0: set<Obj>, marks: set<Obj>, live: set<Obj>)
    requires Sweepable(rs, vs, live) && Geometry(rs, vs) && Cleared(vs, marks0) && marks0 <= marks
    requires MarksBelow(vs, marks0)
    requires forall o :: o in marks - marks0 <==> Reachable(rs, mem, roots, o)
    ensures MarksBelow(vs, marks)
    ensures forall o | o in live || (o.i < NUM_REGIONS && o.k < vs[o.i].n) :: o in marks <==> Reachable(rs, mem, roots, o)
  {
    hide At, Reach;
    forall o | o in marks
      ensures o.i < NUM_REGIONS && (o.k < vs[o.i].n || o.k < 32768)
    {
      if o !in marks0 { ReachedBelow(rs, vs, mem, roots, o); }
    }
  }

  /** What a collection comes to. */
  lemma CollectEnds(rs: seq<Region>, vs: seq<View>, rs': seq<Region>, vs': seq<View>, mem: Mem, roots: seq<Range>, marks: set<Obj>, live: set<Obj>)
    requires Sweepable(rs, vs, live) && SweptTo(NUM_REGIONS, rs, vs, rs', vs', marks)
    requires forall o | o in live || (o.i < NUM_REGIONS && o.k < vs[o.i].n) :: o in marks <==> Reachable(rs, mem, roots, o)
    ensures |rs| == |vs| == |rs'| == |vs'| == NUM_REGIONS
    ensures forall o :: o in live * marks <==> o in live && Reachable(rs, mem, roots, o)
    ensures NoneFull(vs, marks) <==> forall i: nat | i < NUM_REGIONS && SlotFull(i, vs[i]) :: !Reachable(rs, mem, roots, Obj(i, vs[i].n - 1))
    ensures forall i: nat | i < NUM_REGIONS && SlotFull(i, vs[i]) && Reachable(rs, mem, roots, Obj(i, vs[i].n - 1)) :: rs'[i].freeptr == StartPtr(i) && rs'[i].freelist == 0
  {
    hide Reachable, Sweepable, SweptTo, StartPtr, RegionSize;
    SweptLengths(rs, vs, rs', vs', marks);
    assert NoneFull(vs, marks) <==> forall i: nat | i < NUM_REGIONS && SlotFull(i, vs[i]) :: Obj(i, vs[i].n - 1) !in marks;
    forall i: nat | i < NUM_REGIONS && SlotFull(i, vs[i])
      ensures Obj(i, vs[i].n - 1) in marks <==> Reachable(rs, mem, roots, Obj(i, vs[i].n - 1))
      ensures Obj(i, vs[i].n - 1) in marks ==> rs'[i].freeptr == StartPtr(i) && rs'[i].freelist == 0
    {
      if Obj(i, vs[i].n - 1) in marks { WrappedAt(i, rs, vs, rs', vs', marks); }
    }
  }

  lemma SweptLengths(rs: seq<Region>, vs: seq<View>, rs': seq<Region>, vs': seq<View>, marks: set<Obj>)
    requires SweptTo(NUM_REGIONS, rs, vs, rs', vs', marks)
    ensures |rs| == |vs| == |rs'| == |vs'| == NUM_REGIONS
  {
  }

  lemma ReachedBelow(rs: seq<Region>, vs: seq<View>, mem: Mem, roots: seq<Range>, o: Obj)
    requires Geometry(rs, vs) && Reachable(rs, mem, roots, o)
    ensures o.i < NUM_REGIONS && (o.k < vs[o.i].n || o.k < 32768)
  {
    hide At, Resolve;
    var n: nat :| Reach(rs, mem, roots, n, o);
    var base, j := ReachedFrom(rs, mem, roots, n, o);
    ResolveBelow(rs, WordAt(mem, base + 8 * j), vs[o.i].n);
  }

  lemma ReachedFrom(rs: seq<Region>, mem: Mem, roots: seq<Range>, n: nat, o: Obj) returns (base: nat, j: nat)
    requires |rs| == NUM_REGIONS && Reach(rs, mem, roots, n, o)
    ensures Resolve(rs, WordAt(mem, base + 8 * j)) == Some(o) && o.i < NUM_REGIONS
  {
    hide At, RegionSize, Resolve, WordAt;
    if n == 0 {
      var a: int :| RootWord(roots, a) && Refers(rs, mem, a, o);
      base, j := a, 0;
    } else {
      var p: Obj, a: int :| Reach(rs, mem, roots, n - 1, p) && WordIn(p, a) && Refers(rs, mem, a, o);
      base, j := a, 0;
    }
  }

  lemma SweepEnds(rs: seq<Region>, vs: seq<View>, rs': seq<Region>, vs': seq<View>, mem: Mem, marks: set<Obj>, live: set<Obj>)
    requires Sweepable(rs, vs, live) && MarksBelow(vs, marks) && SweptTo(NUM_REGIONS, rs, vs, rs', vs', marks)
    ensures |rs'| == |vs'| == NUM_REGIONS && forall i: nat | i < NUM_REGIONS :: SweptView(i, vs[i], vs'[i], marks)
    ensures HeapOk(rs', vs', mem, marks, live * marks) && MarksBelow(vs', marks) <==> NoneFull(vs, marks)
    ensures forall i: nat | i < NUM_REGIONS && vs[i].n == 0 :: vs[i].me == 0
  {
    hide At, RegionSize, StartPtr, RegionOk, SlotFull;
    if NoneFull(vs, marks) {
      forall j: nat | j < NUM_REGIONS
        ensures RegionOk(j, rs'[j], vs'[j], mem, marks, live * marks)
      {
        SweptOk(j, rs[j], vs[j], rs'[j], vs'[j], mem, marks, live);
      }
      forall o | o in marks
        ensures o.i < NUM_REGIONS && (o.k < vs'[o.i].n || o.k < 32768)
      {
        assert SweptView(o.i, vs[o.i], vs'[o.i], marks);
        assert Obj(o.i, o.k) == o;
      }
    } else {
      var i: nat :| i < NUM_REGIONS && SlotFull(i, vs[i]) && vs[i].n > 0 && Obj(i, vs[i].n - 1) in marks;
      assert SweptView(i, vs[i], vs'[i], marks) && SweptRegion(i, vs[i], rs[i], rs'[i], vs'[i]);
      SweptWrong(i, vs[i], rs[i], rs'[i], vs'[i], mem, marks, live * marks);
    }
  }

  /** A region that filled its slot and whose last object is marked is out of order after the sweep. */
  lemma SweptWrong(i: nat, v: View, r: Region, r': Region, v': View, mem: Mem, marks: set<Obj>, live: set<Obj>)
    requires i < NUM_REGIONS && SlotFull(i, v) && Obj(i, v.n - 1) in marks
    requires SweptView(i, v, v', marks) && SweptRegion(i, v, r, r', v')
    ensures r'.freeptr == StartPtr(i) && !RegionOk(i, r', v', mem, marks, live)
  {
    hide RegionSize, StartPtr, At, Chain;
    SweepWraps(i, v, marks, v'.n);
    ObjectCount(i, v'.n);
  }

  /** A swept region is in order when the offset of its free pointer did not wrap around. */
  lemma SweptOk(i: nat, r: Region, v: View, r': Region, v': View, mem: Mem, marks: set<Obj>, live: set<Obj>)
    requires Pointers(i, r, v) && (v.n == 0 ==> v.free == [] && r.freelist == 0)
    requires SweptView(i, v, v', marks) && SweptRegion(i, v, r, r', v')
    requires SlotFull(i, v) ==> Obj(i, v.n - 1) !in marks
    requires forall o: Obj | o in live && o.i == i :: o.k < v.n
    ensures RegionOk(i, r', v', mem, marks, live * marks)
  {
    hide RegionSize, StartPtr, At, SlotEnd;
    if v.n > 0 {
      TrimAddress(i, v.n, v'.n, marks);
    }
    forall k: nat | Obj(i, k) in live * marks
      ensures k < v'.n
    {
      assert Obj(i, k) in live;
    }
  }

  lemma TrimAddress(i: nat, n: nat, n': nat, marks: set<Obj>)
    requires Trimmed(i, n, n', marks) && At(i, n) <= SlotEnd(i)
    requires RegionSize(i) * n == TWO32 ==> Obj(i, n - 1) !in marks
    ensures StartPtr(i) + RegionSize(i) * n' % TWO32 == At(i, n') <= At(i, n) && At(i, 0) == StartPtr(i)
  {
    hide RegionSize, StartPtr;
    var s := RegionSize(i);
    CountFits(i, n);
    MulMono(n', n, s);
    MulMono(0, n', s);
    if s * n' == TWO32 && n' < n {
      MulMono(n' + 1, n, s);
      Distribute(n', 1, s);
      assert false;
    }
  }

  /** When a region does fill its slot and its last object is marked, the new free pointer is the
      start of the region: below every marked object. */
  lemma SweepWraps(i: nat, v: View, marks: set<Obj>, n': nat)
    requires i < NUM_REGIONS && SlotFull(i, v) && Obj(i, v.n - 1) in marks && Trimmed(i, v.n, n', marks)
    ensures n' == v.n && StartPtr(i) + RegionSize(i) * n' % TWO32 == StartPtr(i)
    ensures At(i, v.n - 1) >= StartPtr(i)
  {
    AtPositive(i, v.n - 1);
    MulMono(0, v.n - 1, RegionSize(i));
  }

  // ---------------------------------------------------------------- a full slot

  /** Sixteen objects of 256 MB fill the slot of region 767. */
  lemma LastRegion(k: nat)
    ensures RegionSize(767) == 0x1000_0000 && StartPtr(767) == SlotStart(767) && EndPtr(767) == SlotEnd(767)
    ensures At(767, k) == SlotStart(767) + 0x1000_0000 * k
  {
    AtIs(767, k);
  }

  /** In that region words that point to the start of an object below the free pointer refer to it. */
  lemma PointsTo(rs: seq<Region>, k: nat)
    requires |rs| == NUM_REGIONS && At(767, k) + RegionSize(767) <= rs[767].freeptr <= SlotEnd(767)
    ensures IsWord(At(767, k)) && Resolve(rs, At(767, k)) == Some(Obj(767, k))
  {
    hide At, RegionSize, Resolve;
    LastRegion(k);
    ResolveInterior(rs, 767, k, 0);
    BasesExact(767, k);
  }

  lemma RootTarget(rs: seq<Region>, mem: Mem, x: Range, j: nat, o: Obj)
    requires |rs| == NUM_REGIONS && x.lo <= j < x.hi && Resolve(rs, WordAt(mem, x.base + 8 * j)) == Some(o)
    ensures Reachable(rs, mem, [x], o)
  {
    hide Resolve, WordAt;
    var a := x.base + 8 * j;
    RootAddress(x, j);
    assert Refers(rs, mem, a, o);
    assert Reach(rs, mem, [x], 0, o);
  }

  lemma RootAddress(x: Range, j: nat)
    requires x.lo <= j < x.hi
    ensures RootWord([x], x.base + 8 * j)
  {
    assert x in [x];
  }

  /** A program that fills that slot, keeps its first and last objects reachable, collects and
      allocates again is handed the first object although it was live before the allocation. */
  method LiveObjectReused() returns (h: Heap, p: int, ghost before: set<Obj>)
    ensures p == At(767, 0) && Obj(767, 0) in before && before <= h.live
  {
    hide At, RegionSize, StartPtr, EndPtr, SlotEnd, SlotStart, Resolve, WordAt, BitsAre, Reachable, HeapOk, MarksBelow, Windowed;
    h := new Heap();
    LastRegion(0);
    h.Facts();
    var i := 0;
    ghost var o;
    while i < 16
      invariant 0 <= i <= 16 && fresh(h) && h.Valid() && h.enabled && Arrays(h.bits) == {} && |h.regions| == |h.view| == NUM_REGIONS
      invariant h.view[767].n == i && forall k: nat | k < i :: Obj(767, k) in h.live
    {
      LastRegion(i);
      LastRegion(i + 1);
      h.Facts();
      p, o := h.Fresh(767, true);
      i := i + 1;
      h.Facts();
    }
    LastRegion(1);
    LastRegion(15);
    LastRegion(16);
    h.Facts();
    PointsTo(h.regions, 0);
    PointsTo(h.regions, 15);
    var first := Obj(767, 0);
    h.Write(first, At(767, 0), At(767, 15));
    h.Write(first, At(767, 0) + 8, At(767, 0));
    var roots := [Range(At(767, 0), 0, 2)];
    WordsAre(h.mem, At(767, 0), At(767, 15), At(767, 0));
    RootTarget(h.regions, h.mem, roots[0], 0, Obj(767, 15));
    RootTarget(h.regions, h.mem, roots[0], 1, first);
    assert SlotFull(767, h.view[767]);
    h.Collect(roots);
    before := h.live;
    p, o := h.Fresh(767, true);
  }

  lemma WordsAre(mem: Mem, a: int, w0: Word, w1: Word)
    requires a in mem && mem[a] == w0 && a + 8 in mem && mem[a + 8] == w1
    ensures WordAt(mem, a) == w0 && WordAt(mem, a + 8) == w1
  {
  }
}
