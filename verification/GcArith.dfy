/** The arithmetic of the collector: size classes, the fixed region table, division by reciprocal
    multiplication, the pointer test and hidden pointers.  Addresses and words are 64-bit unsigned. */
module GcArith {
  import opened Options

  const TWO32: nat := 0x1_0000_0000
  const TWO64: nat := 0x1_0000_0000_0000_0000

  const REGION_SIZE: nat := TWO32
  const NUM_REGIONS: nat := 768
  const MEMORY: nat := 0x2_0000_0000
  const UNIT: nat := 16
  const BIG_UNIT: nat := 4096
  const HUGE_UNIT: nat := 1048576
  const BIG_OFFSET: nat := 256
  const HUGE_OFFSET: nat := 512

  predicate IsWord(w: int) { 0 <= w < TWO64 }

  // ---------------------------------------------------------------- size classes

  function IndexUnit(i: nat): nat {
    if i > BIG_OFFSET then (if i > HUGE_OFFSET then HUGE_UNIT else BIG_UNIT) else UNIT
  }

  function SizeUnit(size: nat): nat {
    if size > BIG_UNIT then (if size > HUGE_UNIT then HUGE_UNIT else BIG_UNIT) else UNIT
  }

  function UnitOffset(unit: nat): nat {
    if unit == UNIT then 0 else if unit == BIG_UNIT then BIG_OFFSET else HUGE_OFFSET
  }

  /** The object size of region i. */
  function RegionSize(i: nat): (s: nat)
    ensures s >= 16 && (i < NUM_REGIONS ==> s <= 0x1000_0000)
  {
    var unit := IndexUnit(i);
    (i - UnitOffset(unit)) * unit + unit
  }

  /** The region malloc allocates from; none is the fatal error for a size that is too big. */
  function MallocIndex(size: nat): (r: Option<nat>)
    requires IsWord(size)
    ensures r.Some? ==> r.value < NUM_REGIONS
  {
    var size1 := if size == 0 then TWO64 - 1 else size - 1;
    if size1 < BIG_UNIT then Some(size1 / UNIT)
    else if size1 < HUGE_UNIT then Some(BIG_OFFSET + size1 / BIG_UNIT)
    else
      var idx := HUGE_OFFSET + size1 / HUGE_UNIT;
      if idx >= NUM_REGIONS then None else Some(idx)
  }

  /** The other size-to-index computation, used by realloc; it truncates to 32 bits. */
  function SizeIndex(size: nat): nat
    requires IsWord(size)
  {
    var unit := SizeUnit(size);
    (if size == 0 then TWO64 - 1 else size - 1) % TWO32 / unit + UnitOffset(unit)
  }

  /** A request is served exactly when it is between 1 byte and 256 MB, by a region whose objects are
      big enough and waste less than one unit. */
  lemma MallocFits(size: nat)
    requires IsWord(size)
    ensures MallocIndex(size).Some? <==> 1 <= size <= 0x1000_0000
    ensures MallocIndex(size).Some? ==>
              var i := MallocIndex(size).value;
              size <= RegionSize(i) < size + SizeUnit(size) && IndexUnit(i) == SizeUnit(size)
  {
    if size >= 1 {
      var size1 := size - 1;
      assert size1 / UNIT * UNIT <= size1 < size1 / UNIT * UNIT + UNIT;
      assert size1 / BIG_UNIT * BIG_UNIT <= size1 < size1 / BIG_UNIT * BIG_UNIT + BIG_UNIT;
      assert size1 / HUGE_UNIT * HUGE_UNIT <= size1 < size1 / HUGE_UNIT * HUGE_UNIT + HUGE_UNIT;
    }
  }

  /** Both computations agree on every size malloc serves, and on no other size. */
  lemma IndexesAgree(size: nat)
    requires IsWord(size)
    ensures MallocIndex(size) == Some(SizeIndex(size)) <==> 1 <= size <= 0x1000_0000
  {
    MallocFits(size);
  }

  /** The truncating computation names a region whose objects are big enough, when it names one at
      all, exactly for sizes up to 2^32. */
  lemma SizeIndexFits(size: nat)
    requires IsWord(size) && SizeIndex(size) < NUM_REGIONS
    ensures size <= RegionSize(SizeIndex(size)) <==> size <= TWO32
  {
    if 1 <= size <= TWO32 {
      IndexesAgree(size);
      MallocFits(size);
    }
  }

  /** Regions 256 and 512 are never allocated from. */
  lemma UnusedRegions(size: nat)
    requires IsWord(size)
    ensures MallocIndex(size) != Some(256) && MallocIndex(size) != Some(512)
  {
  }

  // ---------------------------------------------------------------- the region table

  /** The address slot reserved for region i. */
  function SlotStart(i: nat): (a: nat)
    ensures a == (i + 2) * TWO32
  {
    MEMORY + i * REGION_SIZE
  }

  /** The first multiple of the object size in the slot. */
  function StartPtr(i: nat): (a: nat)
    ensures SlotStart(i) <= a < SlotStart(i) + RegionSize(i)
  {
    var offset := SlotStart(i) % RegionSize(i);
    if offset != 0 then SlotStart(i) + (RegionSize(i) - offset) else SlotStart(i)
  }

  function EndPtr(i: nat): nat {
    StartPtr(i) + REGION_SIZE
  }

  lemma DivMod(a: nat, s: nat)
    requires s > 0
    ensures a == a / s * s + a % s
  {
  }

  /** x == q * s + r with 0 <= r < s fixes q and r. */
  lemma DivUnique(x: nat, s: nat, q: int, r: int)
    requires s > 0 && x == q * s + r && 0 <= r < s
    ensures x / s == q && x % s == r
  {
    DivMod(x, s);
    var q', r' := x / s, x % s;
    assert (q - q') * s == r' - r;
    if q > q' {
      MulMono(1, q - q', s);
    } else if q < q' {
      MulMono(1, q' - q, s);
    }
  }

  lemma MulMono(a: int, b: int, s: nat)
    requires a <= b
    ensures a * s <= b * s
  {
    if s > 0 {
      MulMono(a, b, s - 1);
      assert a * s == a * (s - 1) + a && b * s == b * (s - 1) + b;
    }
  }

  lemma StartAligned(i: nat)
    ensures StartPtr(i) % RegionSize(i) == 0
  {
    var a, s := SlotStart(i), RegionSize(i);
    DivMod(a, s);
    if a % s != 0 {
      assert a + (s - a % s) == (a / s + 1) * s + 0 by { Distribute(a / s, 1, s); }
      DivUnique(a + (s - a % s), s, a / s + 1, 0);
    }
  }

  lemma Distribute(a: int, b: int, s: int)
    ensures (a + b) * s == a * s + b * s
  {
  }

  // ---------------------------------------------------------------- division by reciprocal

  function Inverse(s: nat): (inv: nat)
    requires s > 0
  {
    (TWO64 - 1) / s + 1
  }

  /** How far the reciprocal overshoots. */
  function Excess(s: nat): (e: int)
    requires s > 0
  {
    Inverse(s) * s - TWO64
  }

  function MulHigh(x: nat, y: nat): nat {
    x * y / TWO64
  }

  lemma ExcessSmall(s: nat)
    requires s > 0
    ensures 0 <= Excess(s) < s
  {
    var q := (TWO64 - 1) / s;
    DivMod(TWO64 - 1, s);
    Distribute(q, 1, s);
  }

  lemma ExcessIs(s: nat)
    requires s > 0
    ensures s * Inverse(s) == TWO64 + Excess(s)
  {
  }

  lemma ProductSplit(q: int, r: int, s: int, inv: int, e: int)
    requires s * inv == TWO64 + e
    ensures inv * (q * s + r) == q * TWO64 + (q * e + r * inv)
  {
    calc {
      inv * (q * s + r);
      { Distribute(q * s, r, inv); }
      (q * s) * inv + r * inv;
      { Assoc(q, s, inv); }
      q * (TWO64 + e) + r * inv;
      { Distribute(TWO64, e, q); }
      q * TWO64 + q * e + r * inv;
    }
  }

  lemma ErrorSplit(q: int, r: int, s: int, inv: int, e: int)
    requires s * inv == TWO64 + e
    ensures (q * e + r * inv) * s == (q * s + r) * e + r * TWO64
  {
    calc {
      (q * e + r * inv) * s;
      { Distribute(q * e, r * inv, s); }
      (q * e) * s + (r * inv) * s;
      { Assoc(q, e, s); Assoc(r, inv, s); Assoc(q, s, e); }
      (q * s) * e + r * (TWO64 + e);
      { Distribute(TWO64, e, r); Distribute(q * s, r, e); }
      (q * s + r) * e + r * TWO64;
    }
  }

  /** The product with the reciprocal, split at 2^64: the exact quotient plus an error t. */
  lemma ReciprocalParts(p: nat, s: nat) returns (t: nat)
    requires s > 0
    ensures MulHigh(Inverse(s), p) == p / s + t / TWO64
    ensures t * s == p * Excess(s) + (p % s) * TWO64
  {
    hide Inverse, Excess;
    var q, r, inv, e := p / s, p % s, Inverse(s), Excess(s);
    ExcessSmall(s);
    ExcessIs(s);
    DivMod(p, s);
    MulMono(0, q, e);
    MulMono(0, r, inv);
    t := q * e + r * inv;
    ProductSplit(q, r, s, inv, e);
    ErrorSplit(q, r, s, inv, e);
    DivUnique(inv * p, TWO64, q + t / TWO64, t % TWO64);
  }

  /** The reciprocal of the object size divides p exactly. */
  predicate DividesExactly(p: nat, s: nat)
    requires s > 0
  {
    p * Excess(s) < (s - p % s) * TWO64
  }

  /** Multiplying by the reciprocal gives the quotient if and only if the overshoot, scaled by the
      address, stays below the distance to the end of the object; otherwise it gives the next number. */
  lemma ReciprocalExact(p: nat, s: nat)
    requires s > 0 && IsWord(p)
    ensures MulHigh(Inverse(s), p) == p / s + if DividesExactly(p, s) then 0 else 1
  {
    var r, e := p % s, Excess(s);
    var t := ReciprocalParts(p, s);
    ExcessSmall(s);
    assert p * e <= TWO64 * s by { MulMono(p, TWO64, e); MulMono(e, s, TWO64); }
    Distribute(s, -r, TWO64);
    if t < TWO64 {
      MulMono(t + 1, TWO64, s);
      Distribute(t, 1, s);
    } else {
      MulMono(TWO64, t, s);
      if t >= 2 * TWO64 {
        MulMono(2 * TWO64, t, s);
        MulMono(r + 1, s, TWO64);
        assert false;
      }
    }
  }

  lemma Assoc(a: int, b: int, c: int)
    ensures (a * b) * c == a * (b * c) == a * (c * b) == (a * c) * b
  {
  }

  // ---------------------------------------------------------------- objects

  /** The region a pointer belongs to. */
  function Index(p: nat): int {
    p / REGION_SIZE - MEMORY / REGION_SIZE
  }

  function IsPtr(p: int): bool {
    (p - MEMORY) % TWO64 < NUM_REGIONS * REGION_SIZE
  }

  /** The unsigned wrap-around makes one comparison test both ends of the reserved range. */
  lemma IsPtrMeaning(p: int)
    requires IsWord(p)
    ensures IsPtr(p) <==> MEMORY <= p < MEMORY + NUM_REGIONS * REGION_SIZE
    ensures IsPtr(p) ==> 0 <= Index(p) < NUM_REGIONS && SlotStart(Index(p)) <= p < SlotStart(Index(p)) + REGION_SIZE
  {
  }

  function ObjIdx(p: nat): nat
    requires IsPtr(p) && IsWord(p)
  {
    IsPtrMeaning(p);
    MulHigh(Inverse(RegionSize(Index(p))), p) % TWO32
  }

  function Base(p: nat): nat
    requires IsPtr(p) && IsWord(p)
  {
    IsPtrMeaning(p);
    ObjIdx(p) * RegionSize(Index(p)) % TWO64
  }

  /** The address of object k of region i. */
  function At(i: nat, k: nat): (a: nat)
    ensures k == 0 ==> a == StartPtr(i)
  {
    StartPtr(i) + k * RegionSize(i)
  }

  lemma AtNext(i: nat, k: nat)
    ensures At(i, k + 1) == At(i, k) + RegionSize(i)
  {
    Distribute(k, 1, RegionSize(i));
  }

  lemma AtMono(i: nat, j: nat, k: nat)
    requires j < k
    ensures At(i, j) + RegionSize(i) <= At(i, k)
  {
    MulMono(j + 1, k, RegionSize(i));
    Distribute(j, 1, RegionSize(i));
  }

  predicate InSlot(i: nat, p: int) { SlotStart(i) <= p < SlotStart(i) + REGION_SIZE }

  /** Object numbers, and one more, fit 32 bits. */
  lemma QuotientFits(i: nat, p: nat)
    requires i < NUM_REGIONS && InSlot(i, p)
    ensures p / RegionSize(i) + 1 < TWO32
  {
    var s := RegionSize(i);
    DivMod(p, s);
    if p / s + 1 >= TWO32 {
      MulMono(TWO32 - 1, p / s, s);
      assert false;
    }
  }

  lemma InSlotIndex(i: nat, p: int)
    requires i < NUM_REGIONS && InSlot(i, p)
    ensures IsWord(p) && IsPtr(p) && Index(p) == i
  {
  }

  /** Where an address lies: offset o into object k. */
  lemma AddressParts(i: nat, k: nat, o: nat)
    requires o < RegionSize(i)
    ensures var s := RegionSize(i);
            (At(i, k) + o) / s == StartPtr(i) / s + k && (At(i, k) + o) % s == o
  {
    var s := RegionSize(i);
    StartAligned(i);
    DivMod(StartPtr(i), s);
    Distribute(StartPtr(i) / s, k, s);
    DivUnique(At(i, k) + o, s, StartPtr(i) / s + k, o);
  }

  /** The number of the object a pointer falls into, as marking computes it. */
  function MarkIndex(i: nat, p: nat): nat
    requires i < NUM_REGIONS && InSlot(i, p) && InSlot(i, StartPtr(i))
  {
    InSlotIndex(i, p);
    InSlotIndex(i, StartPtr(i));
    (ObjIdx(p) - ObjIdx(StartPtr(i))) % TWO32
  }

  lemma StartInSlot(i: nat)
    requires i < NUM_REGIONS
    ensures InSlot(i, StartPtr(i))
  {
  }

  lemma BasesExact(i: nat, k: nat)
    requires i < NUM_REGIONS && IsWord(At(i, k))
    ensures DividesExactly(At(i, k), RegionSize(i))
  {
    var p, s := At(i, k), RegionSize(i);
    AddressParts(i, k, 0);
    ExcessSmall(s);
    MulMono(p, TWO64 - 1, Excess(s));
    MulMono(Excess(s), s - 1, TWO64 - 1);
    Assoc(1, s - 1, TWO64 - 1);
    assert p * Excess(s) <= (s - 1) * (TWO64 - 1) < s * TWO64;
  }

  /** An interior pointer maps to its own object's mark index if and only if the reciprocal divides
      it exactly; otherwise it maps to the next object's.  Base pointers always map to their own. */
  lemma InteriorIndex(i: nat, k: nat, o: nat)
    requires i < NUM_REGIONS && o < RegionSize(i) && InSlot(i, At(i, k) + o)
    ensures InSlot(i, StartPtr(i))
    ensures MarkIndex(i, At(i, k) + o) == k + if DividesExactly(At(i, k) + o, RegionSize(i)) then 0 else 1
    ensures InSlot(i, At(i, k)) && MarkIndex(i, At(i, k)) == k
  {
    hide *;
    StartInSlot(i);
    AtFromStart(i, k, o);
    IndexOf(i, k, o);
    IndexOf(i, k, 0);
    IndexOf(i, 0, 0);
    BasesExact(i, k);
    BasesExact(i, 0);
    MarkIndexIs(i, At(i, k) + o);
    MarkIndexIs(i, At(i, k));
  }

  lemma AtFromStart(i: nat, k: nat, o: nat)
    requires InSlot(i, At(i, k) + o)
    ensures At(i, k) >= StartPtr(i) && (InSlot(i, At(i, k))) && At(i, 0) == StartPtr(i)
  {
    MulMono(0, k, RegionSize(i));
  }

  lemma MarkIndexIs(i: nat, p: nat)
    requires i < NUM_REGIONS && InSlot(i, p) && InSlot(i, StartPtr(i))
    ensures IsWord(p) && IsPtr(p) && IsWord(StartPtr(i)) && IsPtr(StartPtr(i))
    ensures 0 <= ObjIdx(p) - ObjIdx(StartPtr(i)) < TWO32 ==> MarkIndex(i, p) == ObjIdx(p) - ObjIdx(StartPtr(i))
  {
    hide ObjIdx, StartPtr;
    InSlotIndex(i, p);
    InSlotIndex(i, StartPtr(i));
  }

  lemma IndexOf(i: nat, k: nat, o: nat)
    requires i < NUM_REGIONS && o < RegionSize(i) && InSlot(i, At(i, k) + o)
    ensures var p := At(i, k) + o;
            IsWord(p) && IsPtr(p) && ObjIdx(p) == StartPtr(i) / RegionSize(i) + k + (if DividesExactly(p, RegionSize(i)) then 0 else 1) < TWO32
  {
    hide DividesExactly, At, StartPtr, RegionSize, MulHigh, Inverse;
    var p := At(i, k) + o;
    InSlotIndex(i, p);
    AddressParts(i, k, o);
    QuotientFits(i, p);
    ReciprocalExact(p, RegionSize(i));
  }

  /** Rounding down to the start of the object works if and only if the reciprocal divides exactly. */
  lemma BaseOfInterior(i: nat, k: nat, o: nat)
    requires i < NUM_REGIONS && o < RegionSize(i) && InSlot(i, At(i, k) + o)
    ensures var p := At(i, k) + o;
            IsWord(p) && IsPtr(p) && (Base(p) == At(i, k) <==> DividesExactly(p, RegionSize(i)))
  {
    hide StartPtr, RegionSize, ObjIdx, IsPtr, Index, InSlot, DividesExactly;
    var p, s := At(i, k) + o, RegionSize(i);
    IndexOf(i, k, o);
    InSlotIndex(i, p);
    StartAligned(i);
    DivMod(StartPtr(i), s);
    var q := StartPtr(i) / s + k;
    assert q * s == At(i, k) by { Distribute(StartPtr(i) / s, k, s); }
    assert (q + 1) * s == At(i, k) + s by { Distribute(q, 1, s); }
  }

  // ---------------------------------------------------------------- where division is exact

  /** In regions 0 to 522 (objects up to 11 MB) every address of the slot is divided exactly. */
  lemma SmallRegionsExact(i: nat, p: nat)
    requires i <= 522 && InSlot(i, p)
    ensures DividesExactly(p, RegionSize(i))
  {
    var s := RegionSize(i);
    ExcessSmall(s);
    assert (i + 3) * Excess(s) <= TWO32 by {
      if i <= 518 {
        MulMono(Excess(s), s, i + 3);
        SmallProduct(i);
      } else {
        SmallExcess(i);
      }
    }
    ScaledBound(p, i + 3, Excess(s), s - p % s);
  }

  lemma SmallExcess(i: nat)
    requires 519 <= i <= 522
    ensures (i + 3) * Excess(RegionSize(i)) <= TWO32
  {
    if i == 519 { assert RegionSize(i) == 8388608; }
    else if i == 520 { assert RegionSize(i) == 9437184; }
    else if i == 521 { assert RegionSize(i) == 10485760; }
    else { assert RegionSize(i) == 11534336; }
  }

  lemma SmallProduct(i: nat)
    requires i <= 518
    ensures (i + 3) * RegionSize(i) <= TWO32
  {
    if i <= 256 {
      MulMono(RegionSize(i), 4112, i + 3);
      MulMono(i + 3, 259, 4112);
    } else if i <= 512 {
      MulMono(RegionSize(i), 1052672, i + 3);
      MulMono(i + 3, 515, 1052672);
    }
  }

  /** p e < d 2^64 when p lies below slots * 2^32 and slots e is at most d 2^32. */
  lemma ScaledBound(p: nat, slots: nat, e: nat, d: nat)
    requires p < slots * TWO32 && d >= 1 && slots * e <= d * TWO32
    ensures p * e < d * TWO64
  {
    if e > 0 {
      MulMono(p + 1, slots * TWO32, e);
      Distribute(p, 1, e);
      assert (slots * TWO32) * e == (slots * e) * TWO32 by { Assoc(slots, TWO32, e); }
      MulMono(slots * e, d * TWO32, TWO32);
      assert (d * TWO32) * TWO32 == d * TWO64;
    }
  }

  /** In every region every address at least 48 bytes before its object's end is divided exactly. */
  lemma FarFromEndExact(i: nat, p: nat)
    requires i < NUM_REGIONS && InSlot(i, p) && RegionSize(i) - p % RegionSize(i) >= 48
    ensures DividesExactly(p, RegionSize(i))
  {
    if i <= 518 {
      SmallRegionsExact(i, p);
    } else {
      var s := RegionSize(i);
      ExcessSmall(s);
      var m := i - 511;
      assert s == m * HUGE_UNIT;
      assert (i + 3) * Excess(s) <= 48 * TWO32 by {
        if i < 767 {
          MulMono(Excess(s), s, i + 3);
          MulMono(m, 255, HUGE_UNIT);
          MulMono(i + 3, 769, 255 * HUGE_UNIT);
          MulMono(s, 255 * HUGE_UNIT, i + 3);
        }
      }
      MulMono(48, s - p % s, TWO32);
      ScaledBound(p, i + 3, Excess(s), s - p % s);
    }
  }

  /** Neither bound can be dropped: the last byte of this 12 MB object in region 523 is taken for the
      next object. */
  lemma LastByteInexact()
    ensures var i, k, o := 523, 165, 12582911;
            && RegionSize(i) == 12582912 && o == RegionSize(i) - 1 && InSlot(i, At(i, k) + o)
            && !DividesExactly(At(i, k) + o, RegionSize(i))
            && InSlot(i, StartPtr(i)) && MarkIndex(i, At(i, k) + o) == k + 1
  {
    var i, k, o := 523, 165, 12582911;
    assert InSlot(i, At(i, k) + o);
    assert Excess(RegionSize(i)) == 8388608;
    AddressParts(i, k, o);
    InteriorIndex(i, k, o);
  }

  // ---------------------------------------------------------------- slots

  /** Fresh allocation in region i hands out every object below the end pointer; all of them lie
      inside the region's own slot if and only if the object size divides the slot size. */
  lemma StaysInSlot(i: nat)
    requires i < NUM_REGIONS
    ensures (forall k: nat | At(i, k) < EndPtr(i) :: At(i, k) + RegionSize(i) <= SlotStart(i) + REGION_SIZE)
       <==> REGION_SIZE % RegionSize(i) == 0
  {
    var s := RegionSize(i);
    DivMod(REGION_SIZE, s);
    if REGION_SIZE % s == 0 {
      var m := REGION_SIZE / s;
      assert SlotStart(i) == ((i + 2) * m) * s + 0 by { Assoc(i + 2, m, s); }
      DivUnique(SlotStart(i), s, (i + 2) * m, 0);
      forall k: nat | At(i, k) < EndPtr(i)
        ensures At(i, k) + s <= SlotStart(i) + REGION_SIZE
      {
        assert k * s < m * s;
        if k >= m { MulMono(m, k, s); }
        MulMono(k + 1, m, s);
        Distribute(k, 1, s);
      }
    } else {
      var k := REGION_SIZE / s;
      assert At(i, k) < EndPtr(i);
      AtNext(i, k);
      assert At(i, k) + s > SlotStart(i) + REGION_SIZE;
    }
  }

  /** So two regions can hand out overlapping objects: the last object of region 2 (48 bytes) and the
      first of region 3. */
  lemma RegionsOverlap()
    ensures exists k: nat :: At(2, k) < EndPtr(2) && At(2, k) < StartPtr(3) + RegionSize(3) && StartPtr(3) < At(2, k) + RegionSize(2)
  {
    var k: nat := 89478485;
    assert At(2, k) < EndPtr(2) && At(2, k) < StartPtr(3) + RegionSize(3) && StartPtr(3) < At(2, k) + RegionSize(2);
  }

  // ---------------------------------------------------------------- hidden pointers

  /** Bitwise complement of a word. */
  function Hide(p: int): int {
    TWO64 - 1 - p
  }

  function Unhide(p: int): int {
    TWO64 - 1 - p
  }

  /** Unhiding gives the pointer back, and neither a hidden pointer nor hidden null passes the pointer test. */
  lemma HiddenIsNoPointer(p: int)
    requires IsWord(p) && (IsPtr(p) || p == 0)
    ensures IsWord(Hide(p)) && Unhide(Hide(p)) == p && !IsPtr(Hide(p))
  {
    IsPtrMeaning(p);
    IsPtrMeaning(Hide(p));
  }

  /** Every object starts at a multiple of 16. */
  lemma ObjectsAligned(i: nat, k: nat)
    ensures At(i, k) % 16 == 0
  {
    var s := RegionSize(i);
    StartAligned(i);
    DivMod(StartPtr(i), s);
    var q := StartPtr(i) / s + k;
    Distribute(StartPtr(i) / s, k, s);
    var u := IndexUnit(i);
    var m := i - UnitOffset(u) + 1;
    assert s == 16 * (m * (u / 16)) by { Distribute(i - UnitOffset(u), 1, u); Assoc(m, u / 16, 16); }
    Assoc(q, m * (u / 16), 16);
    DivUnique(q * s, 16, q * (m * (u / 16)), 0);
  }
}
