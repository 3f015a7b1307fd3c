/** The mark bits of a region: a buffer of 64-bit units in which bit k stands for object k. */
module GcMarkBits {
  import opened GcArith
  import opened GcRegions

  const MARK_PAGE: nat := 4096

  /** The size of a region's mark memory in bytes. */
  function MarkSize(i: nat): nat {
    REGION_SIZE / (RegionSize(i) * 8) + MARK_PAGE
  }

  /** There is a bit for every object of a slot, and for one more. */
  lemma BitsFit(i: nat, k: nat)
    requires At(i, k) < SlotEnd(i)
    ensures (k + 1) / 64 < MarkSize(i) / 8
  {
    var s := RegionSize(i);
    var q := REGION_SIZE / (s * 8);
    DivMod(REGION_SIZE, s * 8);
    assert (q + 1) * (s * 8) == (q * 8 + 8) * s by {
      Assoc(q + 1, s, 8);
      Distribute(q, 1, s * 8);
      Distribute(q * 8, 8, s);
      Assoc(q, s, 8);
    }
    Distribute(q, 1, s * 8);
    if k >= q * 8 + 8 {
      MulMono(q * 8 + 8, k, s);
      assert false;
    }
  }

  function Mask(b: nat): bv64
    requires b < 64
  {
    (1 as bv64) << b
  }

  lemma MaskBits(x: bv64, b: bv64, c: bv64)
    requires b < 64 && c < 64
    ensures (x | (1 << b)) & (1 << c) != 0 <==> x & (1 << c) != 0 || b == c
  {
  }

  lemma MaskOr(x: bv64, b: nat, c: nat)
    requires b < 64 && c < 64
    ensures (x | Mask(b)) & Mask(c) != 0 <==> x & Mask(c) != 0 || b == c
  {
    MaskBits(x, b as bv64, c as bv64);
  }

  predicate BitSet(x: bv64, b: nat)
    requires b < 64
  {
    x & Mask(b) != 0
  }

  function WithBit(x: bv64, b: nat): bv64
    requires b < 64
  {
    x | Mask(b)
  }

  /** Setting one bit leaves every other bit as it is. */
  lemma MaskSets(x: bv64, b: nat, c: nat)
    requires b < 64 && c < 64
    ensures BitSet(WithBit(x, b), c) <==> BitSet(x, c) || b == c
  {
    MaskOr(x, b, c);
  }

  lemma ZeroUnit(b: nat)
    requires b < 64
    ensures !BitSet(0, b)
  {
  }

  /** The bits of x from bit n on, without those below bit c. */
  function HighBits(x: bv64, n: nat, c: nat): bv64
    requires c <= 64
    decreases 64 - c
  {
    if c == 64 then 0
    else if c >= n && BitSet(x, c) then WithBit(HighBits(x, n, c + 1), c)
    else HighBits(x, n, c + 1)
  }

  lemma {:induction false} HighBitsAre(x: bv64, n: nat, c: nat, b: nat)
    requires c <= 64 && b < 64
    ensures BitSet(HighBits(x, n, c), b) <==> b >= c && b >= n && BitSet(x, b)
    decreases 64 - c
  {
    hide BitSet, WithBit;
    if c == 64 {
      ZeroUnit(b);
    } else {
      HighBitsAre(x, n, c + 1, b);
      if c >= n && BitSet(x, c) { MaskSets(HighBits(x, n, c + 1), c, b); }
    }
  }

  class MarkBits {
    const units: array<bv64>

    ghost predicate Has(k: nat)
      reads units
    {
      k / 64 < units.Length && BitSet(units[k / 64], k % 64)
    }

    /** Fresh mark memory is zero. */
    constructor (marksize: nat)
      ensures fresh(units) && units.Length == marksize / 8 && forall k: nat :: !Has(k)
    {
      units := new bv64[marksize / 8](_ => 0);
    }

    /** Marks an object; false when it was marked already. */
    method Mark(idx: nat) returns (first: bool)
      requires idx / 64 < units.Length
      modifies units
      ensures first == !old(Has(idx))
      ensures forall k: nat :: Has(k) <==> old(Has(k)) || k == idx
    {
      hide BitSet, WithBit;
      var markunit := units[idx / 64];
      if BitSet(markunit, idx % 64) {
        return false;
      }
      units[idx / 64] := WithBit(markunit, idx % 64);
      forall k: nat
        ensures Has(k) <==> old(Has(k)) || k == idx
      {
        if k / 64 == idx / 64 {
          MaskSets(markunit, idx % 64, k % 64);
          assert k == 64 * (k / 64) + k % 64 && idx == 64 * (idx / 64) + idx % 64;
        }
      }
      return true;
    }

    predicate IsMarked(idx: nat): (marked: bool)
      requires idx / 64 < units.Length
      reads units
      ensures marked == Has(idx)
    {
      BitSet(units[idx / 64], idx % 64)
    }

    /** Zeroes the given number of bytes and one page more: exactly the bits of those bytes are cleared. */
    method Zero(size: nat)
      modifies units
      ensures forall k: nat :: Has(k) <==> old(Has(k)) && k >= 8 * (size + MARK_PAGE)
    {
      hide BitSet, HighBits;
      var bytes := size + MARK_PAGE;
      var j := 0;
      while j < bytes / 8 && j < units.Length
        invariant 0 <= j <= bytes / 8 && j <= units.Length
        invariant forall u | 0 <= u < units.Length :: units[u] == if u < j then 0 else old(units[u])
      {
        units[j] := 0;
        j := j + 1;
      }
      if j < units.Length {
        units[j] := HighBits(units[j], bytes % 8 * 8, 0);
      }
      forall k: nat
        ensures Has(k) <==> old(Has(k)) && k >= 8 * bytes
      {
        ZeroedAt(bytes, k);
        if k / 64 < units.Length {
          if k / 64 == bytes / 8 {
            HighBitsAre(old(units[k / 64]), bytes % 8 * 8, 0, k % 64);
          } else if k / 64 < bytes / 8 {
            ZeroUnit(k % 64);
          }
        }
      }
    }
  }

  lemma ZeroedAt(bytes: nat, k: nat)
    ensures k >= 8 * bytes <==> k / 64 > bytes / 8 || (k / 64 == bytes / 8 && k % 64 >= bytes % 8 * 8)
  {
  }

  // ---------------------------------------------------------------- the mark bits of all regions

  /** The buffers; null stands for mark memory that has not been asked for yet. */
  type AllBits = seq<MarkBits?>

  function Arrays(bits: AllBits): set<array<bv64>> {
    set b | b in bits && b != null :: b.units
  }

  /** Every buffer is big enough and no other region's. */
  ghost predicate Buffers(bits: AllBits) {
    && |bits| == NUM_REGIONS
    && (forall i | 0 <= i < |bits| && bits[i] != null :: bits[i].units.Length == MarkSize(i) / 8)
    && (forall i, j | 0 <= i < j < |bits| && bits[i] != null && bits[j] != null :: bits[i].units != bits[j].units)
  }

  /** The bits set are those of the marked objects. */
  ghost predicate BitsAre(bits: AllBits, marks: set<Obj>)
    reads Arrays(bits)
  {
    Buffers(bits) && forall o: Obj :: o in marks <==> o.i < NUM_REGIONS && bits[o.i] != null && bits[o.i].Has(o.k)
  }

  lemma BitsLength(bits: AllBits, marks: set<Obj>)
    requires BitsAre(bits, marks)
    ensures |bits| == NUM_REGIONS
  {
  }

  /** The bit of one object: where it is, and that it is part of what may be written. */
  lemma BitOf(bits: AllBits, marks: set<Obj>, o: Obj)
    requires BitsAre(bits, marks) && o.i < NUM_REGIONS
    ensures |bits| == NUM_REGIONS
    ensures bits[o.i] != null ==> bits[o.i].units in Arrays(bits) && bits[o.i].units.Length == MarkSize(o.i) / 8 && (o in marks <==> bits[o.i].Has(o.k))
    ensures bits[o.i] == null ==> o !in marks
  {
  }

  lemma BitOfNone(bits: AllBits, marks: set<Obj>, i: nat)
    requires BitsAre(bits, marks) && i < |bits| && bits[i] == null
    ensures forall k: nat :: Obj(i, k) !in marks
  {
    BitsLength(bits, marks);
    forall k: nat ensures Obj(i, k) !in marks { BitOf(bits, marks, Obj(i, k)); }
  }

  /** Sets the bit of an object; false when it was set already. */
  method MarkObject(bits: AllBits, ghost marks: set<Obj>, o: Obj) returns (first: bool)
    requires BitsAre(bits, marks) && o.i < |bits| && bits[o.i] != null && o.k / 64 < MarkSize(o.i) / 8
    modifies Arrays(bits)
    ensures first == (o !in marks) && BitsAre(bits, if first then marks + {o} else marks)
  {
    BitOf(bits, marks, o);
    first := bits[o.i].Mark(o.k);
    forall q: Obj
      ensures q in (if first then marks + {o} else marks) <==> q.i < NUM_REGIONS && bits[q.i] != null && bits[q.i].Has(q.k)
    {
      if q.i < NUM_REGIONS && bits[q.i] != null && q.i != o.i {
        assert bits[q.i].units != bits[o.i].units;
      }
    }
  }

  /** The marks that are left when region i is zeroed. */
  ghost function Zeroed(marks: set<Obj>, i: nat, size: nat): set<Obj> {
    set o | o in marks && !(o.i == i && o.k < 8 * (size + MARK_PAGE))
  }

  /** Zeroes the bits of the first objects of region i. */
  method ZeroRegion(bits: AllBits, ghost marks: set<Obj>, i: nat, size: nat)
    requires BitsAre(bits, marks) && i < |bits| && bits[i] != null
    modifies Arrays(bits)
    ensures BitsAre(bits, Zeroed(marks, i, size))
  {
    BitOf(bits, marks, Obj(i, 0));
    bits[i].Zero(size);
    forall q: Obj
      ensures q in Zeroed(marks, i, size) <==> q.i < NUM_REGIONS && bits[q.i] != null && bits[q.i].Has(q.k)
    {
      if q.i < NUM_REGIONS && bits[q.i] != null && q.i != i {
        assert bits[q.i].units != bits[i].units;
      }
    }
  }

  /** Mark memory for a region that had none. */
  method NewBits(bits: AllBits, ghost marks: set<Obj>, i: nat) returns (bits': AllBits)
    requires BitsAre(bits, marks) && i < |bits| && bits[i] == null
    ensures |bits'| == |bits| && bits' == bits[i := bits'[i]] && bits'[i] != null
    ensures BitsAre(bits', marks) && fresh(Arrays(bits') - Arrays(bits))
  {
    var b := new MarkBits(MarkSize(i));
    bits' := bits[i := b];
    forall q: Obj
      ensures q in marks <==> q.i < NUM_REGIONS && bits'[q.i] != null && bits'[q.i].Has(q.k)
    {
      if q.i == i { BitOf(bits, marks, q); }
    }
    forall j | 0 <= j < |bits| && bits[j] != null ensures bits[j].units != b.units {
      assert bits[j].units in Arrays(bits);
    }
  }
}
