/** What integers, memory and array elements are, without the functions that compute them. */
module Values {
  import opened Options
  import opened IR
  import opened Source
  import opened Lowering
  import opened LoweringFrame
  import opened CodeScope
  import opened CodeStep

  /** Both readings of the low 32 bits differ from the number by a multiple of 2^32, one is in the
      signed range and the other in the unsigned one. */
  lemma Low32(n: int)
    ensures -2147483648 <= I32(n) < 2147483648 && (I32(n) - n) % 4294967296 == 0
    ensures 0 <= U32(n) < 4294967296 && (U32(n) - n) % 4294967296 == 0
  {
    var k := (n + 2147483648) / 4294967296;
    assert I32(n) == n - k * 4294967296;
    var l := n / 4294967296;
    assert U32(n) == n - l * 4294967296;
    Multiple(-k);
    Multiple(-l);
  }

  lemma Multiple(k: int)
    ensures k * 4294967296 % 4294967296 == 0
  {
  }

  lemma SmallStays(n: int)
    requires -2147483648 <= n < 2147483648
    ensures I32(n) == n && U32(n) == (if n >= 0 then n else n + 4294967296)
    ensures forall b, i :: ArraySize(VArr(Cell(b, i), n)) == n
    ensures AsInt(VInt(n)) == n
  {
  }

  /** An index is out of bounds if and only if it is negative or not below the size; for a size that
      reads as negative, if and only if it is between that and zero. */
  lemma IndexTraps(arr: Value, iv: Value, ref: bool, w: World)
    ensures 0 <= ArraySize(arr) ==> (IndexInto(arr, iv, ref, w).Trap? <==> !(0 <= AsInt(iv) < ArraySize(arr)))
    ensures ArraySize(arr) < 0 ==> (IndexInto(arr, iv, ref, w).Trap? <==> ArraySize(arr) <= AsInt(iv) < 0)
  {
    SizeInRange(arr);
    IntInRange(iv);
    SmallStays(ArraySize(arr));
    SmallStays(AsInt(iv));
  }

  lemma SizeInRange(v: Value)
    ensures -2147483648 <= ArraySize(v) < 2147483648
  {
    if v.VArr? { Low32(v.size); }
  }

  lemma IntInRange(v: Value)
    ensures -2147483648 <= AsInt(v) < 2147483648
  {
    if v.VInt? { Low32(v.n); }
  }

  /** Element i of an array of n elements: its cell, or what is in it; any other index traps. */
  lemma IndexGives(b: nat, base: int, n: int, i: int, w: World)
    requires 0 <= n < 2147483648 && -2147483648 <= i < 2147483648
    ensures IndexInto(VArr(Cell(b, base), n), VInt(i), true, w) == if 0 <= i < n then Done(VPtr(Cell(b, base + i)), w) else Trap(w)
    ensures !(0 <= i < n) ==> IndexInto(VArr(Cell(b, base), n), VInt(i), false, w) == Trap(w)
    ensures 0 <= i < n && Cell(b, base + i) in w.mem ==> IndexInto(VArr(Cell(b, base), n), VInt(i), false, w) == Done(w.mem[Cell(b, base + i)], w)
  {
    SmallStays(n);
    SmallStays(i);
    IndexTraps(VArr(Cell(b, base), n), VInt(i), true, w);
    IndexTraps(VArr(Cell(b, base), n), VInt(i), false, w);
  }

  /** So the emitted code for an index, wherever it stands: it traps exactly for the indices that are
      not elements, with nothing written, and otherwise its operand is the element's cell or content. */
  lemma IndexRuns(k: Ctx, arr: Operand, ix: Operand, ref: bool, cg: CG, c: Config, b: nat, base: int, n: int, i: int) returns (m: nat)
    requires cg.Valid() && At(c, cg) && Below(arr, cg.nextReg) && Below(ix, cg.nextReg)
    requires Within(IndexRest(arr, ix, ref, cg).cg.p, k.q)
    requires OpVal(c.regs, arr) == VArr(Cell(b, base), n) && OpVal(c.regs, ix) == VInt(i)
    requires 0 <= n < 2147483648 && -2147483648 <= i < 2147483648 && (0 <= i < n ==> Cell(b, base + i) in c.w.mem)
    ensures var c' := Run(k.q, m, c, k.ext);
            if !(0 <= i < n) then c'.status == Trapped && c'.w == c.w
            else
              && At(c', IndexRest(arr, ix, ref, cg).cg) && c'.w == c.w
              && OpVal(c'.regs, IndexRest(arr, ix, ref, cg).op) == if ref then VPtr(Cell(b, base + i)) else c.w.mem[Cell(b, base + i)]
  {
    hide Within, IndexRest, Run, SameBelow, CG.Valid;
    m := SimIndexRest(k, arr, ix, ref, cg, c);
    IndexGives(b, base, n, i, c.w);
  }

  // ---------------------------------------------------------------- primitives and memory

  /** Comparisons and sums of numbers in range, and the elements of an array. */
  lemma Primitives(m: int, n: int, b: nat, base: int)
    requires -2147483648 <= m < 2147483648 && -2147483648 <= n < 2147483648
    ensures Apply(CmpSGT, VInt(m), VInt(n)) == VBool(m > n) && Apply(CmpSLT, VInt(m), VInt(n)) == VBool(m < n)
    ensures m >= 0 && n >= 0 ==> Apply(CmpUGE, VInt(m), VInt(n)) == VBool(m >= n)
    ensures m < 0 && n >= 0 ==> Apply(CmpUGE, VInt(m), VInt(n)) == VBool(true)
    ensures -2147483648 <= m + n < 2147483648 ==> Apply(Add, VInt(m), VInt(n)) == VInt(m + n)
    ensures Apply(Not, VBool(true), VVoid) == VBool(false) && Apply(Not, VBool(false), VVoid) == VBool(true)
    ensures Apply(ExtractSize, VArr(Cell(b, base), n), VVoid) == VInt(n)
    ensures Apply(Gep, Apply(ExtractPtr, VArr(Cell(b, base), n), VVoid), VInt(m)) == VPtr(Cell(b, base + m))
  {
    SmallStays(m);
    SmallStays(n);
    if -2147483648 <= m + n < 2147483648 { SmallStays(m + n); }
  }

  /** A load gives what was last stored there, and a store changes nothing else. */
  lemma StoreLoad(mem: Mem, p: Addr, q: Addr, v: Value)
    ensures LoadFrom(StoreTo(mem, VPtr(p), v), VPtr(p)) == v
    ensures q != p ==> LoadFrom(StoreTo(mem, VPtr(p), v), VPtr(q)) == LoadFrom(mem, VPtr(q))
    ensures q in mem ==> LoadFrom(mem, VPtr(q)) == mem[q]
  {
  }

  /** Fresh cells are all different, and different from the slots of variables. */
  lemma CellsDiffer(w: World, x: Variable)
    ensures var (p, w') := MakeCell(w);
            p == VPtr(Cell(w.next, 0)) && p != VPtr(Local(x)) && w'.mem == w.mem && w'.trace == w.trace && MakeCell(w').0 != p
    ensures w.next < MakeCell(w).1.next
  {
  }
}
