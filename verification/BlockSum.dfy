/** The per-bucket doubling sum, and why it adds up exactly the rows placed in the bucket. */
module BlockSum {
  import opened Base
  import opened Seal
  import opened Placement
  import opened SlotCodec
  import opened Indicator

  // ---- the doubling sum ---------------------------------------------------

  /** The slot j blocks of width d after x in x's row, cyclically. */
  ghost function CyclicTerm(row: nat, v: seq<nat>, x: int, d: nat, j: int): (a: int)
    requires |v| == 2 * row && 0 <= x < 2 * row
  {
    if 0 <= j * d < row then v[RotateIndex(row, x, j * d)] else 0
  }

  ghost function CyclicSum(row: nat, v: seq<nat>, x: int, d: nat, n: nat): (s: int)
    requires |v| == 2 * row && 0 <= x < 2 * row
  {
    SumTo(n, j => CyclicTerm(row, v, x, d, j))
  }

  lemma {:induction false} CyclicTermShift(row: nat, v: seq<nat>, x: int, d: nat, n: nat, j: nat)
    requires |v| == 2 * row && 0 <= x < 2 * row && 0 < n * d < row && (n + j) * d < row
    ensures CyclicTerm(row, v, x, d, n + j) == CyclicTerm(row, v, RotateIndex(row, x, n * d), d, j)
  {
    MulNonNegative(j, d);
    assert (n + j) * d == n * d + j * d;
    RotateTwice(row, x, n * d, j * d);
  }

  /** A sum of 2n blocks is the sum of the first n and the n that start n blocks later. */
  lemma {:induction false} CyclicSumDoubles(row: nat, v: seq<nat>, x: int, d: nat, n: nat)
    requires |v| == 2 * row && 0 <= x < 2 * row
    requires (n + n) * d <= row && 0 < d && 0 < n * d < row
    ensures CyclicSum(row, v, x, d, n + n)
            == CyclicSum(row, v, x, d, n) + CyclicSum(row, v, RotateIndex(row, x, n * d), d, n)
  {
    var f := j => CyclicTerm(row, v, x, d, j);
    var y := RotateIndex(row, x, n * d);
    forall j | 0 <= j < n
      ensures f(n + j) == CyclicTerm(row, v, y, d, j)
    {
      MulGap(n + j, n + n, d);
      CyclicTermShift(row, v, x, d, n, j);
    }
    SumSplit(n, n, f);
    SumExt(n, j => f(n + j), j => CyclicTerm(row, v, y, d, j));
  }

  /** Slot x of s is the sum of n blocks of v from x on. */
  ghost predicate SumsBlocks(c: Context, s: Ciphertext, v: seq<nat>, d: nat, n: nat)
    requires c.Valid() && |v| == 2 * c.row
  {
    && IsCipher(c, s)
    && forall x :: 0 <= x < 2 * c.row ==> s.slots[x] == Residue(CyclicSum(c.row, v, x, d, n), c.t)
  }

  lemma {:induction false} SumsDouble(c: Context, s: Ciphertext, rot: Ciphertext, r: Ciphertext, v: seq<nat>, d: nat,
                                      n: nat)
    requires c.Valid() && |v| == 2 * c.row && 0 < d && 0 < n * d < c.row && (n + n) * d <= c.row
    requires SumsBlocks(c, s, v, d, n) && IsCipher(c, rot) && IsCipher(c, r)
    requires forall x {:trigger rot.slots[x]} :: 0 <= x < 2 * c.row ==>
               rot.slots[x] == s.slots[RotateIndex(c.row, x, n * d)]
    requires forall x {:trigger r.slots[x]} :: 0 <= x < 2 * c.row ==>
               r.slots[x] == Residue(s.slots[x] + rot.slots[x], c.t)
    ensures SumsBlocks(c, r, v, d, n + n)
  {
    hide CyclicSum, RotateIndex;
    forall x | 0 <= x < 2 * c.row
      ensures r.slots[x] == Residue(CyclicSum(c.row, v, x, d, n + n), c.t)
    {
      CyclicSumDoubles(c.row, v, x, d, n);
      ModAdd(CyclicSum(c.row, v, x, d, n), CyclicSum(c.row, v, RotateIndex(c.row, x, n * d), d, n), c.t);
    }
  }

  lemma {:induction false} SumsOne(c: Context, s: Ciphertext, d: nat)
    requires c.Valid() && IsCipher(c, s)
    ensures SumsBlocks(c, s, s.slots, d, 1)
  {
    forall x | 0 <= x < 2 * c.row
      ensures s.slots[x] == Residue(CyclicSum(c.row, s.slots, x, d, 1), c.t)
    {
      var f := j => CyclicTerm(c.row, s.slots, x, d, j);
      assert SumTo(0, f) == 0;
      assert SumTo(1, f) == f(0) == s.slots[x];
      ModSmall(s.slots[x], c.t);
    }
  }

  /** Rotations by keyBits, 2 * keyBits, ... up to the bucket width, each added in. */
  method SumBlocks(c: Context, l: Layout, ct: Ciphertext, galois: seq<int>) returns (out: Ciphertext)
    requires c.Valid() && l.Valid() && l.row == c.row && IsCipher(c, ct)
    requires HasSteps(galois, l.keyBits, l.row)
    ensures out.depth == ct.depth && SumsBlocks(c, out, ct.slots, l.keyBits, l.seg)
  {
    hide CyclicSum, RotateIndex, SumsBlocks;
    out := ct;
    SumsOne(c, ct, l.keyBits);
    var step := l.keyBits;
    ghost var i: nat := 0;
    while step < l.stride
      invariant step == Pow2(i) * l.keyBits && Pow2(i) <= l.seg
      invariant IsCipher(c, out) && out.depth == ct.depth
      invariant SumsBlocks(c, out, ct.slots, l.keyBits, Pow2(i))
      decreases l.stride - step
    {
      NextStep(l, i);
      BlockSumStep(galois, l, i);
      var rot := RotateRows(c, out, step, galois);
      var sum := Add(c, out, rot);
      SumsDouble(c, out, rot, sum, ct.slots, l.keyBits, Pow2(i));
      out := sum;
      step := 2 * step;
      i := i + 1;
    }
    LastStep(l, i);
  }

  lemma {:induction false} NextStep(l: Layout, i: nat)
    requires l.Valid() && Pow2(i) * l.keyBits < l.stride
    ensures Pow2(i + 1) <= l.seg
    ensures (Pow2(i) + Pow2(i)) * l.keyBits <= l.row && 0 < Pow2(i) * l.keyBits < l.row
  {
    var e := Exponent(l.seg);
    if Pow2(i) >= l.seg {
      MulMonotone(l.seg, Pow2(i), l.keyBits);
    }
    if i >= e {
      Pow2Monotone(e, i);
    }
    Pow2Monotone(i, e);
    MulMonotone(2 * Pow2(i), l.seg, l.keyBits);
    MulAtLeast(Pow2(i), l.keyBits);
  }

  lemma {:induction false} BlockSumStep(galois: seq<int>, l: Layout, i: nat)
    requires l.Valid() && HasSteps(galois, l.keyBits, l.row) && Pow2(i) * l.keyBits < l.row
    ensures Pow2(i) * l.keyBits in galois
  {
    assert Pow2(i) * l.keyBits == l.keyBits * Pow2(i);
    DoublingReached(l.keyBits, i, l.row);
    assert IsDoubling(Pow2(i) * l.keyBits, l.keyBits, l.row);
  }

  lemma {:induction false} LastStep(l: Layout, i: nat)
    requires l.Valid() && Pow2(i) <= l.seg && Pow2(i) * l.keyBits >= l.stride
    ensures Pow2(i) == l.seg
  {
    if Pow2(i) < l.seg {
      MulGap(Pow2(i), l.seg, l.keyBits);
    }
  }

  // ---- which rows a bucket sums -------------------------------------------

  /** The value f gives the row whose block starts at x; an empty block is worth 0. */
  ghost function ValueAt(items: seq<Item>, x: int, f: nat -> nat): (v: nat) {
    var r := RowAt(items, x);
    if r >= 0 then f(r) else 0
  }

  /** f summed over the rows that the batch holds in bucket g of a side. */
  ghost function ItemSum(l: Layout, items: seq<Item>, side: nat, g: nat, f: nat -> nat): (v: nat) {
    if items == [] then 0
    else
      var last := items[|items| - 1];
      ItemSum(l, items[..|items| - 1], side, g, f) + (if l.InRegion(last.slot, side, g) then f(last.row) else 0)
  }

  /** The value in block j of a bucket. */
  ghost function BlockValue(l: Layout, items: seq<Item>, side: nat, g: nat, f: nat -> nat, j: int): (v: nat) {
    ValueAt(items, l.Base(side, g) + j * l.keyBits, f)
  }

  /** Block j of a bucket, inside its side and without wrapping around. */
  lemma {:induction false} BlockInRegion(l: Layout, side: nat, g: nat, i: nat, j: nat)
    requires l.Valid() && side < 2 && g < l.buckets && i < l.keyBits && j < l.seg
    ensures 0 <= j * l.keyBits < l.row
    ensures l.InRegion(l.Base(side, g) + j * l.keyBits, side, g)
    ensures l.Base(side, g) + i + j * l.keyBits < 2 * l.row
    ensures RotateIndex(l.row, l.Base(side, g) + i, j * l.keyBits) == l.Base(side, g) + i + j * l.keyBits
  {
    BlockOffset(0, j, l.seg, l.keyBits);
    l.RegionInSide(side, g);
    var base, at := l.Base(side, g), j * l.keyBits;
    assert at + l.keyBits <= l.stride <= l.row;
    SideOfBase(l, side, g);
    hide Layout.Valid, Layout.Base;
    NoWrap(l.row, base + i, at, if side == 0 then 0 else l.row);
  }

  lemma {:induction false} SideOfBase(l: Layout, side: nat, g: nat)
    ensures l.Base(side, g) >= if side == 0 then 0 else l.row
  {
  }

  /** A rotation that stays inside its side is a plain shift. */
  lemma {:induction false} NoWrap(row: nat, x: int, k: int, low: nat)
    requires (low == 0 || low == row) && low <= x && 0 <= k < row && x + k < low + row
    ensures 0 <= x < 2 * row && RotateIndex(row, x, k) == x + k
  {
  }

  lemma {:induction false} BlockOfRegionSlot(l: Layout, side: nat, g: nat, i: nat, j: nat)
    requires l.Valid() && i < l.keyBits
    ensures (l.Base(side, g) + i + j * l.keyBits) % l.keyBits == i
    ensures BlockStart(l.keyBits, l.Base(side, g) + i + j * l.keyBits) == l.Base(side, g) + j * l.keyBits
  {
    BaseAligned(l, side, g);
    var at := l.Base(side, g) + j * l.keyBits;
    AlignedSum(l.Base(side, g), j, l.keyBits);
    InBlock(l.keyBits, at, at + i);
  }

  /** The cyclic sum from a bucket's first block is the sum over the bucket's blocks. */
  lemma {:induction false} CyclicIsRegion(c: Context, l: Layout, v: seq<nat>, items: seq<Item>,
                                          side: nat, g: nat, i: nat, f: nat -> nat)
    requires c.Valid() && l.Valid() && l.row == c.row && |v| == 2 * l.row
    requires side < 2 && g < l.buckets && i < l.keyBits
    requires l.Base(side, g) + i < 2 * l.row
    requires forall y :: 0 <= y < 2 * l.row && y % l.keyBits == i ==>
               v[y] == Residue(ValueAt(items, BlockStart(l.keyBits, y), f), c.t)
    ensures Residue(CyclicSum(l.row, v, l.Base(side, g) + i, l.keyBits, l.seg), c.t)
            == Residue(SumTo(l.seg, j => BlockValue(l, items, side, g, f, j)), c.t)
  {
    var x := l.Base(side, g) + i;
    forall j | 0 <= j < l.seg
      ensures CyclicTerm(l.row, v, x, l.keyBits, j) == Residue(BlockValue(l, items, side, g, f, j), c.t)
    {
      BlockInRegion(l, side, g, i, j);
      BlockOfRegionSlot(l, side, g, i, j);
    }
    hide CyclicTerm, BlockValue;
    SumOfResidues(l.seg, j => CyclicTerm(l.row, v, x, l.keyBits, j), j => BlockValue(l, items, side, g, f, j), c.t);
  }

  /** Summing a bucket block by block is summing over the rows placed in it. */
  lemma {:induction false} RegionIsItems(l: Layout, items: seq<Item>, total: nat, side: nat, g: nat, f: nat -> nat)
    requires l.Valid() && BatchOk(l, items, total) && side < 2 && g < l.buckets
    ensures SumTo(l.seg, j => BlockValue(l, items, side, g, f, j)) == ItemSum(l, items, side, g, f)
    decreases items
  {
    var base := l.Base(side, g);
    var whole := j => BlockValue(l, items, side, g, f, j);
    if items == [] {
      SumZero(l.seg, whole);
    } else {
      var last, front := items[|items| - 1], items[..|items| - 1];
      var part := j => BlockValue(l, front, side, g, f, j);
      RegionIsItems(l, front, total, side, g, f);
      if l.InRegion(last.slot, side, g) {
        var k := BlockIndex(l, side, g, last.slot);
        RowAtIsItem(front, last.slot);
        forall j | 0 <= j < l.seg && j != k
          ensures base + j * l.keyBits != last.slot
        {
          if base + j * l.keyBits == last.slot {
            SameMultiple(j, k, l.keyBits);
          }
        }
        SumChange(l.seg, part, whole, k);
      } else {
        forall j | 0 <= j < l.seg
          ensures base + j * l.keyBits != last.slot
        {
          BlockInRegion(l, side, g, 0, j);
        }
        SumExt(l.seg, part, whole);
      }
    }
  }

  /** The block of its bucket in which an aligned slot of the region lies. */
  lemma {:induction false} BlockIndex(l: Layout, side: nat, g: nat, x: nat) returns (k: nat)
    requires l.Valid() && l.InRegion(x, side, g) && x % l.keyBits == 0
    ensures k < l.seg && x == l.Base(side, g) + k * l.keyBits
  {
    BaseAligned(l, side, g);
    var base := l.Base(side, g);
    DivMod(x, l.keyBits);
    DivMod(base, l.keyBits);
    var a, b := Div(x, l.keyBits), Div(base, l.keyBits);
    if a < b {
      MulGap(a, b, l.keyBits);
    }
    assert (a - b) * l.keyBits == a * l.keyBits - b * l.keyBits;
    if a - b >= l.seg {
      MulMonotone(l.seg, a - b, l.keyBits);
    }
    k := a - b;
  }

  /** The whole argument for one readable slot. */
  lemma {:induction false} SummedSlot(c: Context, l: Layout, v: seq<nat>, items: seq<Item>, total: nat,
                                      side: nat, g: nat, i: nat, f: nat -> nat)
    requires c.Valid() && l.Valid() && l.row == c.row && |v| == 2 * l.row
    requires BatchOk(l, items, total) && side < 2 && g < l.buckets && i < l.keyBits
    requires l.Base(side, g) + i < 2 * l.row
    requires forall y :: 0 <= y < 2 * l.row && y % l.keyBits == i ==>
               v[y] == Residue(ValueAt(items, BlockStart(l.keyBits, y), f), c.t)
    ensures Residue(CyclicSum(l.row, v, l.Base(side, g) + i, l.keyBits, l.seg), c.t)
            == Residue(ItemSum(l, items, side, g, f), c.t)
  {
    CyclicIsRegion(c, l, v, items, side, g, i, f);
    RegionIsItems(l, items, total, side, g, f);
  }
}
