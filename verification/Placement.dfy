/** Where the matcher puts each row: a batch, a bucket inside it, and a block inside the bucket. */
module Placement {
  import opened Base

  const U32 := 0x1_0000_0000

  /**
   The slot geometry of one batch: `row` slots per side, cut into buckets of `stride` slots, each
   holding `seg` blocks of keyBits slots.
   */
  datatype Layout = Layout(row: nat, keyBits: nat, buckets: nat, seg: nat, stride: nat) {
    predicate Valid() {
      && IsPowerOfTwo(keyBits) && IsPowerOfTwo(seg)
      && buckets > 0 && U32 % buckets == 0
      && seg * keyBits == stride
      && stride * buckets == row
      && 1 <= seg && 1 <= keyBits <= stride <= row
    }

    /** The first slot of bucket g on a side. */
    function Base(side: nat, g: nat): (x: nat) {
      (if side == 0 then 0 else row) + g * stride
    }

    /** Whether a slot lies in bucket g's region of a side. */
    predicate InRegion(x: int, side: nat, g: nat) {
      Base(side, g) <= x < Base(side, g) + stride
    }

    lemma {:induction false} RegionInSide(side: nat, g: nat)
      requires Valid() && side < 2 && g < buckets
      ensures Base(side, g) + stride <= (if side == 0 then row else 2 * row)
    {
      MulGap(g, buckets, stride);
      assert buckets * stride == stride * buckets;
    }

    /** Regions of different buckets or sides do not meet. */
    lemma {:induction false} RegionsDisjoint(x: int, s1: nat, g1: nat, s2: nat, g2: nat)
      requires Valid()
      requires s1 < 2 && s2 < 2 && g1 < buckets && g2 < buckets
      requires InRegion(x, s1, g1) && InRegion(x, s2, g2)
      ensures s1 == s2 && g1 == g2
    {
      RegionInSide(s1, g1);
      RegionInSide(s2, g2);
      SideStarts(s1, g1);
      SideStarts(s2, g2);
      var y := x - if s1 == 0 then 0 else row;
      SameGroup(g1, g2, stride, y);
    }

    lemma {:induction false} SideStarts(side: nat, g: nat)
      ensures Base(side, g) >= if side == 0 then 0 else row
    {
      MulNonNegative(g, stride);
    }
  }

  /** Two groups of n that share a number are one. */
  lemma {:induction false} SameGroup(a: nat, b: nat, n: nat, y: int)
    requires a * n <= y < a * n + n && b * n <= y < b * n + n
    ensures a == b
  {
    DivModUnique(y, n, a, y - a * n);
    DivModUnique(y, n, b, y - b * n);
  }

  /** The layout that `evaluate` computes, by the same divisions, from checked parameters. */
  function MakeLayout(row: nat, keyBits: nat, buckets: nat): (l: Layout)
    requires keyBits > 0 && buckets > 0
  {
    Layout(row, keyBits, buckets, Div(Div(row, keyBits), buckets), Div(row, buckets))
  }

  /** Every check of `evaluate` together makes the geometry exact: nothing is lost to rounding. */
  lemma {:induction false} MakeLayoutValid(row: nat, keyBits: nat, buckets: nat)
    requires IsPowerOfTwo(row) && row < U32
    requires IsPowerOfTwo(keyBits) && keyBits <= row
    requires IsPowerOfTwo(buckets) && buckets <= Div(row, keyBits)
    ensures MakeLayout(row, keyBits, buckets).Valid()
  {
    PowerOfTwoDivides(keyBits, row);
    var blocks := Div(row, keyBits);
    PowerOfTwoDivides(buckets, blocks);
    var seg := Div(blocks, buckets);
    LayoutProduct(row, keyBits, buckets, blocks, seg);
    PowerOfTwoDivides(buckets, Pow2(32)) by {
      Pow2Of32();
      Pow2IsPowerOfTwo(32);
    }
    Pow2Of32();
  }

  lemma {:induction false} LayoutProduct(row: nat, keyBits: nat, buckets: nat, blocks: nat, seg: nat)
    requires keyBits > 0 && buckets > 0 && row > 0 && row < U32
    requires blocks * keyBits == row && seg * buckets == blocks
    ensures Div(row, buckets) == seg * keyBits && seg * keyBits * buckets == row
    ensures 1 <= seg && keyBits <= seg * keyBits <= row && buckets <= row
  {
    assert seg * keyBits * buckets == seg * buckets * keyBits;
    ExactQuotient(seg * keyBits, buckets);
    MulAtLeast(seg, keyBits);
    MulAtLeast(buckets, seg * keyBits);
    MulAtLeast(seg * keyBits, buckets);
  }

  datatype Item = Item(row: nat, slot: nat)

  // ---- specification ------------------------------------------------------

  /** How many of the first n keys equal k. */
  function CountEqual(keys: seq<nat>, n: nat, k: nat): (c: nat)
    requires n <= |keys|
    ensures c <= n
  {
    if n == 0 then 0 else CountEqual(keys, n - 1, k) + (if keys[n - 1] == k then 1 else 0)
  }

  /** Row r, the i-th of its key, goes to bucket (mix(key) + i) mod buckets. */
  function Bucket(l: Layout, mix: nat -> nat, keys: seq<nat>, r: nat): (g: nat)
    requires l.buckets > 0 && r < |keys|
    ensures g < l.buckets
  {
    (mix(keys[r]) + CountEqual(keys, r, keys[r])) % l.buckets
  }

  /** How many of the first n rows went to bucket g. */
  function Occupancy(l: Layout, mix: nat -> nat, keys: seq<nat>, n: nat, g: nat): (c: nat)
    requires l.buckets > 0 && n <= |keys|
    ensures c <= n
  {
    if n == 0 then 0
    else Occupancy(l, mix, keys, n - 1, g) + (if Bucket(l, mix, keys, n - 1) == g then 1 else 0)
  }

  function Ordinal(l: Layout, mix: nat -> nat, keys: seq<nat>, r: nat): (o: nat)
    requires l.buckets > 0 && r < |keys|
  {
    Occupancy(l, mix, keys, r, Bucket(l, mix, keys, r))
  }

  function SideOf(l: Layout, o: nat): (side: nat)
    requires l.seg > 0
    ensures side < 2
  {
    if Mod(o, 2 * l.seg) < l.seg then 0 else 1
  }

  /** The slot of the o-th row of bucket g, as the placement loop computes it. */
  function SlotAt(l: Layout, g: nat, o: nat): (slot: nat)
    requires l.seg > 0
  {
    var k := Mod(o, 2 * l.seg);
    var blk := g * l.seg + (if k < l.seg then k else k - l.seg);
    if k < l.seg then blk * l.keyBits else l.row + blk * l.keyBits
  }

  function BatchOf(l: Layout, o: nat): (b: nat)
    requires l.seg > 0
  {
    Div(o, 2 * l.seg)
  }

  function ItemOf(l: Layout, mix: nat -> nat, keys: seq<nat>, r: nat): (it: Item)
    requires l.seg > 0 && l.buckets > 0 && r < |keys|
  {
    Item(r, SlotAt(l, Bucket(l, mix, keys, r), Ordinal(l, mix, keys, r)))
  }

  /** Appends an item to batch b, growing the list with empty batches up to b. */
  function AddItem(batches: seq<seq<Item>>, b: nat, it: Item): (r: seq<seq<Item>>)
    ensures |r| == Max(|batches|, b + 1)
    ensures forall c :: 0 <= c < |r| ==>
              r[c] == (if c < |batches| then batches[c] else []) + (if c == b then [it] else [])
  {
    if b < |batches| then batches[b := batches[b] + [it]]
    else batches + seq(b - |batches|, _ => []) + [[it]]
  }

  /** The batches after the first n rows. */
  function Placed(l: Layout, mix: nat -> nat, keys: seq<nat>, n: nat): (batches: seq<seq<Item>>)
    requires l.seg > 0 && l.buckets > 0 && n <= |keys|
  {
    if n == 0 then []
    else AddItem(Placed(l, mix, keys, n - 1), BatchOf(l, Ordinal(l, mix, keys, n - 1)), ItemOf(l, mix, keys, n - 1))
  }

  // ---- the placement loop -------------------------------------------------

  /** The loop's 32-bit wrap-around is invisible: the bucket count divides 2^32. */
  lemma {:induction false} BucketWraps(l: Layout, m: nat, c: nat)
    requires l.Valid()
    ensures (m % U32 + c % U32) % U32 % l.buckets == (m + c) % l.buckets
  {
    ModAdd(m, c, U32);
    RemainderOfRemainder(m + c, U32, l.buckets);
  }

  lemma {:induction false} RemainderOfRemainder(x: nat, m: nat, d: nat)
    requires d > 0 && m > 0 && m % d == 0
    ensures x % m % d == x % d
  {
    var q := x / m;
    assert x == q * m + x % m;
    var e := m / d;
    assert m == e * d;
    assert q * m == q * e * d;
    ModShift(x % m, q * e, d);
  }

  /** keySeq holds, for each key, how many of the first n rows carry it, as a 32-bit counter. */
  ghost predicate Counts(keySeq: map<nat, nat>, keys: seq<nat>, n: nat)
    requires n <= |keys|
  {
    forall k :: (if k in keySeq then keySeq[k] else 0) == CountEqual(keys, n, k) % U32
  }

  lemma {:induction false} CountStep(keySeq: map<nat, nat>, keys: seq<nat>, n: nat, i: nat)
    requires n < |keys| && Counts(keySeq, keys, n)
    requires i == if keys[n] in keySeq then keySeq[keys[n]] else 0
    ensures i == CountEqual(keys, n, keys[n]) % U32
    ensures Counts(keySeq[keys[n] := Bumped(i)], keys, n + 1)
  {
    ModAdd(CountEqual(keys, n, keys[n]), 1, U32);
  }

  /** The bucket as the 32-bit code computes it from the mixed key and the key's running count. */
  function WrappedBucket(l: Layout, m: nat, i: nat): (g: nat)
    requires l.buckets > 0
  {
    (m % U32 + i) % U32 % l.buckets
  }

  function Bumped(i: nat): (j: nat) {
    (i + 1) % U32
  }

  lemma {:induction false} WrappedIsBucket(l: Layout, mix: nat -> nat, keys: seq<nat>, r: nat, i: nat)
    requires l.Valid() && r < |keys| && i == CountEqual(keys, r, keys[r]) % U32
    ensures WrappedBucket(l, mix(keys[r]), i) == Bucket(l, mix, keys, r)
  {
    hide CountEqual;
    BucketWraps(l, mix(keys[r]), CountEqual(keys, r, keys[r]));
  }

  lemma {:induction false} OneBucket(l: Layout, mix: nat -> nat, keys: seq<nat>, r: nat)
    requires l.buckets == 1 && r < |keys|
    ensures Bucket(l, mix, keys, r) == 0
  {
  }

  /** key_seq[key]++ and the bucket of the row that carries the key. */
  method NextBucket(l: Layout, mix: nat -> nat, keys: seq<nat>, r: nat, keySeq: map<nat, nat>)
      returns (g: nat, keySeq': map<nat, nat>)
    requires l.Valid() && r < |keys|
    requires l.buckets > 1 ==> Counts(keySeq, keys, r)
    ensures g == Bucket(l, mix, keys, r)
    ensures l.buckets > 1 ==> Counts(keySeq', keys, r + 1)
  {
    hide Counts, Bucket, CountEqual, WrappedBucket, Bumped;
    var key := keys[r];
    g, keySeq' := 0, keySeq;
    if l.buckets > 1 {
      var i := if key in keySeq then keySeq[key] else 0;
      CountStep(keySeq, keys, r, i);
      WrappedIsBucket(l, mix, keys, r, i);
      keySeq' := keySeq[key := Bumped(i)];
      g := WrappedBucket(l, mix(key), i);
    } else {
      OneBucket(l, mix, keys, r);
    }
  }

  /** occ holds how many of the first r rows went to each bucket. */
  ghost predicate Occupied(l: Layout, mix: nat -> nat, keys: seq<nat>, r: nat, occ: seq<nat>)
    requires l.buckets > 0 && r <= |keys|
  {
    |occ| == l.buckets && forall g :: 0 <= g < l.buckets ==> occ[g] == Occupancy(l, mix, keys, r, g)
  }

  lemma {:induction false} OccupiedNext(l: Layout, mix: nat -> nat, keys: seq<nat>, r: nat, occ: seq<nat>, g: nat)
    requires l.buckets > 0 && r < |keys| && Occupied(l, mix, keys, r, occ) && g == Bucket(l, mix, keys, r)
    ensures g < |occ| && occ[g] == Ordinal(l, mix, keys, r) && Occupied(l, mix, keys, r + 1, occ[g := occ[g] + 1])
  {
    hide Bucket;
  }

  lemma {:induction false} PlacedNext(l: Layout, mix: nat -> nat, keys: seq<nat>, r: nat)
    requires l.seg > 0 && l.buckets > 0 && r < |keys|
    ensures var o := Ordinal(l, mix, keys, r);
            Placed(l, mix, keys, r + 1)
            == AddItem(Placed(l, mix, keys, r), BatchOf(l, o), Item(r, SlotAt(l, Bucket(l, mix, keys, r), o)))
  {
    hide Bucket, Ordinal, SlotAt, BatchOf, AddItem;
  }

  method PlaceRows(l: Layout, mix: nat -> nat, keys: seq<nat>) returns (batches: seq<seq<Item>>)
    requires l.Valid()
    ensures batches == Placed(l, mix, keys, |keys|)
  {
    batches := [];
    var keySeq: map<nat, nat> := map[];
    var occ: seq<nat> := seq(l.buckets, _ => 0);
    assert Counts(keySeq, keys, 0) && Occupied(l, mix, keys, 0, occ) && batches == Placed(l, mix, keys, 0);
    hide Counts, Occupied, Placed, Bucket, Ordinal, SlotAt, BatchOf, AddItem;
    for r := 0 to |keys|
      invariant l.buckets > 1 ==> Counts(keySeq, keys, r)
      invariant Occupied(l, mix, keys, r, occ) && batches == Placed(l, mix, keys, r)
    {
      var g;
      g, keySeq := NextBucket(l, mix, keys, r, keySeq);
      OccupiedNext(l, mix, keys, r, occ, g);
      PlacedNext(l, mix, keys, r);
      var o := occ[g];
      occ := occ[g := o + 1];
      batches := AppendToBatch(batches, BatchOf(l, o), Item(r, SlotAt(l, g, o)));
    }
  }

  /** batched_rows.resize(b + 1) when needed, then emplace_back. */
  method AppendToBatch(batches: seq<seq<Item>>, b: nat, it: Item) returns (r: seq<seq<Item>>)
    ensures r == AddItem(batches, b, it)
  {
    r := batches;
    if b >= |r| {
      r := r + seq(b + 1 - |r|, _ => []);
    }
    r := r[b := r[b] + [it]];
  }

  // ---- where a row lands --------------------------------------------------

  /** The block of its bucket's side that the o-th row of a bucket occupies. */
  function BlockOf(l: Layout, o: nat): (j: nat)
    requires l.seg > 0
    ensures j < l.seg
  {
    var k := Mod(o, 2 * l.seg);
    if k < l.seg then k else k - l.seg
  }

  /** A row lands on a block boundary inside its own bucket's region, on one side. */
  lemma {:induction false} SlotInRegion(l: Layout, g: nat, o: nat)
    requires l.Valid() && g < l.buckets
    ensures SlotAt(l, g, o) == l.Base(SideOf(l, o), g) + BlockOf(l, o) * l.keyBits
    ensures BlockOf(l, o) * l.keyBits + l.keyBits <= l.stride
    ensures l.InRegion(SlotAt(l, g, o), SideOf(l, o), g)
    ensures SlotAt(l, g, o) + l.keyBits <= 2 * l.row
  {
    var j := BlockOf(l, o);
    BlockOffset(g, j, l.seg, l.keyBits);
    l.RegionInSide(SideOf(l, o), g);
  }

  lemma {:induction false} BlockOffset(g: nat, j: nat, seg: nat, d: nat)
    requires j < seg
    ensures (g * seg + j) * d == g * (seg * d) + j * d
    ensures 0 <= j * d && j * d + d <= seg * d
  {
    MulGap(j, seg, d);
    assert (g * seg + j) * d == g * seg * d + j * d;
    assert g * seg * d == g * (seg * d);
  }

  /** Batch, side and block together give back the ordinal. */
  lemma {:induction false} OrdinalRecovered(l: Layout, o1: nat, o2: nat)
    requires l.seg > 0
    requires BatchOf(l, o1) == BatchOf(l, o2) && SideOf(l, o1) == SideOf(l, o2) && BlockOf(l, o1) == BlockOf(l, o2)
    ensures o1 == o2
  {
    DivMod(o1, 2 * l.seg);
    DivMod(o2, 2 * l.seg);
  }

  lemma {:induction false} OccupancyGrows(l: Layout, mix: nat -> nat, keys: seq<nat>, r: nat, n: nat)
    requires l.buckets > 0 && r < n <= |keys|
    ensures Ordinal(l, mix, keys, r) < Occupancy(l, mix, keys, n, Bucket(l, mix, keys, r))
    decreases n
  {
    if r < n - 1 {
      OccupancyGrows(l, mix, keys, r, n - 1);
    }
  }

  /** Two rows of one batch never share a slot. */
  lemma {:induction false} SlotsDistinct(l: Layout, mix: nat -> nat, keys: seq<nat>, r1: nat, r2: nat)
    requires l.Valid() && r1 < r2 < |keys|
    requires BatchOf(l, Ordinal(l, mix, keys, r1)) == BatchOf(l, Ordinal(l, mix, keys, r2))
    ensures ItemOf(l, mix, keys, r1).slot != ItemOf(l, mix, keys, r2).slot
  {
    var g1, o1 := Bucket(l, mix, keys, r1), Ordinal(l, mix, keys, r1);
    var g2, o2 := Bucket(l, mix, keys, r2), Ordinal(l, mix, keys, r2);
    if SlotAt(l, g1, o1) == SlotAt(l, g2, o2) {
      SlotInRegion(l, g1, o1);
      SlotInRegion(l, g2, o2);
      l.RegionsDisjoint(SlotAt(l, g1, o1), SideOf(l, o1), g1, SideOf(l, o2), g2);
      SameMultiple(BlockOf(l, o1), BlockOf(l, o2), l.keyBits);
      OrdinalRecovered(l, o1, o2);
      OccupancyGrows(l, mix, keys, r1, r2);
    }
  }

  lemma {:induction false} SameMultiple(a: nat, b: nat, d: nat)
    requires d > 0 && a * d == b * d
    ensures a == b
  {
    if a < b {
      MulGap(a, b, d);
    } else if b < a {
      MulGap(b, a, d);
    }
  }

  // ---- what the batches hold ----------------------------------------------

  /** A batch the matcher can process: known rows, in order, on distinct block boundaries. */
  ghost predicate BatchOk(l: Layout, items: seq<Item>, total: nat) {
    && (forall i :: 0 <= i < |items| ==>
          items[i].row < total && IsBlockStart(l, items[i].slot))
    && (forall i, j :: 0 <= i < j < |items| ==> items[i].slot != items[j].slot)
  }

  predicate IsBlockStart(l: Layout, x: nat) {
    l.keyBits > 0 && x % l.keyBits == 0 && x + l.keyBits <= 2 * l.row
  }

  /** Every item of a batch is the item of its row, and rows come in table order. */
  ghost predicate HoldsOwnRows(l: Layout, mix: nat -> nat, keys: seq<nat>, n: nat, b: nat, items: seq<Item>)
    requires l.seg > 0 && l.buckets > 0 && n <= |keys|
  {
    && (forall i :: 0 <= i < |items| ==>
          items[i].row < n && items[i] == ItemOf(l, mix, keys, items[i].row)
          && BatchOf(l, Ordinal(l, mix, keys, items[i].row)) == b)
    && (forall i, j :: 0 <= i < j < |items| ==> items[i].row < items[j].row)
  }

  lemma {:induction false} HoldsOneMore(l: Layout, mix: nat -> nat, keys: seq<nat>, n: nat, b: nat, items: seq<Item>,
                                        add: bool)
    requires l.seg > 0 && l.buckets > 0 && n < |keys|
    requires HoldsOwnRows(l, mix, keys, n, b, items)
    requires add ==> BatchOf(l, Ordinal(l, mix, keys, n)) == b
    ensures HoldsOwnRows(l, mix, keys, n + 1, b, items + (if add then [ItemOf(l, mix, keys, n)] else []))
  {
    hide SlotAt, Bucket, Occupancy, BatchOf, Ordinal;
  }

  lemma {:induction false} PlacedHoldsOwnRows(l: Layout, mix: nat -> nat, keys: seq<nat>, n: nat, b: nat)
    requires l.seg > 0 && l.buckets > 0 && n <= |keys|
    requires b < |Placed(l, mix, keys, n)|
    ensures HoldsOwnRows(l, mix, keys, n, b, Placed(l, mix, keys, n)[b])
  {
    hide ItemOf, BatchOf, Ordinal, HoldsOwnRows, AddItem;
    if n > 0 {
      var was := Placed(l, mix, keys, n - 1);
      if b < |was| {
        PlacedHoldsOwnRows(l, mix, keys, n - 1, b);
      } else {
        EmptyHolds(l, mix, keys, n - 1, b);
      }
      HoldsOneMore(l, mix, keys, n - 1, b, if b < |was| then was[b] else [],
                   b == BatchOf(l, Ordinal(l, mix, keys, n - 1)));
    }
  }

  lemma {:induction false} EmptyHolds(l: Layout, mix: nat -> nat, keys: seq<nat>, n: nat, b: nat)
    requires l.seg > 0 && l.buckets > 0 && n <= |keys|
    ensures HoldsOwnRows(l, mix, keys, n, b, [])
  {
  }

  /** Rows are placed injectively: every batch is well formed. */
  lemma {:induction false} PlacedBatchOk(l: Layout, mix: nat -> nat, keys: seq<nat>, b: nat)
    requires l.Valid() && b < |Placed(l, mix, keys, |keys|)|
    ensures BatchOk(l, Placed(l, mix, keys, |keys|)[b], |keys|)
  {
    PlacedHoldsOwnRows(l, mix, keys, |keys|, b);
    var items := Placed(l, mix, keys, |keys|)[b];
    forall i | 0 <= i < |items|
      ensures IsBlockStart(l, items[i].slot)
    {
      ItemAligned(l, mix, keys, items[i].row);
    }
    forall i, j | 0 <= i < j < |items|
      ensures items[i].slot != items[j].slot
    {
      SlotsDistinct(l, mix, keys, items[i].row, items[j].row);
    }
  }

  lemma {:induction false} ItemAligned(l: Layout, mix: nat -> nat, keys: seq<nat>, r: nat)
    requires l.Valid() && r < |keys|
    ensures IsBlockStart(l, ItemOf(l, mix, keys, r).slot)
  {
    hide Bucket, Occupancy, Ordinal;
    var g, o := Bucket(l, mix, keys, r), Ordinal(l, mix, keys, r);
    SlotInRegion(l, g, o);
    SlotAligned(l, g, o);
  }

  lemma {:induction false} SlotAligned(l: Layout, g: nat, o: nat)
    requires l.Valid() && g < l.buckets
    ensures SlotAt(l, g, o) % l.keyBits == 0
  {
    SlotInRegion(l, g, o);
    BaseAligned(l, SideOf(l, o), g);
    hide SlotAt, SideOf, BlockOf;
    AlignedSum(l.Base(SideOf(l, o), g), BlockOf(l, o), l.keyBits);
  }

  lemma {:induction false} BaseAligned(l: Layout, side: nat, g: nat)
    requires l.Valid()
    ensures l.Base(side, g) % l.keyBits == 0
    ensures l.row % l.keyBits == 0
  {
    ExactQuotient(l.seg, l.keyBits);
    AlignedProduct(g, l.stride, l.keyBits);
    AlignedProduct(l.buckets, l.stride, l.keyBits);
    assert l.buckets * l.stride == l.row;
    ModAdd(l.row, g * l.stride, l.keyBits);
  }

  /** A bucket that holds o rows has already opened batch (o - 1) / capacity. */
  lemma {:induction false} BatchOpened(l: Layout, mix: nat -> nat, keys: seq<nat>, n: nat, g: nat)
    requires l.seg > 0 && l.buckets > 0 && n <= |keys|
    ensures Occupancy(l, mix, keys, n, g) > 0 ==>
              BatchOf(l, Occupancy(l, mix, keys, n, g) - 1) < |Placed(l, mix, keys, n)|
  {
    hide ItemOf, Bucket, BatchOf, AddItem;
    if n > 0 {
      assert |Placed(l, mix, keys, n)|
          == Max(|Placed(l, mix, keys, n - 1)|, BatchOf(l, Ordinal(l, mix, keys, n - 1)) + 1);
      hide Placed;
      BatchOpened(l, mix, keys, n - 1, g);
    }
  }

  /** The batch list never skips a batch: a row goes to an open batch or to the next one. */
  lemma {:induction false} NoGap(l: Layout, mix: nat -> nat, keys: seq<nat>, r: nat)
    requires l.seg > 0 && l.buckets > 0 && r < |keys|
    ensures BatchOf(l, Ordinal(l, mix, keys, r)) <= |Placed(l, mix, keys, r)|
  {
    hide ItemOf, Bucket, Occupancy, AddItem, Placed;
    var o := Ordinal(l, mix, keys, r);
    if o > 0 {
      BatchOpened(l, mix, keys, r, Bucket(l, mix, keys, r));
      NextBatch(o, 2 * l.seg);
    } else {
      DivModUnique(0, 2 * l.seg, 0, 0);
    }
  }

  /** No batch is ever empty, so no batch has an all-zero occupancy mask. */
  lemma {:induction false} NoEmptyBatch(l: Layout, mix: nat -> nat, keys: seq<nat>, n: nat)
    requires l.seg > 0 && l.buckets > 0 && n <= |keys|
    ensures forall b :: 0 <= b < |Placed(l, mix, keys, n)| ==> |Placed(l, mix, keys, n)[b]| > 0
  {
    hide ItemOf, BatchOf, Ordinal, AddItem;
    if n > 0 {
      NoEmptyBatch(l, mix, keys, n - 1);
      NoGap(l, mix, keys, n - 1);
    }
  }

  lemma {:induction false} NextBatch(o: nat, d: nat)
    requires o > 0 && d > 0
    ensures Div(o, d) <= Div(o - 1, d) + 1
  {
    DivMod(o, d);
    DivMod(o - 1, d);
    var a, b := Div(o - 1, d), Div(o, d);
    assert (a + 1) * d == a * d + d;
    if b > a + 1 {
      MulGap(a + 1, b, d);
    }
  }
}
