/** `ReferenceBackend::evaluate` and `combine`: the bit-sliced matcher over one shard and over many. */
module Matcher {
  import opened Base
  import opened Seal
  import opened SlotCodec
  import opened Placement
  import opened Indicator
  import opened BlockSum

  /** The key column and the payload column of one shard. */
  datatype Table = Table(keyBits: nat, keys: seq<nat>, rows: seq<seq<byte>>, recordBytes: nat, bytesPerSlot: nat) {
    ghost predicate WellFormed() {
      forall r :: 0 <= r < |keys| ==> keys[r] < Pow2(keyBits)
    }

    function Planes(): (n: nat) {
      PayloadPlaneCount(recordBytes, keyBits, bytesPerSlot)
    }

    function BytesPerBlock(): (n: nat) {
      PayloadBytesPerBlock(keyBits, bytesPerSlot)
    }

    /** The bytes of a record that fit the record size. */
    function Used(r: nat): (bytes: seq<byte>)
      requires r < |rows|
      ensures |bytes| <= recordBytes && bytes <= rows[r]
    {
      rows[r][..Min(|rows[r]|, recordBytes)]
    }

    /** The bytes of row r's record that plane p carries. */
    function Slice(r: nat, p: nat): (bytes: seq<byte>)
      requires r < |rows|
    {
      var lo := p * BytesPerBlock();
      var end := Min(Min(recordBytes, lo + BytesPerBlock()), |rows[r]|);
      if lo < end then rows[r][lo..end] else []
    }

    /** What plane p of row r holds in slot i of the row's block. */
    function PlaneSlot(r: nat, p: nat, i: nat): (v: nat)
      requires r < |rows|
      ensures v < Pow256(bytesPerSlot)
    {
      SlotValue(Used(r), p * BytesPerBlock() + i * bytesPerSlot, bytesPerSlot)
    }
  }

  /** A query over a table, as plain values. */
  datatype Query = Query(t: nat, table: Table, op: Op, values: seq<nat>) {
    ghost predicate Valid() {
      && t >= 2 && table.WellFormed() && |table.rows| == |table.keys|
      && table.keyBits > 0 && table.recordBytes > 0
      && table.bytesPerSlot > 0 && Pow256(table.bytesPerSlot) <= t
    }

    /** The indicator of row r. */
    ghost function RowWeight(r: nat): (w: nat)
      requires t > 0 && r < |table.keys|
      ensures w < t
    {
      Weight(op, Multiplicity(values, table.keys[r]), t)
    }

    /** What row r adds to slot i of plane p of its bucket. The last plane counts matches. */
    ghost function RowValue(r: nat, p: nat, i: nat): (v: nat) {
      if t > 0 && r < |table.keys| && r < |table.rows| then
        RowWeight(r) * (if p >= table.Planes() then 1 else table.PlaneSlot(r, p, i))
      else 0
    }
  }

  // ---- the payload plaintext ----------------------------------------------

  ghost function PaySlot(q: Table, items: seq<Item>, p: nat, x: nat): (v: nat)
    requires q.keyBits > 0
  {
    ValueAt(items, BlockStart(q.keyBits, x), (r: nat) => if r < |q.rows| then q.PlaneSlot(r, p, x % q.keyBits) else 0)
  }

  /** A row's slice of a plane fits its block, and packs to the row's slots of that plane. */
  lemma {:induction false} SlicePacks(q: Table, r: nat, p: nat, packed: seq<nat>, i: nat)
    requires r < |q.rows| && q.keyBits > 0 && q.bytesPerSlot > 0 && p < q.Planes() && i < q.keyBits
    requires IsPacked(q.Slice(r, p), q.bytesPerSlot, packed)
    ensures |packed| <= q.keyBits
    ensures q.PlaneSlot(r, p, i) == if i < |packed| then packed[i] else 0
  {
    hide Table.Slice, Table.Used, Table.Planes;
    var bps := q.bytesPerSlot;
    var lo := p * q.BytesPerBlock();
    var part, used := q.Slice(r, p), q.Used(r);
    SliceBounds(q, r, p);
    MulGap(i, q.keyBits, bps);
    SlotValueExt(part, used, i * bps, lo + i * bps, bps);
    PackedLength(|part|, q.keyBits, bps);
    if i >= |packed| {
      PlaneBound(|part|, bps);
      MulMonotone(|packed|, i, bps);
      SlotValueTail(part, i * bps, 0, bps);
    }
  }

  lemma {:induction false} PackedLength(n: nat, slots: nat, d: nat)
    requires d > 0 && n <= slots * d
    ensures (n + d - 1) / d <= slots
  {
    PlaneBound(n, d);
    var m := (n + d - 1) / d;
    if m > slots {
      MulGap(slots, m, d);
    }
  }

  lemma {:induction false} SliceBounds(q: Table, r: nat, p: nat)
    requires r < |q.rows| && q.keyBits > 0 && q.bytesPerSlot > 0 && p < q.Planes()
    ensures var lo := p * q.BytesPerBlock();
            && lo < q.recordBytes
            && |q.Slice(r, p)| <= q.BytesPerBlock()
            && forall a :: 0 <= a < q.BytesPerBlock() ==> ByteAt(q.Slice(r, p), a) == ByteAt(q.Used(r), a + lo)
  {
    PlanesCoverRecord(q.recordBytes, q.keyBits, q.bytesPerSlot);
    MulGap(p, q.Planes(), q.BytesPerBlock());
  }

  /** Plane p of every row's payload, packed into its block; the rest of the vector is zero. */
  method LayPayload(l: Layout, q: Table, items: seq<Item>, p: nat) returns (r: Result<seq<nat>>)
    requires l.keyBits == q.keyBits > 0 && BatchOk(l, items, |q.rows|)
    requires q.bytesPerSlot > 0 && p < q.Planes()
    ensures q.bytesPerSlot <= MAX_BYTES_PER_SLOT ==> r.Ok?
    ensures r.Ok? ==> |r.value| == 2 * l.row
    ensures r.Ok? ==> forall x :: 0 <= x < 2 * l.row ==> r.value[x] == PaySlot(q, items, p, x)
  {
    var paySlots: seq<nat> := seq(2 * l.row, _ => 0);
    NoItems(q, p);
    assert Laid(l, q, items, 0, p, paySlots);
    hide Laid, BatchOk, Table.Planes;
    for m := 0 to |items|
      invariant Laid(l, q, items, m, p, paySlots)
    {
      var next := LayOne(l, q, items, m, p, paySlots);
      if next.Err? {
        return Err(next.error);
      }
      paySlots := next.value;
    }
    LaidAll(l, q, items, p, paySlots);
    return Ok(paySlots);
  }

  /** The first m items of a batch are laid out, and nothing else. */
  ghost predicate Laid(l: Layout, q: Table, items: seq<Item>, m: nat, p: nat, slots: seq<nat>)
    requires q.keyBits > 0 && m <= |items|
  {
    |slots| == 2 * l.row && forall x :: 0 <= x < 2 * l.row ==> slots[x] == PaySlot(q, items[..m], p, x)
  }

  lemma {:induction false} LaidAll(l: Layout, q: Table, items: seq<Item>, p: nat, slots: seq<nat>)
    requires q.keyBits > 0 && Laid(l, q, items, |items|, p, slots)
    ensures |slots| == 2 * l.row && forall x :: 0 <= x < 2 * l.row ==> slots[x] == PaySlot(q, items, p, x)
  {
    assert items[..|items|] == items;
  }

  lemma {:induction false} SliceStops(q: Table, r: nat, p: nat)
    requires r < |q.rows| && q.keyBits > 0 && q.bytesPerSlot > 0 && p < q.Planes()
    ensures var lo := p * q.BytesPerBlock();
            var end := Min(Min(q.recordBytes, lo + q.BytesPerBlock()), |q.rows[r]|);
            q.Slice(r, p) == if lo < |q.rows[r]| && lo <= end then q.rows[r][lo..end] else []
    ensures p * q.BytesPerBlock() < q.recordBytes && q.BytesPerBlock() > 0
  {
    SliceBounds(q, r, p);
    MulAtLeast(q.keyBits, q.bytesPerSlot);
  }

  /** A record's slice of plane p as slots; none when the record ends before the plane. */
  method SliceSlots(q: Table, r: nat, p: nat) returns (slots: Result<seq<nat>>)
    requires r < |q.rows| && q.keyBits > 0 && q.bytesPerSlot > 0 && p < q.Planes()
    ensures q.bytesPerSlot <= MAX_BYTES_PER_SLOT ==> slots.Ok?
    ensures slots.Ok? ==> IsPacked(q.Slice(r, p), q.bytesPerSlot, slots.value) && |slots.value| <= q.keyBits
  {
    SliceStops(q, r, p);
    hide Table.Slice, Table.Planes, Table.BytesPerBlock, IsPacked;
    var lo := p * q.BytesPerBlock();
    var record := q.rows[r];
    if lo < |record| {
      var end := Min(Min(q.recordBytes, lo + q.BytesPerBlock()), |record|);
      slots := PackBytesToSlots(record[lo..end], q.bytesPerSlot);
      if slots.Err? {
        return;
      }
    } else {
      NothingPacked(q.bytesPerSlot);
      slots := Ok([]);
    }
    SlicePacks(q, r, p, slots.value, 0);
  }

  lemma {:induction false} NothingPacked(bytesPerSlot: nat)
    requires bytesPerSlot > 0
    ensures IsPacked([], bytesPerSlot, [])
  {
    DivModUnique(bytesPerSlot - 1, bytesPerSlot, 0, bytesPerSlot - 1);
  }

  lemma {:induction false} ItemFits(l: Layout, items: seq<Item>, total: nat, m: nat)
    requires BatchOk(l, items, total) && m < |items|
    ensures items[m].row < total && items[m].slot + l.keyBits <= 2 * l.row
  {
  }

  /** One record's slice of plane p, written into its block. */
  method LayOne(l: Layout, q: Table, items: seq<Item>, m: nat, p: nat, paySlots: seq<nat>) returns (r: Result<seq<nat>>)
    requires l.keyBits == q.keyBits > 0 && BatchOk(l, items, |q.rows|) && m < |items|
    requires q.bytesPerSlot > 0 && p < q.Planes() && Laid(l, q, items, m, p, paySlots)
    ensures q.bytesPerSlot <= MAX_BYTES_PER_SLOT ==> r.Ok?
    ensures r.Ok? ==> Laid(l, q, items, m + 1, p, r.value)
  {
    hide BatchOk, Table.Planes, Table.Slice, IsPacked, PaySlot, Written;
    ItemFits(l, items, |q.rows|, m);
    var packed := SliceSlots(q, items[m].row, p);
    if packed.Err? {
      return Err(packed.error);
    }
    var laid := WriteAt(paySlots, items[m].slot, packed.value);
    LaidBlock(l, q, items, m, p, paySlots, laid, packed.value);
    r := Ok(laid);
  }

  lemma {:induction false} NoItems(q: Table, p: nat)
    requires q.keyBits > 0
    ensures forall x: nat :: PaySlot(q, [], p, x) == 0
  {
  }

  /** r is the slots with the values written at an offset. */
  ghost predicate Written(slots: seq<nat>, at: nat, vals: seq<nat>, r: seq<nat>) {
    && |r| == |slots|
    && forall x :: 0 <= x < |slots| ==> r[x] == if at <= x < at + |vals| then vals[x - at] else slots[x]
  }

  method WriteAt(slots: seq<nat>, at: nat, vals: seq<nat>) returns (r: seq<nat>)
    requires at + |vals| <= |slots|
    ensures Written(slots, at, vals, r)
  {
    r := slots;
    for s := 0 to |vals|
      invariant |r| == |slots|
      invariant forall x :: 0 <= x < |slots| ==> r[x] == if at <= x < at + s then vals[x - at] else slots[x]
    {
      r := r[at + s := vals[s]];
    }
  }

  /** Before its item is processed, a block is empty. */
  lemma {:induction false} EmptyBefore(l: Layout, q: Table, items: seq<Item>, m: nat, p: nat, x: nat)
    requires l.keyBits == q.keyBits > 0 && BatchOk(l, items, |q.rows|) && m < |items|
    requires BlockStart(l.keyBits, x) == items[m].slot
    ensures PaySlot(q, items[..m], p, x) == 0
  {
    RowAtIsItem(items[..m], items[m].slot);
  }

  lemma {:induction false} PaySlotStep(l: Layout, q: Table, items: seq<Item>, m: nat, p: nat, x: nat)
    requires l.keyBits == q.keyBits > 0 && BatchOk(l, items, |q.rows|) && m < |items|
    ensures PaySlot(q, items[..m + 1], p, x) ==
            if BlockStart(l.keyBits, x) == items[m].slot then q.PlaneSlot(items[m].row, p, x % q.keyBits)
            else PaySlot(q, items[..m], p, x)
  {
    hide BlockStart;
    assert items[..m + 1][..m] == items[..m];
    assert items[..m + 1][m] == items[m];
  }

  lemma {:induction false} LaidBlock(l: Layout, q: Table, items: seq<Item>, m: nat, p: nat,
                                     before: seq<nat>, after: seq<nat>, packed: seq<nat>)
    requires l.keyBits == q.keyBits > 0 && BatchOk(l, items, |q.rows|) && m < |items|
    requires q.bytesPerSlot > 0 && p < q.Planes()
    requires IsPacked(q.Slice(items[m].row, p), q.bytesPerSlot, packed)
    requires Laid(l, q, items, m, p, before) && Written(before, items[m].slot, packed, after)
    ensures Laid(l, q, items, m + 1, p, after)
  {
    var at, r := items[m].slot, items[m].row;
    SlicePacks(q, r, p, packed, 0);
    hide PaySlot, BlockStart, IsPacked;
    forall x | 0 <= x < 2 * l.row
      ensures after[x] == PaySlot(q, items[..m + 1], p, x)
    {
      PaySlotStep(l, q, items, m, p, x);
      InBlock(l.keyBits, at, x);
      if at <= x < at + l.keyBits {
        SlicePacks(q, r, p, packed, x - at);
        EmptyBefore(l, q, items, m, p, x);
      }
    }
  }

  // ---- one batch ----------------------------------------------------------

  /** What one batch adds to slot i of plane p of bucket g on a side. */
  ghost function BatchValue(l: Layout, q: Query, items: seq<Item>, side: nat, g: nat, p: nat, i: nat): (v: nat) {
    ItemSum(l, items, side, g, (r: nat) => q.RowValue(r, p, i))
  }

  /** What a list of batches adds. */
  ghost function TotalValue(l: Layout, q: Query, batches: seq<seq<Item>>, side: nat, g: nat, p: nat, i: nat): (v: nat) {
    if batches == [] then 0
    else TotalValue(l, q, batches[..|batches| - 1], side, g, p, i)
         + BatchValue(l, q, batches[|batches| - 1], side, g, p, i)
  }

  /** Slot i of a bucket's first block exists. */
  lemma {:induction false} ReadableSlot(l: Layout, side: nat, g: nat, i: nat)
    requires l.Valid() && side < 2 && g < l.buckets && i < l.keyBits
    ensures l.Base(side, g) + i < 2 * l.row
  {
    l.RegionInSide(side, g);
  }

  /** A plane's slot i in a bucket's first block, the only slots a client reads. */
  ghost function ReadSlot(l: Layout, ct: Ciphertext, side: nat, g: nat, i: nat): (v: nat)
    requires l.Valid() && side < 2 && g < l.buckets && i < l.keyBits && |ct.slots| == 2 * l.row
  {
    ReadableSlot(l, side, g, i);
    ct.slots[l.Base(side, g) + i]
  }

  /** The readable slots of one plane hold the sum over the given batches. */
  ghost predicate PlaneHolds(c: Context, l: Layout, q: Query, ct: Ciphertext, batches: seq<seq<Item>>, p: nat)
    requires c.Valid() && l.Valid() && l.row == c.row
  {
    && IsCipher(c, ct)
    && forall side, g, i :: 0 <= side < 2 && 0 <= g < l.buckets && 0 <= i < l.keyBits ==>
         ReadSlot(l, ct, side, g, i) == Residue(TotalValue(l, q, batches, side, g, p, i), c.t)
  }

  /** sel carries, in every slot, the match indicator of the row whose block covers it. */
  ghost predicate IsIndicator(c: Context, q: Query, items: seq<Item>, sel: Ciphertext)
    requires q.table.keyBits > 0 && c.t > 0
  {
    && IsCipher(c, sel)
    && forall y :: 0 <= y < 2 * c.row ==>
         sel.slots[y] == IndicatorSlot(c.t, q.table.keyBits, items, q.table.keys, q.op, q.values, y)
  }

  /** v carries, in every slot, the plane-p value of the row whose block covers it. */
  ghost predicate IsProduct(c: Context, q: Query, items: seq<Item>, p: nat, v: Ciphertext)
    requires q.table.keyBits > 0 && c.t > 0
  {
    && IsCipher(c, v)
    && forall y :: 0 <= y < 2 * c.row ==>
         v.slots[y] == Residue(ValueAt(items, BlockStart(q.table.keyBits, y),
             (r: nat) => q.RowValue(r, p, y % q.table.keyBits)), c.t)
  }

  lemma {:induction false} ProductPlane(c: Context, q: Query, items: seq<Item>, p: nat, sel: Ciphertext, pay: seq<nat>,
                                        v: Ciphertext)
    requires q.Valid() && q.t == c.t && IsIndicator(c, q, items, sel) && IsCipher(c, v) && |pay| == 2 * c.row
    requires forall y :: 0 <= y < 2 * c.row ==>
               pay[y] == if p < q.table.Planes() then PaySlot(q.table, items, p, y) else 1
    requires forall y {:trigger v.slots[y]} :: 0 <= y < 2 * c.row ==> v.slots[y] == Residue(sel.slots[y] * pay[y], c.t)
    ensures IsProduct(c, q, items, p, v)
  {
    hide IndicatorSlot, PaySlot, ValueAt, BlockStart, Query.RowValue, Table.Planes;
    forall y | 0 <= y < 2 * c.row
      ensures v.slots[y] == Residue(ValueAt(items, BlockStart(q.table.keyBits, y),
                (r: nat) => q.RowValue(r, p, y % q.table.keyBits)), c.t)
    {
      ProductSlot(q, items, p, sel.slots[y], pay[y], y);
    }
  }

  /** Indicator times payload is, slot by slot, the value of the row in the slot's block. */
  lemma {:induction false} ProductSlot(q: Query, items: seq<Item>, p: nat, sel: nat, pay: nat, y: nat)
    requires q.Valid()
    requires sel == IndicatorSlot(q.t, q.table.keyBits, items, q.table.keys, q.op, q.values, y)
    requires p < q.table.Planes() ==> pay == PaySlot(q.table, items, p, y)
    requires p >= q.table.Planes() ==> pay == 1
    ensures sel * pay == ValueAt(items, BlockStart(q.table.keyBits, y),
              (r: nat) => q.RowValue(r, p, y % q.table.keyBits))
  {
    hide BlockStart, Table.PlaneSlot, Table.Planes, Weight, Multiplicity;
  }

  /** A block-summed plane holds, in each bucket, what the batch adds to it. */
  lemma {:induction false} SummedPlane(c: Context, l: Layout, q: Query, items: seq<Item>, p: nat, v: Ciphertext,
                                       out: Ciphertext)
    requires c.Valid() && l.Valid() && l.row == c.row && l.keyBits == q.table.keyBits && IsCipher(c, v)
    requires BatchOk(l, items, |q.table.keys|)
    requires SumsBlocks(c, out, v.slots, l.keyBits, l.seg) && IsProduct(c, q, items, p, v)
    ensures PlaneHolds(c, l, q, out, [items], p)
  {
    forall side, g, i | 0 <= side < 2 && 0 <= g < l.buckets && 0 <= i < l.keyBits
      ensures ReadSlot(l, out, side, g, i) == Residue(TotalValue(l, q, [items], side, g, p, i), c.t)
    {
      ReadableSlot(l, side, g, i);
      var f := (r: nat) => q.RowValue(r, p, i);
      SummedSlot(c, l, v.slots, items, |q.table.keys|, side, g, i, f);
      assert TotalValue(l, q, [], side, g, p, i) == 0;
    }
  }

  lemma {:induction false} TotalConcat(l: Layout, q: Query, xs: seq<seq<Item>>, ys: seq<seq<Item>>,
                                       side: nat, g: nat, p: nat, i: nat)
    ensures TotalValue(l, q, xs + ys, side, g, p, i)
            == TotalValue(l, q, xs, side, g, p, i) + TotalValue(l, q, ys, side, g, p, i)
    decreases ys
  {
    hide BatchValue;
    if ys == [] {
      assert xs + ys == xs;
    } else {
      var front := ys[..|ys| - 1];
      assert (xs + ys)[..|xs + ys| - 1] == xs + front;
      TotalConcat(l, q, xs, front, side, g, p, i);
    }
  }

  /** Homomorphic addition of two planes adds what they hold. */
  lemma {:induction false} PlanesAdd(c: Context, l: Layout, q: Query, a: Ciphertext, b: Ciphertext, r: Ciphertext,
                                     xs: seq<seq<Item>>, ys: seq<seq<Item>>, p: nat)
    requires c.Valid() && l.Valid() && l.row == c.row
    requires PlaneHolds(c, l, q, a, xs, p) && PlaneHolds(c, l, q, b, ys, p) && IsCipher(c, r)
    requires forall x {:trigger r.slots[x]} :: 0 <= x < 2 * c.row ==>
               r.slots[x] == Residue(a.slots[x] + b.slots[x], c.t)
    ensures PlaneHolds(c, l, q, r, xs + ys, p)
  {
    hide TotalValue;
    forall side, g, i | 0 <= side < 2 && 0 <= g < l.buckets && 0 <= i < l.keyBits
      ensures ReadSlot(l, r, side, g, i) == Residue(TotalValue(l, q, xs + ys, side, g, p, i), c.t)
    {
      ReadableSlot(l, side, g, i);
      TotalConcat(l, q, xs, ys, side, g, p, i);
      var u, v := TotalValue(l, q, xs, side, g, p, i), TotalValue(l, q, ys, side, g, p, i);
      assert ReadSlot(l, a, side, g, i) == Residue(u, c.t);
      assert ReadSlot(l, b, side, g, i) == Residue(v, c.t);
      ModAdd(u, v, c.t);
    }
  }

  /** Every plane, and the trailing presence plane, holds the sum over the given batches. */
  ghost predicate Holds(c: Context, l: Layout, q: Query, acc: seq<Ciphertext>, batches: seq<seq<Item>>, depth: nat)
    requires c.Valid() && l.Valid() && l.row == c.row
  {
    && |acc| == q.table.Planes() + 1
    && (forall p :: 0 <= p < |acc| ==> PlaneHolds(c, l, q, acc[p], batches, p) && acc[p].depth <= depth)
    && (batches != [] ==> acc[|acc| - 1].depth == depth)
  }

  method AnyNonZero(slots: seq<nat>) returns (any: bool)
    ensures any <==> exists x :: 0 <= x < |slots| && slots[x] != 0
  {
    any := false;
    for i := 0 to |slots|
      invariant !any && forall x :: 0 <= x < i ==> slots[x] == 0
    {
      if slots[i] != 0 {
        return true;
      }
    }
  }

  lemma {:induction false} PayloadFits(c: Context, table: Table, items: seq<Item>, p: nat, paySlots: seq<nat>)
    requires table.keyBits > 0 && 0 < c.t && Pow256(table.bytesPerSlot) <= c.t && |paySlots| == 2 * c.row
    requires forall x :: 0 <= x < 2 * c.row ==> paySlots[x] == PaySlot(table, items, p, x)
    ensures IsPlain(c, paySlots)
  {
    hide BlockStart, Table.PlaneSlot;
  }

  /** A ciphertext of zeros is the block sum of zeros. */
  lemma {:induction false} ZeroSums(c: Context, z: Ciphertext, d: nat, n: nat)
    requires c.Valid() && IsCipher(c, z) && forall x :: 0 <= x < 2 * c.row ==> z.slots[x] == 0
    ensures SumsBlocks(c, z, z.slots, d, n)
  {
    forall x | 0 <= x < 2 * c.row
      ensures z.slots[x] == Residue(CyclicSum(c.row, z.slots, x, d, n), c.t)
    {
      SumZero(n, j => CyclicTerm(c.row, z.slots, x, d, j));
      ModSmall(0, c.t);
    }
  }

  /** Skipping a plane whose payload plaintext is zero loses nothing. */
  lemma {:induction false} IdlePlane(c: Context, l: Layout, q: Query, items: seq<Item>, sel: Ciphertext,
                                     acc: Ciphertext,
                                     batches: seq<seq<Item>>, p: nat, paySlots: seq<nat>)
    requires c.Valid() && l.Valid() && l.row == c.row && q.t == c.t && l.keyBits == q.table.keyBits
    requires q.Valid() && BatchOk(l, items, |q.table.keys|) && p < q.table.Planes()
    requires IsIndicator(c, q, items, sel) && PlaneHolds(c, l, q, acc, batches, p)
    requires |paySlots| == 2 * c.row
    requires forall x :: 0 <= x < 2 * c.row ==> paySlots[x] == PaySlot(q.table, items, p, x) == 0
    ensures PlaneHolds(c, l, q, acc, batches + [items], p)
  {
    assert IsCipher(c, acc) && IsCipher(c, sel);
    hide IsIndicator, IsProduct, PaySlot, PlaneHolds, SumsBlocks;
    var z := Ciphertext(seq(2 * c.row, _ => 0), 0);
    ModSmall(0, c.t);
    ProductPlane(c, q, items, p, sel, paySlots, z);
    ZeroSums(c, z, l.keyBits, l.seg);
    SummedPlane(c, l, q, items, p, z, z);
    forall x | 0 <= x < 2 * c.row
      ensures acc.slots[x] == Residue(acc.slots[x] + z.slots[x], c.t)
    {
      ModSmall(acc.slots[x], c.t);
    }
    PlanesAdd(c, l, q, acc, z, acc, batches, [items], p);
  }

  /** One payload plane of one batch: multiply by the payload, sum per bucket, add to the accumulator. */
  method AddPayloadPlane(c: Context, l: Layout, ghost q: Query, table: Table, items: seq<Item>, sel: Ciphertext,
                         acc: Ciphertext, ghost batches: seq<seq<Item>>, p: nat, galois: seq<int>)
      returns (r: Result<Ciphertext>)
    requires c.Valid() && l.Valid() && l.row == c.row && q.t == c.t && q.table == table && l.keyBits == table.keyBits
    requires q.Valid() && BatchOk(l, items, |table.keys|) && p < table.Planes() && HasSteps(galois, l.keyBits, l.row)
    requires IsIndicator(c, q, items, sel) && PlaneHolds(c, l, q, acc, batches, p)
    ensures table.bytesPerSlot <= MAX_BYTES_PER_SLOT ==> r.Ok?
    ensures r.Ok? ==> PlaneHolds(c, l, q, r.value, batches + [items], p)
    ensures r.Ok? ==> r.value.depth <= Max(acc.depth, sel.depth)
  {
    assert IsCipher(c, acc) && IsCipher(c, sel);
    hide IsIndicator, IsProduct, PaySlot, PlaneHolds, SumsBlocks, HasSteps;
    var laid := LayPayload(l, table, items, p);
    if laid.Err? {
      return Err(laid.error);
    }
    var paySlots := laid.value;
    PayloadFits(c, table, items, p, paySlots);
    var any := AnyNonZero(paySlots);
    if !any {
      IdlePlane(c, l, q, items, sel, acc, batches, p, paySlots);
      return Ok(acc);
    }
    var product := MultiplyPlain(c, sel, paySlots);
    ProductPlane(c, q, items, p, sel, paySlots, product);
    var out := SumBlocks(c, l, product, galois);
    SummedPlane(c, l, q, items, p, product, out);
    var sum := Add(c, acc, out);
    PlanesAdd(c, l, q, acc, out, sum, batches, [items], p);
    return Ok(sum);
  }

  /** The presence plane: the indicator itself, summed per bucket. */
  method AddPresence(c: Context, l: Layout, ghost q: Query, items: seq<Item>, sel: Ciphertext, acc: Ciphertext,
                     ghost batches: seq<seq<Item>>, galois: seq<int>)
      returns (r: Ciphertext)
    requires c.Valid() && l.Valid() && l.row == c.row && q.t == c.t && l.keyBits == q.table.keyBits
    requires q.Valid() && BatchOk(l, items, |q.table.keys|) && HasSteps(galois, l.keyBits, l.row)
    requires IsIndicator(c, q, items, sel) && PlaneHolds(c, l, q, acc, batches, q.table.Planes())
    ensures PlaneHolds(c, l, q, r, batches + [items], q.table.Planes()) && r.depth == Max(acc.depth, sel.depth)
  {
    assert IsCipher(c, acc) && IsCipher(c, sel);
    hide IsIndicator, IsProduct, PaySlot, PlaneHolds, SumsBlocks, HasSteps;
    ghost var p := q.table.Planes();
    ghost var ones := seq(2 * c.row, _ => 1);
    forall y | 0 <= y < 2 * c.row
      ensures sel.slots[y] == Residue(sel.slots[y] * ones[y], c.t)
    {
      ModSmall(sel.slots[y], c.t);
    }
    ProductPlane(c, q, items, p, sel, ones, sel);
    var pres := SumBlocks(c, l, sel, galois);
    SummedPlane(c, l, q, items, p, sel, pres);
    r := Add(c, acc, pres);
    PlanesAdd(c, l, q, acc, pres, r, batches, [items], p);
  }

  /** `process_batch`: adds one batch's payload planes and presence into the accumulator. */
  method ProcessBatch(c: Context, l: Layout, ghost q: Query, table: Table, op: Op, operands: seq<Ciphertext>,
                      items: seq<Item>, local: seq<Ciphertext>, ghost batches: seq<seq<Item>>,
                      levels: nat, galois: seq<int>)
      returns (r: Result<seq<Ciphertext>>)
    requires c.Valid() && l.Valid() && l.row == c.row && q.t == c.t && l.keyBits == table.keyBits
    requires q.Valid() && q.table == table && q.op == op && Pow2(levels) == l.keyBits
    requires AreOperands(c, operands) && EncryptsValues(operands, q.values, l.keyBits)
    requires BatchOk(l, items, |table.keys|) && |items| > 0 && HasSteps(galois, l.keyBits, l.row)
    requires Holds(c, l, q, local, batches, 1 + levels)
    ensures table.bytesPerSlot <= MAX_BYTES_PER_SLOT ==> r.Ok?
    ensures r.Ok? ==> Holds(c, l, q, r.value, batches + [items], 1 + levels)
  {
    hide IndicatorSlot, PlaneHolds, HasSteps, EncryptsValues, AreOperands, BatchOk;
    var sel := MatchIndicator(c, l, items, table.keys, op, operands, q.values, levels, galois);
    assert IsIndicator(c, q, items, sel);
    var acc := local;
    var planes := table.Planes();
    for p := 0 to planes
      invariant |acc| == planes + 1 && acc[planes] == local[planes]
      invariant forall k :: 0 <= k < p ==>
                  PlaneHolds(c, l, q, acc[k], batches + [items], k) && acc[k].depth <= 1 + levels
      invariant forall k :: p <= k < planes ==> acc[k] == local[k]
    {
      assert PlaneHolds(c, l, q, local[p], batches, p);
      var plane := AddPayloadPlane(c, l, q, table, items, sel, acc[p], batches, p, galois);
      if plane.Err? {
        return Err(plane.error);
      }
      acc := acc[p := plane.value];
    }
    assert PlaneHolds(c, l, q, local[planes], batches, planes);
    var presence := AddPresence(c, l, q, items, sel, acc[planes], batches, galois);
    return Ok(acc[planes := presence]);
  }
}
