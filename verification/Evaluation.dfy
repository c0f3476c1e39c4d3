/** `evaluate` over a whole shard: checks, placement, worker threads, and the row-level meaning. */
module Evaluation {
  import opened Base
  import opened Seal
  import opened SlotCodec
  import opened Placement
  import opened Indicator
  import opened BlockSum
  import opened Matcher

  // ---- from batches to rows -----------------------------------------------

  /** What the first n rows add to slot i of plane p of bucket g on a side. */
  ghost function RowTotal(l: Layout, mix: nat -> nat, q: Query, n: nat, side: nat, g: nat, p: nat, i: nat): (v: nat)
    requires l.seg > 0 && l.buckets > 0 && n <= |q.table.keys|
  {
    if n == 0 then 0
    else
      RowTotal(l, mix, q, n - 1, side, g, p, i)
      + (if Bucket(l, mix, q.table.keys, n - 1) == g && SideOf(l, Ordinal(l, mix, q.table.keys, n - 1)) == side
         then q.RowValue(n - 1, p, i) else 0)
  }

  lemma {:induction false} TotalAddItem(l: Layout, q: Query, batches: seq<seq<Item>>, b: nat, it: Item,
                                        side: nat, g: nat, p: nat, i: nat)
    requires b <= |batches|
    ensures TotalValue(l, q, AddItem(batches, b, it), side, g, p, i)
            == TotalValue(l, q, batches, side, g, p, i)
               + (if l.InRegion(it.slot, side, g) then q.RowValue(it.row, p, i) else 0)
    decreases batches
  {
    hide Query.RowValue, Layout.InRegion;
    var r := AddItem(batches, b, it);
    if b == |batches| {
      assert r == batches + [[it]];
      assert r[..|r| - 1] == batches;
      BatchAddItem(l, q, [], it, side, g, p, i);
      assert [] + [it] == [it];
    } else {
      var front, last := batches[..|batches| - 1], batches[|batches| - 1];
      if b == |batches| - 1 {
        assert r[..|r| - 1] == front;
        BatchAddItem(l, q, last, it, side, g, p, i);
      } else {
        assert r[..|r| - 1] == AddItem(front, b, it);
        TotalAddItem(l, q, front, b, it, side, g, p, i);
      }
    }
  }

  lemma {:induction false} BatchAddItem(l: Layout, q: Query, items: seq<Item>, it: Item, side: nat, g: nat, p: nat,
                                        i: nat)
    ensures BatchValue(l, q, items + [it], side, g, p, i)
            == BatchValue(l, q, items, side, g, p, i)
               + (if l.InRegion(it.slot, side, g) then q.RowValue(it.row, p, i) else 0)
    ensures BatchValue(l, q, [], side, g, p, i) == 0
  {
    hide Query.RowValue, Layout.InRegion;
    assert (items + [it])[..|items|] == items;
  }

  /** Batches are a partition of the rows: summing over batches is summing over rows by bucket and side. */
  lemma {:induction false} TotalIsRows(l: Layout, mix: nat -> nat, q: Query, n: nat, side: nat, g: nat, p: nat, i: nat)
    requires l.Valid() && n <= |q.table.keys| && side < 2 && g < l.buckets
    ensures TotalValue(l, q, Placed(l, mix, q.table.keys, n), side, g, p, i) == RowTotal(l, mix, q, n, side, g, p, i)
  {
    hide Bucket, Occupancy, Ordinal, BatchOf, SlotAt, Query.RowValue, TotalValue, AddItem;
    if n == 0 {
      NoBatches(l, q, side, g, p, i);
    } else {
      var keys := q.table.keys;
      TotalIsRows(l, mix, q, n - 1, side, g, p, i);
      NoGap(l, mix, keys, n - 1);
      var it := ItemOf(l, mix, keys, n - 1);
      TotalAddItem(l, q, Placed(l, mix, keys, n - 1), BatchOf(l, Ordinal(l, mix, keys, n - 1)), it, side, g, p, i);
      ItemRegion(l, mix, keys, n - 1, side, g);
    }
  }

  lemma {:induction false} NoBatches(l: Layout, q: Query, side: nat, g: nat, p: nat, i: nat)
    ensures TotalValue(l, q, [], side, g, p, i) == 0
  {
  }

  /** A row's slot lies in exactly its own bucket's region, on its own side. */
  lemma {:induction false} ItemRegion(l: Layout, mix: nat -> nat, keys: seq<nat>, r: nat, side: nat, g: nat)
    requires l.Valid() && r < |keys| && side < 2 && g < l.buckets
    ensures l.InRegion(ItemOf(l, mix, keys, r).slot, side, g)
            <==> Bucket(l, mix, keys, r) == g && SideOf(l, Ordinal(l, mix, keys, r)) == side
  {
    hide Bucket, Occupancy, Ordinal, Layout.InRegion;
    var g', o := Bucket(l, mix, keys, r), Ordinal(l, mix, keys, r);
    SlotInRegion(l, g', o);
    if l.InRegion(SlotAt(l, g', o), side, g) {
      l.RegionsDisjoint(SlotAt(l, g', o), side, g, SideOf(l, o), g');
    }
  }

  // ---- worker threads -----------------------------------------------------

  /** The batches that worker t of n processes: t, t + n, t + 2n, ... */
  ghost function Share(batches: seq<seq<Item>>, t: nat, n: nat): (r: seq<seq<Item>>)
    requires n > 0
  {
    if batches == [] then []
    else
      var k := |batches| - 1;
      Share(batches[..k], t, n) + (if k % n == t then [batches[k]] else [])
  }

  lemma {:induction false} ShareSkips(batches: seq<seq<Item>>, t: nat, n: nat, i: nat, j: nat)
    requires n > 0 && t < n && i % n == t && i < j <= |batches| && j <= i + n
    ensures Share(batches[..j], t, n) == Share(batches[..i], t, n) + [batches[i]]
    decreases j
  {
    assert batches[..j][..j - 1] == batches[..j - 1];
    if j - 1 > i {
      ShareSkips(batches, t, n, i, j - 1);
      ResiduesDiffer(i, j - 1, n);
    }
  }

  ghost function ShareTotal(l: Layout, q: Query, batches: seq<seq<Item>>, t: int, n: nat, side: nat, g: nat, p: nat,
                            i: nat): (v: int)
    requires n > 0
  {
    if t < 0 then 0 else TotalValue(l, q, Share(batches, t, n), side, g, p, i)
  }

  lemma {:induction false} ShareStep(l: Layout, q: Query, batches: seq<seq<Item>>, t: nat, n: nat, side: nat, g: nat,
                                     p: nat, i: nat)
    requires n > 0 && batches != []
    ensures var k := |batches| - 1;
            ShareTotal(l, q, batches, t, n, side, g, p, i)
            == ShareTotal(l, q, batches[..k], t, n, side, g, p, i)
               + (if k % n == t then BatchValue(l, q, batches[k], side, g, p, i) else 0)
  {
    hide BatchValue;
    var k := |batches| - 1;
    var front, last := batches[..k], batches[k];
    if k % n == t {
      TotalConcat(l, q, Share(front, t, n), [last], side, g, p, i);
      NoBatches(l, q, side, g, p, i);
      assert [last][..0] == [];
    } else {
      assert Share(front, t, n) + [] == Share(front, t, n);
    }
  }

  /** The shares of the workers together are all the batches. */
  lemma {:induction false} SharesPartition(l: Layout, q: Query, batches: seq<seq<Item>>, n: nat, side: nat, g: nat,
                                           p: nat, i: nat)
    requires n > 0
    ensures SumTo(n, t => ShareTotal(l, q, batches, t, n, side, g, p, i)) == TotalValue(l, q, batches, side, g, p, i)
    decreases batches
  {
    hide BatchValue;
    var whole := t => ShareTotal(l, q, batches, t, n, side, g, p, i);
    if batches == [] {
      SumZero(n, whole);
    } else {
      var k := |batches| - 1;
      var front := batches[..k];
      var part := t => ShareTotal(l, q, front, t, n, side, g, p, i);
      SharesPartition(l, q, front, n, side, g, p, i);
      hide ShareTotal;
      forall t | 0 <= t < n
        ensures whole(t) == part(t) + if k % n == t then BatchValue(l, q, batches[k], side, g, p, i) else 0
      {
        ShareStep(l, q, batches, t, n, side, g, p, i);
      }
      SumChange(n, part, whole, k % n);
    }
  }

  /** The first m shares, one after the other. */
  ghost function Shares(batches: seq<seq<Item>>, m: nat, n: nat): (r: seq<seq<Item>>)
    requires n > 0
  {
    if m == 0 then [] else Shares(batches, m - 1, n) + Share(batches, m - 1, n)
  }

  lemma {:induction false} SharesTotal(l: Layout, q: Query, batches: seq<seq<Item>>, m: nat, n: nat, side: nat, g: nat,
                                       p: nat, i: nat)
    requires n > 0
    ensures TotalValue(l, q, Shares(batches, m, n), side, g, p, i)
            == SumTo(m, t => ShareTotal(l, q, batches, t, n, side, g, p, i))
  {
    hide TotalValue, Share;
    if m == 0 {
      NoBatches(l, q, side, g, p, i);
    } else {
      SharesTotal(l, q, batches, m - 1, n, side, g, p, i);
      TotalConcat(l, q, Shares(batches, m - 1, n), Share(batches, m - 1, n), side, g, p, i);
    }
  }

  /** The split of the batches over the workers does not show in the result. */
  lemma {:induction false} SharesHoldAll(c: Context, l: Layout, q: Query, acc: seq<Ciphertext>, batches: seq<seq<Item>>,
                                         n: nat, depth: nat)
    requires c.Valid() && l.Valid() && l.row == c.row && n > 0
    requires Holds(c, l, q, acc, Shares(batches, n, n), depth)
    requires batches != [] ==> Shares(batches, n, n) != []
    ensures Holds(c, l, q, acc, batches, depth)
  {
    hide TotalValue, Shares;
    forall p | 0 <= p < |acc|
      ensures PlaneHolds(c, l, q, acc[p], batches, p)
    {
      assert PlaneHolds(c, l, q, acc[p], Shares(batches, n, n), p);
      forall side, g, i | 0 <= side < 2 && 0 <= g < l.buckets && 0 <= i < l.keyBits
        ensures ReadSlot(l, acc[p], side, g, i) == Residue(TotalValue(l, q, batches, side, g, p, i), c.t)
      {
        SharesTotal(l, q, batches, n, n, side, g, p, i);
        SharesPartition(l, q, batches, n, side, g, p, i);
      }
    }
  }

  /** Encryptions of zero hold the empty list of batches. */
  lemma {:induction false} SeedHolds(c: Context, l: Layout, q: Query, zero: Ciphertext, seed: seq<Ciphertext>,
                                     depth: nat)
    requires c.Valid() && l.Valid() && l.row == c.row && |seed| == q.table.Planes() + 1
    requires IsCipher(c, zero) && zero.depth == 0 && forall x :: 0 <= x < 2 * c.row ==> zero.slots[x] == 0
    requires forall p :: 0 <= p < |seed| ==> seed[p] == zero
    ensures Holds(c, l, q, seed, [], depth)
  {
    ModSmall(0, c.t);
    forall p | 0 <= p < |seed|
      ensures PlaneHolds(c, l, q, seed[p], [], p)
    {
      forall side, g, i | 0 <= side < 2 && 0 <= g < l.buckets && 0 <= i < l.keyBits
        ensures ReadSlot(l, seed[p], side, g, i) == Residue(TotalValue(l, q, [], side, g, p, i), c.t)
      {
        NoBatches(l, q, side, g, p, i);
        ReadableSlot(l, side, g, i);
      }
    }
  }

  /** Everything `process_batch` needs, for every batch. */
  ghost predicate Ready(c: Context, l: Layout, q: Query, operands: seq<Ciphertext>, batches: seq<seq<Item>>,
                        levels: nat, galois: seq<int>) {
    && c.Valid() && l.Valid() && l.row == c.row && q.t == c.t && l.keyBits == q.table.keyBits
    && q.Valid() && Pow2(levels) == l.keyBits
    && AreOperands(c, operands) && EncryptsValues(operands, q.values, l.keyBits)
    && HasSteps(galois, l.keyBits, l.row)
    && forall b :: 0 <= b < |batches| ==> BatchOk(l, batches[b], |q.table.keys|) && |batches[b]| > 0
  }

  /** One worker: its share of the batches into its own accumulator. */
  method RunWorker(c: Context, l: Layout, ghost q: Query, table: Table, op: Op, operands: seq<Ciphertext>,
                   batches: seq<seq<Item>>, seed: seq<Ciphertext>, t: nat, n: nat, levels: nat, galois: seq<int>)
      returns (r: Result<seq<Ciphertext>>)
    requires Ready(c, l, q, operands, batches, levels, galois) && q.table == table && q.op == op && t < n
    requires Holds(c, l, q, seed, [], 1 + levels)
    ensures table.bytesPerSlot <= MAX_BYTES_PER_SLOT ==> r.Ok?
    ensures r.Ok? ==> Holds(c, l, q, r.value, Share(batches, t, n), 1 + levels)
  {
    hide Holds, HasSteps, EncryptsValues, AreOperands, BatchOk;
    var local := seed;
    var i := t;
    NoShareBefore(batches, t, n, Min(t, |batches|));
    ModSmall(t, n);
    while i < |batches|
      invariant i % n == t
      invariant Holds(c, l, q, local, Share(batches[..Min(i, |batches|)], t, n), 1 + levels)
      decreases |batches| - i
    {
      var step := ProcessBatch(c, l, q, table, op, operands, batches[i], local, Share(batches[..i], t, n), levels,
          galois);
      if step.Err? {
        return Err(step.error);
      }
      ShareSkips(batches, t, n, i, Min(i + n, |batches|));
      local := step.value;
      ModShift(i, 1, n);
      i := i + n;
    }
    assert batches[..Min(i, |batches|)] == batches;
    return Ok(local);
  }

  lemma {:induction false} NoShareBefore(batches: seq<seq<Item>>, t: nat, n: nat, k: nat)
    requires t < n && k <= t && k <= |batches|
    ensures Share(batches[..k], t, n) == []
  {
    if k > 0 {
      NoShareBefore(batches, t, n, k - 1);
      assert batches[..k][..k - 1] == batches[..k - 1];
      ModSmall(k - 1, n);
    }
  }

  method AddPlanes(c: Context, l: Layout, ghost q: Query, acc: seq<Ciphertext>, local: seq<Ciphertext>,
                   ghost xs: seq<seq<Item>>, ghost ys: seq<seq<Item>>, ghost depth: nat)
      returns (r: seq<Ciphertext>)
    requires c.Valid() && l.Valid() && l.row == c.row
    requires Holds(c, l, q, acc, xs, depth) && Holds(c, l, q, local, ys, depth)
    ensures Holds(c, l, q, r, xs + ys, depth)
  {
    r := acc;
    for p := 0 to |acc|
      invariant |r| == |acc|
      invariant forall k :: p <= k < |acc| ==> r[k] == acc[k]
      invariant forall k :: 0 <= k < p ==> PlaneHolds(c, l, q, r[k], xs + ys, k)
      invariant forall k :: 0 <= k < p ==> r[k].depth == Max(acc[k].depth, local[k].depth)
    {
      assert PlaneHolds(c, l, q, acc[p], xs, p) && PlaneHolds(c, l, q, local[p], ys, p);
      var sum := Add(c, r[p], local[p]);
      PlanesAdd(c, l, q, acc[p], local[p], sum, xs, ys, p);
      r := r[p := sum];
    }
  }

  lemma {:induction false} SharesNonEmpty(batches: seq<seq<Item>>, n: nat)
    requires 0 < n <= |batches|
    ensures Shares(batches, n, n) != []
  {
    ShareHasFirst(batches, n - 1, n, |batches|);
    assert batches[..|batches|] == batches;
  }

  lemma {:induction false} ShareHasFirst(batches: seq<seq<Item>>, t: nat, n: nat, k: nat)
    requires t < n && t < k <= |batches|
    ensures Share(batches[..k], t, n) != []
  {
    assert batches[..k][..k - 1] == batches[..k - 1];
    if k - 1 == t {
      ModSmall(t, n);
    } else {
      ShareHasFirst(batches, t, n, k - 1);
    }
  }

  /** All batches, serially or over min(|batches|, hw) workers whose accumulators are then added up. */
  method RunBatches(c: Context, l: Layout, ghost q: Query, table: Table, op: Op, operands: seq<Ciphertext>,
                    batches: seq<seq<Item>>, hw: nat, levels: nat, galois: seq<int>)
      returns (r: Result<seq<Ciphertext>>)
    requires Ready(c, l, q, operands, batches, levels, galois) && q.table == table && q.op == op
    ensures table.bytesPerSlot <= MAX_BYTES_PER_SLOT ==> r.Ok?
    ensures r.Ok? ==> Holds(c, l, q, r.value, batches, 1 + levels)
  {
    hide Holds, HasSteps, EncryptsValues, AreOperands, BatchOk;
    var zero := Encrypt(c, seq(c.SlotCount(), _ => 0));
    var seed := seq(table.Planes() + 1, _ => zero);
    SeedHolds(c, l, q, zero, seed, 1 + levels);
    var nthreads := Min(|batches|, if hw == 0 then 1 else hw);
    var acc := seed;
    if nthreads <= 1 {
      for b := 0 to |batches|
        invariant Holds(c, l, q, acc, batches[..b], 1 + levels)
      {
        var step := ProcessBatch(c, l, q, table, op, operands, batches[b], acc, batches[..b], levels, galois);
        if step.Err? {
          return Err(step.error);
        }
        assert batches[..b] + [batches[b]] == batches[..b + 1];
        acc := step.value;
      }
      assert batches[..|batches|] == batches;
    } else {
      for t := 0 to nthreads
        invariant Holds(c, l, q, acc, Shares(batches, t, nthreads), 1 + levels)
      {
        var local := RunWorker(c, l, q, table, op, operands, batches, seed, t, nthreads, levels, galois);
        if local.Err? {
          return Err(local.error);
        }
        acc := AddPlanes(c, l, q, acc, local.value, Shares(batches, t, nthreads), Share(batches, t, nthreads),
            1 + levels);
      }
      SharesNonEmpty(batches, nthreads);
      SharesHoldAll(c, l, q, acc, batches, nthreads, 1 + levels);
    }
    return Ok(acc);
  }

  // ---- evaluate -----------------------------------------------------------

  /** Every readable slot of every plane is the sum over the rows of its bucket and side. */
  ghost predicate ShardHolds(c: Context, l: Layout, mix: nat -> nat, q: Query, planes: seq<Ciphertext>)
    requires c.Valid() && l.Valid() && l.row == c.row
  {
    && |planes| == q.table.Planes() + 1
    && (forall p :: 0 <= p < |planes| ==> IsCipher(c, planes[p]))
    && forall p, side, g, i :: 0 <= p < |planes| && 0 <= side < 2 && 0 <= g < l.buckets && 0 <= i < l.keyBits ==>
         ReadSlot(l, planes[p], side, g, i) == Residue(RowTotal(l, mix, q, |q.table.keys|, side, g, p, i), c.t)
  }

  /** The geometry that `evaluate` accepts. */
  predicate GeometryOk(c: Context, table: Table, resultBuckets: nat) {
    var buckets := if resultBuckets == 0 then 1 else resultBuckets;
    && IsPowerOfTwo(table.keyBits)
    && table.bytesPerSlot > 0 && table.recordBytes > 0
    && table.keyBits <= c.row && c.row % table.keyBits == 0
    && IsPowerOfTwo(buckets) && buckets <= Div(c.row, table.keyBits)
  }

  function LayoutOf(c: Context, table: Table, resultBuckets: nat): (l: Layout)
    requires GeometryOk(c, table, resultBuckets) && IsPowerOfTwo(c.row) && c.row < U32
    ensures l.Valid() && l.row == c.row && l.keyBits == table.keyBits
    ensures l.buckets == if resultBuckets == 0 then 1 else resultBuckets
  {
    var buckets := if resultBuckets == 0 then 1 else resultBuckets;
    MakeLayoutValid(c.row, table.keyBits, buckets);
    MakeLayout(c.row, table.keyBits, buckets)
  }

  lemma {:induction false} PlacedReady(c: Context, l: Layout, mix: nat -> nat, q: Query, operands: seq<Ciphertext>,
                                       levels: nat, galois: seq<int>)
    requires c.Valid() && l.Valid() && l.row == c.row && q.t == c.t && l.keyBits == q.table.keyBits
    requires q.Valid() && Pow2(levels) == l.keyBits
    requires AreOperands(c, operands) && EncryptsValues(operands, q.values, l.keyBits)
    requires HasSteps(galois, l.keyBits, l.row)
    ensures Ready(c, l, q, operands, Placed(l, mix, q.table.keys, |q.table.keys|), levels, galois)
    ensures q.table.keys != [] ==> Placed(l, mix, q.table.keys, |q.table.keys|) != []
  {
    hide BatchOk, HasSteps, EncryptsValues, AreOperands, Query.Valid, Layout.Valid;
    var keys := q.table.keys;
    NoEmptyBatch(l, mix, keys, |keys|) by {
      assert l.Valid();
      ValidPositive(l);
    }
    ValidPositive(l);
    forall b | 0 <= b < |Placed(l, mix, keys, |keys|)|
      ensures BatchOk(l, Placed(l, mix, keys, |keys|)[b], |keys|)
    {
      PlacedBatchOk(l, mix, keys, b);
    }
  }

  lemma {:induction false} ValidPositive(l: Layout)
    requires l.Valid()
    ensures l.seg > 0 && l.buckets > 0 && l.keyBits > 0
  {
  }

  lemma {:induction false} HoldsRows(c: Context, l: Layout, mix: nat -> nat, q: Query, planes: seq<Ciphertext>,
                                     levels: nat)
    requires c.Valid() && l.Valid() && l.row == c.row
    requires Holds(c, l, q, planes, Placed(l, mix, q.table.keys, |q.table.keys|), 1 + levels)
    ensures ShardHolds(c, l, mix, q, planes)
  {
    hide TotalValue, RowTotal, Placed, Layout.Valid;
    ValidPositive(l);
    var batches := Placed(l, mix, q.table.keys, |q.table.keys|);
    forall p, side, g, i | 0 <= p < |planes| && 0 <= side < 2 && 0 <= g < l.buckets && 0 <= i < l.keyBits
      ensures ReadSlot(l, planes[p], side, g, i) == Residue(RowTotal(l, mix, q, |q.table.keys|, side, g, p, i), c.t)
    {
      assert PlaneHolds(c, l, q, planes[p], batches, p);
      TotalIsRows(l, mix, q, |q.table.keys|, side, g, p, i);
    }
  }

  method Evaluate(c: Context, mix: nat -> nat, op: Op, operands: seq<Ciphertext>, ghost values: seq<nat>,
                  resultBuckets: nat, table: Table, galois: seq<int>, hw: nat)
      returns (r: Result<seq<Ciphertext>>)
    requires c.Valid() && IsPowerOfTwo(c.row) && c.row < U32
    requires table.WellFormed() && (table.bytesPerSlot > 0 ==> Pow256(table.bytesPerSlot) <= c.t)
    requires AreOperands(c, operands)
    requires table.keyBits > 0 ==>
               EncryptsValues(operands, values, table.keyBits) && HasSteps(galois, table.keyBits, c.row)
    ensures op == OtherOp ==> r == Err(Unimplemented)
    ensures op != OtherOp && |table.keys| != |table.rows| ==> r == Err(InvalidArgument)
    ensures r.Ok? && table.keys != [] ==> GeometryOk(c, table, resultBuckets)
    ensures (op != OtherOp && |table.keys| == |table.rows| && GeometryOk(c, table, resultBuckets)
             && table.bytesPerSlot <= MAX_BYTES_PER_SLOT) ==> r.Ok?
    ensures r.Ok? && table.keys == [] ==> r.value == []
    ensures r.Ok? && table.keys != [] ==>
              ShardHolds(c, LayoutOf(c, table, resultBuckets), mix, Query(c.t, table, op, values), r.value)
    ensures r.Ok? && table.keys != [] ==>
              && r.value[|r.value| - 1].depth == 1 + Exponent(table.keyBits)
              && forall p :: 0 <= p < |r.value| ==> r.value[p].depth <= 1 + Exponent(table.keyBits)
  {
    if op != Eq && op != Ne {
      return Err(Unimplemented);
    }
    if |table.keys| != |table.rows| {
      return Err(InvalidArgument);
    }
    if !IsPowerOfTwo(table.keyBits) {
      return Err(InvalidArgument);
    }
    if table.bytesPerSlot == 0 || table.recordBytes == 0 {
      return Err(InvalidArgument);
    }
    if |table.keys| == 0 {
      return Ok([]);
    }
    if table.keyBits > c.row || c.row % table.keyBits != 0 {
      return Err(InvalidArgument);
    }
    var levels := Log2(table.keyBits);
    var buckets := if resultBuckets == 0 then 1 else resultBuckets;
    if !IsPowerOfTwo(buckets) || buckets > Div(c.row, table.keyBits) {
      return Err(InvalidArgument);
    }
    var l := LayoutOf(c, table, resultBuckets);
    ghost var q := Query(c.t, table, op, values);
    var batches := PlaceRows(l, mix, table.keys);
    PlacedReady(c, l, mix, q, operands, levels, galois);
    r := RunBatches(c, l, q, table, op, operands, batches, hw, levels, galois);
    if r.Ok? {
      HoldsRows(c, l, mix, q, r.value, levels);
    }
  }
}
