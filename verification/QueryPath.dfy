/**
 A query end to end: the client's operands, every shard's evaluation, the combine, the decoded
 buckets, and what the client makes of them.
 */
module QueryPath {
  import opened Base
  import opened Seal
  import opened SlotCodec
  import opened Placement
  import opened Indicator
  import opened Matcher
  import opened Evaluation
  import opened Combining
  import opened QueryMeaning

  // ---- what a combined slot holds -----------------------------------------

  ghost function SideTotal(l: Layout, mix: nat -> nat, qs: seq<Query>, m: nat, side: nat, g: nat, p: nat,
                           i: nat): (v: nat)
    requires l.seg > 0 && l.buckets > 0 && m <= |qs|
  {
    if m == 0 then 0
    else
      SideTotal(l, mix, qs, m - 1, side, g, p, i)
      + RowTotal(l, mix, qs[m - 1], |qs[m - 1].table.keys|, side, g, p, i)
  }

  lemma {:induction false} SideTotalsAddUp(l: Layout, mix: nat -> nat, qs: seq<Query>, m: nat, g: nat, p: nat, i: nat)
    requires l.seg > 0 && l.buckets > 0 && m <= |qs|
    ensures SideTotal(l, mix, qs, m, 0, g, p, i) + SideTotal(l, mix, qs, m, 1, g, p, i)
              == ShardsValue(l, mix, qs, m, g, p, i)
  {
    hide RowTotal, BucketValue;
    if m > 0 {
      SideTotalsAddUp(l, mix, qs, m - 1, g, p, i);
      SidesAddUp(l, mix, qs[m - 1], |qs[m - 1].table.keys|, g, p, i);
    }
  }

  /** What each shard answers: nothing when it holds no row, otherwise its planes. */
  ghost predicate ShardAnswer(c: Context, l: Layout, mix: nat -> nat, q: Query, partial: seq<Ciphertext>)
    requires c.Valid() && l.Valid() && l.row == c.row
  {
    if q.table.keys == [] then partial == [] else ShardHolds(c, l, mix, q, partial)
  }

  ghost predicate ShardAnswers(c: Context, l: Layout, mix: nat -> nat, qs: seq<Query>, partials: seq<seq<Ciphertext>>)
    requires c.Valid() && l.Valid() && l.row == c.row
  {
    && |partials| == |qs|
    && forall s :: 0 <= s < |qs| ==> ShardAnswer(c, l, mix, qs[s], partials[s])
  }

  lemma {:induction false} CombinedSlot(c: Context, l: Layout, mix: nat -> nat, qs: seq<Query>, planes: nat,
                                        partials: seq<seq<Ciphertext>>, m: nat, side: nat, g: nat, p: nat, i: nat)
    requires c.Valid() && l.Valid() && l.row == c.row && SameQuery(qs, c.t, planes)
    requires ShardAnswers(c, l, mix, qs, partials) && m <= |qs|
    requires side < 2 && g < l.buckets && p <= planes && i < l.keyBits
    ensures Residue(PlaneSum(partials, p, l.Base(side, g) + i, m), c.t)
              == Residue(SideTotal(l, mix, qs, m, side, g, p, i), c.t)
  {
    hide RowTotal, ShardHolds;
    if m > 0 {
      CombinedSlot(c, l, mix, qs, planes, partials, m - 1, side, g, p, i);
      var x := l.Base(side, g) + i;
      var row := RowTotal(l, mix, qs[m - 1], |qs[m - 1].table.keys|, side, g, p, i);
      var slot := if p < |partials[m - 1]| && x < |partials[m - 1][p].slots| then partials[m - 1][p].slots[x] else 0;
      assert ShardAnswer(c, l, mix, qs[m - 1], partials[m - 1]);
      ShardSlot(c, l, mix, qs[m - 1], partials[m - 1], side, g, p, i);
      ModAdd(PlaneSum(partials, p, x, m - 1), slot, c.t);
      ModAdd(SideTotal(l, mix, qs, m - 1, side, g, p, i), row, c.t);
    }
  }

  lemma {:induction false} ShardSlot(c: Context, l: Layout, mix: nat -> nat, q: Query, partial: seq<Ciphertext>,
                                     side: nat, g: nat, p: nat, i: nat)
    requires c.Valid() && l.Valid() && l.row == c.row && ShardAnswer(c, l, mix, q, partial)
    requires side < 2 && g < l.buckets && p <= q.table.Planes() && i < l.keyBits
    ensures var x := l.Base(side, g) + i;
            (if p < |partial| && x < |partial[p].slots| then partial[p].slots[x] else 0)
            == Residue(RowTotal(l, mix, q, |q.table.keys|, side, g, p, i), c.t)
  {
    ReadableSlot(l, side, g, i);
    if q.table.keys == [] {
      assert RowTotal(l, mix, q, 0, side, g, p, i) == 0;
      ModSmall(0, c.t);
    } else {
      hide RowTotal;
      assert ReadSlot(l, partial[p], side, g, i) == Residue(RowTotal(l, mix, q, |q.table.keys|, side, g, p, i), c.t);
    }
  }

  /** Slot by slot, what `combine` returns. */
  ghost predicate IsCombined(c: Context, partials: seq<seq<Ciphertext>>, out: seq<Ciphertext>)
    requires c.Valid()
  {
    && AllCiphers(c, out)
    && forall p, x :: 0 <= p < |out| && 0 <= x < c.SlotCount() ==>
         out[p].slots[x] == Residue(PlaneSum(partials, p, x, |partials|), c.t)
  }

  /** A client that adds the two sides of a bucket reads the exact sum, as long as it is below the modulus. */
  lemma {:induction false} ClientReads(c: Context, l: Layout, mix: nat -> nat, qs: seq<Query>, planes: nat,
                                       partials: seq<seq<Ciphertext>>, out: seq<Ciphertext>, g: nat, p: nat, i: nat)
    requires c.Valid() && l.Valid() && l.row == c.row && SameQuery(qs, c.t, planes)
    requires ShardAnswers(c, l, mix, qs, partials) && IsCombined(c, partials, out) && |out| == planes + 1
    requires g < l.buckets && p <= planes && i < l.keyBits
    requires ShardsValue(l, mix, qs, |qs|, g, p, i) < c.t
    ensures BlockSlot(out[p].slots, l.row, g * l.stride, i) == ShardsValue(l, mix, qs, |qs|, g, p, i)
  {
    hide ShardsValue, SideTotal, PlaneSum, ShardAnswer;
    SideTotalsAddUp(l, mix, qs, |qs|, g, p, i);
    ReadableSlot(l, 0, g, i);
    ReadableSlot(l, 1, g, i);
    CombinedSlot(c, l, mix, qs, planes, partials, |qs|, 0, g, p, i);
    CombinedSlot(c, l, mix, qs, planes, partials, |qs|, 1, g, p, i);
    var a, b := SideTotal(l, mix, qs, |qs|, 0, g, p, i), SideTotal(l, mix, qs, |qs|, 1, g, p, i);
    ModSmall(a, c.t);
    ModSmall(b, c.t);
    assert out[p].slots[l.Base(0, g) + i] == a;
    assert out[p].slots[l.Base(1, g) + i] == b;
  }

  // ---- what a decoded bucket says -----------------------------------------

  /** The decoded bucket reports the exact number of matches, and for a single match its record. */
  ghost predicate BucketAnswer(l: Layout, mix: nat -> nat, qs: seq<Query>, g: nat, br: BucketResult)
    requires l.buckets > 0
  {
    && br.count == ShardsMatches(l, mix, qs, |qs|, g)
    && (br.present <==> br.count > 0)
    && (br.collided <==> br.count >= 2)
    && (br.count == 1 ==>
          exists s, r :: 0 <= s < |qs| && r >= 0 && IsMatchIn(l, mix, qs[s], r, g)
              && br.record == PaddedRecord(qs[s].table, r))
  }

  /** Unpacking a row's plane slots gives back the row's bytes. */
  lemma {:induction false} RecordByteIsRowByte(table: Table, r: nat, planes: seq<seq<nat>>, row: nat, base: nat, b: nat)
    requires r < |table.rows| && table.keyBits > 0 && table.bytesPerSlot > 0 && b < table.recordBytes
    requires |planes| == table.Planes()
    requires forall p, i :: 0 <= p < |planes| && 0 <= i < table.keyBits ==>
               BlockSlot(planes[p], row, base, i) == table.PlaneSlot(r, p, i)
    ensures RecordByte(planes, row, base, table.keyBits, table.bytesPerSlot, b) == ByteAt(table.rows[r], b)
  {
    var per, bps := table.BytesPerBlock(), table.bytesPerSlot;
    PlanesCoverRecord(table.recordBytes, table.keyBits, bps);
    var p, k := Div(b, per), Mod(b, per);
    DivMod(b, per);
    if p >= |planes| {
      MulMonotone(|planes|, p, per);
    }
    var i, d := Div(k, bps), Mod(k, bps);
    DivMod(k, bps);
    if i >= table.keyBits {
      MulMonotone(table.keyBits, i, bps);
    }
    assert BlockSlot(planes[p], row, base, i) == table.PlaneSlot(r, p, i);
    DigitOfSlotValue(table.Used(r), p * per + i * bps, bps, d);
  }

  lemma {:induction false} DecodedBucket(c: Context, l: Layout, mix: nat -> nat, qs: seq<Query>, table: Table,
                                         partials: seq<seq<Ciphertext>>, out: seq<Ciphertext>, g: nat, br: BucketResult)
    requires c.Valid() && l.Valid() && l.row == c.row && SameQuery(qs, c.t, table.Planes())
    requires SameGeometry(qs, table) && l.keyBits == table.keyBits
    requires ShardAnswers(c, l, mix, qs, partials) && IsCombined(c, partials, out) && |out| == table.Planes() + 1
    requires g < l.buckets && ShardsMatches(l, mix, qs, |qs|, g) < c.t
    requires Decodes(Slots(out), l.row, g * l.stride, table.keyBits, table.recordBytes, table.bytesPerSlot, br)
    ensures BucketAnswer(l, mix, qs, g, br)
  {
    hide ShardsValue, ShardsMatches, IsCombined, ShardAnswers, RecordByte, Table.PlaneSlot, IsMatchIn, Table.Planes;
    hide BlockSlot;
    var planes := table.Planes();
    ShardsPresence(l, mix, qs, c.t, planes, |qs|, g, 0);
    ClientReads(c, l, mix, qs, planes, partials, out, g, planes, 0);
    if br.count == 1 {
      var s, r := ShardsOneMatch(l, mix, qs, c.t, planes, |qs|, g);
      var payload := Slots(out)[..planes];
      MatchInRange(l, mix, qs[s], r, g);
      forall p, i | 0 <= p < planes && 0 <= i < table.keyBits
        ensures BlockSlot(payload[p], l.row, g * l.stride, i) == qs[s].table.PlaneSlot(r, p, i)
      {
        assert qs[s].table.PlaneSlot(r, p, i) < Pow256(table.bytesPerSlot) <= c.t;
        ClientReads(c, l, mix, qs, planes, partials, out, g, p, i);
      }
      forall b | 0 <= b < table.recordBytes
        ensures br.record[b] == PaddedRecord(qs[s].table, r)[b]
      {
        RecordByteIsRowByte(qs[s].table, r, payload, l.row, g * l.stride, b);
      }
      assert br.record == PaddedRecord(qs[s].table, r);
    }
  }

  lemma {:induction false} MatchInRange(l: Layout, mix: nat -> nat, q: Query, r: nat, g: nat)
    requires l.buckets > 0 && IsMatchIn(l, mix, q, r, g)
    ensures r < |q.table.rows| == |q.table.keys|
  {
  }

  ghost predicate SameGeometry(qs: seq<Query>, table: Table) {
    && table.keyBits > 0 && table.bytesPerSlot > 0
    && forall s :: 0 <= s < |qs| ==>
         qs[s].table.keyBits == table.keyBits && qs[s].table.recordBytes == table.recordBytes
         && qs[s].table.bytesPerSlot == table.bytesPerSlot && qs[s].table.Planes() == table.Planes()
  }

  // ---- the client's operands ----------------------------------------------

  /** The values in order of first occurrence, each once. */
  function Dedup(values: seq<nat>): (d: seq<nat>)
    ensures forall v :: v in d <==> v in values
    ensures Distinct(d) && |d| <= |values|
  {
    if values == [] then []
    else
      var front, last := values[..|values| - 1], values[|values| - 1];
      assert values == front + [last];
      var d := Dedup(front);
      if last in front then d else d + [last]
  }

  /** Nothing is dropped exactly when the values were distinct already. */
  lemma {:induction false} DedupKeepsAll(values: seq<nat>)
    ensures |Dedup(values)| == |values| <==> Distinct(values)
    ensures Distinct(values) ==> Dedup(values) == values
  {
    if values != [] {
      var front, last := values[..|values| - 1], values[|values| - 1];
      DedupKeepsAll(front);
      assert values == front + [last];
      if last in front {
        var i :| 0 <= i < |front| && front[i] == last;
        assert values[i] == values[|values| - 1];
      }
    }
  }

  method BuildEncryptedOperands(c: Context, values: seq<nat>, keyBits: nat) returns (r: Result<seq<Ciphertext>>)
    requires c.Valid()
    ensures r.Ok? <==> 1 <= keyBits <= 64 && values != []
    ensures r.Err? ==> r.error == InvalidArgument
    ensures r.Ok? ==> AreOperands(c, r.value) && |r.value| == |Dedup(values)|
    ensures r.Ok? ==> forall k :: 0 <= k < |r.value| ==> IsTiled(r.value[k].slots, Dedup(values)[k], keyBits)
  {
    if keyBits == 0 || keyBits > 64 {
      return Err(InvalidArgument);
    }
    if values == [] {
      return Err(InvalidArgument);
    }
    var distinct: seq<nat> := [];
    var seen: set<nat> := {};
    for i := 0 to |values|
      invariant distinct == Dedup(values[..i])
      invariant forall v :: v in seen <==> v in values[..i]
    {
      assert values[..i + 1][..i] == values[..i];
      assert values[..i + 1] == values[..i] + [values[i]];
      if values[i] !in seen {
        seen := seen + {values[i]};
        distinct := distinct + [values[i]];
      }
    }
    assert values[..|values|] == values;
    var ciphers: seq<Ciphertext> := [];
    for k := 0 to |distinct|
      invariant |ciphers| == k && AreOperands(c, ciphers)
      invariant forall j :: 0 <= j < k ==> IsTiled(ciphers[j].slots, distinct[j], keyBits)
    {
      var cipher := EncryptOperand(c, distinct[k], keyBits);
      ciphers := ciphers + [cipher];
    }
    return Ok(ciphers);
  }

  // ---- the whole path -----------------------------------------------------

  /** The plain query each shard answers. */
  ghost function ShardQueries(t: nat, op: Op, values: seq<nat>, tables: seq<Table>): (qs: seq<Query>)
    ensures |qs| == |tables|
    ensures forall s :: 0 <= s < |qs| ==> qs[s] == Query(t, tables[s], op, values)
  {
    seq(|tables|, s requires 0 <= s < |tables| => Query(t, tables[s], op, values))
  }

  /** Tables that one deployment shards: one geometry, keys inside the universe, one payload per key. */
  ghost predicate Deployed(config: Table, tables: seq<Table>) {
    && config.keyBits > 0 && config.recordBytes > 0 && config.bytesPerSlot > 0
    && forall s :: 0 <= s < |tables| ==>
         && tables[s].keyBits == config.keyBits && tables[s].recordBytes == config.recordBytes
         && tables[s].bytesPerSlot == config.bytesPerSlot
         && tables[s].WellFormed() && |tables[s].keys| == |tables[s].rows|
  }

  ghost predicate OneDeployment(c: Context, config: Table, tables: seq<Table>) {
    Deployed(config, tables) && Pow256(config.bytesPerSlot) <= c.t
  }

  /** Every shard evaluated with the same operands. */
  method EvaluateShards(c: Context, mix: nat -> nat, op: Op, operands: seq<Ciphertext>, ghost values: seq<nat>,
                        resultBuckets: nat, config: Table, tables: seq<Table>, galois: seq<int>, hw: nat)
      returns (r: Result<seq<seq<Ciphertext>>>)
    requires c.Valid() && IsPowerOfTwo(c.row) && c.row < U32 && OneDeployment(c, config, tables)
    requires AreOperands(c, operands) && EncryptsValues(operands, values, config.keyBits)
    requires HasSteps(galois, config.keyBits, c.row)
    ensures (op != OtherOp && GeometryOk(c, config, resultBuckets) && config.bytesPerSlot <= MAX_BYTES_PER_SLOT) ==>
              r.Ok?
    ensures r.Ok? ==> |r.value| == |tables|
    ensures r.Ok? && (exists s :: 0 <= s < |tables| && tables[s].keys != []) ==> GeometryOk(c, config, resultBuckets)
    ensures r.Ok? && GeometryOk(c, config, resultBuckets) ==>
              ShardAnswers(c, LayoutOf(c, config, resultBuckets), mix, ShardQueries(c.t, op, values, tables), r.value)
    ensures r.Ok? ==> forall s :: 0 <= s < |tables| ==> tables[s].keys == [] ==> r.value[s] == []
  {
    hide HasSteps, EncryptsValues, AreOperands, ShardHolds;
    var partials: seq<seq<Ciphertext>> := [];
    ghost var qs := ShardQueries(c.t, op, values, tables);
    for s := 0 to |tables|
      invariant |partials| == s
      invariant (exists k :: 0 <= k < s && tables[k].keys != []) ==> GeometryOk(c, config, resultBuckets)
      invariant GeometryOk(c, config, resultBuckets) ==>
                  forall k :: 0 <= k < s ==> ShardAnswer(c, LayoutOf(c, config, resultBuckets), mix, qs[k], partials[k])
      invariant forall k :: 0 <= k < s ==> tables[k].keys == [] ==> partials[k] == []
    {
      var partial := Evaluate(c, mix, op, operands, values, resultBuckets, tables[s], galois, hw);
      if partial.Err? {
        return Err(partial.error);
      }
      partials := partials + [partial.value];
    }
    return Ok(partials);
  }

  const MAX_OPERANDS := 64

  /** Some shard holds a row. */
  ghost predicate HasRows(tables: seq<Table>) {
    exists s :: 0 <= s < |tables| && tables[s].keys != []
  }

  /** The client's operands, and the engine's check of their number against the plan. */
  method CheckedOperands(c: Context, values: seq<nat>, matchOperands: nat, keyBits: nat)
      returns (r: Result<seq<Ciphertext>>)
    requires c.Valid() && keyBits > 0 && forall v :: v in values ==> v < Pow2(keyBits)
    ensures r.Ok? <==> keyBits <= 64 && 1 <= |Dedup(values)| == matchOperands <= MAX_OPERANDS
    ensures r.Ok? ==> AreOperands(c, r.value) && EncryptsValues(r.value, Dedup(values), keyBits)
  {
    r := BuildEncryptedOperands(c, values, keyBits);
    if r.Err? {
      return;
    }
    if matchOperands == 0 || matchOperands > MAX_OPERANDS {
      return Err(InvalidArgument);
    }
    if |r.value| != matchOperands {
      return Err(InvalidArgument);
    }
    assert forall k :: 0 <= k < |Dedup(values)| ==> Dedup(values)[k] in values by {
      assert forall k :: 0 <= k < |Dedup(values)| ==> Dedup(values)[k] in Dedup(values);
    }
  }

  /** The coordinator adds the partials up; a client that gets a result blob decodes every bucket of it. */
  method CombineAndDecode(c: Context, l: Layout, mix: nat -> nat, ghost op: Op, ghost values: seq<nat>, config: Table,
                          ghost tables: seq<Table>, partials: seq<seq<Ciphertext>>)
      returns (r: Result<seq<BucketResult>>)
    requires c.Valid() && OneDeployment(c, config, tables) && Distinct(values)
    requires l.Valid() && l.row == c.row && l.keyBits == config.keyBits && l.stride == Div(c.row, l.buckets)
    requires ShardAnswers(c, l, mix, ShardQueries(c.t, op, values, tables), partials)
    ensures config.bytesPerSlot <= MAX_BYTES_PER_SLOT ==> r.Ok?
    ensures r.Ok? && !HasRows(tables) ==> r.value == []
    ensures r.Ok? && HasRows(tables) ==> Answers(l, mix, ShardQueries(c.t, op, values, tables), c.t, r.value)
  {
    AnswersAreCiphers(c, l, mix, op, values, config, tables, partials);
    hide ShardAnswers, Answers, PlaneSum, WindowDecodes;
    var combined := Combine(c, partials);
    // The shards agree on the plane count, so the combine does not fail.
    if combined.value == [] {
      return Ok([]);
    }
    RowDivides(l);
    r := DecryptResults(c, combined.value, config.keyBits, config.recordBytes, config.bytesPerSlot, l.buckets, 0,
        l.buckets);
    if r.Ok? && HasRows(tables) {
      AllBucketsDecoded(c, l, mix, op, values, config, tables, partials, combined.value, r.value);
    }
  }

  /**
   The client encrypts its operands, the engine checks their number against the plan, every shard
   evaluates, the partials are combined and the client decodes every bucket.
   */
  method RunQuery(c: Context, mix: nat -> nat, op: Op, values: seq<nat>, matchOperands: nat,
                  resultBuckets: nat, config: Table, tables: seq<Table>, galois: seq<int>, hw: nat)
      returns (r: Result<seq<BucketResult>>)
    requires c.Valid() && IsPowerOfTwo(c.row) && c.row < U32 && OneDeployment(c, config, tables)
    requires HasSteps(galois, config.keyBits, c.row) && GeometryOk(c, config, resultBuckets) && resultBuckets > 0
    requires forall v :: v in values ==> v < Pow2(config.keyBits)
    ensures r.Ok? ==> 1 <= |Dedup(values)| == matchOperands <= MAX_OPERANDS
    ensures (op != OtherOp && config.keyBits <= 64 && 1 <= |Dedup(values)| == matchOperands <= MAX_OPERANDS
             && config.bytesPerSlot <= MAX_BYTES_PER_SLOT) ==> r.Ok?
    ensures r.Ok? && !HasRows(tables) ==> r.value == []
    ensures r.Ok? && HasRows(tables) ==>
              Answers(LayoutOf(c, config, resultBuckets), mix, ShardQueries(c.t, op, Dedup(values), tables), c.t,
                  r.value)
  {
    LayoutStride(c, config, resultBuckets);
    hide HasSteps, AreOperands, EncryptsValues, ShardAnswers, GeometryOk, LayoutOf, Answers;
    var operands := CheckedOperands(c, values, matchOperands, config.keyBits);
    if operands.Err? {
      return Err(operands.error);
    }
    var partials := EvaluateShards(c, mix, op, operands.value, Dedup(values), resultBuckets, config, tables, galois,
        hw);
    if partials.Err? {
      return Err(partials.error);
    }
    r := CombineAndDecode(c, LayoutOf(c, config, resultBuckets), mix, op, Dedup(values), config, tables,
        partials.value);
  }

  lemma {:induction false} RowDivides(l: Layout)
    requires l.Valid()
    ensures l.row % l.buckets == 0 && l.keyBits <= l.row
  {
    ExactQuotient(l.stride, l.buckets);
  }

  lemma {:induction false} AnswersAreCiphers(c: Context, l: Layout, mix: nat -> nat, op: Op, values: seq<nat>,
                                             config: Table, tables: seq<Table>, partials: seq<seq<Ciphertext>>)
    requires c.Valid() && OneDeployment(c, config, tables) && l.Valid() && l.row == c.row
    requires ShardAnswers(c, l, mix, ShardQueries(c.t, op, values, tables), partials)
    ensures |partials| == |tables|
    ensures forall s :: 0 <= s < |partials| ==> AllCiphers(c, partials[s])
    ensures SameWidth(partials, config.Planes() + 1)
    ensures forall s :: 0 <= s < |partials| ==> (partials[s] == [] <==> tables[s].keys == [])
  {
    forall s | 0 <= s < |partials|
      ensures AllCiphers(c, partials[s]) && (partials[s] == [] || |partials[s]| == config.Planes() + 1)
      ensures partials[s] == [] <==> tables[s].keys == []
    {
      assert ShardAnswer(c, l, mix, ShardQueries(c.t, op, values, tables)[s], partials[s]);
    }
  }

  /** Every decoded bucket tells the truth, as long as its match count is below the plaintext modulus. */
  ghost predicate Answers(l: Layout, mix: nat -> nat, qs: seq<Query>, t: nat, results: seq<BucketResult>)
    requires l.buckets > 0
  {
    && |results| == l.buckets
    && forall g :: 0 <= g < l.buckets && ShardsMatches(l, mix, qs, |qs|, g) < t ==>
        BucketAnswer(l, mix, qs, g, results[g])
  }

  /** The stride at which evaluation leaves the buckets is the one at which the client reads them. */
  lemma {:induction false} LayoutStride(c: Context, config: Table, resultBuckets: nat)
    requires GeometryOk(c, config, resultBuckets) && IsPowerOfTwo(c.row) && c.row < U32
    ensures LayoutOf(c, config, resultBuckets).stride == BucketStride(c.SlotCount(), resultBuckets)
    ensures resultBuckets > 0 ==> LayoutOf(c, config, resultBuckets).stride == Div(c.row, resultBuckets)
  {
    assert c.SlotCount() / 2 == c.row;
  }

  lemma {:induction false} AllBucketsDecoded(c: Context, l: Layout, mix: nat -> nat, op: Op, values: seq<nat>,
                                             config: Table, tables: seq<Table>, partials: seq<seq<Ciphertext>>,
                                             out: seq<Ciphertext>, results: seq<BucketResult>)
    requires c.Valid() && OneDeployment(c, config, tables) && Distinct(values)
    requires l.Valid() && l.row == c.row && l.keyBits == config.keyBits
    requires ShardAnswers(c, l, mix, ShardQueries(c.t, op, values, tables), partials)
    requires IsCombined(c, partials, out) && |out| == config.Planes() + 1
    requires |results| == WindowSize(l.buckets, 0, l.buckets)
    requires WindowDecodes(out, c.row, l.stride, WindowStart(l.buckets, 0), config.keyBits, config.recordBytes,
               config.bytesPerSlot, results)
    ensures Answers(l, mix, ShardQueries(c.t, op, values, tables), c.t, results)
  {
    hide Decodes, BucketAnswer, ShardsMatches, ShardAnswers, IsCombined, Slots;
    var qs := ShardQueries(c.t, op, values, tables);
    DeploymentQueries(c, op, values, config, tables);
    forall g | 0 <= g < l.buckets && ShardsMatches(l, mix, qs, |qs|, g) < c.t
      ensures BucketAnswer(l, mix, qs, g, results[g])
    {
      DecodedBucket(c, l, mix, qs, config, partials, out, g, results[g]);
    }
  }

  lemma {:induction false} DeploymentQueries(c: Context, op: Op, values: seq<nat>, config: Table, tables: seq<Table>)
    requires c.Valid() && OneDeployment(c, config, tables) && Distinct(values)
    ensures SameQuery(ShardQueries(c.t, op, values, tables), c.t, config.Planes())
    ensures SameGeometry(ShardQueries(c.t, op, values, tables), config)
  {
  }

  // ---- what the client does with the buckets ------------------------------

  /** The clean records in bucket order. */
  function CleanRecords(buckets: seq<BucketResult>): (m: seq<seq<byte>>) {
    if buckets == [] then []
    else
      var last := buckets[|buckets| - 1];
      CleanRecords(buckets[..|buckets| - 1]) + (if last.present && !last.collided then [last.record] else [])
  }

  method CollectClean(buckets: seq<BucketResult>) returns (matched: seq<seq<byte>>, collided: nat)
    ensures matched == CleanRecords(buckets)
    ensures collided == |set g | 0 <= g < |buckets| && buckets[g].collided|
  {
    matched := [];
    collided := 0;
    for g := 0 to |buckets|
      invariant matched == CleanRecords(buckets[..g])
      invariant collided == |set k | 0 <= k < g && buckets[k].collided|
    {
      assert buckets[..g + 1][..g] == buckets[..g];
      ghost var before := set k | 0 <= k < g && buckets[k].collided;
      ghost var after := set k | 0 <= k < g + 1 && buckets[k].collided;
      if buckets[g].collided {
        assert after == before + {g};
        collided := collided + 1;
      } else {
        assert after == before;
        if buckets[g].present {
          matched := matched + [buckets[g].record];
        }
      }
    }
    assert buckets[..|buckets|] == buckets;
  }

  const DEFAULT_SELECT_LIMIT := 10

  /** Skip `offset` rows, take up to `limit`; LIMIT counts rows, not buckets. */
  method RowWindow(matched: seq<seq<byte>>, limit: Option<nat>, offset: Option<nat>) returns (out: seq<seq<byte>>)
    ensures var o := if offset.Some? then offset.value else 0;
            var n := if limit.Some? then limit.value else DEFAULT_SELECT_LIMIT;
            if o >= |matched| then out == [] else out == matched[o..Min(o + n, |matched|)]
  {
    var o := if offset.Some? then offset.value else 0;
    var n := if limit.Some? then limit.value else DEFAULT_SELECT_LIMIT;
    out := [];
    var i := o;
    while i < |matched| && |out| < n
      invariant o >= |matched| ==> i == o && out == []
      invariant o < |matched| ==> o <= i <= |matched| && out == matched[o..i] && |out| <= n
    {
      out := out + [matched[i]];
      i := i + 1;
    }
  }

  ghost function CountTotal(buckets: seq<BucketResult>): (n: nat) {
    if buckets == [] then 0 else CountTotal(buckets[..|buckets| - 1]) + buckets[|buckets| - 1].count
  }

  method QueryCount(buckets: seq<BucketResult>) returns (total: nat)
    ensures total == CountTotal(buckets)
  {
    total := 0;
    for g := 0 to |buckets|
      invariant total == CountTotal(buckets[..g])
    {
      assert buckets[..g + 1][..g] == buckets[..g];
      total := total + buckets[g].count;
    }
    assert buckets[..|buckets|] == buckets;
  }
}
