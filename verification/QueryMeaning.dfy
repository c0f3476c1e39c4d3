/** What the decoded buckets mean: the plain relational filter that the encrypted pipeline refines. */
module QueryMeaning {
  import opened Base
  import opened Seal
  import opened SlotCodec
  import opened Placement
  import opened Indicator
  import opened Matcher
  import opened Evaluation
  import opened Combining

  // ---- the plain filter ---------------------------------------------------

  predicate Distinct(values: seq<nat>) {
    forall i, j :: 0 <= i < j < |values| ==> values[i] != values[j]
  }

  /** The WHERE clause on one key: in the operand list, or not in it for '<>'. */
  predicate Matches(op: Op, values: seq<nat>, key: nat) {
    if op == Ne then key !in values else key in values
  }

  /** Matching rows among the first n that were placed in bucket g. */
  function BucketMatches(l: Layout, mix: nat -> nat, q: Query, n: nat, g: nat): (k: nat)
    requires l.buckets > 0 && n <= |q.table.keys|
    ensures k <= n
  {
    if n == 0 then 0
    else
      BucketMatches(l, mix, q, n - 1, g)
      + (if Bucket(l, mix, q.table.keys, n - 1) == g && Matches(q.op, q.values, q.table.keys[n - 1]) then 1 else 0)
  }

  /** Matching rows among the first n. */
  function MatchCount(q: Query, n: nat): (k: nat)
    requires n <= |q.table.keys|
    ensures k <= n
  {
    if n == 0 then 0
    else MatchCount(q, n - 1) + (if Matches(q.op, q.values, q.table.keys[n - 1]) then 1 else 0)
  }

  /** A record's bytes as a client gets them back: cut or zero-padded to the record size. */
  function PaddedRecord(table: Table, r: nat): (bytes: seq<byte>)
    requires r < |table.rows|
    ensures |bytes| == table.recordBytes
  {
    seq(table.recordBytes, b requires 0 <= b < table.recordBytes => ByteAt(table.rows[r], b))
  }

  /** With distinct operands the encrypted indicator is the truth value of the filter. */
  lemma {:induction false} WeightIsMatch(q: Query, r: nat)
    requires q.t >= 2 && Distinct(q.values) && r < |q.table.keys|
    ensures q.RowWeight(r) == if Matches(q.op, q.values, q.table.keys[r]) then 1 else 0
  {
    DistinctMultiplicity(q.values, q.table.keys[r]);
    ModSmall(0, q.t);
    ModSmall(1, q.t);
  }

  lemma {:induction false} RepeatedOperand(values: seq<nat>, i: nat, j: nat)
    requires i < j < |values| && values[i] == values[j]
    ensures 2 <= Multiplicity(values, values[i]) <= |values|
  {
    var front := values[..|values| - 1];
    MultiplicityAtMost(front, values[i]);
    if j < |values| - 1 {
      RepeatedOperand(front, i, j);
    } else {
      assert front[i] in front;
    }
  }

  lemma {:induction false} MultiplicityAtMost(values: seq<nat>, k: nat)
    ensures Multiplicity(values, k) <= |values|
  {
    if values != [] {
      MultiplicityAtMost(values[..|values| - 1], k);
    }
  }

  ghost predicate WeighsTruth(op: Op, values: seq<nat>, t: nat)
    requires t > 0
  {
    forall k: nat :: Weight(op, Multiplicity(values, k), t) == if Matches(op, values, k) then 1 else 0
  }

  /** The union of equality indicators is the filter for every key exactly when no operand repeats. */
  lemma {:induction false} TruthNeedsDistinct(op: Op, values: seq<nat>, t: nat)
    requires 2 <= t && |values| < t
    ensures WeighsTruth(op, values, t) <==> Distinct(values)
  {
    if Distinct(values) {
      forall k: nat
        ensures Weight(op, Multiplicity(values, k), t) == if Matches(op, values, k) then 1 else 0
      {
        DistinctMultiplicity(values, k);
        ModSmall(0, t);
        ModSmall(1, t);
      }
    } else {
      var i, j :| 0 <= i < j < |values| && values[i] == values[j];
      RepeatedOperand(values, i, j);
      var n := Multiplicity(values, values[i]);
      ModSmall(n, t);
      ModSmall(1 - n + t, t);
      assert (1 - n) % t == (1 - n + t) % t by { ModShift(1 - n, 1, t); }
      assert Weight(op, n, t) != if Matches(op, values, values[i]) then 1 else 0;
    }
  }

  // ---- both sides of a bucket ---------------------------------------------

  /** What the first n rows add to bucket g, over both sides. */
  ghost function BucketValue(l: Layout, mix: nat -> nat, q: Query, n: nat, g: nat, p: nat, i: nat): (v: nat)
    requires l.buckets > 0 && n <= |q.table.keys|
  {
    if n == 0 then 0
    else
      BucketValue(l, mix, q, n - 1, g, p, i)
      + (if Bucket(l, mix, q.table.keys, n - 1) == g then q.RowValue(n - 1, p, i) else 0)
  }

  lemma {:induction false} SidesAddUp(l: Layout, mix: nat -> nat, q: Query, n: nat, g: nat, p: nat, i: nat)
    requires l.seg > 0 && l.buckets > 0 && n <= |q.table.keys|
    ensures RowTotal(l, mix, q, n, 0, g, p, i) + RowTotal(l, mix, q, n, 1, g, p, i)
              == BucketValue(l, mix, q, n, g, p, i)
  {
    hide Bucket, Ordinal, Query.RowValue;
    if n > 0 {
      SidesAddUp(l, mix, q, n - 1, g, p, i);
    }
  }

  /** The presence plane counts the matches of the bucket. */
  lemma {:induction false} PresenceCounts(l: Layout, mix: nat -> nat, q: Query, n: nat, g: nat, p: nat, i: nat)
    requires l.buckets > 0 && n <= |q.table.keys| == |q.table.rows| && q.t >= 2 && Distinct(q.values)
    requires p >= q.table.Planes()
    ensures BucketValue(l, mix, q, n, g, p, i) == BucketMatches(l, mix, q, n, g)
  {
    hide Bucket, Matches, Query.RowWeight, Table.Planes;
    if n > 0 {
      PresenceCounts(l, mix, q, n - 1, g, p, i);
      WeightIsMatch(q, n - 1);
    }
  }

  /** A bucket without matches holds zeros in every plane. */
  lemma {:induction false} NoMatchNoBytes(l: Layout, mix: nat -> nat, q: Query, n: nat, g: nat, p: nat, i: nat)
    requires l.buckets > 0 && n <= |q.table.keys| == |q.table.rows| && q.t >= 2 && Distinct(q.values)
    requires BucketMatches(l, mix, q, n, g) == 0
    ensures BucketValue(l, mix, q, n, g, p, i) == 0
  {
    hide Bucket, Matches, Query.RowWeight, Table.Planes, Table.PlaneSlot;
    if n > 0 {
      NoMatchNoBytes(l, mix, q, n - 1, g, p, i);
      WeightIsMatch(q, n - 1);
    }
  }

  /** A bucket with one match holds, in every plane, exactly that row's slots. */
  lemma {:induction false} OneMatchItsBytes(l: Layout, mix: nat -> nat, q: Query, n: nat, g: nat) returns (r: nat)
    requires l.buckets > 0 && n <= |q.table.keys| == |q.table.rows| && q.t >= 2 && Distinct(q.values)
    requires BucketMatches(l, mix, q, n, g) == 1
    ensures r < n && Bucket(l, mix, q.table.keys, r) == g && Matches(q.op, q.values, q.table.keys[r])
    ensures forall p: nat, i: nat :: p < q.table.Planes() ==>
              BucketValue(l, mix, q, n, g, p, i) == q.table.PlaneSlot(r, p, i)
  {
    hide Bucket, Matches, Query.RowWeight, Table.Planes, Table.PlaneSlot;
    WeightIsMatch(q, n - 1);
    if Bucket(l, mix, q.table.keys, n - 1) == g && Matches(q.op, q.values, q.table.keys[n - 1]) {
      r := n - 1;
      forall p: nat, i: nat | p < q.table.Planes()
        ensures BucketValue(l, mix, q, n, g, p, i) == q.table.PlaneSlot(r, p, i)
      {
        NoMatchNoBytes(l, mix, q, n - 1, g, p, i);
      }
    } else {
      r := OneMatchItsBytes(l, mix, q, n - 1, g);
    }
  }

  // ---- many shards --------------------------------------------------------

  /** What the first m shards add to bucket g. */
  ghost function ShardsValue(l: Layout, mix: nat -> nat, qs: seq<Query>, m: nat, g: nat, p: nat, i: nat): (v: nat)
    requires l.buckets > 0 && m <= |qs|
  {
    if m == 0 then 0
    else ShardsValue(l, mix, qs, m - 1, g, p, i) + BucketValue(l, mix, qs[m - 1], |qs[m - 1].table.keys|, g, p, i)
  }

  function ShardsMatches(l: Layout, mix: nat -> nat, qs: seq<Query>, m: nat, g: nat): (k: nat)
    requires l.buckets > 0 && m <= |qs|
  {
    if m == 0 then 0
    else ShardsMatches(l, mix, qs, m - 1, g) + BucketMatches(l, mix, qs[m - 1], |qs[m - 1].table.keys|, g)
  }

  /** The same query over tables of one geometry. */
  ghost predicate SameQuery(qs: seq<Query>, t: nat, planes: nat) {
    && t >= 2
    && forall s :: 0 <= s < |qs| ==>
         qs[s].t == t && qs[s].Valid() && Distinct(qs[s].values) && qs[s].table.Planes() == planes
  }

  lemma {:induction false} ShardsPresence(l: Layout, mix: nat -> nat, qs: seq<Query>, t: nat, planes: nat, m: nat,
                                          g: nat, i: nat)
    requires l.buckets > 0 && m <= |qs| && SameQuery(qs, t, planes)
    ensures ShardsValue(l, mix, qs, m, g, planes, i) == ShardsMatches(l, mix, qs, m, g)
  {
    if m > 0 {
      ShardsPresence(l, mix, qs, t, planes, m - 1, g, i);
      PresenceCounts(l, mix, qs[m - 1], |qs[m - 1].table.keys|, g, planes, i);
    }
  }

  lemma {:induction false} ShardsNoMatch(l: Layout, mix: nat -> nat, qs: seq<Query>, t: nat, planes: nat, m: nat,
                                         g: nat, p: nat, i: nat)
    requires l.buckets > 0 && m <= |qs| && SameQuery(qs, t, planes)
    requires ShardsMatches(l, mix, qs, m, g) == 0
    ensures ShardsValue(l, mix, qs, m, g, p, i) == 0
  {
    if m > 0 {
      ShardsNoMatch(l, mix, qs, t, planes, m - 1, g, p, i);
      NoMatchNoBytes(l, mix, qs[m - 1], |qs[m - 1].table.keys|, g, p, i);
    }
  }

  lemma {:induction false} ShardsOneMatch(l: Layout, mix: nat -> nat, qs: seq<Query>, t: nat, planes: nat, m: nat,
                                          g: nat)
      returns (s: nat, r: nat)
    requires l.buckets > 0 && m <= |qs| && SameQuery(qs, t, planes)
    requires ShardsMatches(l, mix, qs, m, g) == 1
    ensures s < m && IsMatchIn(l, mix, qs[s], r, g)
    ensures forall p: nat, i: nat :: p < planes ==>
              ShardsValue(l, mix, qs, m, g, p, i) == qs[s].table.PlaneSlot(r, p, i)
  {
    hide BucketValue, BucketMatches, Table.PlaneSlot;
    var q, n := qs[m - 1], |qs[m - 1].table.keys|;
    if BucketMatches(l, mix, q, n, g) == 1 {
      s := m - 1;
      r := OneMatchItsBytes(l, mix, q, n, g);
      forall p: nat, i: nat | p < planes
        ensures ShardsValue(l, mix, qs, m, g, p, i) == q.table.PlaneSlot(r, p, i)
      {
        ShardsNoMatch(l, mix, qs, t, planes, m - 1, g, p, i);
      }
    } else {
      s, r := ShardsOneMatch(l, mix, qs, t, planes, m - 1, g);
      forall p: nat, i: nat | p < planes
        ensures ShardsValue(l, mix, qs, m, g, p, i) == qs[s].table.PlaneSlot(r, p, i)
      {
        NoMatchNoBytes(l, mix, q, n, g, p, i);
      }
    }
  }

  /** Row r of a shard matches and was placed in bucket g. */
  predicate IsMatchIn(l: Layout, mix: nat -> nat, q: Query, r: nat, g: nat)
    requires l.buckets > 0
  {
    r < |q.table.keys| == |q.table.rows| && Bucket(l, mix, q.table.keys, r) == g
        && Matches(q.op, q.values, q.table.keys[r])
  }
}
