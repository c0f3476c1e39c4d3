/** Row-level consequences: exact counts, complete point queries, and sharding that does not show. */
module Sharding {
  import opened Base
  import opened SlotCodec
  import opened Placement
  import opened Indicator
  import opened Matcher
  import opened Combining
  import opened QueryMeaning
  import opened QueryPath

  // ---- exact counts -------------------------------------------------------

  function TotalMatches(qs: seq<Query>, m: nat): (k: nat)
    requires m <= |qs|
  {
    if m == 0 then 0 else TotalMatches(qs, m - 1) + MatchCount(qs[m - 1], |qs[m - 1].table.keys|)
  }

  lemma {:induction false} BucketsPartitionRows(l: Layout, mix: nat -> nat, q: Query, n: nat)
    requires l.buckets > 0 && n <= |q.table.keys|
    ensures SumTo(l.buckets, g => if g < 0 then 0 else BucketMatches(l, mix, q, n, g)) == MatchCount(q, n)
  {
    hide Matches;
    var now := g => if g < 0 then 0 else BucketMatches(l, mix, q, n, g);
    if n == 0 {
      SumZero(l.buckets, now);
    } else {
      var was := g => if g < 0 then 0 else BucketMatches(l, mix, q, n - 1, g);
      BucketsPartitionRows(l, mix, q, n - 1);
      var b := Bucket(l, mix, q.table.keys, n - 1);
      hide Bucket;
      SumChange(l.buckets, was, now, b);
    }
  }

  lemma {:induction false} BucketsPartitionShards(l: Layout, mix: nat -> nat, qs: seq<Query>, m: nat)
    requires l.buckets > 0 && m <= |qs|
    ensures SumTo(l.buckets, g => if g < 0 then 0 else ShardsMatches(l, mix, qs, m, g)) == TotalMatches(qs, m)
  {
    var now := g => if g < 0 then 0 else ShardsMatches(l, mix, qs, m, g);
    if m == 0 {
      SumZero(l.buckets, now);
    } else {
      hide BucketMatches, MatchCount;
      var was := g => if g < 0 then 0 else ShardsMatches(l, mix, qs, m - 1, g);
      var own := g => if g < 0 then 0 else BucketMatches(l, mix, qs[m - 1], |qs[m - 1].table.keys|, g);
      BucketsPartitionShards(l, mix, qs, m - 1);
      BucketsPartitionRows(l, mix, qs[m - 1], |qs[m - 1].table.keys|);
      SumPlus(l.buckets, was, own);
      SumExt(l.buckets, now, g => was(g) + own(g));
    }
  }

  lemma {:induction false} CountTotalIsSum(buckets: seq<BucketResult>, f: int -> int)
    requires forall g :: 0 <= g < |buckets| ==> f(g) == buckets[g].count
    ensures CountTotal(buckets) == SumTo(|buckets|, f)
  {
    if buckets != [] {
      CountTotalIsSum(buckets[..|buckets| - 1], f);
    }
  }

  lemma {:induction false} SumDominates(n: nat, f: int -> int, k: nat)
    requires k < n && forall j :: 0 <= j < n ==> f(j) >= 0
    ensures f(k) <= SumTo(n, f)
  {
    if k == n - 1 {
      SumBounds(n - 1, _ => 0, f);
      SumZero(n - 1, _ => 0);
    } else {
      SumDominates(n - 1, f, k);
    }
  }

  /**
   COUNT(*): the bucket counts add up to the exact number of matching rows, collisions or not, however rows are split.
   */
  lemma {:induction false} CountIsExact(l: Layout, mix: nat -> nat, qs: seq<Query>, t: nat, results: seq<BucketResult>)
    requires l.buckets > 0 && Answers(l, mix, qs, t, results) && TotalMatches(qs, |qs|) < t
    ensures CountTotal(results) == TotalMatches(qs, |qs|)
  {
    var f := g => if g < 0 then 0 else ShardsMatches(l, mix, qs, |qs|, g);
    BucketsPartitionShards(l, mix, qs, |qs|);
    hide ShardsMatches;
    forall g | 0 <= g < l.buckets
      ensures f(g) == results[g].count
    {
      SumDominates(l.buckets, f, g);
      assert BucketAnswer(l, mix, qs, g, results[g]);
    }
    CountTotalIsSum(results, f);
  }

  // ---- complete point queries ---------------------------------------------

  /** How many of the numbers m, m + 1, ..., m + c - 1 are g modulo d. */
  function LandIn(m: nat, c: nat, d: nat, g: nat): (k: nat)
    requires d > 0
  {
    if c == 0 then 0 else LandIn(m, c - 1, d, g) + (if Mod(m + c - 1, d) == g then 1 else 0)
  }

  lemma {:induction false} LandedEarlier(m: nat, c: nat, d: nat, j: nat)
    requires d > 0 && c <= j < d
    ensures LandIn(m, c, d, Mod(m + j, d)) == 0
  {
    if c > 0 {
      LandedEarlier(m, c - 1, d, j);
      ResiduesDiffer(m + c - 1, m + j, d);
    }
  }

  /** At most d consecutive numbers have distinct residues, and d + 1 of them do not. */
  lemma {:induction false} Pigeonhole(m: nat, c: nat, d: nat, g: nat)
    requires d > 0
    ensures c <= d ==> LandIn(m, c, d, g) <= 1
    ensures c > d ==> LandIn(m, c, d, Mod(m, d)) >= 2
  {
    if 0 < c <= d {
      Pigeonhole(m, c - 1, d, g);
      if Mod(m + c - 1, d) == g {
        LandedEarlier(m, c - 1, d, c - 1);
      }
    } else if c == d + 1 {
      LandsFirst(m, d, d);
      ModShift(m, 1, d);
    } else if c > d + 1 {
      Pigeonhole(m, c - 1, d, g);
    }
  }

  lemma {:induction false} LandsFirst(m: nat, c: nat, d: nat)
    requires d > 0 && c > 0
    ensures LandIn(m, c, d, Mod(m, d)) >= 1
  {
    if c == 1 {
      assert LandIn(m, 0, d, Mod(m, d)) == 0;
    } else {
      LandsFirst(m, c - 1, d);
    }
  }

  /** The rows of one key walk over the buckets one by one from mix(key). */
  lemma {:induction false} KeyWalks(l: Layout, mix: nat -> nat, q: Query, k: nat, n: nat, g: nat)
    requires l.buckets > 0 && n <= |q.table.keys| && q.op == Eq && q.values == [k]
    ensures BucketMatches(l, mix, q, n, g) == LandIn(mix(k), CountEqual(q.table.keys, n, k), l.buckets, g)
    ensures MatchCount(q, n) == CountEqual(q.table.keys, n, k)
  {
    if n > 0 {
      KeyWalks(l, mix, q, k, n - 1, g);
    }
  }

  lemma {:induction false} OneMatchInBucket(l: Layout, mix: nat -> nat, q: Query, n: nat, g: nat, r: nat)
    requires l.buckets > 0 && r < n <= |q.table.keys| && IsMatchIn(l, mix, q, r, g)
    ensures BucketMatches(l, mix, q, n, g) >= 1
  {
    hide Bucket, Matches;
    if r < n - 1 {
      OneMatchInBucket(l, mix, q, n - 1, g, r);
    }
  }

  lemma {:induction false} TwoMatchesInBucket(l: Layout, mix: nat -> nat, q: Query, n: nat, g: nat, r1: nat, r2: nat)
    requires l.buckets > 0 && r1 < r2 < n <= |q.table.keys|
    requires IsMatchIn(l, mix, q, r1, g) && IsMatchIn(l, mix, q, r2, g)
    ensures BucketMatches(l, mix, q, n, g) >= 2
  {
    hide Bucket, Matches;
    if r2 < n - 1 {
      TwoMatchesInBucket(l, mix, q, n - 1, g, r1, r2);
    } else {
      OneMatchInBucket(l, mix, q, n - 1, g, r1);
    }
  }

  function RowsOf(q: Query, k: nat): (c: nat) {
    CountEqual(q.table.keys, |q.table.keys|, k)
  }

  ghost predicate PointQuery(qs: seq<Query>, k: nat) {
    forall s :: 0 <= s < |qs| ==> qs[s].op == Eq && qs[s].values == [k] && |qs[s].table.keys| == |qs[s].table.rows|
  }

  /** The key's rows are all on one shard, and there are not more of them than buckets. */
  ghost predicate FitsOneShard(qs: seq<Query>, k: nat, buckets: nat) {
    && (forall s :: 0 <= s < |qs| ==> RowsOf(qs[s], k) <= buckets)
    && (forall s, s' :: 0 <= s < s' < |qs| ==> RowsOf(qs[s], k) == 0 || RowsOf(qs[s'], k) == 0)
  }

  lemma {:induction false} ShardCounts(l: Layout, mix: nat -> nat, qs: seq<Query>, m: nat, s: nat, g: nat)
    requires l.buckets > 0 && s < m <= |qs|
    ensures ShardsMatches(l, mix, qs, m, g) >= BucketMatches(l, mix, qs[s], |qs[s].table.keys|, g)
  {
    hide BucketMatches;
    if s < m - 1 {
      ShardCounts(l, mix, qs, m - 1, s, g);
    }
  }

  lemma {:induction false} TwoShardsCount(l: Layout, mix: nat -> nat, qs: seq<Query>, m: nat, s: nat, s': nat, g: nat)
    requires l.buckets > 0 && s < s' < m <= |qs|
    ensures ShardsMatches(l, mix, qs, m, g)
            >= BucketMatches(l, mix, qs[s], |qs[s].table.keys|, g)
                + BucketMatches(l, mix, qs[s'], |qs[s'].table.keys|, g)
  {
    hide BucketMatches;
    if s' < m - 1 {
      TwoShardsCount(l, mix, qs, m - 1, s, s', g);
    } else {
      ShardCounts(l, mix, qs, m - 1, s, g);
    }
  }

  lemma {:induction false} OnShard(l: Layout, mix: nat -> nat, qs: seq<Query>, k: nat, s: nat, g: nat)
    requires l.buckets > 0 && PointQuery(qs, k) && s < |qs|
    ensures BucketMatches(l, mix, qs[s], |qs[s].table.keys|, g) == LandIn(mix(k), RowsOf(qs[s], k), l.buckets, g)
  {
    KeyWalks(l, mix, qs[s], k, |qs[s].table.keys|, g);
  }

  lemma {:induction false} OneShardShare(l: Layout, mix: nat -> nat, qs: seq<Query>, k: nat, s: nat, g: nat)
    requires l.buckets > 0 && PointQuery(qs, k) && s < |qs| && RowsOf(qs[s], k) <= l.buckets
    ensures BucketMatches(l, mix, qs[s], |qs[s].table.keys|, g) <= 1
    ensures BucketMatches(l, mix, qs[s], |qs[s].table.keys|, g) > 0 ==> RowsOf(qs[s], k) > 0
  {
    hide BucketMatches, RowsOf, PointQuery;
    OnShard(l, mix, qs, k, s, g);
    Pigeonhole(mix(k), RowsOf(qs[s], k), l.buckets, g);
    assert LandIn(mix(k), 0, l.buckets, g) == 0;
  }

  ghost predicate SomeRows(qs: seq<Query>, m: nat, k: nat)
    requires m <= |qs|
  {
    exists s :: 0 <= s < m && RowsOf(qs[s], k) > 0
  }

  /** A key that fits one shard never puts two rows in a bucket. */
  lemma {:induction false} FittingKeySpreads(l: Layout, mix: nat -> nat, qs: seq<Query>, k: nat, m: nat, g: nat)
    requires l.buckets > 0 && PointQuery(qs, k) && FitsOneShard(qs, k, l.buckets) && m <= |qs|
    ensures ShardsMatches(l, mix, qs, m, g) <= 1
    ensures ShardsMatches(l, mix, qs, m, g) > 0 ==> SomeRows(qs, m, k)
  {
    hide BucketMatches, RowsOf, PointQuery;
    if m > 0 {
      FittingKeySpreads(l, mix, qs, k, m - 1, g);
      OneShardShare(l, mix, qs, k, m - 1, g);
    }
  }

  /** A key that does not fit puts two rows in the bucket its first row goes to. */
  lemma {:induction false} OtherKeysCollide(l: Layout, mix: nat -> nat, qs: seq<Query>, k: nat)
    requires l.buckets > 0 && PointQuery(qs, k) && !FitsOneShard(qs, k, l.buckets)
    ensures ShardsMatches(l, mix, qs, |qs|, Mod(mix(k), l.buckets)) >= 2
  {
    hide PointQuery, LandIn, BucketMatches, ShardsMatches, RowsOf;
    var g := Mod(mix(k), l.buckets);
    if s :| 0 <= s < |qs| && RowsOf(qs[s], k) > l.buckets {
      Pigeonhole(mix(k), RowsOf(qs[s], k), l.buckets, g);
      OnShard(l, mix, qs, k, s, g);
      ShardCounts(l, mix, qs, |qs|, s, g);
    } else {
      var s, s' :| 0 <= s < s' < |qs| && RowsOf(qs[s], k) > 0 && RowsOf(qs[s'], k) > 0;
      LandsFirst(mix(k), RowsOf(qs[s], k), l.buckets);
      LandsFirst(mix(k), RowsOf(qs[s'], k), l.buckets);
      OnShard(l, mix, qs, k, s, g);
      OnShard(l, mix, qs, k, s', g);
      TwoShardsCount(l, mix, qs, |qs|, s, s', g);
    }
  }

  /** The record in a bucket with one match is the record of the row that was placed there. */
  lemma {:induction false} RowComesBack(l: Layout, mix: nat -> nat, qs: seq<Query>, s: nat, r: nat, g: nat,
                                        br: BucketResult)
    requires l.buckets > 0 && s < |qs| && IsMatchIn(l, mix, qs[s], r, g)
    requires BucketAnswer(l, mix, qs, g, br) && !br.collided
    ensures br.present && br.record == PaddedRecord(qs[s].table, r)
  {
    OneMatchInBucket(l, mix, qs[s], |qs[s].table.keys|, g, r);
    ShardCounts(l, mix, qs, |qs|, s, g);
    var s', r' :| 0 <= s' < |qs| && r' >= 0 && IsMatchIn(l, mix, qs[s'], r', g)
        && br.record == PaddedRecord(qs[s'].table, r');
    hide PaddedRecord, BucketMatches, ShardsMatches;
    if s' != s {
      OneMatchInBucket(l, mix, qs[s'], |qs[s'].table.keys|, g, r');
      TwoShardsCount(l, mix, qs, |qs|, if s < s' then s else s', if s < s' then s' else s, g);
    } else if r' != r {
      TwoMatchesInBucket(l, mix, qs[s], |qs[s].table.keys|, g, if r < r' then r else r', if r < r' then r' else r);
    }
  }

  ghost predicate AllTold(l: Layout, mix: nat -> nat, qs: seq<Query>, results: seq<BucketResult>)
    requires l.buckets > 0
  {
    && |results| == l.buckets
    && forall g :: 0 <= g < l.buckets ==> BucketAnswer(l, mix, qs, g, results[g])
  }

  lemma {:induction false} EveryBucketTold(l: Layout, mix: nat -> nat, qs: seq<Query>, t: nat,
                                           results: seq<BucketResult>)
    requires l.buckets > 0 && Answers(l, mix, qs, t, results) && TotalMatches(qs, |qs|) < t
    ensures AllTold(l, mix, qs, results)
  {
    var f := g => if g < 0 then 0 else ShardsMatches(l, mix, qs, |qs|, g);
    BucketsPartitionShards(l, mix, qs, |qs|);
    hide ShardsMatches, BucketAnswer;
    forall g | 0 <= g < l.buckets
      ensures BucketAnswer(l, mix, qs, g, results[g])
    {
      SumDominates(l.buckets, f, g);
    }
  }

  ghost predicate NoneCollided(results: seq<BucketResult>) {
    forall g :: 0 <= g < |results| ==> !results[g].collided
  }

  // ---- which records come back --------------------------------------------

  /** f(0) + ... + f(n - 1). */
  ghost function UnionTo(n: nat, f: nat -> multiset<seq<byte>>): (u: multiset<seq<byte>>) {
    if n == 0 then multiset{} else UnionTo(n - 1, f) + f(n - 1)
  }

  lemma {:induction false} UnionExt(n: nat, f: nat -> multiset<seq<byte>>, f': nat -> multiset<seq<byte>>)
    requires forall g: nat :: g < n ==> f(g) == f'(g)
    ensures UnionTo(n, f) == UnionTo(n, f')
  {
    if n > 0 {
      UnionExt(n - 1, f, f');
    }
  }

  lemma {:induction false} UnionEmpty(n: nat, f: nat -> multiset<seq<byte>>)
    requires forall g: nat :: g < n ==> f(g) == multiset{}
    ensures UnionTo(n, f) == multiset{}
  {
    if n > 0 {
      UnionEmpty(n - 1, f);
    }
  }

  lemma {:induction false} UnionChange(n: nat, f: nat -> multiset<seq<byte>>, f': nat -> multiset<seq<byte>>, b: nat,
                                       d: multiset<seq<byte>>)
    requires b < n && f'(b) == f(b) + d && forall g: nat :: g < n && g != b ==> f'(g) == f(g)
    ensures UnionTo(n, f') == UnionTo(n, f) + d
  {
    if b == n - 1 {
      UnionExt(n - 1, f, f');
    } else {
      UnionChange(n - 1, f, f', b, d);
    }
  }

  lemma {:induction false} UnionPlus(n: nat, f: nat -> multiset<seq<byte>>, f': nat -> multiset<seq<byte>>,
                                     both: nat -> multiset<seq<byte>>)
    requires forall g: nat :: g < n ==> both(g) == f(g) + f'(g)
    ensures UnionTo(n, both) == UnionTo(n, f) + UnionTo(n, f')
  {
    if n > 0 {
      UnionPlus(n - 1, f, f', both);
    }
  }

  lemma {:induction false} UnionBelow(n: nat, f: nat -> multiset<seq<byte>>, f': nat -> multiset<seq<byte>>)
    requires forall g: nat :: g < n ==> f(g) <= f'(g)
    ensures UnionTo(n, f) <= UnionTo(n, f')
  {
    if n > 0 {
      UnionBelow(n - 1, f, f');
    }
  }

  /** The records of the matching rows among the first n. */
  ghost function MatchingRecords(q: Query, n: nat): (m: multiset<seq<byte>>)
    requires n <= |q.table.keys| == |q.table.rows|
  {
    if n == 0 then multiset{}
    else
      MatchingRecords(q, n - 1)
      + if Matches(q.op, q.values, q.table.keys[n - 1]) then multiset{PaddedRecord(q.table, n - 1)} else multiset{}
  }

  ghost predicate WholeRows(qs: seq<Query>) {
    forall s :: 0 <= s < |qs| ==> |qs[s].table.keys| == |qs[s].table.rows|
  }

  /** The records of the matching rows of the first m shards. */
  ghost function AllMatchingRecords(qs: seq<Query>, m: nat): (r: multiset<seq<byte>>)
    requires m <= |qs| && WholeRows(qs)
  {
    if m == 0 then multiset{} else AllMatchingRecords(qs, m - 1) + MatchingRecords(qs[m - 1], |qs[m - 1].table.keys|)
  }

  /** Those of them that were placed in bucket g. */
  ghost function BucketRecords(l: Layout, mix: nat -> nat, q: Query, n: nat, g: nat): (m: multiset<seq<byte>>)
    requires l.buckets > 0 && n <= |q.table.keys| == |q.table.rows|
  {
    if n == 0 then multiset{}
    else
      BucketRecords(l, mix, q, n - 1, g)
      + if Bucket(l, mix, q.table.keys, n - 1) == g && Matches(q.op, q.values, q.table.keys[n - 1])
        then multiset{PaddedRecord(q.table, n - 1)} else multiset{}
  }

  ghost function ShardsRecords(l: Layout, mix: nat -> nat, qs: seq<Query>, m: nat, g: nat): (r: multiset<seq<byte>>)
    requires l.buckets > 0 && m <= |qs| && WholeRows(qs)
  {
    if m == 0 then multiset{}
    else ShardsRecords(l, mix, qs, m - 1, g) + BucketRecords(l, mix, qs[m - 1], |qs[m - 1].table.keys|, g)
  }

  lemma {:induction false} BucketSize(l: Layout, mix: nat -> nat, q: Query, n: nat, g: nat)
    requires l.buckets > 0 && n <= |q.table.keys| == |q.table.rows|
    ensures |BucketRecords(l, mix, q, n, g)| == BucketMatches(l, mix, q, n, g)
  {
    hide Matches, PaddedRecord, Bucket;
    if n > 0 {
      BucketSize(l, mix, q, n - 1, g);
    }
  }

  lemma {:induction false} ShardsSize(l: Layout, mix: nat -> nat, qs: seq<Query>, m: nat, g: nat)
    requires l.buckets > 0 && m <= |qs| && WholeRows(qs)
    ensures |ShardsRecords(l, mix, qs, m, g)| == ShardsMatches(l, mix, qs, m, g)
  {
    hide BucketRecords, BucketMatches;
    if m > 0 {
      ShardsSize(l, mix, qs, m - 1, g);
      BucketSize(l, mix, qs[m - 1], |qs[m - 1].table.keys|, g);
    }
  }

  ghost function RowBuckets(l: Layout, mix: nat -> nat, q: Query, n: nat): (f: nat -> multiset<seq<byte>>)
    requires l.buckets > 0 && n <= |q.table.keys| == |q.table.rows|
  {
    (g: nat) => BucketRecords(l, mix, q, n, g)
  }

  ghost function ShardBuckets(l: Layout, mix: nat -> nat, qs: seq<Query>, m: nat): (f: nat -> multiset<seq<byte>>)
    requires l.buckets > 0 && m <= |qs| && WholeRows(qs)
  {
    (g: nat) => ShardsRecords(l, mix, qs, m, g)
  }

  lemma {:induction false} BucketsHoldRecords(l: Layout, mix: nat -> nat, q: Query, n: nat)
    requires l.buckets > 0 && n <= |q.table.keys| == |q.table.rows|
    ensures UnionTo(l.buckets, RowBuckets(l, mix, q, n)) == MatchingRecords(q, n)
  {
    hide Matches, PaddedRecord, UnionTo;
    if n == 0 {
      UnionEmpty(l.buckets, RowBuckets(l, mix, q, n));
    } else {
      BucketsHoldRecords(l, mix, q, n - 1);
      var b := Bucket(l, mix, q.table.keys, n - 1);
      hide Bucket;
      UnionChange(l.buckets, RowBuckets(l, mix, q, n - 1), RowBuckets(l, mix, q, n), b,
                  if Matches(q.op, q.values, q.table.keys[n - 1]) then multiset{PaddedRecord(q.table, n - 1)}
                      else multiset{});
    }
  }

  lemma {:induction false} BucketsHoldAll(l: Layout, mix: nat -> nat, qs: seq<Query>, m: nat)
    requires l.buckets > 0 && m <= |qs| && WholeRows(qs)
    ensures UnionTo(l.buckets, ShardBuckets(l, mix, qs, m)) == AllMatchingRecords(qs, m)
  {
    hide BucketRecords, MatchingRecords, UnionTo;
    if m == 0 {
      UnionEmpty(l.buckets, ShardBuckets(l, mix, qs, m));
    } else {
      BucketsHoldAll(l, mix, qs, m - 1);
      BucketsHoldRecords(l, mix, qs[m - 1], |qs[m - 1].table.keys|);
      UnionPlus(l.buckets, ShardBuckets(l, mix, qs, m - 1), RowBuckets(l, mix, qs[m - 1], |qs[m - 1].table.keys|),
                ShardBuckets(l, mix, qs, m));
    }
  }

  lemma {:induction false} MatchIsHeld(l: Layout, mix: nat -> nat, q: Query, n: nat, r: nat, g: nat)
    requires l.buckets > 0 && r < n <= |q.table.keys| == |q.table.rows| && IsMatchIn(l, mix, q, r, g)
    ensures PaddedRecord(q.table, r) in BucketRecords(l, mix, q, n, g)
  {
    hide Matches, PaddedRecord, Bucket;
    if r < n - 1 {
      MatchIsHeld(l, mix, q, n - 1, r, g);
    }
  }

  lemma {:induction false} ShardIsHeld(l: Layout, mix: nat -> nat, qs: seq<Query>, m: nat, s: nat, g: nat)
    requires l.buckets > 0 && s < m <= |qs| && WholeRows(qs)
    ensures BucketRecords(l, mix, qs[s], |qs[s].table.keys|, g) <= ShardsRecords(l, mix, qs, m, g)
  {
    hide BucketRecords;
    if s < m - 1 {
      ShardIsHeld(l, mix, qs, m - 1, s, g);
    }
  }

  lemma {:induction false} OnlyMember(m: multiset<seq<byte>>, x: seq<byte>)
    requires |m| == 1 && x in m
    ensures m == multiset{x}
  {
    assert |m - multiset{x}| == 0;
    assert m == multiset{x} + (m - multiset{x});
  }

  ghost function CleanOf(br: BucketResult): (m: multiset<seq<byte>>) {
    if br.present && !br.collided then multiset{br.record} else multiset{}
  }

  /** What a bucket shows is what it holds, unless it collided. */
  lemma {:induction false} BucketShows(l: Layout, mix: nat -> nat, qs: seq<Query>, g: nat, br: BucketResult)
    requires l.buckets > 0 && WholeRows(qs) && BucketAnswer(l, mix, qs, g, br)
    ensures CleanOf(br) <= ShardsRecords(l, mix, qs, |qs|, g)
    ensures !br.collided ==> CleanOf(br) == ShardsRecords(l, mix, qs, |qs|, g)
  {
    var held := ShardsRecords(l, mix, qs, |qs|, g);
    ShardsSize(l, mix, qs, |qs|, g);
    if br.count == 1 {
      var s, r :| 0 <= s < |qs| && r >= 0 && IsMatchIn(l, mix, qs[s], r, g)
          && br.record == PaddedRecord(qs[s].table, r);
      hide ShardsRecords, BucketRecords, ShardsMatches, PaddedRecord;
      MatchIsHeld(l, mix, qs[s], |qs[s].table.keys|, r, g);
      ShardIsHeld(l, mix, qs, |qs|, s, g);
      OnlyMember(held, br.record);
    }
  }

  lemma {:induction false} CleanIsUnion(results: seq<BucketResult>, f: nat -> multiset<seq<byte>>)
    requires forall g: nat :: g < |results| ==> f(g) == CleanOf(results[g])
    ensures multiset(CleanRecords(results)) == UnionTo(|results|, f)
  {
    if results != [] {
      var front, last := results[..|results| - 1], results[|results| - 1];
      CleanIsUnion(front, f);
      assert multiset(CleanRecords(results)) == multiset(CleanRecords(front)) + CleanOf(last) by {
        hide UnionTo;
      }
    }
  }

  ghost function Shown(results: seq<BucketResult>): (f: nat -> multiset<seq<byte>>) {
    (g: nat) => if g < |results| then CleanOf(results[g]) else multiset{}
  }

  lemma {:induction false} BucketsShow(l: Layout, mix: nat -> nat, qs: seq<Query>, results: seq<BucketResult>, g: nat)
    requires l.buckets > 0 && WholeRows(qs) && AllTold(l, mix, qs, results) && g < l.buckets
    ensures Shown(results)(g) <= ShardBuckets(l, mix, qs, |qs|)(g)
    ensures !results[g].collided ==> Shown(results)(g) == ShardBuckets(l, mix, qs, |qs|)(g)
  {
    hide BucketAnswer, CleanOf, ShardsRecords;
    BucketShows(l, mix, qs, g, results[g]);
  }

  /**
   The client never sees a record of a row that does not match; without collisions it sees all that match, each once.
   */
  lemma {:induction false} CleanIsComplete(l: Layout, mix: nat -> nat, qs: seq<Query>, t: nat,
                                           results: seq<BucketResult>)
    requires l.buckets > 0 && WholeRows(qs) && Answers(l, mix, qs, t, results) && TotalMatches(qs, |qs|) < t
    ensures multiset(CleanRecords(results)) <= AllMatchingRecords(qs, |qs|)
    ensures NoneCollided(results) ==> multiset(CleanRecords(results)) == AllMatchingRecords(qs, |qs|)
  {
    EveryBucketTold(l, mix, qs, t, results);
    assert |results| == l.buckets;
    var shown, held := Shown(results), ShardBuckets(l, mix, qs, |qs|);
    CleanIsUnion(results, shown);
    hide CleanRecords, AllMatchingRecords, Answers, TotalMatches, AllTold, ShardBuckets, Shown, UnionTo;
    forall g: nat | g < l.buckets
      ensures shown(g) <= held(g) && (!results[g].collided ==> shown(g) == held(g))
    {
      BucketsShow(l, mix, qs, results, g);
    }
    BucketsHoldAll(l, mix, qs, |qs|);
    UnionBelow(l.buckets, shown, held);
    if NoneCollided(results) {
      UnionExt(l.buckets, shown, held);
    }
  }

  /**
   A point query is free of collisions exactly when the key's rows are all on one shard and are no more than the
   buckets; the records that come back are then those of the key's rows, each once and byte for byte.
   */
  lemma {:induction false} PointQueryComplete(l: Layout, mix: nat -> nat, qs: seq<Query>, k: nat, t: nat,
                                              results: seq<BucketResult>)
    requires l.buckets > 0 && Answers(l, mix, qs, t, results) && PointQuery(qs, k) && TotalMatches(qs, |qs|) < t
    ensures NoneCollided(results) <==> FitsOneShard(qs, k, l.buckets)
    ensures NoneCollided(results) ==> multiset(CleanRecords(results)) == AllMatchingRecords(qs, |qs|)
  {
    EveryBucketTold(l, mix, qs, t, results);
    CleanIsComplete(l, mix, qs, t, results);
    if FitsOneShard(qs, k, l.buckets) {
      FittingIsClean(l, mix, qs, k, results);
    } else {
      OtherKeysCollide(l, mix, qs, k);
      hide ShardsMatches, Answers, TotalMatches, FitsOneShard, CleanRecords;
      var g := Mod(mix(k), l.buckets);
      assert BucketAnswer(l, mix, qs, g, results[g]);
    }
  }

  lemma {:induction false} FittingIsClean(l: Layout, mix: nat -> nat, qs: seq<Query>, k: nat,
                                          results: seq<BucketResult>)
    requires l.buckets > 0 && AllTold(l, mix, qs, results) && PointQuery(qs, k) && FitsOneShard(qs, k, l.buckets)
    ensures forall g :: 0 <= g < |results| ==>
              results[g].count <= 1 && (results[g].present <==> results[g].count > 0) && !results[g].collided
  {
    forall g | 0 <= g < |results|
      ensures results[g].count <= 1 && (results[g].present <==> results[g].count > 0) && !results[g].collided
    {
      FittingKeySpreads(l, mix, qs, k, |qs|, g);
      hide ShardsMatches, PointQuery, FitsOneShard;
      assert BucketAnswer(l, mix, qs, g, results[g]);
    }
  }

  // ---- sharding does not show ---------------------------------------------

  /** The rows among the first n that the owner map gives to shard s, in table order. */
  function Shard(table: Table, owner: nat -> nat, s: nat, n: nat): (shard: Table)
    requires n <= |table.keys| == |table.rows|
    ensures |shard.keys| == |shard.rows| <= n
    ensures shard == table.(keys := shard.keys, rows := shard.rows)
  {
    if n == 0 then table.(keys := [], rows := [])
    else
      var rest := Shard(table, owner, s, n - 1);
      if owner(n - 1) == s then rest.(keys := rest.keys + [table.keys[n - 1]], rows := rest.rows + [table.rows[n - 1]])
          else rest
  }

  function ShardQuery(q: Query, owner: nat -> nat, s: nat, n: nat): (r: Query)
    requires n <= |q.table.keys| == |q.table.rows|
  {
    q.(table := Shard(q.table, owner, s, n))
  }

  /** The query on every one of m shards of the first n rows. */
  function Split(q: Query, owner: nat -> nat, m: nat, n: nat): (qs: seq<Query>)
    requires n <= |q.table.keys| == |q.table.rows|
    ensures |qs| == m
  {
    seq(m, s requires 0 <= s < m => ShardQuery(q, owner, s, n))
  }

  /** Rows of one key go to one shard. */
  ghost predicate KeyedOwner(table: Table, owner: nat -> nat, m: nat) {
    && (forall r :: 0 <= r < |table.keys| ==> owner(r) < m)
    && (forall r, r' :: 0 <= r < r' < |table.keys| && table.keys[r] == table.keys[r'] ==> owner(r) == owner(r'))
  }

  /** The owner's shard holds every earlier row of the key. */
  lemma {:induction false} OwnerHoldsKey(table: Table, owner: nat -> nat, m: nat, n: nat, r: nat)
    requires n <= r < |table.keys| == |table.rows| && KeyedOwner(table, owner, m)
    ensures var keys := Shard(table, owner, owner(r), n).keys;
            CountEqual(keys, |keys|, table.keys[r]) == CountEqual(table.keys, n, table.keys[r])
  {
    if n > 0 {
      var rest := Shard(table, owner, owner(r), n - 1).keys;
      assert Shard(table, owner, owner(r), n).keys == if owner(n - 1) == owner(r) then rest + [table.keys[n - 1]]
          else rest;
      OwnerHoldsKey(table, owner, m, n - 1, r);
      hide Shard;
      CountOfPrefix(rest, rest + [table.keys[n - 1]], |rest|, table.keys[r]);
    }
  }

  lemma {:induction false} CountOfPrefix(a: seq<nat>, b: seq<nat>, n: nat, k: nat)
    requires n <= |a| && a <= b
    ensures CountEqual(a, n, k) == CountEqual(b, n, k)
  {
    if n > 0 {
      CountOfPrefix(a, b, n - 1, k);
    }
  }

  ghost predicate Extends(q: Query, q': Query) {
    && q'.t == q.t && q'.op == q.op && q'.values == q.values
    && |q.table.keys| == |q.table.rows| && |q'.table.keys| == |q'.table.rows|
    && q.table.keys <= q'.table.keys && q.table.rows <= q'.table.rows
    && q'.table == q.table.(keys := q'.table.keys, rows := q'.table.rows)
  }

  /** More rows behind it do not change what a row contributes. */
  lemma {:induction false} RowValueOfPrefix(q: Query, q': Query, r: nat, p: nat, i: nat)
    requires Extends(q, q') && r < |q.table.keys|
    ensures q.RowValue(r, p, i) == q'.RowValue(r, p, i)
  {
    hide Weight, Multiplicity, SlotValue, PayloadPlaneCount;
    assert q.table.rows[r] == q'.table.rows[r] && q.table.keys[r] == q'.table.keys[r];
  }

  lemma {:induction false} BucketOfPrefix(l: Layout, mix: nat -> nat, a: seq<nat>, b: seq<nat>, r: nat)
    requires l.buckets > 0 && a <= b && r < |a|
    ensures Bucket(l, mix, a, r) == Bucket(l, mix, b, r)
  {
    CountOfPrefix(a, b, r, a[r]);
  }

  lemma {:induction false} ValueOfPrefix(l: Layout, mix: nat -> nat, q: Query, q': Query, n: nat, g: nat, p: nat,
                                         i: nat)
    requires l.buckets > 0 && Extends(q, q') && n <= |q.table.keys|
    ensures BucketValue(l, mix, q, n, g, p, i) == BucketValue(l, mix, q', n, g, p, i)
    ensures BucketMatches(l, mix, q, n, g) == BucketMatches(l, mix, q', n, g)
    ensures MatchCount(q, n) == MatchCount(q', n)
  {
    if n > 0 {
      ValueOfPrefix(l, mix, q, q', n - 1, g, p, i);
      RowValueOfPrefix(q, q', n - 1, p, i);
      BucketOfPrefix(l, mix, q.table.keys, q'.table.keys, n - 1);
      hide Bucket, Matches, Query.RowValue;
      assert q.table.keys[n - 1] == q'.table.keys[n - 1];
    }
  }

  ghost function ShardValue(l: Layout, mix: nat -> nat, q: Query, g: nat, p: nat, i: nat): (v: nat)
    requires l.buckets > 0
  {
    BucketValue(l, mix, q, |q.table.keys|, g, p, i)
  }

  function ShardMatches(l: Layout, mix: nat -> nat, q: Query, g: nat): (k: nat)
    requires l.buckets > 0
  {
    BucketMatches(l, mix, q, |q.table.keys|, g)
  }

  ghost function RowAdds(l: Layout, mix: nat -> nat, q: Query, r: nat, g: nat, p: nat, i: nat): (v: nat)
    requires l.buckets > 0 && r < |q.table.keys|
  {
    if Bucket(l, mix, q.table.keys, r) == g then q.RowValue(r, p, i) else 0
  }

  function RowMatches(l: Layout, mix: nat -> nat, q: Query, r: nat, g: nat): (k: nat)
    requires l.buckets > 0 && r < |q.table.keys|
  {
    if Bucket(l, mix, q.table.keys, r) == g && Matches(q.op, q.values, q.table.keys[r]) then 1 else 0
  }

  /** The last row of a query's table adds its own part to what the others make. */
  lemma {:induction false} LastRowAdds(l: Layout, mix: nat -> nat, q: Query, q': Query, g: nat, p: nat, i: nat)
    requires l.buckets > 0 && Extends(q, q') && |q'.table.keys| == |q.table.keys| + 1
    ensures ShardValue(l, mix, q', g, p, i) == ShardValue(l, mix, q, g, p, i)
              + RowAdds(l, mix, q', |q.table.keys|, g, p, i)
    ensures ShardMatches(l, mix, q', g) == ShardMatches(l, mix, q, g) + RowMatches(l, mix, q', |q.table.keys|, g)
    ensures MatchCount(q', |q'.table.keys|)
            == MatchCount(q, |q.table.keys|) + (if Matches(q.op, q.values, q'.table.keys[|q.table.keys|]) then 1 else 0)
  {
    ValueOfPrefix(l, mix, q, q', |q.table.keys|, g, p, i);
    hide Bucket, Matches, Query.RowValue;
  }

  /** A row on its shard has the bucket, the key and the record it has in the whole table. */
  lemma {:induction false} RowOnShard(l: Layout, mix: nat -> nat, q: Query, owner: nat -> nat, m: nat, r: nat, g: nat,
                                      p: nat, i: nat)
    requires l.buckets > 0 && r < |q.table.keys| == |q.table.rows| && KeyedOwner(q.table, owner, m)
    ensures var q' := ShardQuery(q, owner, owner(r), r + 1);
            var r' := |ShardQuery(q, owner, owner(r), r).table.keys|;
            && r' < |q'.table.keys|
            && RowAdds(l, mix, q', r', g, p, i) == RowAdds(l, mix, q, r, g, p, i)
            && RowMatches(l, mix, q', r', g) == RowMatches(l, mix, q, r, g)
  {
    var rest := Shard(q.table, owner, owner(r), r);
    var q' := ShardQuery(q, owner, owner(r), r + 1);
    OwnerHoldsKey(q.table, owner, m, r, r);
    CountOfPrefix(rest.keys, q'.table.keys, |rest.keys|, q.table.keys[r]);
    hide CountEqual, Shard, Matches, KeyedOwner, Weight, Multiplicity, SlotValue, PayloadPlaneCount;
    assert q'.table.rows[|rest.keys|] == q.table.rows[r];
    assert q'.table.keys[|rest.keys|] == q.table.keys[r];
  }

  lemma {:induction false} ShardStep(q: Query, owner: nat -> nat, s: nat, n: nat)
    requires 0 < n <= |q.table.keys| == |q.table.rows|
    ensures owner(n - 1) != s ==> ShardQuery(q, owner, s, n) == ShardQuery(q, owner, s, n - 1)
    ensures owner(n - 1) == s ==>
              Extends(ShardQuery(q, owner, s, n - 1), ShardQuery(q, owner, s, n))
              && |ShardQuery(q, owner, s, n).table.keys| == |ShardQuery(q, owner, s, n - 1).table.keys| + 1
              && ShardQuery(q, owner, s, n).table.keys[|ShardQuery(q, owner, s, n - 1).table.keys|]
                  == q.table.keys[n - 1]
  {
  }

  /** One more row changes only the shard that owns it. */
  lemma {:induction false} OneShardStep(l: Layout, mix: nat -> nat, q: Query, owner: nat -> nat, m: nat, s: nat, n: nat,
                                        g: nat, p: nat, i: nat)
    requires l.buckets > 0 && 0 < n <= |q.table.keys| == |q.table.rows| && KeyedOwner(q.table, owner, m)
    ensures ShardValue(l, mix, ShardQuery(q, owner, s, n), g, p, i)
            == ShardValue(l, mix, ShardQuery(q, owner, s, n - 1), g, p, i)
               + (if owner(n - 1) == s then RowAdds(l, mix, q, n - 1, g, p, i) else 0)
    ensures ShardMatches(l, mix, ShardQuery(q, owner, s, n), g)
            == ShardMatches(l, mix, ShardQuery(q, owner, s, n - 1), g)
               + (if owner(n - 1) == s then RowMatches(l, mix, q, n - 1, g) else 0)
  {
    hide RowAdds, RowMatches, ShardQuery, KeyedOwner, ShardMatches, ShardValue;
    ShardStep(q, owner, s, n);
    if owner(n - 1) == s {
      LastRowAdds(l, mix, ShardQuery(q, owner, s, n - 1), ShardQuery(q, owner, s, n), g, p, i);
      RowOnShard(l, mix, q, owner, m, n - 1, g, p, i);
    }
  }

  lemma {:induction false} SplitStep(l: Layout, mix: nat -> nat, q: Query, owner: nat -> nat, m: nat, k: nat, n: nat,
                                     g: nat, p: nat, i: nat)
    requires l.buckets > 0 && 0 < n <= |q.table.keys| == |q.table.rows| && KeyedOwner(q.table, owner, m) && k <= m
    ensures ShardsValue(l, mix, Split(q, owner, m, n), k, g, p, i)
            == ShardsValue(l, mix, Split(q, owner, m, n - 1), k, g, p, i)
               + (if owner(n - 1) < k then RowAdds(l, mix, q, n - 1, g, p, i) else 0)
    ensures ShardsMatches(l, mix, Split(q, owner, m, n), k, g)
            == ShardsMatches(l, mix, Split(q, owner, m, n - 1), k, g)
               + (if owner(n - 1) < k then RowMatches(l, mix, q, n - 1, g) else 0)
  {
    hide RowAdds, RowMatches, ShardQuery, KeyedOwner, BucketMatches, BucketValue;
    if k > 0 {
      SplitStep(l, mix, q, owner, m, k - 1, n, g, p, i);
      OneShardStep(l, mix, q, owner, m, k - 1, n, g, p, i);
      assert Split(q, owner, m, n)[k - 1] == ShardQuery(q, owner, k - 1, n);
      assert Split(q, owner, m, n - 1)[k - 1] == ShardQuery(q, owner, k - 1, n - 1);
    }
  }

  /** Keys that stay on one shard: every slot of every bucket sums to what the unsharded table gives. */
  lemma {:induction false} ShardedIsUnsharded(l: Layout, mix: nat -> nat, q: Query, owner: nat -> nat, m: nat, n: nat,
                                              g: nat, p: nat, i: nat)
    requires l.buckets > 0 && n <= |q.table.keys| == |q.table.rows| && KeyedOwner(q.table, owner, m)
    ensures ShardsValue(l, mix, Split(q, owner, m, n), m, g, p, i) == BucketValue(l, mix, q, n, g, p, i)
    ensures ShardsMatches(l, mix, Split(q, owner, m, n), m, g) == BucketMatches(l, mix, q, n, g)
  {
    if n == 0 {
      EmptySplit(l, mix, q, owner, m, m, g, p, i);
    } else {
      ShardedIsUnsharded(l, mix, q, owner, m, n - 1, g, p, i);
      SplitStep(l, mix, q, owner, m, m, n, g, p, i);
      hide Bucket, Matches, Query.RowValue, Split, ShardsValue, ShardsMatches;
    }
  }

  lemma {:induction false} EmptySplit(l: Layout, mix: nat -> nat, q: Query, owner: nat -> nat, m: nat, k: nat, g: nat,
                                      p: nat, i: nat)
    requires l.buckets > 0 && |q.table.keys| == |q.table.rows| && k <= m
    ensures ShardsValue(l, mix, Split(q, owner, m, 0), k, g, p, i) == 0
    ensures ShardsMatches(l, mix, Split(q, owner, m, 0), k, g) == 0
    ensures TotalMatches(Split(q, owner, m, 0), k) == 0
  {
    if k > 0 {
      EmptySplit(l, mix, q, owner, m, k - 1, g, p, i);
      assert Split(q, owner, m, 0)[k - 1] == ShardQuery(q, owner, k - 1, 0);
    }
  }

  lemma {:induction false} SplitCountStep(l: Layout, mix: nat -> nat, q: Query, owner: nat -> nat, m: nat, k: nat,
                                          n: nat)
    requires l.buckets > 0 && 0 < n <= |q.table.keys| == |q.table.rows| && k <= m
    ensures TotalMatches(Split(q, owner, m, n), k)
            == TotalMatches(Split(q, owner, m, n - 1), k)
               + (if owner(n - 1) < k && Matches(q.op, q.values, q.table.keys[n - 1]) then 1 else 0)
  {
    hide Matches, ShardQuery, MatchCount;
    if k > 0 {
      SplitCountStep(l, mix, q, owner, m, k - 1, n);
      ShardCountStep(l, mix, q, owner, k - 1, n);
      assert Split(q, owner, m, n)[k - 1] == ShardQuery(q, owner, k - 1, n);
      assert Split(q, owner, m, n - 1)[k - 1] == ShardQuery(q, owner, k - 1, n - 1);
    }
  }

  lemma {:induction false} ShardCountStep(l: Layout, mix: nat -> nat, q: Query, owner: nat -> nat, s: nat, n: nat)
    requires l.buckets > 0 && 0 < n <= |q.table.keys| == |q.table.rows|
    ensures var was, now := ShardQuery(q, owner, s, n - 1), ShardQuery(q, owner, s, n);
            MatchCount(now, |now.table.keys|)
            == MatchCount(was, |was.table.keys|)
                + (if owner(n - 1) == s && Matches(q.op, q.values, q.table.keys[n - 1]) then 1 else 0)
  {
    ShardStep(q, owner, s, n);
    var was, now := ShardQuery(q, owner, s, n - 1), ShardQuery(q, owner, s, n);
    assert now.op == q.op && was.op == q.op && now.values == q.values && was.values == q.values;
    hide Matches, ShardQuery, MatchCount;
    if owner(n - 1) == s {
      LastRowAdds(l, mix, was, now, 0, 0, 0);
    }
  }

  /** However the rows are split, the shards together hold the matches of the whole table. */
  lemma {:induction false} SplitKeepsMatches(l: Layout, mix: nat -> nat, q: Query, owner: nat -> nat, m: nat, n: nat)
    requires l.buckets > 0 && n <= |q.table.keys| == |q.table.rows| && forall r :: 0 <= r < |q.table.keys| ==>
               owner(r) < m
    ensures TotalMatches(Split(q, owner, m, n), m) == MatchCount(q, n)
  {
    if n == 0 {
      EmptySplit(l, mix, q, owner, m, m, 0, 0, 0);
    } else {
      SplitKeepsMatches(l, mix, q, owner, m, n - 1);
      SplitCountStep(l, mix, q, owner, m, m, n);
      hide Matches, Split, TotalMatches;
    }
  }

  lemma {:induction false} ShardGrows(table: Table, owner: nat -> nat, s: nat, n: nat, n': nat)
    requires n <= n' <= |table.keys| == |table.rows|
    ensures Shard(table, owner, s, n).keys <= Shard(table, owner, s, n').keys
    ensures Shard(table, owner, s, n).rows <= Shard(table, owner, s, n').rows
  {
    if n < n' {
      ShardGrows(table, owner, s, n, n' - 1);
    }
  }

  /** A match of the whole table is a match, in the same bucket and with the same record, of the shard that owns it. */
  lemma {:induction false} MatchOnShard(l: Layout, mix: nat -> nat, q: Query, owner: nat -> nat, m: nat, r: nat, g: nat)
      returns (r': nat)
    requires l.buckets > 0 && KeyedOwner(q.table, owner, m) && IsMatchIn(l, mix, q, r, g)
    ensures var shard := ShardQuery(q, owner, owner(r), |q.table.keys|);
            IsMatchIn(l, mix, shard, r', g) && PaddedRecord(shard.table, r') == PaddedRecord(q.table, r)
  {
    var rest := Shard(q.table, owner, owner(r), r);
    var shard := Shard(q.table, owner, owner(r), |q.table.keys|);
    r' := |rest.keys|;
    RowInShard(q.table, owner, r);
    OwnerHoldsKey(q.table, owner, m, r, r);
    ShardGrows(q.table, owner, owner(r), r, |q.table.keys|);
    CountOfPrefix(rest.keys, shard.keys, r', q.table.keys[r]);
    hide Shard, CountEqual, Matches, KeyedOwner, ByteAt;
    assert Bucket(l, mix, shard.keys, r') == Bucket(l, mix, q.table.keys, r);
  }

  /** A row sits in its owner's shard behind the earlier rows of that shard. */
  lemma {:induction false} RowInShard(table: Table, owner: nat -> nat, r: nat)
    requires r < |table.keys| == |table.rows|
    ensures var shard := Shard(table, owner, owner(r), |table.keys|);
            var r' := |Shard(table, owner, owner(r), r).keys|;
            r' < |shard.keys| && shard.keys[r'] == table.keys[r] && shard.rows[r'] == table.rows[r]
  {
    var rest := Shard(table, owner, owner(r), r);
    var next := Shard(table, owner, owner(r), r + 1);
    assert next.keys == rest.keys + [table.keys[r]] && next.rows == rest.rows + [table.rows[r]];
    ShardGrows(table, owner, owner(r), r + 1, |table.keys|);
    hide Shard;
    var shard := Shard(table, owner, owner(r), |table.keys|);
    assert shard.keys[|rest.keys|] == next.keys[|rest.keys|] && shard.rows[|rest.keys|] == next.rows[|rest.keys|];
  }

  /** A client cannot tell a table split by key over m shards from the table on one node. */
  lemma {:induction false} ShardingDoesNotShow(l: Layout, mix: nat -> nat, q: Query, owner: nat -> nat, m: nat, t: nat,
                                               one: seq<BucketResult>, many: seq<BucketResult>, g: nat)
    requires l.buckets > 0 && |q.table.keys| == |q.table.rows| && KeyedOwner(q.table, owner, m) && g < l.buckets
    requires Answers(l, mix, [q], t, one) && Answers(l, mix, Split(q, owner, m, |q.table.keys|), t, many)
    requires BucketMatches(l, mix, q, |q.table.keys|, g) < t
    ensures many[g].count == one[g].count && many[g].present == one[g].present && many[g].collided == one[g].collided
    ensures one[g].count == 1 ==> many[g].record == one[g].record
  {
    var qs, n := Split(q, owner, m, |q.table.keys|), |q.table.keys|;
    ShardedIsUnsharded(l, mix, q, owner, m, n, g, 0, 0);
    assert ShardsMatches(l, mix, [q], 0, g) == 0;
    assert ShardsMatches(l, mix, [q], 1, g) == BucketMatches(l, mix, q, n, g);
    hide ShardsMatches, BucketMatches, Split, IsMatchIn, PaddedRecord;
    assert BucketAnswer(l, mix, [q], g, one[g]) && BucketAnswer(l, mix, qs, g, many[g]);
    if one[g].count == 1 {
      var s, r :| 0 <= s < |[q]| && r >= 0 && IsMatchIn(l, mix, [q][s], r, g)
          && one[g].record == PaddedRecord([q][s].table, r);
      SameRecord(l, mix, q, owner, m, r, g, many[g]);
    }
  }

  lemma {:induction false} SameRecord(l: Layout, mix: nat -> nat, q: Query, owner: nat -> nat, m: nat, r: nat, g: nat,
                                      br: BucketResult)
    requires l.buckets > 0 && |q.table.keys| == |q.table.rows| && KeyedOwner(q.table, owner, m)
    requires IsMatchIn(l, mix, q, r, g)
    requires BucketAnswer(l, mix, Split(q, owner, m, |q.table.keys|), g, br) && !br.collided
    ensures br.record == PaddedRecord(q.table, r)
  {
    var r' := MatchOnShard(l, mix, q, owner, m, r, g);
    var qs := Split(q, owner, m, |q.table.keys|);
    assert qs[owner(r)] == ShardQuery(q, owner, owner(r), |q.table.keys|);
    hide ShardQuery, IsMatchIn, PaddedRecord, Split, BucketAnswer;
    RowComesBack(l, mix, qs, owner(r), r', g, br);
  }
}
