/** Payload bytes packed into slot values, and the slot geometry of the matcher. */
module SlotCodec {
  import opened Base

  const MAX_BYTES_PER_SLOT := 7

  function PayloadBytesPerBlock(keyBits: nat, bytesPerSlot: nat): (n: nat) {
    keyBits * bytesPerSlot
  }

  function PayloadPlaneCount(recordBytes: nat, keyBits: nat, bytesPerSlot: nat): (n: nat) {
    var per := PayloadBytesPerBlock(keyBits, bytesPerSlot);
    if per == 0 then 0 else (recordBytes + per - 1) / per
  }

  function BucketStride(slotCount: nat, buckets: nat): (n: nat) {
    var row := slotCount / 2;
    if buckets == 0 then row else row / buckets
  }

  /** The planes are just enough to hold the record: no byte is lost, no plane is idle. */
  lemma {:induction false} PlanesCoverRecord(recordBytes: nat, keyBits: nat, bytesPerSlot: nat)
    requires keyBits > 0 && bytesPerSlot > 0
    ensures var per := PayloadBytesPerBlock(keyBits, bytesPerSlot);
            var planes := PayloadPlaneCount(recordBytes, keyBits, bytesPerSlot);
            per > 0 && recordBytes <= planes * per < recordBytes + per
  {
    var per := PayloadBytesPerBlock(keyBits, bytesPerSlot);
    MulAtLeast(keyBits, bytesPerSlot);
    var n := recordBytes + per - 1;
    assert n == n / per * per + n % per;
  }

  // ---- little-endian digits -----------------------------------------------

  function ByteAt(bytes: seq<byte>, q: int): (b: byte) {
    if 0 <= q < |bytes| then bytes[q] else 0
  }

  /** The little-endian integer of the n bytes starting at `from`, zero past the end. */
  function SlotValue(bytes: seq<byte>, from: int, n: nat): (v: nat)
    ensures v < Pow256(n)
    decreases n
  {
    if n == 0 then 0 else ByteAt(bytes, from) + 256 * SlotValue(bytes, from + 1, n - 1)
  }

  function Digit(v: nat, b: nat): (d: byte) {
    v / Pow256(b) % 256
  }

  lemma {:induction false} SlotValueSnoc(bytes: seq<byte>, from: int, n: nat)
    ensures SlotValue(bytes, from, n + 1) == SlotValue(bytes, from, n) + ByteAt(bytes, from + n) * Pow256(n)
    decreases n
  {
    if n == 0 {
      assert SlotValue(bytes, from + 1, 0) == 0;
    } else {
      SlotValueSnoc(bytes, from + 1, n - 1);
      assert from + 1 + (n - 1) == from + n;
      Regroup(ByteAt(bytes, from), SlotValue(bytes, from + 1, n - 1), ByteAt(bytes, from + n), Pow256(n - 1));
    }
  }

  lemma {:induction false} Regroup(a: int, x: int, y: int, p: int)
    ensures a + 256 * (x + y * p) == a + 256 * x + y * (256 * p)
  {
    assert y * (256 * p) == 256 * (y * p);
  }

  /** Bytes past the end contribute nothing. */
  lemma {:induction false} SlotValueTail(bytes: seq<byte>, from: int, n: nat, m: nat)
    requires n <= m && (n == m || from + n >= |bytes|) && from >= 0
    ensures SlotValue(bytes, from, m) == SlotValue(bytes, from, n)
    decreases m
  {
    if n < m {
      SlotValueTail(bytes, from, n, m - 1);
      SlotValueSnoc(bytes, from, m - 1);
    }
  }

  /** A slot value depends only on the bytes it covers. */
  lemma {:induction false} SlotValueExt(xs: seq<byte>, ys: seq<byte>, a: int, b: int, n: nat)
    requires forall q :: a <= q < a + n ==> ByteAt(xs, q) == ByteAt(ys, q + (b - a))
    ensures SlotValue(xs, a, n) == SlotValue(ys, b, n)
    decreases n
  {
    if n > 0 {
      assert ByteAt(xs, a) == ByteAt(ys, b);
      SlotValueExt(xs, ys, a + 1, b + 1, n - 1);
    }
  }

  /** Digit b of a slot value is byte b of what was packed. */
  lemma {:induction false} DigitOfSlotValue(bytes: seq<byte>, from: int, n: nat, b: nat)
    requires b < n
    ensures Digit(SlotValue(bytes, from, n), b) == ByteAt(bytes, from + b)
    decreases n
  {
    var v := SlotValue(bytes, from, n);
    var rest := SlotValue(bytes, from + 1, n - 1);
    if b == 0 {
      DivModUnique(v, 256, rest, ByteAt(bytes, from));
      assert Pow256(0) == 1;
    } else {
      DigitOfSlotValue(bytes, from + 1, n - 1, b - 1);
      DigitShift(ByteAt(bytes, from), rest, b);
    }
  }

  lemma {:induction false} DigitShift(low: byte, rest: nat, b: nat)
    requires b > 0
    ensures Digit(low + 256 * rest, b) == Digit(rest, b - 1)
  {
    var p := Pow256(b - 1);
    var q, r := rest / p, rest % p;
    assert rest == q * p + r;
    assert low + 256 * rest == q * (256 * p) + (low + 256 * r);
    DivModUnique(low + 256 * rest, 256 * p, q, low + 256 * r);
  }

  // ---- the codec ----------------------------------------------------------

  /** ceil(|bytes| / bytesPerSlot) slots, each the little-endian integer of its bytes. */
  ghost predicate IsPacked(bytes: seq<byte>, bytesPerSlot: nat, slots: seq<nat>)
    requires bytesPerSlot > 0
  {
    && |slots| == (|bytes| + bytesPerSlot - 1) / bytesPerSlot
    && forall s :: 0 <= s < |slots| ==> slots[s] == SlotValue(bytes, Start(s, bytesPerSlot), bytesPerSlot)
  }

  /** Where the s-th group of n begins. */
  function Start(s: nat, n: nat): (q: nat) {
    s * n
  }

  lemma {:induction false} StartNext(s: nat, n: nat)
    ensures Start(0, n) == 0 && Start(s + 1, n) == Start(s, n) + n
  {
  }

  /** The groups before the last one are full, so their number is the rounded-up quotient. */
  lemma {:induction false} GroupCount(k: nat, total: nat, n: nat)
    requires n > 0 && total <= Start(k, n) && (k > 0 ==> Start(k - 1, n) < total)
    ensures k == (total + n - 1) / n
  {
    var m := total + n - 1;
    if k > 0 {
      StartNext(k - 1, n);
    }
    DivModUnique(m, n, k, m - k * n);
  }

  /** One slot: the inner loop ORs bytes into disjoint bit ranges, which is addition. */
  method PackSlot(bytes: seq<byte>, start: nat, bytesPerSlot: nat) returns (value: nat, i: nat)
    requires start <= |bytes|
    ensures value == SlotValue(bytes, start, bytesPerSlot) && i == Min(start + bytesPerSlot, |bytes|)
  {
    value, i := 0, start;
    var b := 0;
    assert SlotValue(bytes, start, 0) == 0;
    hide SlotValue, Pow256;
    while b < bytesPerSlot && i < |bytes|
      invariant 0 <= b <= bytesPerSlot && i == start + b <= |bytes|
      invariant value == SlotValue(bytes, start, b)
    {
      SlotValueSnoc(bytes, start, b);
      MulNonNegative(bytes[i], Pow256(b));
      value := value + bytes[i] * Pow256(b);
      b := b + 1;
      i := i + 1;
    }
    SlotValueTail(bytes, start, b, bytesPerSlot);
  }

  method PackBytesToSlots(bytes: seq<byte>, bytesPerSlot: nat) returns (r: Result<seq<nat>>)
    ensures r.Ok? <==> 1 <= bytesPerSlot <= MAX_BYTES_PER_SLOT
    ensures r.Err? ==> r.error == InvalidArgument
    ensures r.Ok? ==> IsPacked(bytes, bytesPerSlot, r.value)
  {
    if bytesPerSlot == 0 || bytesPerSlot > MAX_BYTES_PER_SLOT {
      return Err(InvalidArgument);
    }
    hide SlotValue, Start;
    var slots: seq<nat> := [];
    var i := 0;
    StartNext(0, bytesPerSlot);
    while i < |bytes|
      invariant i == Min(Start(|slots|, bytesPerSlot), |bytes|)
      invariant |slots| > 0 ==> Start(|slots| - 1, bytesPerSlot) < |bytes|
      invariant forall s :: 0 <= s < |slots| ==> slots[s] == SlotValue(bytes, Start(s, bytesPerSlot), bytesPerSlot)
      decreases |bytes| - i
    {
      StartNext(|slots|, bytesPerSlot);
      var value, next := PackSlot(bytes, i, bytesPerSlot);
      slots := slots + [value];
      i := next;
    }
    GroupCount(|slots|, |bytes|, bytesPerSlot);
    return Ok(slots);
  }

  /** Byte q of an unpacked slot sequence. */
  function UnpackedByte(slots: seq<nat>, bytesPerSlot: nat, q: nat): (b: byte)
    requires bytesPerSlot > 0
  {
    var s := q / bytesPerSlot;
    if s < |slots| then Digit(slots[s], q % bytesPerSlot) else 0
  }

  lemma {:induction false} UnpackedByteAt(slots: seq<nat>, bytesPerSlot: nat, s: nat, b: nat)
    requires b < bytesPerSlot && s < |slots|
    ensures UnpackedByte(slots, bytesPerSlot, Start(s, bytesPerSlot) + b) == Digit(slots[s], b)
  {
    DivModUnique(Start(s, bytesPerSlot) + b, bytesPerSlot, s, b);
  }

  /** The bytes of one slot, as many as there is room for. */
  method UnpackSlot(value: nat, bytesPerSlot: nat, room: nat) returns (bytes: seq<byte>)
    ensures |bytes| == Min(bytesPerSlot, room) && forall b :: 0 <= b < |bytes| ==> bytes[b] == Digit(value, b)
  {
    bytes := [];
    hide Digit;
    while |bytes| < bytesPerSlot && |bytes| < room
      invariant |bytes| <= Min(bytesPerSlot, room)
      invariant forall b :: 0 <= b < |bytes| ==> bytes[b] == Digit(value, b)
      decreases bytesPerSlot - |bytes|
    {
      bytes := bytes + [Digit(value, |bytes|)];
    }
  }

  method UnpackSlotsToBytes(slots: seq<nat>, recordBytes: nat, bytesPerSlot: nat) returns (r: Result<seq<byte>>)
    ensures r.Ok? <==> 1 <= bytesPerSlot <= MAX_BYTES_PER_SLOT
                       && (recordBytes + bytesPerSlot - 1) / bytesPerSlot <= |slots|
    ensures r.Err? ==> r.error == InvalidArgument
    ensures r.Ok? ==> |r.value| == recordBytes
    ensures r.Ok? ==> forall q :: 0 <= q < recordBytes ==> r.value[q] == UnpackedByte(slots, bytesPerSlot, q)
  {
    if bytesPerSlot == 0 || bytesPerSlot > MAX_BYTES_PER_SLOT {
      return Err(InvalidArgument);
    }
    var neededSlots := (recordBytes + bytesPerSlot - 1) / bytesPerSlot;
    if |slots| < neededSlots {
      return Err(InvalidArgument);
    }
    PlaneBound(recordBytes, bytesPerSlot);
    assert recordBytes <= Start(neededSlots, bytesPerSlot);
    var bytes := UnpackAll(slots, neededSlots, recordBytes, bytesPerSlot);
    return Ok(bytes);
  }

  method UnpackAll(slots: seq<nat>, neededSlots: nat, recordBytes: nat, bytesPerSlot: nat) returns (bytes: seq<byte>)
    requires bytesPerSlot > 0 && neededSlots <= |slots| && recordBytes <= Start(neededSlots, bytesPerSlot)
    ensures |bytes| == recordBytes && forall q :: 0 <= q < recordBytes ==>
              bytes[q] == UnpackedByte(slots, bytesPerSlot, q)
  {
    hide Digit, UnpackedByte, Start;
    bytes := [];
    var s := 0;
    StartNext(0, bytesPerSlot);
    while s < neededSlots && |bytes| < recordBytes
      invariant 0 <= s <= neededSlots
      invariant |bytes| == Min(Start(s, bytesPerSlot), recordBytes)
      invariant forall q :: 0 <= q < |bytes| ==> bytes[q] == UnpackedByte(slots, bytesPerSlot, q)
    {
      StartNext(s, bytesPerSlot);
      var chunk := UnpackSlot(slots[s], bytesPerSlot, recordBytes - |bytes|);
      forall b | 0 <= b < |chunk|
        ensures chunk[b] == UnpackedByte(slots, bytesPerSlot, |bytes| + b)
      {
        UnpackedByteAt(slots, bytesPerSlot, s, b);
      }
      bytes := bytes + chunk;
      s := s + 1;
    }
  }

  /** Unpacking what was packed gives back the bytes, whatever slots follow. */
  method RoundTrip(bytes: seq<byte>, bytesPerSlot: nat, padding: seq<nat>) returns (r: Result<seq<byte>>)
    requires 1 <= bytesPerSlot <= MAX_BYTES_PER_SLOT
    ensures r == Ok(bytes)
  {
    var packed := PackBytesToSlots(bytes, bytesPerSlot);
    r := UnpackSlotsToBytes(packed.value + padding, |bytes|, bytesPerSlot);
    forall q | 0 <= q < |bytes|
      ensures r.value[q] == bytes[q]
    {
      PackedByte(bytes, bytesPerSlot, packed.value, padding, q);
    }
    assert r.value == bytes;
  }

  lemma {:induction false} PackedByte(bytes: seq<byte>, bytesPerSlot: nat, packed: seq<nat>, padding: seq<nat>, q: nat)
    requires bytesPerSlot > 0 && q < |bytes| && IsPacked(bytes, bytesPerSlot, packed)
    ensures UnpackedByte(packed + padding, bytesPerSlot, q) == bytes[q]
  {
    var s, b := q / bytesPerSlot, q % bytesPerSlot;
    QuotientBelow(q, |bytes|, bytesPerSlot);
    DivRest(q, bytesPerSlot);
    var from := Start(s, bytesPerSlot);
    hide SlotValue, Digit;
    assert packed[s] == SlotValue(bytes, from, bytesPerSlot);
    assert (packed + padding)[s] == packed[s];
    DigitOfSlotValue(bytes, from, bytesPerSlot, b);
  }

  lemma {:induction false} DivRest(q: nat, d: nat)
    requires d > 0
    ensures q / d * d + q % d == q && q % d < d
  {
  }

  lemma {:induction false} QuotientBelow(q: nat, n: nat, d: nat)
    requires d > 0 && q < n
    ensures q / d < (n + d - 1) / d
  {
    PlaneBound(n, d);
    var s, m := q / d, (n + d - 1) / d;
    assert q == s * d + q % d;
    if s >= m {
      MulMonotone(m, s, d);
    }
  }

  lemma {:induction false} PlaneBound(n: nat, d: nat)
    requires d > 0
    ensures n <= (n + d - 1) / d * d < n + d
  {
    var m := n + d - 1;
    assert m == m / d * d + m % d;
  }

  // ---- rotation steps -----------------------------------------------------

  /** Whether s is one of base, 2*base, 4*base, ... below the limit. */
  predicate IsDoubling(s: int, base: nat, limit: nat)
    requires base > 0
    decreases limit - base
  {
    base < limit && (s == base || IsDoubling(s, 2 * base, limit))
  }

  predicate IsBlockStep(s: int, base: nat, keyBits: nat)
    requires base > 0
  {
    IsDoubling(s, base, keyBits) || IsDoubling(-s, base, keyBits)
  }

  /** The steps a client generates Galois keys for: +-2^i inside a block, and the block-sum steps. */
  method RequiredGaloisSteps(slotCount: nat, keyBits: nat) returns (steps: seq<int>)
    ensures keyBits == 0 || slotCount < 2 ==> steps == []
    ensures keyBits > 0 && slotCount >= 2 ==>
              forall s :: s in steps <==> IsBlockStep(s, 1, keyBits) || IsDoubling(s, keyBits, slotCount / 2)
  {
    steps := [];
    if keyBits == 0 || slotCount < 2 {
      return;
    }
    var row := slotCount / 2;
    var s := 1;
    while s < keyBits
      invariant s > 0
      invariant forall x :: IsBlockStep(x, 1, keyBits) <==> x in steps || IsBlockStep(x, s, keyBits)
    {
      ghost var before := steps;
      steps := steps + [s];
      steps := steps + [-s];
      forall x
        ensures IsBlockStep(x, 1, keyBits) <==> x in steps || IsBlockStep(x, 2 * s, keyBits)
      {
        assert x in steps <==> x in before || x == s || x == -s;
      }
      s := 2 * s;
    }
    ghost var inBlock := steps;
    assert forall x :: IsBlockStep(x, 1, keyBits) <==> x in inBlock;
    s := keyBits;
    while s < row
      invariant s > 0
      invariant forall x :: x in inBlock || IsDoubling(x, keyBits, row) <==> x in steps || IsDoubling(x, s, row)
    {
      ghost var before := steps;
      steps := steps + [s];
      forall x
        ensures x in inBlock || IsDoubling(x, keyBits, row) <==> x in steps || IsDoubling(x, 2 * s, row)
      {
        assert x in steps <==> x in before || x == s;
      }
      s := 2 * s;
    }
  }
}
