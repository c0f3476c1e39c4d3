/** `ReferenceBackend::combine` and `DecryptResults`: shard partials to decoded result buckets. */
module Combining {
  import opened Base
  import opened Seal
  import opened SlotCodec

  // ---- combine ------------------------------------------------------------

  ghost predicate AllCiphers(c: Context, cts: seq<Ciphertext>) {
    forall i :: 0 <= i < |cts| ==> IsCipher(c, cts[i])
  }

  /** Slot x of plane i summed over the first n shards; an empty shard has no planes and adds nothing. */
  ghost function PlaneSum(partials: seq<seq<Ciphertext>>, i: nat, x: nat, n: nat): (v: nat)
    requires n <= |partials|
  {
    if n == 0 then 0
    else
      PlaneSum(partials, i, x, n - 1)
      + (if i < |partials[n - 1]| && x < |partials[n - 1][i].slots| then partials[n - 1][i].slots[x] else 0)
  }

  /** Non-empty shards answered with the same number of planes. */
  ghost predicate SameWidth(partials: seq<seq<Ciphertext>>, width: nat) {
    forall s :: 0 <= s < |partials| ==> partials[s] == [] || |partials[s]| == width
  }

  lemma {:induction false} WidthsDisagree(partials: seq<seq<Ciphertext>>, s: nat, m: nat)
    requires s < |partials| && m < |partials| && partials[s] != [] && partials[m] != []
    requires |partials[s]| != |partials[m]|
    ensures forall w: nat :: !SameWidth(partials, w)
  {
    forall w: nat
      ensures !SameWidth(partials, w)
    {
      if |partials[s]| == w {
        assert partials[m] != [] && |partials[m]| != w;
      }
    }
  }

  method Combine(c: Context, partials: seq<seq<Ciphertext>>) returns (r: Result<seq<Ciphertext>>)
    requires c.Valid() && forall s :: 0 <= s < |partials| ==> AllCiphers(c, partials[s])
    ensures r.Ok? <==> exists w: nat :: SameWidth(partials, w)
    ensures r.Err? ==> r.error == InvalidArgument
    ensures r.Ok? ==> SameWidth(partials, |r.value|) && AllCiphers(c, r.value)
    ensures r.Ok? && (forall s :: 0 <= s < |partials| ==> partials[s] == []) ==> r.value == []
    ensures r.Ok? ==> forall i, x :: 0 <= i < |r.value| && 0 <= x < c.SlotCount() ==>
              r.value[i].slots[x] == Residue(PlaneSum(partials, i, x, |partials|), c.t)
  {
    var width := 0;
    for s := 0 to |partials|
      invariant forall k :: 0 <= k < s ==> |partials[k]| <= width
      invariant width == 0 || exists k :: 0 <= k < s && |partials[k]| == width
    {
      if |partials[s]| > width {
        width := |partials[s]|;
      }
    }
    for s := 0 to |partials|
      invariant forall k :: 0 <= k < s ==> partials[k] == [] || |partials[k]| == width
    {
      if partials[s] != [] && |partials[s]| != width {
        ghost var m :| 0 <= m < |partials| && |partials[m]| == width;
        WidthsDisagree(partials, s, m);
        return Err(InvalidArgument);
      }
    }
    assert SameWidth(partials, width);
    var out: seq<Ciphertext> := [];
    for i := 0 to width
      invariant |out| == i && AllCiphers(c, out)
      invariant forall j, x :: 0 <= j < i && 0 <= x < c.SlotCount() ==>
                  out[j].slots[x] == Residue(PlaneSum(partials, j, x, |partials|), c.t)
    {
      var acc := CombinePlane(c, partials, width, i);
      out := out + [acc];
    }
    return Ok(out);
  }

  /** The first shard's ciphertext, then every other shard's added to it. */
  method CombinePlane(c: Context, partials: seq<seq<Ciphertext>>, width: nat, i: nat) returns (acc: Ciphertext)
    requires c.Valid() && forall s :: 0 <= s < |partials| ==> AllCiphers(c, partials[s])
    requires SameWidth(partials, width) && i < width
    requires exists k :: 0 <= k < |partials| && |partials[k]| == width
    ensures IsCipher(c, acc)
    ensures forall x :: 0 <= x < c.SlotCount() ==> acc.slots[x] == Residue(PlaneSum(partials, i, x, |partials|), c.t)
  {
    var have := false;
    acc := Ciphertext(seq(c.SlotCount(), _ => 0), 0);
    forall x | 0 <= x < c.SlotCount()
      ensures acc.slots[x] == Residue(PlaneSum(partials, i, x, 0), c.t)
    {
      ModSmall(0, c.t);
    }
    for s := 0 to |partials|
      invariant IsCipher(c, acc)
      invariant !have ==> forall k :: 0 <= k < s ==> partials[k] == []
      invariant !have ==> forall x :: 0 <= x < c.SlotCount() ==> PlaneSum(partials, i, x, s) == 0
      invariant forall x :: 0 <= x < c.SlotCount() ==> acc.slots[x] == Residue(PlaneSum(partials, i, x, s), c.t)
    {
      if i < |partials[s]| {
        ghost var before := acc;
        if !have {
          acc := partials[s][i];
          have := true;
        } else {
          acc := Add(c, acc, partials[s][i]);
        }
        forall x | 0 <= x < c.SlotCount()
          ensures acc.slots[x] == Residue(PlaneSum(partials, i, x, s + 1), c.t)
        {
          ModSmall(partials[s][i].slots[x], c.t);
          ModAdd(PlaneSum(partials, i, x, s), partials[s][i].slots[x], c.t);
        }
      }
    }
  }

  // ---- decryption of the result buckets -----------------------------------

  datatype BucketResult = BucketResult(present: bool, collided: bool, count: nat, record: seq<byte>)

  /** Slot i of a bucket's first block, the two slot rows added. */
  function BlockSlot(ct: seq<nat>, row: nat, base: nat, i: nat): (v: nat) {
    (if base + i < |ct| then ct[base + i] else 0) + (if row + base + i < |ct| then ct[row + base + i] else 0)
  }

  function BucketBlock(ct: seq<nat>, row: nat, base: nat, keyBits: nat): (block: seq<nat>)
    ensures |block| == keyBits
  {
    seq(keyBits, i requires 0 <= i < keyBits => BlockSlot(ct, row, base, i))
  }

  /** Byte b of a record, read out of its plane's block; zero where there is no plane. */
  function RecordByte(planes: seq<seq<nat>>, row: nat, base: nat, keyBits: nat, bytesPerSlot: nat, b: nat): (v: byte) {
    var per := PayloadBytesPerBlock(keyBits, bytesPerSlot);
    var p := if per == 0 then |planes| else Div(b, per);
    if p < |planes| then UnpackedByte(BucketBlock(planes[p], row, base, keyBits), bytesPerSlot, Mod(b, per)) else 0
  }

  /** What decoding one bucket gives, from the slots of its blocks. */
  ghost predicate Decodes(slots: seq<seq<nat>>, row: nat, base: nat, keyBits: nat, recordBytes: nat, bytesPerSlot: nat,
                          br: BucketResult)
    requires |slots| > 0
  {
    && br.count == BlockSlot(slots[|slots| - 1], row, base, 0)
    && (br.present <==> br.count > 0)
    && (br.collided <==> br.count >= 2)
    && (br.count != 1 ==> br.record == [])
    && (br.count == 1 ==>
          |br.record| == recordBytes
          && forall b :: 0 <= b < recordBytes ==>
               br.record[b] == RecordByte(slots[..|slots| - 1], row, base, keyBits, bytesPerSlot, b))
  }

  /** Cut, or filled up with zeros. */
  function Resized(bytes: seq<byte>, n: nat): (r: seq<byte>)
    ensures |r| == n && forall b :: 0 <= b < n ==> r[b] == if b < |bytes| then bytes[b] else 0
  {
    if n <= |bytes| then bytes[..n] else bytes + seq(n - |bytes|, _ => 0)
  }

  /** Plane after plane, unpacked and concatenated, then brought to the record size. */
  method ReadRecord(slots: seq<seq<nat>>, row: nat, base: nat, keyBits: nat, recordBytes: nat, bytesPerSlot: nat)
      returns (r: Result<seq<byte>>)
    requires keyBits > 0 && |slots| == PayloadPlaneCount(recordBytes, keyBits, bytesPerSlot) + 1
    ensures r.Ok? <==> bytesPerSlot <= MAX_BYTES_PER_SLOT || |slots| == 1
    ensures r.Ok? ==> |r.value| == recordBytes
    ensures r.Ok? ==> forall b :: 0 <= b < recordBytes ==>
              r.value[b] == RecordByte(slots[..|slots| - 1], row, base, keyBits, bytesPerSlot, b)
  {
    var record := ReadPlanes(slots, row, base, keyBits, recordBytes, bytesPerSlot);
    if record.Err? {
      return Err(record.error);
    }
    CoversRecord(recordBytes, keyBits, bytesPerSlot);
    r := Ok(Resized(record.value, recordBytes));
  }

  lemma {:induction false} CoversRecord(recordBytes: nat, keyBits: nat, bytesPerSlot: nat)
    requires keyBits > 0
    ensures PayloadBytesPerBlock(keyBits, bytesPerSlot) > 0 ==>
              recordBytes <= Start(PayloadPlaneCount(recordBytes, keyBits, bytesPerSlot),
                  PayloadBytesPerBlock(keyBits, bytesPerSlot))
  {
    if bytesPerSlot > 0 {
      PlanesCoverRecord(recordBytes, keyBits, bytesPerSlot);
    }
  }

  method ReadPlanes(slots: seq<seq<nat>>, row: nat, base: nat, keyBits: nat, recordBytes: nat, bytesPerSlot: nat)
      returns (r: Result<seq<byte>>)
    requires keyBits > 0 && |slots| == PayloadPlaneCount(recordBytes, keyBits, bytesPerSlot) + 1
    ensures r.Ok? <==> bytesPerSlot <= MAX_BYTES_PER_SLOT || |slots| == 1
    ensures r.Ok? ==> |r.value| == Start(|slots| - 1, PayloadBytesPerBlock(keyBits, bytesPerSlot))
    ensures r.Ok? ==> forall b :: 0 <= b < |r.value| ==>
              r.value[b] == RecordByte(slots[..|slots| - 1], row, base, keyBits, bytesPerSlot, b)
  {
    var planes := |slots| - 1;
    var per := PayloadBytesPerBlock(keyBits, bytesPerSlot);
    ghost var payload := slots[..planes];
    assert planes > 0 ==> bytesPerSlot > 0;
    hide RecordByte, UnpackedByte, Start, PayloadBytesPerBlock, PayloadPlaneCount;
    var record: seq<byte> := [];
    StartNext(0, per);
    for p := 0 to planes
      invariant |record| == Start(p, per)
      invariant p > 0 ==> bytesPerSlot <= MAX_BYTES_PER_SLOT
      invariant forall b :: 0 <= b < |record| ==> record[b] == RecordByte(payload, row, base, keyBits, bytesPerSlot, b)
    {
      StartNext(p, per);
      var chunk := ReadPlane(slots[p], row, base, keyBits, bytesPerSlot);
      if chunk.Err? {
        return Err(chunk.error);
      }
      assert slots[p] == payload[p];
      forall b | 0 <= b < per
        ensures chunk.value[b] == RecordByte(payload, row, base, keyBits, bytesPerSlot, |record| + b)
      {
        RecordByteAt(payload, row, base, keyBits, bytesPerSlot, p, b);
      }
      record := record + chunk.value;
    }
    return Ok(record);
  }

  /** The bytes that one plane holds of a bucket's record. */
  method ReadPlane(ct: seq<nat>, row: nat, base: nat, keyBits: nat, bytesPerSlot: nat) returns (r: Result<seq<byte>>)
    requires keyBits > 0 && bytesPerSlot > 0
    ensures r.Ok? <==> bytesPerSlot <= MAX_BYTES_PER_SLOT
    ensures r.Ok? ==>
              |r.value| == PayloadBytesPerBlock(keyBits, bytesPerSlot)
              && forall b :: 0 <= b < |r.value| ==>
                  r.value[b] == UnpackedByte(BucketBlock(ct, row, base, keyBits), bytesPerSlot, b)
  {
    hide UnpackedByte;
    BlockHoldsChunk(keyBits, bytesPerSlot);
    r := UnpackSlotsToBytes(BucketBlock(ct, row, base, keyBits), PayloadBytesPerBlock(keyBits, bytesPerSlot),
        bytesPerSlot);
  }

  lemma {:induction false} RecordByteAt(planes: seq<seq<nat>>, row: nat, base: nat, keyBits: nat, bytesPerSlot: nat,
                                        p: nat, b: nat)
    requires keyBits > 0 && bytesPerSlot > 0 && p < |planes| && b < PayloadBytesPerBlock(keyBits, bytesPerSlot)
    ensures RecordByte(planes, row, base, keyBits, bytesPerSlot,
              Start(p, PayloadBytesPerBlock(keyBits, bytesPerSlot)) + b)
            == UnpackedByte(BucketBlock(planes[p], row, base, keyBits), bytesPerSlot, b)
  {
    var per := PayloadBytesPerBlock(keyBits, bytesPerSlot);
    DivModUnique(Start(p, per) + b, per, p, b);
    hide UnpackedByte;
  }

  lemma {:induction false} BlockHoldsChunk(keyBits: nat, bytesPerSlot: nat)
    requires bytesPerSlot > 0
    ensures (keyBits * bytesPerSlot + bytesPerSlot - 1) / bytesPerSlot == keyBits
  {
    DivModUnique(keyBits * bytesPerSlot + bytesPerSlot - 1, bytesPerSlot, keyBits, bytesPerSlot - 1);
  }

  /** Where the decoded window starts: the offset, clamped to the bucket count. */
  function WindowStart(buckets: nat, offset: nat): (s: nat) {
    if offset < buckets then offset else buckets
  }

  function WindowSize(buckets: nat, offset: nat, limit: nat): (n: nat) {
    var remaining := buckets - WindowStart(buckets, offset);
    if limit < remaining then limit else remaining
  }

  /** The clamped window is exactly the buckets g with offset <= g < offset + limit. */
  lemma {:induction false} WindowIsClamp(buckets: nat, offset: nat, limit: nat, g: nat)
    ensures WindowStart(buckets, offset) <= g < WindowStart(buckets, offset) + WindowSize(buckets, offset, limit)
            <==> g < buckets && offset <= g < offset + limit
  {
  }

  /** Every bucket of the window decoded from its own blocks. */
  ghost predicate WindowDecodes(ciphers: seq<Ciphertext>, row: nat, stride: nat, start: nat,
                                keyBits: nat, recordBytes: nat, bytesPerSlot: nat, results: seq<BucketResult>)
    requires |ciphers| > 0
  {
    forall k :: 0 <= k < |results| ==>
      Decodes(Slots(ciphers), row, (start + k) * stride, keyBits, recordBytes, bytesPerSlot, results[k])
  }

  method DecryptResults(c: Context, ciphers: seq<Ciphertext>, keyBits: nat, recordBytes: nat, bytesPerSlot: nat,
                        buckets: nat, offset: nat, limit: nat)
      returns (r: Result<seq<BucketResult>>)
    requires c.Valid() && AllCiphers(c, ciphers) && keyBits > 0
    ensures buckets == 0 ==> r == Err(InvalidArgument)
    ensures buckets > 0 && r.Ok? ==>
              |ciphers| == PayloadPlaneCount(recordBytes, keyBits, bytesPerSlot) + 1 && keyBits <= c.row
                  && c.row % buckets == 0
    ensures (buckets > 0 && |ciphers| == PayloadPlaneCount(recordBytes, keyBits, bytesPerSlot) + 1
             && keyBits <= c.row && c.row % buckets == 0 && bytesPerSlot <= MAX_BYTES_PER_SLOT) ==> r.Ok?
    ensures r.Ok? ==> |r.value| == WindowSize(buckets, offset, limit)
    ensures r.Ok? ==> WindowDecodes(ciphers, c.row, Div(c.row, buckets), WindowStart(buckets, offset),
                                    keyBits, recordBytes, bytesPerSlot, r.value)
  {
    if buckets == 0 {
      return Err(InvalidArgument);
    }
    var planes := PayloadPlaneCount(recordBytes, keyBits, bytesPerSlot);
    var expected := planes + 1;
    if |ciphers| > expected {
      return Err(InvalidArgument);
    }
    if |ciphers| != expected {
      return Err(Internal);
    }
    var slots := Slots(ciphers);
    var row := c.row;
    if row < keyBits {
      return Err(Internal);
    }
    if row % buckets != 0 {
      return Err(Internal);
    }
    var stride := Div(row, buckets);
    var start := WindowStart(buckets, offset);
    var window := WindowSize(buckets, offset, limit);
    var out: seq<BucketResult> := [];
    for g := start to start + window
      invariant |out| == g - start
      invariant forall k :: 0 <= k < |out| ==>
                  Decodes(slots, row, (start + k) * stride, keyBits, recordBytes, bytesPerSlot, out[k])
    {
      var base := g * stride;
      var count := BlockSlot(slots[planes], row, base, 0);
      if count == 0 {
        out := out + [BucketResult(false, false, count, [])];
      } else if count >= 2 {
        out := out + [BucketResult(true, true, count, [])];
      } else {
        var record := ReadRecord(slots, row, base, keyBits, recordBytes, bytesPerSlot);
        if record.Err? {
          return Err(record.error);
        }
        out := out + [BucketResult(true, false, count, record.value)];
      }
    }
    return Ok(out);
  }

  /** Decryption: the slot vectors of the ciphertexts. */
  function Slots(ciphers: seq<Ciphertext>): (s: seq<seq<nat>>)
    ensures |s| == |ciphers|
    ensures forall i :: 0 <= i < |s| ==> s[i] == ciphers[i].slots
  {
    seq(|ciphers|, i requires 0 <= i < |ciphers| => ciphers[i].slots)
  }
}
