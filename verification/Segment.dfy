/** Segment files: what is written is read back, damage is noticed, and no header leads a read out of the file. */
module Segment {
  import opened Base
  import opened LittleEndian
  import opened Crc

  type Bytes = seq<byte>

  const HEADER: nat := 64
  const VERSION: nat := 1
  const MAGIC: Bytes := [79, 80, 81, 83, 69, 71, 49, 0]

  function Zeros(n: nat): (z: Bytes)
    ensures |z| == n
  {
    seq(n, i => 0)
  }

  function Header(recordBytes: nat, count: nat, crc: nat): (h: Bytes)
    ensures |h| == HEADER
  {
    MAGIC + Encode(VERSION, 4) + Encode(recordBytes, 4) + Encode(count, 8) + Encode(crc, 4) + Zeros(36)
  }

  function Concat(records: seq<Bytes>): (region: Bytes) {
    if records == [] then [] else Concat(records[..|records| - 1]) + records[|records| - 1]
  }

  ghost predicate Sized(records: seq<Bytes>, recordBytes: nat) {
    forall i :: 0 <= i < |records| ==> |records[i]| == recordBytes
  }

  function SegmentFile(recordBytes: nat, records: seq<Bytes>): (file: Bytes) {
    var region := Concat(records);
    Header(recordBytes, |records|, Checksum(region)) + region
  }

  /** Where record i begins in the region. */
  function Offset(i: nat, recordBytes: nat): (n: nat) {
    i * recordBytes
  }

  // ---- reading ------------------------------------------------------------

  datatype Reader = Reader(data: Bytes, recordBytes: nat, count: nat, crc: nat) {
    /** The declared records lie inside the file. */
    predicate Valid() {
      recordBytes > 0 && HEADER + Offset(count, recordBytes) <= |data|
    }

    function Record(index: nat): (r: Result<Bytes>)
      requires Valid()
      ensures r.Ok? <==> index < count
      ensures r.Ok? ==> |r.value| == recordBytes
    {
      if index >= count then Err(OutOfRange)
      else
        OffsetGrows(index, count, recordBytes);
        var at := HEADER + Offset(index, recordBytes);
        Ok(data[at..at + recordBytes])
    }
  }

  /** The header's record size, record count and checksum. */
  function ReadHeader(data: Bytes): (r: Result<(nat, nat, nat)>) {
    if |data| < HEADER then Err(DataLoss)
    else if data[0..8] != MAGIC then Err(DataLoss)
    else if Decode(data[8..12]) != VERSION then Err(FailedPrecondition)
    else if Decode(data[12..16]) == 0 then Err(DataLoss)
    else Ok((Decode(data[12..16]), Decode(data[16..24]), Decode(data[24..28])))
  }

  function OpenRegion(data: Bytes, size: nat, stored: nat): (r: Result<()>)
    ensures r.Ok? ==> HEADER + size <= |data|
  {
    if HEADER + size >= U64_LIMIT || HEADER + size > |data| then Err(DataLoss)
    else if Checksum(data[HEADER..HEADER + size]) != stored then Err(DataLoss)
    else Ok(())
  }

  function Open(data: Bytes, wantBytes: nat, wantCount: nat, wantCrc: nat): (r: Result<Reader>)
    ensures r.Ok? ==> r.value.Valid() && r.value.data == data
  {
    match ReadHeader(data)
    case Err(e) => Err(e)
    case Ok(h) =>
      match OpenRegion(data, Offset(h.1, h.0), h.2)
      case Err(e) => Err(e)
      case Ok(_) =>
        if wantBytes != 0 && h.0 != wantBytes then Err(FailedPrecondition)
        else if wantCount != 0 && h.1 != wantCount then Err(FailedPrecondition)
        else if wantCrc != 0 && h.2 != wantCrc then Err(FailedPrecondition)
        else Ok(Reader(data, h.0, h.1, h.2))
  }

  // ---- round trip ---------------------------------------------------------

  lemma {:induction false} OffsetNext(i: nat, recordBytes: nat)
    ensures Offset(i + 1, recordBytes) == Offset(i, recordBytes) + recordBytes
  {
  }

  lemma {:induction false} OffsetGrows(i: nat, n: nat, recordBytes: nat)
    requires i < n
    ensures Offset(i, recordBytes) + recordBytes <= Offset(n, recordBytes)
  {
    OffsetNext(i, recordBytes);
    MulMonotone(i + 1, n, recordBytes);
  }

  lemma {:induction false} ConcatSize(records: seq<Bytes>, recordBytes: nat)
    requires Sized(records, recordBytes)
    ensures |Concat(records)| == Offset(|records|, recordBytes)
  {
    hide Offset;
    if records == [] {
      NoOffset(recordBytes);
    } else {
      ConcatSize(records[..|records| - 1], recordBytes);
      OffsetNext(|records| - 1, recordBytes);
    }
  }

  lemma {:induction false} NoOffset(recordBytes: nat)
    ensures Offset(0, recordBytes) == 0
  {
  }

  /** Record i sits at its offset. */
  lemma {:induction false} ConcatPart(records: seq<Bytes>, recordBytes: nat, i: nat)
    requires Sized(records, recordBytes) && i < |records|
    ensures var at := Offset(i, recordBytes);
            at + recordBytes <= |Concat(records)| && Concat(records)[at..at + recordBytes] == records[i]
  {
    hide Offset;
    var n := |records| - 1;
    var front := records[..n];
    ConcatSize(records, recordBytes);
    ConcatSize(front, recordBytes);
    OffsetGrows(i, |records|, recordBytes);
    if i < n {
      ConcatPart(front, recordBytes, i);
      PrefixSlice(Concat(front), records[n], Offset(i, recordBytes), Offset(i, recordBytes) + recordBytes);
    }
  }

  lemma {:induction false} PrefixSlice(a: Bytes, b: Bytes, i: nat, j: nat)
    requires i <= j <= |a|
    ensures (a + b)[i..j] == a[i..j]
  {
  }

  /** A slice behind the first part is a slice of the second. */
  lemma {:induction false} Behind(a: Bytes, b: Bytes, i: nat, j: nat)
    requires |a| <= i <= j <= |a + b|
    ensures (a + b)[i..j] == b[i - |a|..j - |a|]
  {
  }

  lemma {:induction false} InFront(a: Bytes, b: Bytes, n: nat)
    requires n == |a|
    ensures (a + b)[0..n] == a
  {
  }

  lemma {:induction false} HeaderNested(recordBytes: nat, count: nat, crc: nat, region: Bytes)
    ensures Header(recordBytes, count, crc) + region
            == MAGIC + (Encode(VERSION, 4)
                + (Encode(recordBytes, 4) + (Encode(count, 8) + (Encode(crc, 4) + (Zeros(36) + region)))))
  {
    hide Encode, Zeros;
  }

  lemma {:induction false} HeaderFields(recordBytes: nat, count: nat, crc: nat, region: Bytes)
    requires recordBytes < U32_LIMIT && count < U64_LIMIT && crc < U32_LIMIT
    ensures var data := Header(recordBytes, count, crc) + region;
            && data[0..8] == MAGIC && Decode(data[8..12]) == VERSION && Decode(data[12..16]) == recordBytes
            && Decode(data[16..24]) == count && Decode(data[24..28]) == crc
  {
    Limits();
    DecodeEncode(VERSION, 4);
    DecodeEncode(recordBytes, 4);
    DecodeEncode(count, 8);
    DecodeEncode(crc, 4);
    HeaderNested(recordBytes, count, crc, region);
    hide Encode, Decode, Zeros, Header;
    var data := Header(recordBytes, count, crc) + region;
    var version, width, number, sum := Encode(VERSION, 4), Encode(recordBytes, 4), Encode(count, 8), Encode(crc, 4);
    var t5 := sum + (Zeros(36) + region);
    var t4 := number + t5;
    var t3 := width + t4;
    var t2 := version + t3;
    InFront(MAGIC, t2, 8);
    Behind(MAGIC, t2, 8, 12);
    InFront(version, t3, 4);
    Behind(MAGIC, t2, 12, 16);
    Behind(version, t3, 4, 8);
    InFront(width, t4, 4);
    Behind(MAGIC, t2, 16, 24);
    Behind(version, t3, 8, 16);
    Behind(width, t4, 4, 12);
    InFront(number, t5, 8);
    Behind(MAGIC, t2, 24, 28);
    Behind(version, t3, 16, 20);
    Behind(width, t4, 12, 16);
    Behind(number, t5, 8, 12);
    InFront(sum, Zeros(36) + region, 4);
  }

  lemma {:induction false} RegionBehindHeader(recordBytes: nat, count: nat, crc: nat, region: Bytes)
    ensures (Header(recordBytes, count, crc) + region)[HEADER..HEADER + |region|] == region
  {
    hide Header;
    Behind(Header(recordBytes, count, crc), region, HEADER, HEADER + |region|);
  }

  ghost predicate Expected(wanted: nat, found: nat) {
    wanted == 0 || wanted == found
  }

  /** A file with a well-formed header opens exactly when the stored checksum is the checksum of the records. */
  lemma {:induction false} OpenOfHeader(recordBytes: nat, count: nat, crc: nat, region: Bytes, wantBytes: nat,
                                        wantCount: nat, wantCrc: nat)
    requires 0 < recordBytes < U32_LIMIT && count < U64_LIMIT && crc < U32_LIMIT
    requires |region| == Offset(count, recordBytes) && HEADER + |region| < U64_LIMIT
    ensures var file := Header(recordBytes, count, crc) + region;
            && (Checksum(region) != crc ==> Open(file, wantBytes, wantCount, wantCrc) == Err(DataLoss))
            && (Checksum(region) == crc && Expected(wantBytes, recordBytes) && Expected(wantCount, count)
                && Expected(wantCrc, crc) ==>
                  Open(file, wantBytes, wantCount, wantCrc) == Ok(Reader(file, recordBytes, count, crc)))
  {
    hide Header, Checksum, Decode, Offset;
    HeaderFields(recordBytes, count, crc, region);
    RegionBehindHeader(recordBytes, count, crc, region);
  }

  /** Opening what was written succeeds and returns every record unchanged. */
  lemma {:induction false} WrittenIsReadBack(recordBytes: nat, records: seq<Bytes>, wantBytes: nat, wantCount: nat,
                                             wantCrc: nat)
    requires 0 < recordBytes < U32_LIMIT && Sized(records, recordBytes) && |records| < U64_LIMIT
    requires HEADER + Offset(|records|, recordBytes) < U64_LIMIT
    requires Expected(wantBytes, recordBytes) && Expected(wantCount, |records|)
    requires Expected(wantCrc, Checksum(Concat(records)))
    ensures var r := Open(SegmentFile(recordBytes, records), wantBytes, wantCount, wantCrc);
            && r.Ok? && r.value.recordBytes == recordBytes && r.value.count == |records|
            && forall i :: 0 <= i < |records| ==> r.value.Record(i) == Ok(records[i])
  {
    hide Header, Checksum, Concat, Open, Offset;
    var region := Concat(records);
    Pow2Of32();
    ConcatSize(records, recordBytes);
    OpenOfHeader(recordBytes, |records|, Checksum(region), region, wantBytes, wantCount, wantCrc);
    var reader := Open(SegmentFile(recordBytes, records), wantBytes, wantCount, wantCrc).value;
    forall i | 0 <= i < |records|
      ensures reader.Record(i) == Ok(records[i])
    {
      ConcatPart(records, recordBytes, i);
      SliceOfSuffix(reader.data, region, Offset(i, recordBytes), Offset(i, recordBytes) + recordBytes);
    }
  }

  /** The records a reader gives out. */
  ghost function RecordsTo(r: Reader, n: nat): (records: seq<Bytes>)
    requires r.Valid() && n <= r.count
    ensures |records| == n
    ensures forall i :: 0 <= i < n ==> r.Record(i) == Ok(records[i])
  {
    if n == 0 then [] else RecordsTo(r, n - 1) + [r.Record(n - 1).value]
  }

  lemma {:induction false} RecordsFillRegion(r: Reader, n: nat)
    requires r.Valid() && n <= r.count
    ensures Sized(RecordsTo(r, n), r.recordBytes) && HEADER + Offset(n, r.recordBytes) <= |r.data|
    ensures Concat(RecordsTo(r, n)) == r.data[HEADER..HEADER + Offset(n, r.recordBytes)]
  {
    if n == 0 {
      NoOffset(r.recordBytes);
    } else {
      RecordsFillRegion(r, n - 1);
      OffsetNext(n - 1, r.recordBytes);
      OffsetGrows(n - 1, r.count, r.recordBytes);
      hide Offset;
      var records := RecordsTo(r, n);
      assert records[..n - 1] == RecordsTo(r, n - 1) && |r.Record(n - 1).value| == r.recordBytes;
      var i, j := HEADER + Offset(n - 1, r.recordBytes), HEADER + Offset(n, r.recordBytes);
      assert r.data[HEADER..j] == r.data[HEADER..i] + r.data[i..j];
    }
  }

  /** The bytes of a header that mean something; 36 reserved bytes follow them. */
  const FIELDS: nat := 28

  lemma {:induction false} FieldsReadBack(data: Bytes)
    requires ReadHeader(data).Ok?
    ensures var h := ReadHeader(data).value; data[..FIELDS] == Header(h.0, h.1, h.2)[..FIELDS]
  {
    EncodeDecode(data[8..12]);
    EncodeDecode(data[12..16]);
    EncodeDecode(data[16..24]);
    EncodeDecode(data[24..28]);
    var h := ReadHeader(data).value;
    hide Encode, Decode, Zeros;
    FiveParts(data);
    var fields := MAGIC + Encode(VERSION, 4) + Encode(h.0, 4) + Encode(h.1, 8) + Encode(h.2, 4);
    assert data[..FIELDS] == fields;
    assert Header(h.0, h.1, h.2) == fields + Zeros(36);
    InFront(fields, Zeros(36), FIELDS);
  }

  lemma {:induction false} FiveParts(data: Bytes)
    requires |data| >= HEADER
    ensures data[..FIELDS] == data[0..8] + data[8..12] + data[12..16] + data[16..24] + data[24..28]
  {
  }

  /** A written file, up to the reserved bytes and whatever follows the records. */
  ghost predicate IsWritten(data: Bytes, recordBytes: nat, records: seq<Bytes>) {
    var region := Concat(records);
    && Sized(records, recordBytes) && HEADER + |region| <= |data|
    && data[..FIELDS] == Header(recordBytes, |records|, Checksum(region))[..FIELDS]
    && data[HEADER..HEADER + |region|] == region
  }

  lemma {:induction false} OpenedFields(data: Bytes, wantBytes: nat, wantCount: nat, wantCrc: nat, r: Reader)
    requires Open(data, wantBytes, wantCount, wantCrc) == Ok(r)
    ensures r.Valid() && r.data == data && data[..FIELDS] == Header(r.recordBytes, r.count, r.crc)[..FIELDS]
    ensures r.crc == Checksum(data[HEADER..HEADER + Offset(r.count, r.recordBytes)])
    ensures Expected(wantBytes, r.recordBytes) && Expected(wantCount, r.count) && Expected(wantCrc, r.crc)
  {
    hide Header, Checksum, Decode, Offset;
    FieldsReadBack(data);
  }

  /** Opening accepts nothing but written files, and then gives out their records. */
  lemma {:induction false} OpenedIsWritten(data: Bytes, wantBytes: nat, wantCount: nat, wantCrc: nat, r: Reader)
    requires Open(data, wantBytes, wantCount, wantCrc) == Ok(r)
    ensures r.Valid() && r.data == data && IsWritten(data, r.recordBytes, RecordsTo(r, r.count))
    ensures Expected(wantBytes, r.recordBytes) && Expected(wantCount, r.count) && Expected(wantCrc, r.crc)
  {
    hide Header, Checksum, Offset, Concat, RecordsTo, Open;
    OpenedFields(data, wantBytes, wantCount, wantCrc, r);
    RecordsFillRegion(r, r.count);
    RecordsSize(r);
  }

  lemma {:induction false} RecordsSize(r: Reader)
    requires r.Valid()
    ensures |Concat(RecordsTo(r, r.count))| == Offset(r.count, r.recordBytes)
  {
    RecordsFillRegion(r, r.count);
    hide Offset, Concat, RecordsTo;
  }

  lemma {:induction false} SliceOfSuffix(file: Bytes, region: Bytes, i: nat, j: nat)
    requires |file| >= HEADER && file[HEADER..] == region && i <= j <= |region|
    ensures file[HEADER + i..HEADER + j] == region[i..j]
  {
    assert file == file[..HEADER] + region;
    Behind(file[..HEADER], region, HEADER + i, HEADER + j);
  }

  /** Up to four consecutive bytes changed anywhere in the records make opening fail. */
  lemma {:induction false} DamageIsNoticed(recordBytes: nat, records: seq<Bytes>, before: Bytes, w: Bytes, w': Bytes,
                                           after: Bytes,
                                           wantBytes: nat, wantCount: nat, wantCrc: nat)
    requires 0 < recordBytes < U32_LIMIT && Sized(records, recordBytes) && |records| < U64_LIMIT
    requires HEADER + Offset(|records|, recordBytes) < U64_LIMIT
    requires Concat(records) == before + w + after && |w| == |w'| <= 4 && w != w'
    ensures Open(SegmentFile(recordBytes, records)[..HEADER] + (before + w' + after), wantBytes, wantCount, wantCrc)
              == Err(DataLoss)
  {
    hide Header, Checksum, Concat, Open;
    var was, now := before + w + after, before + w' + after;
    Pow2Of32();
    ConcatSize(records, recordBytes);
    BurstChangesChecksum(before, w, w', after);
    OpenOfHeader(recordBytes, |records|, Checksum(was), now, wantBytes, wantCount, wantCrc);
    assert SegmentFile(recordBytes, records)[..HEADER] == Header(recordBytes, |records|, Checksum(was));
  }

  // ---- writing ------------------------------------------------------------

  /** Overwrites part of a buffer. */
  method CopyAt(file: array<byte>, offset: nat, bytes: Bytes)
    requires offset + |bytes| <= file.Length
    modifies file
    ensures file[..] == old(file[..offset]) + bytes + old(file[offset + |bytes|..])
  {
    for i := 0 to |bytes|
      invariant file[..offset] == old(file[..offset])
      invariant file[offset..offset + i] == bytes[..i]
      invariant file[offset + i..] == old(file[offset + i..])
    {
      file[offset + i] := bytes[i];
      assert file[offset..offset + i + 1] == file[offset..offset + i] + [bytes[i]];
      assert bytes[..i + 1] == bytes[..i] + [bytes[i]];
    }
    assert file[..] == file[..offset] + file[offset..offset + |bytes|] + file[offset + |bytes|..];
  }

  method WriteRecords(file: array<byte>, recordBytes: nat, records: seq<Bytes>)
    requires Sized(records, recordBytes) && file.Length == HEADER + Offset(|records|, recordBytes)
    requires file[..HEADER] == Zeros(HEADER)
    modifies file
    ensures file[..] == Zeros(HEADER) + Concat(records)
  {
    hide Zeros, Offset;
    NoOffset(recordBytes);
    var offset := HEADER;
    assert records[..0] == [];
    for i := 0 to |records|
      invariant offset == HEADER + Offset(i, recordBytes) <= file.Length
      invariant file[..offset] == Zeros(HEADER) + Concat(records[..i])
    {
      OffsetGrows(i, |records|, recordBytes);
      OffsetNext(i, recordBytes);
      ghost var done := file[..offset];
      CopyAt(file, offset, records[i]);
      assert file[..offset + |records[i]|] == done + records[i];
      ConcatNext(records, i);
      assert done + records[i] == Zeros(HEADER) + (Concat(records[..i]) + records[i]);
      offset := offset + |records[i]|;
    }
    assert records[..|records|] == records && file[..offset] == file[..];
  }

  lemma {:induction false} ConcatNext(records: seq<Bytes>, i: nat)
    requires i < |records|
    ensures Concat(records[..i + 1]) == Concat(records[..i]) + records[i]
  {
    assert records[..i + 1][..i] == records[..i];
  }

  method WriteSegment(recordBytes: nat, records: seq<Bytes>) returns (r: Result<Bytes>)
    requires recordBytes < U32_LIMIT && |records| < U64_LIMIT
    ensures r.Ok?
            <==> recordBytes > 0 && Sized(records, recordBytes)
                 && HEADER + Offset(|records|, recordBytes) < U64_LIMIT
    ensures r.Ok? ==> r.value == SegmentFile(recordBytes, records)
  {
    hide Concat, Zeros, Checksum, Encode;
    if recordBytes == 0 {
      return Err(InvalidArgument);
    }
    for i := 0 to |records|
      invariant forall j :: 0 <= j < i ==> |records[j]| == recordBytes
    {
      if |records[i]| != recordBytes {
        return Err(InvalidArgument);
      }
    }
    var total := HEADER + Offset(|records|, recordBytes);
    if total >= U64_LIMIT {
      return Err(OutOfRange);
    }
    var file := new byte[total](_ => 0);
    ZerosAre(file[..HEADER]);
    WriteRecords(file, recordBytes, records);
    ConcatSize(records, recordBytes);
    ghost var region := Concat(records);
    assert file[HEADER..] == region;
    var crc := Crc32(file[HEADER..]);
    WriteHeader(file, recordBytes, |records|, crc);
    r := Ok(file[..]);
  }

  lemma {:induction false} ZerosAre(z: Bytes)
    requires forall i :: 0 <= i < |z| ==> z[i] == 0
    ensures z == Zeros(|z|)
  {
  }

  /** Writes the next header field behind those that are done. */
  method PutField(file: array<byte>, ghost done: Bytes, offset: nat, bytes: Bytes)
    requires offset == |done| && offset + |bytes| <= 28 <= file.Length && file[..offset] == done
    modifies file
    ensures file[..offset + |bytes|] == done + bytes && file[28..] == old(file[28..])
  {
    CopyAt(file, offset, bytes);
  }

  /** Fills in the header of a buffer that starts with zeros. */
  method WriteHeader(file: array<byte>, recordBytes: nat, count: nat, crc: nat)
    requires file.Length >= HEADER && file[..HEADER] == Zeros(HEADER)
    modifies file
    ensures file[..] == Header(recordBytes, count, crc) + old(file[HEADER..])
  {
    ghost var region := file[HEADER..];
    assert file[28..] == Zeros(36) + region by {
      assert file[28..] == file[..HEADER][28..] + region && Zeros(HEADER)[28..] == Zeros(36);
    }
    hide Encode, Zeros;
    ghost var tail := file[28..];
    var version, width, number, sum := Encode(VERSION, 4), Encode(recordBytes, 4), Encode(count, 8), Encode(crc, 4);
    PutField(file, [], 0, MAGIC);
    PutField(file, MAGIC, 8, version);
    PutField(file, MAGIC + version, 12, width);
    PutField(file, MAGIC + version + width, 16, number);
    PutField(file, MAGIC + version + width + number, 24, sum);
    assert file[..] == file[..28] + tail;
    assert file[..28] + (Zeros(36) + region) == file[..28] + Zeros(36) + region;
  }
}
