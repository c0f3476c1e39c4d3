/** Little-endian integers in byte strings. */
module LittleEndian {
  import opened Base

  const U32_LIMIT: nat := 0x1_0000_0000
  const U64_LIMIT: nat := 0x1_0000_0000_0000_0000

  /** The low n bytes of v, lowest first. */
  function Encode(v: nat, n: nat): (bytes: seq<byte>)
    ensures |bytes| == n
  {
    if n == 0 then [] else [v % 256] + Encode(v / 256, n - 1)
  }

  function Decode(bytes: seq<byte>): (v: nat)
    ensures v < Pow256(|bytes|)
  {
    if bytes == [] then 0 else bytes[0] + 256 * Decode(bytes[1..])
  }

  lemma {:induction false} DecodeEncode(v: nat, n: nat)
    requires v < Pow256(n)
    ensures Decode(Encode(v, n)) == v
  {
    if n > 0 {
      DecodeEncode(v / 256, n - 1);
      assert Encode(v, n)[1..] == Encode(v / 256, n - 1);
    }
  }

  lemma {:induction false} EncodeDecode(bytes: seq<byte>)
    ensures Encode(Decode(bytes), |bytes|) == bytes
  {
    if bytes != [] {
      EncodeDecode(bytes[1..]);
      var rest := Decode(bytes[1..]);
      assert Decode(bytes) % 256 == bytes[0] && Decode(bytes) / 256 == rest;
    }
  }

  lemma {:induction false} Limits()
    ensures Pow256(4) == U32_LIMIT && Pow256(8) == U64_LIMIT
  {
    assert Pow256(2) == 65536;
    assert Pow256(4) == 256 * 256 * Pow256(2);
    assert Pow256(6) == 256 * 256 * Pow256(4);
    assert Pow256(8) == 256 * 256 * Pow256(6);
  }

  /** The n-byte integer at an offset, if the bytes are there. */
  function Read(data: seq<byte>, offset: nat, n: nat): (r: Option<nat>) {
    if offset + n <= |data| then Some(Decode(data[offset..offset + n])) else None
  }

  lemma {:induction false} ReadBack(before: seq<byte>, v: nat, n: nat, after: seq<byte>)
    requires v < Pow256(n)
    ensures Read(before + Encode(v, n) + after, |before|, n) == Some(v)
  {
    DecodeEncode(v, n);
    assert (before + Encode(v, n) + after)[|before|..|before| + n] == Encode(v, n);
  }
}

/** Rows in the write-ahead log. */
module RowFormat {
  import opened Base
  import opened LittleEndian
  import opened EpochStore

  /** Each part preceded by its length, cut to 32 bits. */
  function SerializeRow(row: Row): (bytes: seq<byte>) {
    Encode(|row.match_| % U32_LIMIT, 4) + row.match_ + Encode(|row.payload| % U32_LIMIT, 4) + row.payload
  }

  function ParseRow(bytes: seq<byte>): (r: Result<Row>) {
    match Read(bytes, 0, 4)
    case None => Err(InvalidArgument)
    case Some(m) =>
      if m > |bytes| - 4 then Err(InvalidArgument)
      else match Read(bytes, 4 + m, 4)
        case None => Err(InvalidArgument)
        case Some(p) =>
          if p != |bytes| - (8 + m) then Err(InvalidArgument)
          else Ok(Row(bytes[4..4 + m], bytes[8 + m..]))
  }

  /** Parsing accepts exactly the serialized rows, and gives the row back. */
  lemma {:induction false} ParseInvertsSerialize(bytes: seq<byte>, row: Row)
    ensures ParseRow(bytes) == Ok(row)
            <==> bytes == SerializeRow(row) && |row.match_| < U32_LIMIT && |row.payload| < U32_LIMIT
  {
    hide ParseRow, SerializeRow;
    if ParseRow(bytes) == Ok(row) {
      ParsedIsSerialized(bytes, row);
    } else if bytes == SerializeRow(row) && |row.match_| < U32_LIMIT && |row.payload| < U32_LIMIT {
      SerializedParses(row);
    }
  }

  lemma {:induction false} ParsedIsSerialized(bytes: seq<byte>, row: Row)
    requires ParseRow(bytes) == Ok(row)
    ensures bytes == SerializeRow(row) && |row.match_| < U32_LIMIT && |row.payload| < U32_LIMIT
  {
    hide Encode, Decode;
    Limits();
    var m := Read(bytes, 0, 4).value;
    var p := Read(bytes, 4 + m, 4).value;
    assert m == |row.match_| && p == |row.payload|;
    EncodeDecode(bytes[0..4]);
    EncodeDecode(bytes[4 + m..8 + m]);
    assert m < U32_LIMIT && p < U32_LIMIT;
    ModSmall(m, U32_LIMIT);
    ModSmall(p, U32_LIMIT);
    assert bytes[0..4] == Encode(m, 4) && bytes[4 + m..8 + m] == Encode(p, 4);
    FourParts(bytes, m);
  }

  lemma {:induction false} FourParts(bytes: seq<byte>, m: nat)
    requires 8 + m <= |bytes|
    ensures bytes == bytes[0..4] + bytes[4..4 + m] + bytes[4 + m..8 + m] + bytes[8 + m..]
  {
  }

  lemma {:induction false} SerializedParses(row: Row)
    requires |row.match_| < U32_LIMIT && |row.payload| < U32_LIMIT
    ensures ParseRow(SerializeRow(row)) == Ok(row)
  {
    Limits();
    var bytes := SerializeRow(row);
    var m, p := |row.match_|, |row.payload|;
    var head := Encode(m, 4);
    ModSmall(m, U32_LIMIT);
    ModSmall(p, U32_LIMIT);
    hide Encode, Decode;
    ReadBack([], m, 4, row.match_ + Encode(p, 4) + row.payload);
    assert bytes == [] + head + (row.match_ + Encode(p, 4) + row.payload);
    ReadBack(head + row.match_, p, 4, row.payload);
    assert bytes[4..4 + m] == row.match_ && bytes[8 + m..] == row.payload;
  }
}
