/** Rows as bytes: the payload record decodes to what was encoded, and each searchable column's key sits at its rank. */
module RecordCodec {
  import opened Base
  import opened LittleEndian
  import opened EpochStore
  import opened Matcher

  datatype ColumnType = IntType | RealType | TextType | JsonType

  datatype Encoding = EqEncoding | IndexEncoding | PrefixEncoding | RangeEncoding | RawEncoding

  datatype Column = Column(name: string, kind: ColumnType, encoding: Encoding)

  /** A value: a 64-bit integer, the bits of a double, or the bytes of a text. */
  datatype Cell = IntCell(number: int) | RealCell(bits: nat) | TextCell(bytes: seq<byte>) {
    predicate Valid() {
      match this
      case IntCell(i) => -0x8000_0000_0000_0000 <= i < 0x8000_0000_0000_0000
      case RealCell(b) => b < U64_LIMIT
      case TextCell(_) => true
    }
  }

  predicate IsSearchable(e: Encoding) { e == EqEncoding || e == IndexEncoding }

  // ---- payload records ----------------------------------------------------

  /** A signed integer as its two's complement bits, and back. */
  function ToBits(i: int): (u: nat)
    requires -0x8000_0000_0000_0000 <= i < 0x8000_0000_0000_0000
    ensures u < U64_LIMIT
  {
    if i < 0 then i + U64_LIMIT else i
  }

  function FromBits(u: nat): (i: int)
    requires u < U64_LIMIT
    ensures -0x8000_0000_0000_0000 <= i < 0x8000_0000_0000_0000 && ToBits(i) == u
  {
    if u < 0x8000_0000_0000_0000 then u else u - U64_LIMIT
  }

  function EncodeField(kind: ColumnType, cell: Cell): (r: Result<seq<byte>>)
    requires cell.Valid()
  {
    match kind
    case IntType => if cell.IntCell? then Ok(Encode(ToBits(cell.number), 8)) else Err(InvalidArgument)
    case RealType => if cell.RealCell? then Ok(Encode(cell.bits, 8)) else Err(InvalidArgument)
    case _ =>
      if cell.TextCell?
          && |cell.bytes| <= 0xFFFF then Ok(Encode(|cell.bytes|, 2) + cell.bytes) else Err(InvalidArgument)
  }

  /** A field at an offset, and the offset behind it. */
  function DecodeField(kind: ColumnType, record: seq<byte>, off: nat): (r: Result<(Cell, nat)>) {
    if kind.IntType? || kind.RealType? then
      match Read(record, off, 8)
      case None => Err(DataLoss)
      case Some(u) =>
        Limits();
        Ok((if kind.IntType? then IntCell(FromBits(u)) else RealCell(u), off + 8))
    else
      match Read(record, off, 2)
      case None => Err(DataLoss)
      case Some(n) =>
        if off + 2 + n > |record| then Err(DataLoss) else Ok((TextCell(record[off + 2..off + 2 + n]), off + 2 + n))
  }

  ghost predicate AllValid(cells: seq<Cell>) {
    forall i :: 0 <= i < |cells| ==> cells[i].Valid()
  }

  function PayloadCount(cols: seq<Column>): (n: nat)
    ensures n <= |cols|
  {
    if cols == [] then 0
        else PayloadCount(cols[..|cols| - 1]) + (if cols[|cols| - 1].encoding.EqEncoding? then 0 else 1)
  }

  /** The fields of all columns but the key column, one after the other. */
  function EncodeFields(cols: seq<Column>, cells: seq<Cell>): (r: Result<seq<byte>>)
    requires AllValid(cells)
  {
    if cols == [] then Ok([])
    else
      var front, last := cols[..|cols| - 1], cols[|cols| - 1];
      match EncodeFields(front, cells)
      case Err(e) => Err(e)
      case Ok(done) =>
        if last.encoding.EqEncoding? then Ok(done)
        else if PayloadCount(front) >= |cells| then Err(InvalidArgument)
        else
          match EncodeField(last.kind, cells[PayloadCount(front)])
          case Err(e) => Err(e)
          case Ok(field) => Ok(done + field)
  }

  function Padded(bytes: seq<byte>, n: nat): (r: seq<byte>)
    requires |bytes| <= n
    ensures |r| == n
  {
    bytes + seq(n - |bytes|, i => 0)
  }

  function RecordOf(cols: seq<Column>, cells: seq<Cell>, recordBytes: nat): (r: Result<seq<byte>>)
    requires AllValid(cells)
  {
    match EncodeFields(cols, cells)
    case Err(e) => Err(e)
    case Ok(bytes) => if |bytes| > recordBytes then Err(InvalidArgument) else Ok(Padded(bytes, recordBytes))
  }

  /** The cells of the payload columns, and the offset behind the last. */
  function DecodeFields(cols: seq<Column>, record: seq<byte>): (r: Result<(seq<Cell>, nat)>) {
    if cols == [] then Ok(([], 0))
    else
      var front, last := cols[..|cols| - 1], cols[|cols| - 1];
      match DecodeFields(front, record)
      case Err(e) => Err(e)
      case Ok(done) =>
        if last.encoding.EqEncoding? then Ok(done)
        else
          match DecodeField(last.kind, record, done.1)
          case Err(e) => Err(e)
          case Ok(field) => Ok((done.0 + [field.0], field.1))
  }

  /** A field written anywhere is read back, whatever follows. */
  lemma {:induction false} FieldReadBack(kind: ColumnType, cell: Cell, before: seq<byte>, after: seq<byte>)
    requires cell.Valid() && EncodeField(kind, cell).Ok?
    ensures var field := EncodeField(kind, cell).value;
            DecodeField(kind, before + field + after, |before|) == Ok((cell, |before| + |field|))
  {
    Limits();
    assert Pow256(2) == 65536;
    if cell.IntCell? {
      ReadBack(before, ToBits(cell.number), 8, after);
    } else if cell.RealCell? {
      ReadBack(before, cell.bits, 8, after);
    } else {
      var length := Encode(|cell.bytes|, 2);
      ReadBack(before, |cell.bytes|, 2, cell.bytes + after);
      hide Encode, Decode;
      var record := before + (length + cell.bytes) + after;
      assert record == before + length + (cell.bytes + after);
      assert record[|before| + 2..|before| + 2 + |cell.bytes|] == cell.bytes;
    }
  }

  lemma {:induction false} FieldsReadBack(cols: seq<Column>, cells: seq<Cell>, after: seq<byte>)
    requires AllValid(cells) && EncodeFields(cols, cells).Ok?
    ensures var bytes := EncodeFields(cols, cells).value;
            PayloadCount(cols) <= |cells|
                && DecodeFields(cols, bytes + after) == Ok((cells[..PayloadCount(cols)], |bytes|))
  {
    hide EncodeField, DecodeField;
    if cols != [] {
      var front, last := cols[..|cols| - 1], cols[|cols| - 1];
      var done := EncodeFields(front, cells).value;
      if last.encoding.EqEncoding? {
        FieldsReadBack(front, cells, after);
      } else {
        var k := PayloadCount(front);
        var field := EncodeField(last.kind, cells[k]).value;
        FieldsReadBack(front, cells, field + after);
        FieldReadBack(last.kind, cells[k], done, after);
        assert done + field + after == done + (field + after);
        assert cells[..k] + [cells[k]] == cells[..k + 1];
      }
    }
  }

  /** Decoding an encoded record, padding and all, gives the payload values back. */
  lemma {:induction false} RecordReadBack(cols: seq<Column>, cells: seq<Cell>, recordBytes: nat)
    requires AllValid(cells) && RecordOf(cols, cells, recordBytes).Ok?
    ensures var record := RecordOf(cols, cells, recordBytes).value;
            && |record| == recordBytes && PayloadCount(cols) <= |cells|
            && DecodeFields(cols, record).Ok? && DecodeFields(cols, record).value.0 == cells[..PayloadCount(cols)]
  {
    hide EncodeFields, DecodeFields;
    var bytes := EncodeFields(cols, cells).value;
    FieldsReadBack(cols, cells, seq(recordBytes - |bytes|, i => 0));
  }

  method EncodeRecord(cols: seq<Column>, payload: seq<Cell>, recordBytes: nat) returns (r: Result<seq<byte>>)
    requires AllValid(payload)
    ensures r == RecordOf(cols, payload, recordBytes)
  {
    hide EncodeField;
    var out: seq<byte> := [];
    var k := 0;
    for i := 0 to |cols|
      invariant k == PayloadCount(cols[..i]) && EncodeFields(cols[..i], payload) == Ok(out)
    {
      assert cols[..i + 1][..i] == cols[..i];
      if !cols[i].encoding.EqEncoding? {
        if k >= |payload| {
          FieldsFail(cols, payload, i + 1);
          return Err(EncodeFields(cols, payload).error);
        }
        var field := EncodeField(cols[i].kind, payload[k]);
        if field.Err? {
          FieldsFail(cols, payload, i + 1);
          return Err(field.error);
        }
        out := out + field.value;
        k := k + 1;
      }
    }
    assert cols[..|cols|] == cols;
    if |out| > recordBytes {
      return Err(InvalidArgument);
    }
    r := Ok(Padded(out, recordBytes));
  }

  lemma {:induction false} FieldsFail(cols: seq<Column>, cells: seq<Cell>, n: nat)
    requires AllValid(cells) && n <= |cols| && EncodeFields(cols[..n], cells).Err?
    ensures EncodeFields(cols, cells) == EncodeFields(cols[..n], cells)
    decreases |cols| - n
  {
    hide EncodeField;
    if n == |cols| {
      assert cols[..n] == cols;
    } else {
      assert cols[..n + 1][..n] == cols[..n];
      FieldsFail(cols, cells, n + 1);
    }
  }

  method DecodeRecord(cols: seq<Column>, record: seq<byte>) returns (r: Result<seq<Cell>>)
    ensures match DecodeFields(cols, record) case Err(e) => r == Err(e) case Ok(done) => r == Ok(done.0)
  {
    hide DecodeField;
    var values: seq<Cell> := [];
    var off := 0;
    for i := 0 to |cols|
      invariant DecodeFields(cols[..i], record) == Ok((values, off))
    {
      assert cols[..i + 1][..i] == cols[..i];
      if !cols[i].encoding.EqEncoding? {
        var field := DecodeField(cols[i].kind, record, off);
        if field.Err? {
          DecodeFails(cols, record, i + 1);
          return Err(field.error);
        }
        values := values + [field.value.0];
        off := field.value.1;
      }
    }
    assert cols[..|cols|] == cols;
    r := Ok(values);
  }

  lemma {:induction false} DecodeFails(cols: seq<Column>, record: seq<byte>, n: nat)
    requires n <= |cols| && DecodeFields(cols[..n], record).Err?
    ensures DecodeFields(cols, record) == DecodeFields(cols[..n], record)
    decreases |cols| - n
  {
    hide DecodeField;
    if n == |cols| {
      assert cols[..n] == cols;
    } else {
      assert cols[..n + 1][..n] == cols[..n];
      DecodeFails(cols, record, n + 1);
    }
  }

  // ---- match records ------------------------------------------------------

  function KeyBytes(keyBits: nat): (n: nat) {
    (keyBits + 7) / 8
  }

  /** The integer the matcher compares: the number itself, or a hash of the text cut to the key size. */
  function EncodeKey(kind: ColumnType, cell: Cell, keyBits: nat, hash: seq<byte> -> nat): (r: Result<nat>)
    requires cell.Valid() && 0 < keyBits <= 64
    ensures r.Ok? ==> r.value < Pow2(keyBits)
  {
    match kind
    case IntType =>
      if !cell.IntCell? then Err(InvalidArgument)
      else
        KeySpace();
        var u := ToBits(cell.number);
        if keyBits < 64 && u >= Pow2(keyBits) then Err(OutOfRange) else Ok(u)
    case TextType => if cell.TextCell? then Ok(Mod(hash(cell.bytes), Pow2(keyBits))) else Err(InvalidArgument)
    case _ => Err(InvalidArgument)
  }

  lemma {:induction false} KeySpace()
    ensures Pow2(64) == U64_LIMIT
  {
    Pow2Of32();
    Pow2Add(32, 32);
  }

  function PackKey(v: nat, keyBits: nat): (bytes: seq<byte>)
    ensures |bytes| == KeyBytes(keyBits)
  {
    Encode(v, KeyBytes(keyBits))
  }

  function UnpackKey(bytes: seq<byte>, keyBits: nat): (r: Result<nat>) {
    if |bytes| != KeyBytes(keyBits) then Err(InvalidArgument) else Ok(Mod(Decode(bytes), Pow2(keyBits)))
  }

  lemma {:induction false} Pow256IsPow2(n: nat)
    ensures Pow256(n) == Pow2(8 * n)
  {
    if n > 0 {
      Pow256IsPow2(n - 1);
      assert Pow2(4) == 16;
      Pow2Add(4, 4);
      Pow2Add(8 * (n - 1), 8);
    }
  }

  lemma {:induction false} UnpackInvertsPack(v: nat, keyBits: nat)
    requires v < Pow2(keyBits)
    ensures UnpackKey(PackKey(v, keyBits), keyBits) == Ok(v)
  {
    var n := KeyBytes(keyBits);
    assert keyBits <= 8 * n;
    Pow2Monotone(keyBits, 8 * n);
    Pow256IsPow2(n);
    DecodeEncode(v, n);
    ModSmall(v, Pow2(keyBits));
  }

  /** Searchable columns among the first n. */
  function Rank(cols: seq<Column>, n: nat): (k: nat)
    requires n <= |cols|
  {
    if n == 0 then 0 else Rank(cols, n - 1) + (if IsSearchable(cols[n - 1].encoding) then 1 else 0)
  }

  /** The value of column c: the key's, or the payload's next one. */
  function CellOf(cols: seq<Column>, key: Cell, payload: seq<Cell>, c: nat): (r: Option<Cell>)
    requires c < |cols|
  {
    if cols[c].encoding.EqEncoding? then Some(key)
    else if PayloadCount(cols[..c]) < |payload| then Some(payload[PayloadCount(cols[..c])])
    else None
  }

  /** The packed keys of the searchable ones among the first n columns; every column must have a value. */
  function MatchRecordOf(cols: seq<Column>, n: nat, key: Cell, payload: seq<Cell>, keyBits: nat,
                         hash: seq<byte> -> nat): (r: Result<seq<byte>>)
    requires n <= |cols| && key.Valid() && AllValid(payload) && 0 < keyBits <= 64
  {
    if n == 0 then Ok([])
    else
      match MatchRecordOf(cols, n - 1, key, payload, keyBits, hash)
      case Err(e) => Err(e)
      case Ok(done) =>
        match CellOf(cols, key, payload, n - 1)
        case None => Err(InvalidArgument)
        case Some(cell) =>
          if !IsSearchable(cols[n - 1].encoding) then Ok(done)
          else match EncodeKey(cols[n - 1].kind, cell, keyBits, hash)
            case Err(e) => Err(e)
            case Ok(v) => Ok(done + PackKey(v, keyBits))
  }

  method EncodeMatchRecord(cols: seq<Column>, key: Cell, payload: seq<Cell>, keyBits: nat, hash: seq<byte> -> nat)
      returns (r: Result<seq<byte>>)
    requires key.Valid() && AllValid(payload) && 0 < keyBits <= 64
    ensures r == MatchRecordOf(cols, |cols|, key, payload, keyBits, hash)
  {
    hide EncodeKey, PackKey, PayloadCount, KeyBytes, IsSearchable;
    var out: seq<byte> := [];
    var k := 0;
    NoColumnsYet();
    for i := 0 to |cols|
      invariant k == PayloadCount(cols[..i]) && MatchRecordOf(cols, i, key, payload, keyBits, hash) == Ok(out)
    {
      PayloadCountNext(cols, i);
      var cell := key;
      if !cols[i].encoding.EqEncoding? {
        if k >= |payload| {
          MatchFails(cols, i + 1, key, payload, keyBits, hash);
          return Err(InvalidArgument);
        }
        cell := payload[k];
        k := k + 1;
      }
      if IsSearchable(cols[i].encoding) {
        var v := EncodeKey(cols[i].kind, cell, keyBits, hash);
        if v.Err? {
          MatchFails(cols, i + 1, key, payload, keyBits, hash);
          return Err(v.error);
        }
        out := out + PackKey(v.value, keyBits);
      }
    }
    r := Ok(out);
  }

  lemma {:induction false} NoColumnsYet()
    ensures PayloadCount([]) == 0
  {
  }

  lemma {:induction false} PayloadCountNext(cols: seq<Column>, i: nat)
    requires i < |cols|
    ensures PayloadCount(cols[..i + 1]) == PayloadCount(cols[..i]) + (if cols[i].encoding.EqEncoding? then 0 else 1)
  {
    assert cols[..i + 1][..i] == cols[..i];
  }

  lemma {:induction false} MatchFails(cols: seq<Column>, n: nat, key: Cell, payload: seq<Cell>, keyBits: nat,
                                      hash: seq<byte> -> nat)
    requires n <= |cols| && key.Valid() && AllValid(payload) && 0 < keyBits <= 64
    requires MatchRecordOf(cols, n, key, payload, keyBits, hash).Err?
    ensures MatchRecordOf(cols, |cols|, key, payload, keyBits, hash)
              == MatchRecordOf(cols, n, key, payload, keyBits, hash)
    decreases |cols| - n
  {
    hide EncodeKey, PackKey, CellOf;
    if n < |cols| {
      MatchFails(cols, n + 1, key, payload, keyBits, hash);
    }
  }

  function SubKey(record: seq<byte>, rank: nat, keyBits: nat): (r: Option<seq<byte>>) {
    var stride := KeyBytes(keyBits);
    if rank * stride + stride <= |record| then Some(record[rank * stride..rank * stride + stride]) else None
  }

  lemma {:induction false} MatchRecordSize(cols: seq<Column>, n: nat, key: Cell, payload: seq<Cell>, keyBits: nat,
                                           hash: seq<byte> -> nat)
    requires n <= |cols| && key.Valid() && AllValid(payload) && 0 < keyBits <= 64
    requires MatchRecordOf(cols, n, key, payload, keyBits, hash).Ok?
    ensures |MatchRecordOf(cols, n, key, payload, keyBits, hash).value| == Rank(cols, n) * KeyBytes(keyBits)
  {
    hide EncodeKey, CellOf, KeyBytes;
    if n > 0 {
      MatchRecordSize(cols, n - 1, key, payload, keyBits, hash);
      var k, stride := Rank(cols, n - 1), KeyBytes(keyBits);
      assert (k + 1) * stride == k * stride + stride;
    }
  }

  /** The slice at a searchable column's rank unpacks to that column's encoded value. */
  lemma {:induction false} SubKeyAtRank(cols: seq<Column>, n: nat, key: Cell, payload: seq<Cell>, keyBits: nat,
                                        hash: seq<byte> -> nat, c: nat)
    requires c < n <= |cols| && key.Valid() && AllValid(payload) && 0 < keyBits <= 64 && IsSearchable(cols[c].encoding)
    requires MatchRecordOf(cols, n, key, payload, keyBits, hash).Ok?
    ensures CellOf(cols, key, payload, c).Some? && CellOf(cols, key, payload, c).value.Valid()
    ensures var v := EncodeKey(cols[c].kind, CellOf(cols, key, payload, c).value, keyBits, hash);
            var slice := SubKey(MatchRecordOf(cols, n, key, payload, keyBits, hash).value, Rank(cols, c), keyBits);
            v.Ok? && slice.Some? && UnpackKey(slice.value, keyBits) == v
  {
    hide EncodeKey, KeyBytes, UnpackKey, PackKey, SubKey;
    var done := MatchRecordOf(cols, n - 1, key, payload, keyBits, hash).value;
    var record := MatchRecordOf(cols, n, key, payload, keyBits, hash).value;
    if c < n - 1 {
      SubKeyAtRank(cols, n - 1, key, payload, keyBits, hash, c);
      hide CellOf, Rank;
      SubKeyOfPrefix(done, record, Rank(cols, c), keyBits);
    } else {
      var cell := CellOf(cols, key, payload, c).value;
      var v := EncodeKey(cols[c].kind, cell, keyBits, hash).value;
      MatchRecordSize(cols, n - 1, key, payload, keyBits, hash);
      assert record == done + PackKey(v, keyBits);
      EncodedFits(cols[c].kind, cell, keyBits, hash);
      hide CellOf, Rank, MatchRecordOf;
      LastSubKey(done, v, Rank(cols, c), keyBits);
    }
  }

  lemma {:induction false} SubKeyOfPrefix(done: seq<byte>, record: seq<byte>, rank: nat, keyBits: nat)
    requires done <= record && SubKey(done, rank, keyBits).Some?
    ensures SubKey(record, rank, keyBits) == SubKey(done, rank, keyBits)
  {
    hide KeyBytes;
    var i, j := rank * KeyBytes(keyBits), rank * KeyBytes(keyBits) + KeyBytes(keyBits);
    assert record[i..j] == done[i..j];
  }

  lemma {:induction false} LastSubKey(done: seq<byte>, v: nat, rank: nat, keyBits: nat)
    requires |done| == rank * KeyBytes(keyBits) && v < Pow2(keyBits)
    ensures var slice := SubKey(done + PackKey(v, keyBits), rank, keyBits);
            slice.Some? && UnpackKey(slice.value, keyBits) == Ok(v)
  {
    hide KeyBytes;
    UnpackInvertsPack(v, keyBits);
    assert (done + PackKey(v, keyBits))[|done|..|done| + KeyBytes(keyBits)] == PackKey(v, keyBits);
  }

  lemma {:induction false} EncodedFits(kind: ColumnType, cell: Cell, keyBits: nat, hash: seq<byte> -> nat)
    requires cell.Valid() && 0 < keyBits <= 64 && EncodeKey(kind, cell, keyBits, hash).Ok?
    ensures EncodeKey(kind, cell, keyBits, hash).value < Pow2(keyBits)
  {
  }

  /** Numbers that fit the key size keep their own key: different numbers never share one. */
  lemma {:induction false} IntKeysAreExact(x: int, y: int, keyBits: nat, hash: seq<byte> -> nat)
    requires IntCell(x).Valid() && IntCell(y).Valid() && 0 < keyBits <= 64
    requires EncodeKey(IntType, IntCell(x), keyBits, hash).Ok?
    ensures EncodeKey(IntType, IntCell(x), keyBits, hash) == EncodeKey(IntType, IntCell(y), keyBits, hash) <==> x == y
  {
  }

  // ---- columns for the matcher --------------------------------------------

  method SearchableRank(cols: seq<Column>, c: nat) returns (r: Option<nat>)
    ensures r == if c < |cols| && IsSearchable(cols[c].encoding) then Some(Rank(cols, c)) else None
  {
    if c >= |cols| || !IsSearchable(cols[c].encoding) {
      return None;
    }
    var rank := 0;
    for i := 0 to c
      invariant rank == Rank(cols, i)
    {
      if IsSearchable(cols[i].encoding) {
        rank := rank + 1;
      }
    }
    r := Some(rank);
  }

  /** The key and payload columns of an epoch, for the column whose keys have this rank. */
  method BuildColumns(rows: seq<Row>, rank: nat, keyBits: nat, recordBytes: nat, bytesPerSlot: nat)
      returns (r: Result<Table>)
    requires 0 < keyBits <= 64
    ensures r.Err? ==> r.error == DataLoss && exists i :: 0 <= i < |rows| && SubKey(rows[i].match_, rank, keyBits).None?
    ensures r.Ok? ==>
              && r.value.WellFormed() && |r.value.keys| == |r.value.rows| == |rows|
              && r.value == Table(keyBits, r.value.keys, r.value.rows, recordBytes, bytesPerSlot)
              && forall i :: 0 <= i < |rows| ==>
                   && r.value.rows[i] == rows[i].payload && SubKey(rows[i].match_, rank, keyBits).Some?
                   && UnpackKey(SubKey(rows[i].match_, rank, keyBits).value, keyBits) == Ok(r.value.keys[i])
  {
    hide KeyBytes, Decode;
    var keys: seq<nat>, payload: seq<seq<byte>> := [], [];
    var stride := KeyBytes(keyBits);
    var offset := rank * stride;
    for i := 0 to |rows|
      invariant |keys| == |payload| == i
      invariant forall j :: 0 <= j < i ==>
                  && payload[j] == rows[j].payload && SubKey(rows[j].match_, rank, keyBits).Some?
                  && UnpackKey(SubKey(rows[j].match_, rank, keyBits).value, keyBits) == Ok(keys[j])
    {
      var record := rows[i].match_;
      if offset + stride > |record| {
        assert SubKey(rows[i].match_, rank, keyBits).None?;
        return Err(DataLoss);
      }
      var value := UnpackKey(record[offset..offset + stride], keyBits);
      keys, payload := keys + [value.value], payload + [rows[i].payload];
    }
    forall j | 0 <= j < |keys|
      ensures keys[j] < Pow2(keyBits)
    {
      UnpackedFits(SubKey(rows[j].match_, rank, keyBits).value, keyBits);
    }
    r := Ok(Table(keyBits, keys, payload, recordBytes, bytesPerSlot));
  }

  lemma {:induction false} UnpackedFits(bytes: seq<byte>, keyBits: nat)
    requires UnpackKey(bytes, keyBits).Ok?
    ensures UnpackKey(bytes, keyBits).value < Pow2(keyBits)
  {
  }

  /** Rows encoded from values come to the matcher with exactly the encoded keys of the queried column. */
  lemma {:induction false} MatcherSeesEncodedKeys(cols: seq<Column>, c: nat, key: Cell, payload: seq<Cell>,
                                                  keyBits: nat,
                                                  hash: seq<byte> -> nat, row: Row, table: Table, i: nat)
    requires c < |cols| && key.Valid() && AllValid(payload) && 0 < keyBits <= 64 && IsSearchable(cols[c].encoding)
    requires MatchRecordOf(cols, |cols|, key, payload, keyBits, hash) == Ok(row.match_)
    requires i < |table.keys| && SubKey(row.match_, Rank(cols, c), keyBits).Some?
    requires UnpackKey(SubKey(row.match_, Rank(cols, c), keyBits).value, keyBits) == Ok(table.keys[i])
    ensures CellOf(cols, key, payload, c).Some?
    ensures CellOf(cols, key, payload, c).value.Valid()
    ensures EncodeKey(cols[c].kind, CellOf(cols, key, payload, c).value, keyBits, hash) == Ok(table.keys[i])
  {
    hide EncodeKey, UnpackKey, SubKey, MatchRecordOf, Rank;
    SubKeyAtRank(cols, |cols|, key, payload, keyBits, hash, c);
  }
}
